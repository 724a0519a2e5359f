/** Octets, big-endian integers and small types shared by the models. */
module Wire {
  type Byte = b: int | 0 <= b < 256

  datatype Option<+T> = None | Some(value: T)

  /** What storage does with a line appended to an audit log: it may also fail after the line reached the file. */
  datatype Append = Written | Lost | WrittenButFailed

  function U16(p: seq<Byte>, o: nat): (v: nat)
    requires o + 2 <= |p|
    ensures v < 0x1_0000
  {
    (p[o] as int) * 256 + p[o + 1] as int
  }

  function U32(p: seq<Byte>, o: nat): (v: nat)
    requires o + 4 <= |p|
    ensures v < 0x1_0000_0000
  {
    U16(p, o) * 0x1_0000 + U16(p, o + 2)
  }

  function Put16(v: nat): (s: seq<Byte>)
    requires v < 0x1_0000
    ensures |s| == 2 && U16(s, 0) == v
  {
    [v / 256, v % 256]
  }

  function Put32(v: nat): (s: seq<Byte>)
    requires v < 0x1_0000_0000
    ensures |s| == 4 && U32(s, 0) == v
  {
    Put16(v / 0x1_0000) + Put16(v % 0x1_0000)
  }

  /** `q` holds the same octets as `p` on [lo, hi). */
  predicate SameOn(p: seq<Byte>, q: seq<Byte>, lo: nat, hi: nat) {
    hi <= |p| && hi <= |q| && forall i :: lo <= i < hi ==> q[i] == p[i]
  }

  /** The offsets from `lo` up to but not including `hi`. */
  function Range(lo: nat, hi: nat): (r: set<nat>)
    ensures forall i :: i in r <==> lo <= i < hi
    decreases hi - lo
  {
    if lo >= hi then {} else {lo} + Range(lo + 1, hi)
  }

  function Min(a: int, b: int): int { if a <= b then a else b }

  function Max(a: int, b: int): int { if a >= b then a else b }
}
