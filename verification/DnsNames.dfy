/** Domain names in DNS messages: RFC 1035 sections 2.3.4, 3.1 and 4.1.4. */
module DnsNames {
  import opened Wire
  import opened Chains

  type Packet = seq<Byte>
  type Label = seq<Byte>

  /** A decoded name in presentation form and the offset just after it. */
  datatype Name = Name(text: string, next: nat)

  /** An uncompressed name and the offset just after it. */
  datatype PlainName = PlainName(labels: seq<Label>, next: nat)

  const NAME_LIMIT: nat := 255
  const LABEL_COUNT_LIMIT: nat := 127

  predicate Ascii(l: Label) { forall i :: 0 <= i < |l| ==> l[i] < 128 }

  function LowerChar(b: Byte): char {
    if 65 <= b <= 90 then (b + 32) as char else b as char
  }

  function Lower(l: Label): string { seq(|l|, i requires 0 <= i < |l| => LowerChar(l[i])) }

  /** Dot-joined, lower-cased labels. */
  function Text(labels: seq<Label>): string {
    if labels == [] then ""
    else if |labels| == 1 then Lower(labels[0])
    else Lower(labels[0]) + "." + Text(labels[1..])
  }

  /** Octets a name occupies without compression. */
  function WireSize(labels: seq<Label>): nat {
    if labels == [] then 1 else WireSize(labels[..|labels| - 1]) + |labels[|labels| - 1]| + 1
  }

  lemma EmptyWireSize()
    ensures WireSize([]) == 1
  {
  }

  lemma WireSizeSnoc(labels: seq<Label>, l: Label)
    ensures WireSize(labels + [l]) == WireSize(labels) + |l| + 1
  {
    assert (labels + [l])[..|labels|] == labels;
  }

  lemma {:induction false} WireSizeCons(l: Label, labels: seq<Label>)
    ensures WireSize([l] + labels) == |l| + 1 + WireSize(labels)
  {
    if labels == [] {
      assert [l] + labels == [] + [l];
      WireSizeSnoc([], l);
    } else {
      var front, last := labels[..|labels| - 1], labels[|labels| - 1];
      WireSizeCons(l, front);
      assert labels == front + [last] && [l] + labels == ([l] + front) + [last];
      WireSizeSnoc([l] + front, last);
    }
  }

  // ---- one element of a name ----

  predicate IsRoot(p: Packet, o: nat) { o < |p| && p[o] == 0 }

  predicate IsLabel(p: Packet, o: nat) {
    o < |p| && 0 < p[o] < 0x40 && o + 1 + p[o] <= |p| && Ascii(LabelAt(p, o))
  }

  predicate IsPointer(p: Packet, o: nat) {
    o + 2 <= |p| && p[o] >= 0xC0 && PointerTarget(p, o) < |p|
  }

  function LabelAt(p: Packet, o: nat): (l: Label)
    requires o < |p| && o + 1 + p[o] <= |p|
    ensures |l| == p[o]
  {
    p[o + 1..o + 1 + p[o]]
  }

  function PointerTarget(p: Packet, o: nat): nat
    requires o + 2 <= |p| && p[o] >= 0xC0
  {
    U16(p, o) - 0xC000
  }

  /** Where the name at `o` goes on, or nothing at the root and at malformed octets. */
  function Step(p: Packet, o: nat): Option<nat> {
    if IsLabel(p, o) then Some(o + 1 + p[o])
    else if IsPointer(p, o) then Some(PointerTarget(p, o))
    else None
  }

  // ---- following a name ----

  /** What following a name has met: the current offset, the labels so far, the
      offset after the first pointer, and every octet looked at. */
  datatype Trail = Trail(at: nat, labels: seq<Label>, resume: Option<nat>, octets: set<nat>)

  function Advance(p: Packet, t: Trail): Option<Trail> {
    if IsLabel(p, t.at) then
      Some(Trail(t.at + 1 + p[t.at], t.labels + [LabelAt(p, t.at)], t.resume,
                 t.octets + Range(t.at, t.at + 1 + p[t.at])))
    else if IsPointer(p, t.at) then
      Some(Trail(PointerTarget(p, t.at), t.labels, if t.resume.None? then Some(t.at + 2) else t.resume,
                 t.octets + Range(t.at, t.at + 2)))
    else None
  }

  /** The trail over `k` labels and pointers from `o`. */
  function Follow(p: Packet, o: nat, k: nat): Option<Trail> {
    if k == 0 then Some(Trail(o, [], None, {}))
    else match Follow(p, o, k - 1)
      case None => None
      case Some(t) => Advance(p, t)
  }

  /** The name at `o` reaches its root after exactly `n` labels and pointers. */
  ghost predicate Walks(p: Packet, o: nat, n: nat) {
    Follow(p, o, n).Some? && IsRoot(p, Follow(p, o, n).value.at)
  }

  function NameOf(t: Trail): Name {
    Name(Text(t.labels), if t.resume.Some? then t.resume.value else t.at + 1)
  }

  // ---- the meaning of a name ----

  /** The name at `o`, when it ends and has at most 255 octets. */
  ghost function DecodeName(p: Packet, o: nat): Option<Name> {
    if n: nat :| Walks(p, o, n) && WireSize(Follow(p, o, n).value.labels) <= NAME_LIMIT
      then Some(NameOf(Follow(p, o, n).value))
    else None
  }

  /** Every octet that decoding the name at `o` looks at. */
  ghost function NameOctets(p: Packet, o: nat): set<nat> {
    if n: nat :| Walks(p, o, n) then Follow(p, o, n).value.octets + {Follow(p, o, n).value.at} else {}
  }

  /** The uncompressed name at `o`, of at most 127 labels and any octet length. */
  ghost function PlainNameAt(p: Packet, o: nat): Option<PlainName> {
    if n: nat :| Walks(p, o, n) && Follow(p, o, n).value.resume.None? && n <= LABEL_COUNT_LIMIT
      then Some(PlainName(Follow(p, o, n).value.labels, Follow(p, o, n).value.at + 1))
    else None
  }

  // ---- a name is followed in one way only ----

  lemma {:induction false} FollowPrefix(p: Packet, o: nat, j: nat, k: nat)
    requires j <= k && Follow(p, o, k).Some?
    ensures Follow(p, o, j).Some?
    ensures WireSize(Follow(p, o, j).value.labels) <= WireSize(Follow(p, o, k).value.labels)
    ensures Follow(p, o, j).value.resume.Some? ==> Follow(p, o, k).value.resume.Some?
  {
    if j < k {
      FollowPrefix(p, o, j, k - 1);
      var t := Follow(p, o, k - 1).value;
      if IsLabel(p, t.at) {
        WireSizeSnoc(t.labels, LabelAt(p, t.at));
      }
    }
  }

  lemma NothingAfter(p: Packet, o: nat, n: nat, k: nat)
    requires Follow(p, o, n).Some? && Advance(p, Follow(p, o, n).value).None? && n < k
    ensures Follow(p, o, k).None?
  {
    if Follow(p, o, k).Some? {
      FollowPrefix(p, o, n + 1, k);
    }
  }

  lemma WalkLength(p: Packet, o: nat, k: nat, n: nat)
    requires Follow(p, o, k).Some? && Walks(p, o, n)
    ensures k <= n
    ensures Advance(p, Follow(p, o, k).value).None? ==> k == n
  {
    if n < k {
      NothingAfter(p, o, n, k);
    } else if k < n && Advance(p, Follow(p, o, k).value).None? {
      NothingAfter(p, o, k, n);
    }
  }

  /** A walk fixes what each reader returns and what it looks at. */
  lemma WalkMeaning(p: Packet, o: nat, n: nat)
    requires Walks(p, o, n)
    ensures var t := Follow(p, o, n).value;
            && NameOctets(p, o) == t.octets + {t.at}
            && DecodeName(p, o) == (if WireSize(t.labels) <= NAME_LIMIT then Some(NameOf(t)) else None)
            && PlainNameAt(p, o) ==
               (if t.resume.None? && n <= LABEL_COUNT_LIMIT then Some(PlainName(t.labels, t.at + 1)) else None)
  {
    forall m: nat | Walks(p, o, m) ensures m == n {
      WalkLength(p, o, m, n);
      WalkLength(p, o, n, m);
    }
  }

  lemma NoWalk(p: Packet, o: nat, k: nat)
    requires Follow(p, o, k).Some?
    requires var t := Follow(p, o, k).value; Advance(p, t).None? && !IsRoot(p, t.at)
    ensures DecodeName(p, o).None? && PlainNameAt(p, o).None?
  {
    forall n: nat ensures !Walks(p, o, n) {
      if Walks(p, o, n) {
        WalkLength(p, o, k, n);
      }
    }
  }

  lemma TooLong(p: Packet, o: nat, k: nat)
    requires Follow(p, o, k).Some? && WireSize(Follow(p, o, k).value.labels) > NAME_LIMIT
    ensures DecodeName(p, o).None?
  {
    forall n: nat | Walks(p, o, n) ensures WireSize(Follow(p, o, n).value.labels) > NAME_LIMIT {
      WalkLength(p, o, k, n);
      FollowPrefix(p, o, k, n);
    }
  }

  /** Labels carry at least one octet, so 255 octets leave room for 127 of them. */
  lemma {:induction false} LabelCount(p: Packet, o: nat, k: nat)
    requires Follow(p, o, k).Some?
    ensures var t := Follow(p, o, k).value; |t.labels| <= k && 1 + 2 * |t.labels| <= WireSize(t.labels)
  {
    if k > 0 {
      LabelCount(p, o, k - 1);
      var t := Follow(p, o, k - 1).value;
      if IsLabel(p, t.at) {
        WireSizeSnoc(t.labels, LabelAt(p, t.at));
      }
    }
  }

  // ---- pointer cycles ----

  function StepOf(p: Packet): nat -> Option<nat> { (o: nat) => Step(p, o) }

  lemma {:induction false} FollowIsChain(p: Packet, o: nat, k: nat)
    ensures Iter(StepOf(p), o, k) == if Follow(p, o, k).Some? then Some(Follow(p, o, k).value.at) else None
  {
    hide Ascii, LabelAt, Range;
    if k > 0 {
      FollowIsChain(p, o, k - 1);
    }
  }

  /** Meeting an offset twice means no root is ever reached. */
  lemma Revisit(p: Packet, o: nat, j: nat, k: nat)
    requires j < k && Follow(p, o, j).Some? && Follow(p, o, k).Some?
    requires Follow(p, o, j).value.at == Follow(p, o, k).value.at
    ensures DecodeName(p, o).None?
  {
    FollowIsChain(p, o, j);
    FollowIsChain(p, o, k);
    forall n: nat ensures !Walks(p, o, n) {
      FollowIsChain(p, o, n);
      RevisitNeverStops(StepOf(p), o, j, k, n);
    }
  }

  // ---- the decoders ----

  /** Follows labels and pointers with a visited set; each round visits a new
      offset of the packet, so the packet length bounds the rounds. */
  method DecodedName(p: Packet, start: nat) returns (r: Option<Name>)
    ensures r == DecodeName(p, start)
  {
    hide Text, Ascii, LabelAt, WireSize;
    var offset: nat := start;
    var labels: seq<Label> := [];
    var nextOffset: Option<nat> := None;
    var visited: set<nat> := {};
    var wireSize: nat := 1;
    ghost var k: nat := 0;
    ghost var t := Trail(start, [], None, {});
    assert WireSize([]) == 1 by { EmptyWireSize(); }
    while true
      invariant Follow(p, start, k) == Some(t)
      invariant offset == t.at && labels == t.labels && nextOffset == t.resume
      invariant wireSize == WireSize(labels) <= NAME_LIMIT
      invariant forall v :: v in visited ==>
                  exists j: nat :: j < k && Follow(p, start, j).Some? && Follow(p, start, j).value.at == v
      invariant visited <= Range(0, |p|)
      decreases Range(0, |p|) - visited
    {
      if offset >= |p| {
        NoWalk(p, start, k);
        return None;
      }
      if offset in visited {
        ghost var j: nat :| j < k && Follow(p, start, j).Some? && Follow(p, start, j).value.at == offset;
        Revisit(p, start, j, k);
        return None;
      }
      visited := visited + {offset};
      var size := p[offset];
      if size >= 0xC0 {
        if offset + 2 > |p| || PointerTarget(p, offset) >= |p| {
          NoWalk(p, start, k);
          return None;
        }
        if nextOffset.None? {
          nextOffset := Some(offset + 2);
        }
        offset := PointerTarget(p, offset);
        k, t := k + 1, Advance(p, t).value;
      } else if size >= 0x40 {
        NoWalk(p, start, k);
        return None;
      } else if size == 0 {
        WalkMeaning(p, start, k);
        return Some(Name(Text(labels), if nextOffset.Some? then nextOffset.value else offset + 1));
      } else if offset + 1 + size > |p| || !Ascii(LabelAt(p, offset)) {
        NoWalk(p, start, k);
        return None;
      } else {
        WireSizeSnoc(labels, LabelAt(p, offset));
        labels := labels + [LabelAt(p, offset)];
        offset := offset + 1 + size;
        wireSize := wireSize + size + 1;
        k, t := k + 1, Advance(p, t).value;
        LabelCount(p, start, k);
        if wireSize > NAME_LIMIT || |labels| > LABEL_COUNT_LIMIT {
          TooLong(p, start, k);
          return None;
        }
      }
    }
  }

  lemma TooManyLabels(p: Packet, o: nat, k: nat)
    requires Follow(p, o, k).Some?
    requires k > LABEL_COUNT_LIMIT || IsPointer(p, Follow(p, o, k).value.at)
    ensures PlainNameAt(p, o).None?
  {
    hide Text, Ascii, LabelAt, WireSize;
    forall n: nat | Walks(p, o, n)
      ensures n > LABEL_COUNT_LIMIT || Follow(p, o, n).value.resume.Some?
    {
      WalkLength(p, o, k, n);
      if k <= LABEL_COUNT_LIMIT {
        FollowPrefix(p, o, k + 1, n);
      }
    }
  }

  /** Reads an uncompressed name. */
  method ReadName(p: Packet, start: nat) returns (r: Option<PlainName>)
    ensures r == PlainNameAt(p, start)
  {
    hide Text, Ascii, LabelAt, WireSize;
    var offset: nat := start;
    var labels: seq<Label> := [];
    var steps: nat := 0;
    ghost var t := Trail(start, [], None, {});
    while true
      invariant Follow(p, start, steps) == Some(t)
      invariant offset == t.at && labels == t.labels && t.resume.None?
      invariant steps <= LABEL_COUNT_LIMIT
      decreases LABEL_COUNT_LIMIT - steps
    {
      if offset >= |p| || p[offset] >= 0x40 {
        if IsPointer(p, offset) {
          TooManyLabels(p, start, steps);
        } else {
          NoWalk(p, start, steps);
        }
        return None;
      }
      var size := p[offset];
      if size == 0 {
        WalkMeaning(p, start, steps);
        return Some(PlainName(labels, offset + 1));
      }
      if offset + 1 + size > |p| || !Ascii(LabelAt(p, offset)) {
        NoWalk(p, start, steps);
        return None;
      }
      labels := labels + [LabelAt(p, offset)];
      offset, steps := offset + 1 + size, steps + 1;
      t := Advance(p, t).value;
      if steps > LABEL_COUNT_LIMIT {
        TooManyLabels(p, start, steps);
        return None;
      }
    }
  }

  // ---- where reading resumes ----

  lemma {:induction false} TrailBounds(p: Packet, o: nat, k: nat)
    requires Follow(p, o, k).Some?
    ensures var t := Follow(p, o, k).value;
            && (t.resume.None? ==> t.at >= o + k)
            && (t.resume.Some? ==> o < t.resume.value <= |p|)
  {
    if k > 0 {
      TrailBounds(p, o, k - 1);
    }
  }

  /** The offset after a name lies strictly past its start and inside the packet. */
  lemma NextInside(p: Packet, o: nat)
    requires DecodeName(p, o).Some?
    ensures o < DecodeName(p, o).value.next <= |p|
  {
    var n: nat :| Walks(p, o, n) && WireSize(Follow(p, o, n).value.labels) <= NAME_LIMIT;
    WalkMeaning(p, o, n);
    TrailBounds(p, o, n);
  }

  // ---- agreement with the recursive reading of RFC 1035 section 4.1.4 ----

  /** The octets at `o` spell `labels` and reading resumes at `next`: a root, a
      label and the rest of the name, or a pointer to a name anywhere in the packet. */
  ghost predicate Spells(p: Packet, o: nat, labels: seq<Label>, next: nat, n: nat)
    decreases n, 0
  {
    if IsRoot(p, o) then n == 0 && labels == [] && next == o + 1
    else if IsLabel(p, o) then
      n > 0 && labels != [] && labels[0] == LabelAt(p, o) && Spells(p, o + 1 + p[o], labels[1..], next, n - 1)
    else
      IsPointer(p, o) && n > 0 && next == o + 2 && SpellsFrom(p, PointerTarget(p, o), labels, n - 1)
  }

  ghost predicate SpellsFrom(p: Packet, o: nat, labels: seq<Label>, n: nat)
    decreases n, 1
  {
    exists next :: Spells(p, o, labels, next, n)
  }

  /** Taking the first element of a name first. */
  lemma {:induction false} FollowCons(p: Packet, o: nat, k: nat)
    requires Step(p, o).Some?
    ensures Follow(p, o, k + 1).Some? == Follow(p, Step(p, o).value, k).Some?
    ensures Follow(p, o, k + 1).Some? ==>
              var t, s := Follow(p, o, k + 1).value, Follow(p, Step(p, o).value, k).value;
              && t.at == s.at
              && t.labels == (if IsLabel(p, o) then [LabelAt(p, o)] else []) + s.labels
              && t.resume == if IsPointer(p, o) then Some(o + 2) else s.resume
  {
    hide Text, Ascii, LabelAt, WireSize;
    if k == 0 {
      assert Follow(p, o, 0) == Some(Trail(o, [], None, {}));
    } else {
      FollowCons(p, o, k - 1);
    }
  }

  lemma FirstStep(p: Packet, o: nat, n: nat)
    requires n > 0 && Follow(p, o, n).Some?
    ensures Step(p, o).Some?
  {
    FollowPrefix(p, o, 1, n);
    assert Follow(p, o, 0) == Some(Trail(o, [], None, {}));
  }

  lemma {:induction false} WalkSpells(p: Packet, o: nat, n: nat)
    requires Walks(p, o, n)
    ensures var t := Follow(p, o, n).value; Spells(p, o, t.labels, NameOf(t).next, n)
    decreases n
  {
    hide Text, Ascii, LabelAt, WireSize;
    if n > 0 {
      FirstStep(p, o, n);
      FollowCons(p, o, n - 1);
      WalkSpells(p, Step(p, o).value, n - 1);
      var t, rest := Follow(p, o, n).value, Follow(p, Step(p, o).value, n - 1).value;
      if IsLabel(p, o) {
        assert t.labels[0] == LabelAt(p, o) && t.labels[1..] == rest.labels;
        assert NameOf(t).next == NameOf(rest).next;
      } else {
        assert t.labels == rest.labels && NameOf(t).next == o + 2;
        assert SpellsFrom(p, PointerTarget(p, o), t.labels, n - 1);
      }
    }
  }

  lemma {:induction false} SpellingWalks(p: Packet, o: nat, labels: seq<Label>, next: nat, n: nat)
    requires Spells(p, o, labels, next, n)
    ensures Walks(p, o, n) && Follow(p, o, n).value.labels == labels && NameOf(Follow(p, o, n).value).next == next
    decreases n
  {
    hide Text, Ascii, LabelAt, WireSize;
    if n > 0 {
      if IsLabel(p, o) {
        SpellingWalks(p, o + 1 + p[o], labels[1..], next, n - 1);
      } else {
        var after :| Spells(p, PointerTarget(p, o), labels, after, n - 1);
        SpellingWalks(p, PointerTarget(p, o), labels, after, n - 1);
      }
      FollowCons(p, o, n - 1);
    }
  }

  /** Decoding returns exactly the names RFC 1035 spells within 255 octets, and
      fails on everything else, pointer cycles included. */
  lemma DecodeIsSpelling(p: Packet, o: nat, text: string, next: nat)
    ensures DecodeName(p, o) == Some(Name(text, next)) <==>
            exists labels, n: nat :: Spells(p, o, labels, next, n) && WireSize(labels) <= NAME_LIMIT && text == Text(labels)
  {
    hide Text, Ascii, LabelAt, WireSize;
    if DecodeName(p, o) == Some(Name(text, next)) {
      var n: nat :| Walks(p, o, n) && WireSize(Follow(p, o, n).value.labels) <= NAME_LIMIT;
      WalkMeaning(p, o, n);
      WalkSpells(p, o, n);
    }
    forall labels, n: nat | Spells(p, o, labels, next, n) && WireSize(labels) <= NAME_LIMIT && text == Text(labels)
      ensures DecodeName(p, o) == Some(Name(text, next))
    {
      SpellingWalks(p, o, labels, next, n);
      WalkMeaning(p, o, n);
    }
  }

  lemma PointerWalks(p: Packet, o: nat, n: nat)
    requires IsPointer(p, o)
    ensures Walks(p, o, n) <==> n > 0 && Walks(p, PointerTarget(p, o), n - 1)
    ensures Walks(p, o, n) ==>
              var t := Follow(p, o, n).value;
              t.labels == Follow(p, PointerTarget(p, o), n - 1).value.labels && t.resume == Some(o + 2)
  {
    hide Text, Ascii, LabelAt, WireSize;
    if n == 0 {
      assert Follow(p, o, 0) == Some(Trail(o, [], None, {}));
    } else {
      FollowCons(p, o, n - 1);
      if Follow(p, o, n).Some? {
        assert Follow(p, o, n).value.labels == Follow(p, PointerTarget(p, o), n - 1).value.labels;
      }
    }
  }

  /** A pointer stands for the name it points at. */
  lemma PointerReads(p: Packet, o: nat)
    requires IsPointer(p, o)
    ensures DecodeName(p, o) ==
            match DecodeName(p, PointerTarget(p, o))
            case None => None
            case Some(name) => Some(Name(name.text, o + 2))
  {
    hide Text, WireSize, Follow, PointerTarget;
    var target := PointerTarget(p, o);
    if DecodeName(p, target).Some? {
      var n: nat :| Walks(p, target, n) && WireSize(Follow(p, target, n).value.labels) <= NAME_LIMIT;
      PointerWalks(p, o, n + 1);
      WalkMeaning(p, o, n + 1);
      WalkMeaning(p, target, n);
    } else {
      forall n: nat | Walks(p, o, n) ensures WireSize(Follow(p, o, n).value.labels) > NAME_LIMIT {
        PointerWalks(p, o, n);
        WalkMeaning(p, target, n - 1);
      }
    }
  }

  lemma {:induction false} LabelsFit(p: Packet, o: nat, k: nat)
    requires Follow(p, o, k).Some?
    ensures WireSize(Follow(p, o, k).value.labels) <= 1 + 64 * k
  {
    if k > 0 {
      LabelsFit(p, o, k - 1);
      var t := Follow(p, o, k - 1).value;
      if IsLabel(p, t.at) {
        WireSizeSnoc(t.labels, LabelAt(p, t.at));
      }
    }
  }

  /** An uncompressed name has at most 127 labels of 64 octets and a root. */
  lemma PlainNameFits(p: Packet, o: nat)
    requires PlainNameAt(p, o).Some?
    ensures WireSize(PlainNameAt(p, o).value.labels) <= 8129
  {
    hide Follow, WireSize, Text;
    var n: nat :| Walks(p, o, n) && Follow(p, o, n).value.resume.None? && n <= LABEL_COUNT_LIMIT;
    WalkMeaning(p, o, n);
    LabelsFit(p, o, n);
  }

  // ---- reading a name is local ----

  /** `q` agrees with `p` on `octets`. */
  ghost predicate AgreeOn(p: Packet, q: Packet, octets: set<nat>) {
    forall i :: i in octets ==> i < |p| && i < |q| && q[i] == p[i]
  }

  /** Decoding reads inside the packet. */
  lemma NameOctetsInside(p: Packet, o: nat)
    ensures forall x :: x in NameOctets(p, o) ==> x < |p|
  {
    hide Follow;
    if n: nat :| Walks(p, o, n) {
      WalkMeaning(p, o, n);
      TrailInside(p, o, n);
    }
  }

  lemma {:induction false} TrailInside(p: Packet, o: nat, k: nat)
    requires Follow(p, o, k).Some?
    ensures forall x :: x in Follow(p, o, k).value.octets ==> x < |p|
  {
    if k > 0 {
      TrailInside(p, o, k - 1);
    }
  }

  lemma AdvanceFrame(p: Packet, q: Packet, t: Trail)
    requires Advance(p, t).Some? && AgreeOn(p, q, Advance(p, t).value.octets) && Advance(p, t).value.at < |q|
    ensures Advance(q, t) == Advance(p, t)
  {
    var octets := Advance(p, t).value.octets;
    assert t.at in octets && t.at + 1 in octets by {
      assert t.at in Range(t.at, t.at + 2) && t.at + 1 in Range(t.at, t.at + 2);
      if IsLabel(p, t.at) {
        assert t.at in Range(t.at, t.at + 1 + p[t.at]) && t.at + 1 in Range(t.at, t.at + 1 + p[t.at]);
      }
    }
    if IsLabel(p, t.at) {
      assert forall i :: t.at <= i < t.at + 1 + p[t.at] ==> i in octets;
      assert t.at + p[t.at] in octets;
      assert LabelAt(q, t.at) == LabelAt(p, t.at);
    }
  }

  lemma {:induction false} FollowFrame(p: Packet, q: Packet, o: nat, k: nat)
    requires Follow(p, o, k).Some? && AgreeOn(p, q, Follow(p, o, k).value.octets) && Follow(p, o, k).value.at < |q|
    ensures Follow(q, o, k) == Follow(p, o, k)
  {
    if k > 0 {
      var t := Follow(p, o, k - 1).value;
      assert t.at in Follow(p, o, k).value.octets by {
        assert t.at in Range(t.at, t.at + 2);
        if IsLabel(p, t.at) {
          assert t.at in Range(t.at, t.at + 1 + p[t.at]);
        }
      }
      FollowFrame(p, q, o, k - 1);
      AdvanceFrame(p, q, t);
    }
  }

  /** Changing octets a name does not read leaves the name alone. */
  lemma DecodeFrame(p: Packet, q: Packet, o: nat)
    requires DecodeName(p, o).Some? && AgreeOn(p, q, NameOctets(p, o))
    ensures DecodeName(q, o) == DecodeName(p, o) && NameOctets(q, o) == NameOctets(p, o)
  {
    var n: nat :| Walks(p, o, n) && WireSize(Follow(p, o, n).value.labels) <= NAME_LIMIT;
    WalkMeaning(p, o, n);
    FollowFrame(p, q, o, n);
    WalkMeaning(q, o, n);
  }

  // ---- uncompressed names ----

  lemma {:induction false} PlainTrail(p: Packet, o: nat, k: nat)
    requires Follow(p, o, k).Some? && Follow(p, o, k).value.resume.None?
    ensures var t := Follow(p, o, k).value;
            |t.labels| == k && t.at + 1 == o + WireSize(t.labels) && t.octets == Range(o, t.at)
  {
    if k > 0 {
      PlainTrail(p, o, k - 1);
      var t := Follow(p, o, k - 1).value;
      WireSizeSnoc(t.labels, LabelAt(p, t.at));
    }
  }

  /** The two decoders agree on uncompressed names of at most 255 octets; longer
      ones only the uncompressed reader accepts. */
  lemma PlainAgreesWithDecode(p: Packet, o: nat)
    requires PlainNameAt(p, o).Some?
    ensures var plain := PlainNameAt(p, o).value;
            && plain.next == o + WireSize(plain.labels) && plain.next <= |p|
            && NameOctets(p, o) == Range(o, plain.next)
            && DecodeName(p, o) ==
               if WireSize(plain.labels) <= NAME_LIMIT then Some(Name(Text(plain.labels), plain.next)) else None
  {
    hide Follow, Text, Ascii, LabelAt, WireSize;
    var n: nat :| Walks(p, o, n) && Follow(p, o, n).value.resume.None? && n <= LABEL_COUNT_LIMIT;
    WalkMeaning(p, o, n);
    TrailBounds(p, o, n);
    PlainTrail(p, o, n);
  }

  /** Conversely, what decodes without meeting a pointer is read the same way. */
  lemma DecodeAgreesWithPlain(p: Packet, o: nat, n: nat)
    requires Walks(p, o, n) && Follow(p, o, n).value.resume.None? && DecodeName(p, o).Some?
    ensures PlainNameAt(p, o).Some?
    ensures DecodeName(p, o) == Some(Name(Text(PlainNameAt(p, o).value.labels), PlainNameAt(p, o).value.next))
  {
    hide Text, Ascii, LabelAt, WireSize, Advance;
    WalkMeaning(p, o, n);
    PlainTrail(p, o, n);
    LabelCount(p, o, n);
  }

  /** An uncompressed name depends only on the octets it occupies. */
  lemma PlainFrame(p: Packet, q: Packet, o: nat)
    requires PlainNameAt(p, o).Some? && SameOn(p, q, o, PlainNameAt(p, o).value.next)
    ensures PlainNameAt(q, o) == PlainNameAt(p, o)
  {
    hide Follow, DecodeName, NameOctets, Text, Ascii, LabelAt, WireSize;
    var n: nat :| Walks(p, o, n) && Follow(p, o, n).value.resume.None? && n <= LABEL_COUNT_LIMIT;
    WalkMeaning(p, o, n);
    TrailBounds(p, o, n);
    PlainTrail(p, o, n);
    FollowFrame(p, q, o, n);
    WalkMeaning(q, o, n);
  }
}
