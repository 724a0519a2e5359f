/** First-fit allocation of /28 container subnets out of 172.28.0.0/14. */
module Subnets {
  import opened Wire

  /** An IPv4 network as its first address and its number of addresses. */
  datatype Network = Network(base: nat, size: nat)

  const POOL_BASE: nat := 0xAC1C_0000
  const BLOCK_SIZE: nat := 16
  const BLOCK_COUNT: nat := 16384

  predicate Overlaps(a: Network, b: Network) { a.base < b.base + b.size && b.base < a.base + a.size }

  function Block(i: nat): Network { Network(POOL_BASE + i * BLOCK_SIZE, BLOCK_SIZE) }

  predicate Taken(c: Network, nets: seq<Network>) { exists j :: 0 <= j < |nets| && Overlaps(c, nets[j]) }

  /** A block that overlaps no occupied and no reserved network. */
  predicate Free(i: nat, occupied: seq<Network>, reserved: seq<Network>) {
    !Taken(Block(i), occupied) && !Taken(Block(i), reserved)
  }

  /** The free blocks among the first `k`, lowest first. */
  function FreeBelow(k: nat, occupied: seq<Network>, reserved: seq<Network>): seq<nat> {
    if k == 0 then []
    else if Free(k - 1, occupied, reserved) then FreeBelow(k - 1, occupied, reserved) + [k - 1]
    else FreeBelow(k - 1, occupied, reserved)
  }

  function Blocks(indices: seq<nat>): seq<Network> { seq(|indices|, i requires 0 <= i < |indices| => Block(indices[i])) }

  /** Selects blocks in order until enough are found. */
  method AllocateSubnets(count: int, occupied: seq<Network>, reserved: seq<Network>) returns (r: Option<seq<Network>>)
    ensures r.Some? <==> 1 <= count <= |FreeBelow(BLOCK_COUNT, occupied, reserved)|
    ensures r.Some? ==> r.value == Blocks(FreeBelow(BLOCK_COUNT, occupied, reserved)[..count])
  {
    var selected := reserved;
    var granted: seq<Network> := [];
    ghost var found: seq<nat> := [];
    for i := 0 to BLOCK_COUNT
      invariant found == FreeBelow(i, occupied, reserved) && granted == Blocks(found) && selected == reserved + granted
      invariant count >= 1 ==> |found| < count
    {
      var candidate := Block(i);
      SelectedTaken(i, occupied, reserved);
      if Taken(candidate, occupied) || Taken(candidate, selected) {
        continue;
      }
      selected := selected + [candidate];
      granted := granted + [candidate];
      found := found + [i];
      assert granted == Blocks(found);
      if |granted| == count {
        FreeGrows(i + 1, BLOCK_COUNT, occupied, reserved);
        assert FreeBelow(BLOCK_COUNT, occupied, reserved)[..count] == found;
        return Some(granted);
      }
    }
    return None;
  }

  lemma TakenConcat(c: Network, a: seq<Network>, b: seq<Network>)
    ensures Taken(c, a + b) <==> Taken(c, a) || Taken(c, b)
  {
    if j :| 0 <= j < |a| && Overlaps(c, a[j]) {
      assert (a + b)[j] == a[j];
    }
    if j :| 0 <= j < |b| && Overlaps(c, b[j]) {
      assert (a + b)[|a| + j] == b[j];
    }
  }

  lemma {:induction false} FreeBelowExact(k: nat, occupied: seq<Network>, reserved: seq<Network>)
    ensures var f := FreeBelow(k, occupied, reserved);
            && (forall i :: i in f <==> 0 <= i < k && Free(i, occupied, reserved))
            && (forall i, j :: 0 <= i < j < |f| ==> f[i] < f[j])
  {
    hide Free;
    if k > 0 {
      FreeBelowExact(k - 1, occupied, reserved);
      var before := FreeBelow(k - 1, occupied, reserved);
      assert forall i :: 0 <= i < |before| ==> before[i] in before;
    }
  }

  lemma {:induction false} FreeGrows(j: nat, k: nat, occupied: seq<Network>, reserved: seq<Network>)
    requires j <= k
    ensures FreeBelow(j, occupied, reserved) <= FreeBelow(k, occupied, reserved)
    decreases k
  {
    if j < k {
      FreeGrows(j, k - 1, occupied, reserved);
    }
  }

  lemma BlocksApart(i: nat, j: nat)
    requires i != j
    ensures !Overlaps(Block(i), Block(j))
  {
  }

  /** Earlier selections never stand in the way: a candidate is refused exactly when it is not free. */
  lemma SelectedTaken(i: nat, occupied: seq<Network>, reserved: seq<Network>)
    ensures var selected := reserved + Blocks(FreeBelow(i, occupied, reserved));
            (Taken(Block(i), occupied) || Taken(Block(i), selected)) <==> !Free(i, occupied, reserved)
  {
    hide Overlaps;
    var f := FreeBelow(i, occupied, reserved);
    FreeBelowExact(i, occupied, reserved);
    TakenConcat(Block(i), reserved, Blocks(f));
    forall j | 0 <= j < |f| ensures !Overlaps(Block(i), Blocks(f)[j]) {
      assert f[j] in f;
      BlocksApart(i, f[j]);
    }
  }

  /** What is granted are free blocks, with no free block below the last one left out. */
  lemma AllocationIsLowest(count: nat, occupied: seq<Network>, reserved: seq<Network>, i: nat, b: nat)
    requires 1 <= count <= |FreeBelow(BLOCK_COUNT, occupied, reserved)| && i < count
    ensures var f := FreeBelow(BLOCK_COUNT, occupied, reserved);
            && f[i] < BLOCK_COUNT && Free(f[i], occupied, reserved)
            && (Free(b, occupied, reserved) && b <= f[count - 1] ==> b in f[..count])
  {
    hide Free;
    var f := FreeBelow(BLOCK_COUNT, occupied, reserved);
    FreeBelowExact(BLOCK_COUNT, occupied, reserved);
    assert f[i] in f && f[count - 1] in f;
    if Free(b, occupied, reserved) && b <= f[count - 1] {
      assert b in f;
      var k :| 0 <= k < |f| && f[k] == b;
      assert f[..count][k] == b;
    }
  }

  /** Results overlap nothing occupied, nothing reserved and not each other. */
  lemma AllocationIsApart(count: nat, occupied: seq<Network>, reserved: seq<Network>, i: nat, c: Network)
    requires 1 <= count <= |FreeBelow(BLOCK_COUNT, occupied, reserved)| && i < count
    requires var granted := Blocks(FreeBelow(BLOCK_COUNT, occupied, reserved)[..count]);
             c in occupied || c in reserved || exists j :: 0 <= j < count && j != i && c == granted[j]
    ensures !Overlaps(Blocks(FreeBelow(BLOCK_COUNT, occupied, reserved)[..count])[i], c)
  {
    hide Overlaps;
    var f := FreeBelow(BLOCK_COUNT, occupied, reserved);
    FreeBelowExact(BLOCK_COUNT, occupied, reserved);
    assert f[i] in f;
    if c !in occupied && c !in reserved {
      var j :| 0 <= j < count && j != i && c == Blocks(f[..count])[j];
      assert f[i] != f[j];
      BlocksApart(f[i], f[j]);
    }
  }

  /** Networks overlap exactly when they share an address. */
  lemma OverlapsExact(a: Network, b: Network)
    requires a.size > 0 && b.size > 0
    ensures Overlaps(a, b) <==> exists x :: Holds(a, x) && Holds(b, x)
  {
    if Overlaps(a, b) {
      var x := if a.base <= b.base then b.base else a.base;
      assert Holds(a, x) && Holds(b, x);
    }
  }

  predicate Holds(a: Network, x: int) { a.base <= x < a.base + a.size }

  /** The blocks are the /28 networks of 172.28.0.0/14: each holds 16 addresses from
      a multiple of 16, and together they hold exactly the pool. */
  lemma BlocksArePool(x: int)
    ensures forall i: nat :: Block(i).base % 16 == 0 && Block(i).size == 16
    ensures ((172 * 256 + 28) * 256) * 256 <= x < ((172 * 256 + 32) * 256) * 256 <==> exists i: nat :: i < BLOCK_COUNT && Holds(Block(i), x)
  {
    if ((172 * 256 + 28) * 256) * 256 <= x < ((172 * 256 + 32) * 256) * 256 {
      assert Holds(Block((x - POOL_BASE) / 16), x);
    }
  }
}
