/** Publishing an imported session: reserve every final path, move the staged
    files onto the reservations, and undo everything when a step fails. */
module SessionPublication {
  type Path = string

  /** What occupies a destination path: something of an earlier time, a
      reservation of this import, or a file it published. */
  datatype Node = Earlier(content: nat) | Reservation | Imported(staged: Path)

  /** A filesystem call succeeds, fails without effect, or fails after taking effect. */
  datatype Effect = Succeeds | FailsBefore | FailsAfter

  datatype Target = Target(staged: Path, final: Path)

  /** What happens at each target: its parent directory, its reservation, its move, its change of owner. */
  datatype Fate = Fate(parent: bool, reserve: Effect, move: Effect, chown: bool)

  /** The final paths, in order. */
  function Finals(targets: seq<Target>): (paths: seq<Path>)
    ensures |paths| == |targets|
  {
    if targets == [] then [] else Finals(targets[..|targets| - 1]) + [targets[|targets| - 1].final]
  }

  predicate Distinct(paths: seq<Path>) { forall i, j :: 0 <= i < j < |paths| ==> paths[i] != paths[j] }

  function Elements(paths: seq<Path>): set<Path> { set p | p in paths }

  /** Every path of the list reserved over `nodes`. */
  function ReservedOver(nodes: map<Path, Node>, paths: seq<Path>): map<Path, Node> {
    if paths == [] then nodes
    else ReservedOver(nodes, paths[..|paths| - 1])[paths[|paths| - 1] := Reservation]
  }

  /** Every target of the list published over `nodes`. */
  function PublishedOver(nodes: map<Path, Node>, targets: seq<Target>): map<Path, Node> {
    if targets == [] then nodes
    else
      var last := targets[|targets| - 1];
      PublishedOver(nodes, targets[..|targets| - 1])[last.final := Imported(last.staged)]
  }

  // ---- the destination and the import ----

  class Destination {
    var nodes: map<Path, Node>

    constructor (nodes: map<Path, Node>)
      ensures this.nodes == nodes
    {
      this.nodes := nodes;
    }

    /** Exclusive creation: an occupied path fails and is left alone. */
    method ReservePath(path: Path, e: Effect) returns (ok: bool)
      modifies this
      ensures ok == (path !in old(nodes) && e.Succeeds?)
      ensures nodes == if path in old(nodes) || e.FailsBefore? then old(nodes) else old(nodes)[path := Reservation]
    {
      if path in nodes || e.FailsBefore? {
        return false;
      }
      nodes := nodes[path := Reservation];
      return e.Succeeds?;
    }

    /** An atomic rename onto the reservation. */
    method MoveOnto(target: Target, e: Effect) returns (ok: bool)
      modifies this
      ensures ok == e.Succeeds?
      ensures nodes == if e.FailsBefore? then old(nodes) else old(nodes)[target.final := Imported(target.staged)]
    {
      if e.FailsBefore? {
        return false;
      }
      nodes := nodes[target.final := Imported(target.staged)];
      return e.Succeeds?;
    }

    method RemovePath(path: Path)
      modifies this
      ensures nodes == old(nodes) - {path}
    {
      nodes := nodes - {path};
    }
  }

  /** A reservation that took effect although it was reported as failed, at
      that target; the import does not know of it. */
  datatype Leak = NoLeak | LeakAt(index: nat)

  function LeakedPaths(targets: seq<Target>, leak: Leak): set<Path> {
    if leak.LeakAt? && leak.index < |targets| then {targets[leak.index].final} else {}
  }

  /** The tree with nothing of the import in it but the leaked reservation. */
  function LeftOver(nodes: map<Path, Node>, targets: seq<Target>, leak: Leak): map<Path, Node> {
    if leak.LeakAt? && leak.index < |targets| then nodes[targets[leak.index].final := Reservation] else nodes
  }

  /** Every target before `i` is reserved, and the reservation of target `i`, on
      a path that is still free, takes effect and is reported as failed. */
  predicate LeaksAt(nodes: map<Path, Node>, targets: seq<Target>, fates: seq<Fate>, i: nat) {
    && i < |targets| == |fates|
    && (forall j :: 0 <= j < i ==> fates[j].parent && fates[j].reserve.Succeeds?)
    && fates[i].parent && fates[i].reserve.FailsAfter?
    && Distinct(Finals(targets[..i + 1])) && Elements(Finals(targets[..i + 1])) !! nodes.Keys
  }

  class Import {
    const destination: Destination
    var committed: seq<Path>
    var reservations: seq<Path>

    constructor (destination: Destination)
      ensures this.destination == destination && committed == [] && reservations == []
    {
      this.destination, committed, reservations := destination, [], [];
    }

    /** Paths this import has made and would undo. */
    ghost function Made(): set<Path>
      reads this
    {
      Elements(committed + reservations)
    }

    /** Reserves every final path.  A target may fail because its path is
        occupied, by an earlier file or by an earlier target. */
    method Reserve(targets: seq<Target>, fates: seq<Fate>) returns (ok: bool, ghost leak: Leak)
      requires |fates| == |targets| && committed == [] && reservations == []
      modifies this`reservations, destination
      ensures Made() !! old(destination.nodes).Keys
      ensures destination.nodes - Made() - LeakedPaths(targets, leak) == old(destination.nodes)
      ensures forall i :: leak == LeakAt(i) <==> LeaksAt(old(destination.nodes), targets, fates, i)
      ensures leak.LeakAt? ==> !ok && leak.index < |targets| && targets[leak.index].final !in old(destination.nodes)
                               && targets[leak.index].final !in Made()
                               && targets[leak.index].final in destination.nodes
                               && destination.nodes[targets[leak.index].final] == Reservation
      ensures ok <==> Distinct(Finals(targets)) && Elements(Finals(targets)) !! old(destination.nodes).Keys
                      && forall i :: 0 <= i < |fates| ==> fates[i].parent && fates[i].reserve.Succeeds?
      ensures ok ==> reservations == Finals(targets) && destination.nodes == ReservedOver(old(destination.nodes), Finals(targets))
    {
      hide Elements, Distinct, ReservedOver, Finals, LeakedPaths, LeaksAt;
      ghost var start := destination.nodes;
      leak := NoLeak;
      NothingReserved(start, targets);
      for i := 0 to |targets|
        invariant reservations == Finals(targets[..i]) && Distinct(reservations)
        invariant Elements(reservations) !! start.Keys
        invariant destination.nodes == ReservedOver(start, reservations)
        invariant forall j :: 0 <= j < i ==> fates[j].parent && fates[j].reserve.Succeeds?
      {
        var path := targets[i].final;
        UndoneExact(start, targets, reservations, NoLeak);
        assert committed + reservations == reservations;
        FinalsPrefix(targets, i);
        if !fates[i].parent {
          NothingLeaks(start, targets, fates, i);
          return false, NoLeak;
        }
        var occupied := path in destination.nodes;
        ok := destination.ReservePath(path, fates[i].reserve);
        if !ok {
          if !occupied && fates[i].reserve.FailsAfter? {
            leak := LeakAt(i);
            UndoneExact(start, targets, reservations, leak);
            ReserveOneMore(start, reservations, path);
            assert LeaksAt(start, targets, fates, i) by { LeakFound(start, targets, fates, i); }
            OnlyThisLeaks(start, targets, fates, i);
            return false, leak;
          }
          if occupied {
            OccupiedMeans(start, targets, i);
          }
          NothingLeaks(start, targets, fates, i);
          return false, NoLeak;
        }
        ReserveOneMore(start, reservations, path);
        reservations := reservations + [path];
      }
      assert targets[..|targets|] == targets;
      assert committed + reservations == reservations;
      UndoneExact(start, targets, reservations, NoLeak);
      NothingLeaks(start, targets, fates, |targets|);
      return true, NoLeak;
    }

    /** Moves each staged file onto its reservation. */
    method Publish(targets: seq<Target>, fates: seq<Fate>) returns (ok: bool)
      requires |fates| == |targets| && committed == [] && reservations == Finals(targets)
      modifies this, destination
      ensures committed + reservations == Finals(targets)
      ensures destination.nodes - Elements(Finals(targets)) == old(destination.nodes) - Elements(Finals(targets))
      ensures ok <==> forall i :: 0 <= i < |fates| ==> fates[i].move.Succeeds? && fates[i].chown
      ensures ok ==> reservations == [] && destination.nodes == PublishedOver(old(destination.nodes), targets)
    {
      hide Elements;
      for i := 0 to |targets|
        invariant committed == Finals(targets[..i]) && committed + reservations == Finals(targets)
        invariant destination.nodes == PublishedOver(old(destination.nodes), targets[..i])
        invariant destination.nodes - Elements(Finals(targets)) == old(destination.nodes) - Elements(Finals(targets))
        invariant forall j :: 0 <= j < i ==> fates[j].move.Succeeds? && fates[j].chown
      {
        FinalsAt(targets, i);
        FinalsPrefix(targets, i);
        ok := destination.MoveOnto(targets[i], fates[i].move);
        if !ok {
          return false;
        }
        assert reservations[0] == Finals(targets)[i];
        reservations := reservations[1..];
        committed := committed + [targets[i].final];
        if !fates[i].chown {
          return false;
        }
      }
      assert targets[..|targets|] == targets;
      return true;
    }

    /** Removes what was published and what is still reserved, latest first. */
    method Undo()
      modifies destination
      ensures destination.nodes == old(destination.nodes) - Made()
    {
      for i := |committed| downto 0
        invariant destination.nodes == old(destination.nodes) - Elements(committed[i..])
      {
        destination.RemovePath(committed[i]);
        assert committed[i..] == [committed[i]] + committed[i + 1..];
      }
      assert committed[0..] == committed;
      for i := |reservations| downto 0
        invariant destination.nodes == old(destination.nodes) - Elements(committed) - Elements(reservations[i..])
      {
        destination.RemovePath(reservations[i]);
        assert reservations[i..] == [reservations[i]] + reservations[i + 1..];
      }
      assert reservations[0..] == reservations;
      assert Made() == Elements(committed) + Elements(reservations);
    }

    /** All or nothing: `staged` says whether everything before the first
        reservation succeeded and `verified` whether the checks after the last
        move did.  Only a reservation that failed after taking effect is left. */
    method Run(targets: seq<Target>, fates: seq<Fate>, staged: bool, verified: bool) returns (ok: bool, ghost leak: Leak)
      requires |fates| == |targets| && committed == [] && reservations == []
      modifies this, destination
      ensures ok <==> staged && verified && Distinct(Finals(targets))
                      && Elements(Finals(targets)) !! old(destination.nodes).Keys
                      && forall i :: 0 <= i < |fates| ==>
                           fates[i].parent && fates[i].reserve.Succeeds? && fates[i].move.Succeeds? && fates[i].chown
      ensures ok ==> reservations == [] && destination.nodes == PublishedOver(old(destination.nodes), targets)
      ensures !ok ==> destination.nodes == LeftOver(old(destination.nodes), targets, leak)
      ensures forall i :: leak == LeakAt(i) <==> staged && LeaksAt(old(destination.nodes), targets, fates, i)
      ensures !ok ==> (destination.nodes == old(destination.nodes) <==> leak.NoLeak?)
    {
      hide Elements, Distinct, LeaksAt, Finals;
      ghost var start := destination.nodes;
      if !staged {
        return false, NoLeak;
      }
      ok, leak := Reserve(targets, fates);
      if !ok {
        ghost var left := destination.nodes;
        Undo();
        assert left - Made() - LeakedPaths(targets, leak) == start;
        return false, leak;
      }
      ReservedExact(start, Finals(targets));
      ok := Publish(targets, fates);
      if ok && verified {
        ReservationsCovered(start, targets);
        return true, NoLeak;
      }
      Undo();
      return false, NoLeak;
    }
  }

  // ---- reserved and published trees ----

  lemma NothingReserved(nodes: map<Path, Node>, targets: seq<Target>)
    ensures Elements([]) == {} && Distinct([]) && ReservedOver(nodes, []) == nodes && Finals(targets[..0]) == []
  {
  }

  lemma {:induction false} FinalsAt(targets: seq<Target>, i: nat)
    requires i < |targets|
    ensures Finals(targets)[i] == targets[i].final
    ensures targets[i].final in Elements(Finals(targets))
  {
    if i < |targets| - 1 {
      FinalsAt(targets[..|targets| - 1], i);
    } else if i > 0 {
      FinalsAt(targets[..i], i - 1);
    }
  }

  lemma FinalsPrefix(targets: seq<Target>, i: nat)
    requires i < |targets|
    ensures Finals(targets[..i + 1]) == Finals(targets[..i]) + [targets[i].final]
    ensures targets[..i + 1][..i] == targets[..i]
  {
    assert targets[..i + 1][..i] == targets[..i];
  }

  /** Reservations occupy exactly their paths besides what was there. */
  lemma {:induction false} ReservedExact(nodes: map<Path, Node>, paths: seq<Path>)
    ensures ReservedOver(nodes, paths).Keys == nodes.Keys + Elements(paths)
    ensures Elements(paths) !! nodes.Keys ==> ReservedOver(nodes, paths) - Elements(paths) == nodes
  {
    if paths != [] {
      var front := paths[..|paths| - 1];
      assert paths == front + [paths[|paths| - 1]];
      assert Elements(paths) == Elements(front) + {paths[|paths| - 1]};
      ReservedExact(nodes, front);
    }
  }

  lemma ReserveOneMore(nodes: map<Path, Node>, paths: seq<Path>, path: Path)
    requires path !in ReservedOver(nodes, paths) && Distinct(paths) && Elements(paths) !! nodes.Keys
    ensures Distinct(paths + [path]) && Elements(paths + [path]) !! nodes.Keys
    ensures ReservedOver(nodes, paths + [path]) == ReservedOver(nodes, paths)[path := Reservation]
  {
    hide Elements, Distinct;
    ReservedExact(nodes, paths);
    DistinctSnoc(paths, path);
    assert (paths + [path])[..|paths|] == paths;
  }

  lemma DistinctSnoc(paths: seq<Path>, path: Path)
    requires Distinct(paths) && path !in Elements(paths)
    ensures Distinct(paths + [path]) && Elements(paths + [path]) == Elements(paths) + {path}
  {
    assert forall i :: 0 <= i < |paths| ==> paths[i] in Elements(paths);
  }

  /** Removing the reservations and the leaked path gives back what was there. */
  lemma UndoneExact(nodes: map<Path, Node>, targets: seq<Target>, paths: seq<Path>, leak: Leak)
    requires Elements(paths) !! nodes.Keys
    requires leak.LeakAt? ==> leak.index < |targets| && targets[leak.index].final !in ReservedOver(nodes, paths)
    ensures ReservedOver(nodes, paths) - Elements(paths) - LeakedPaths(targets, NoLeak) == nodes
    ensures leak.LeakAt? ==> targets[leak.index].final !in nodes && targets[leak.index].final !in Elements(paths)
    ensures leak.LeakAt? ==>
              ReservedOver(nodes, paths)[targets[leak.index].final := Reservation] - Elements(paths) - LeakedPaths(targets, leak) == nodes
  {
    hide Elements;
    ReservedExact(nodes, paths);
  }

  /** A reservation sweep that stops at `i` otherwise, or does not stop, leaks nothing. */
  lemma NothingLeaks(nodes: map<Path, Node>, targets: seq<Target>, fates: seq<Fate>, i: nat)
    requires i <= |targets| == |fates|
    requires forall j :: 0 <= j < i ==> fates[j].parent && fates[j].reserve.Succeeds?
    requires i < |targets| ==>
               !fates[i].parent || fates[i].reserve.FailsBefore? || targets[i].final in ReservedOver(nodes, Finals(targets[..i]))
    ensures forall k :: !LeaksAt(nodes, targets, fates, k)
  {
    hide Finals, ReservedOver, Distinct, Elements;
    forall k: nat ensures !LeaksAt(nodes, targets, fates, k) {
      if LeaksAt(nodes, targets, fates, k) {
        assert i <= k;
        assert targets[..k + 1][..i] == targets[..i];
        OccupiedMeans(nodes, targets[..k + 1], i);
      }
    }
  }

  lemma LeakFound(nodes: map<Path, Node>, targets: seq<Target>, fates: seq<Fate>, i: nat)
    requires i < |targets| == |fates| && fates[i].parent && fates[i].reserve.FailsAfter?
    requires forall j :: 0 <= j < i ==> fates[j].parent && fates[j].reserve.Succeeds?
    requires Distinct(Finals(targets[..i + 1])) && Elements(Finals(targets[..i + 1])) !! nodes.Keys
    ensures LeaksAt(nodes, targets, fates, i)
  {
  }

  lemma OnlyThisLeaks(nodes: map<Path, Node>, targets: seq<Target>, fates: seq<Fate>, i: nat)
    requires LeaksAt(nodes, targets, fates, i)
    ensures forall k :: LeaksAt(nodes, targets, fates, k) <==> k == i
  {
    hide Finals, Distinct, Elements;
  }

  /** A path found occupied belonged to an earlier file or to an earlier target. */
  lemma OccupiedMeans(nodes: map<Path, Node>, targets: seq<Target>, i: nat)
    requires i < |targets| && targets[i].final in ReservedOver(nodes, Finals(targets[..i]))
    ensures !Distinct(Finals(targets)) || !(Elements(Finals(targets)) !! nodes.Keys)
  {
    ReservedExact(nodes, Finals(targets[..i]));
    FinalsAt(targets, i);
    if targets[i].final !in nodes {
      var before := Finals(targets[..i]);
      var k :| 0 <= k < |before| && before[k] == targets[i].final;
      FinalsAt(targets[..i], k);
      FinalsAt(targets, k);
    }
  }

  /** The file last staged for a path. */
  function LastStaged(targets: seq<Target>, p: Path): Path {
    if targets == [] then ""
    else if targets[|targets| - 1].final == p then targets[|targets| - 1].staged
    else LastStaged(targets[..|targets| - 1], p)
  }

  /** A published path holds the last file staged for it; every other path is as before. */
  lemma {:induction false} PublishedExact(nodes: map<Path, Node>, targets: seq<Target>)
    ensures PublishedOver(nodes, targets).Keys == nodes.Keys + Elements(Finals(targets))
    ensures forall p :: p in nodes && p !in Elements(Finals(targets)) ==> PublishedOver(nodes, targets)[p] == nodes[p]
    ensures forall p :: p in Elements(Finals(targets)) ==> PublishedOver(nodes, targets)[p] == Imported(LastStaged(targets, p))
  {
    if targets != [] {
      var front, last := targets[..|targets| - 1], targets[|targets| - 1];
      assert Elements(Finals(targets)) == Elements(Finals(front)) + {last.final};
      PublishedExact(nodes, front);
    }
  }

  /** Publication leaves no reservation: what is moved onto them covers them all. */
  lemma ReservationsCovered(nodes: map<Path, Node>, targets: seq<Target>)
    requires Elements(Finals(targets)) !! nodes.Keys
    ensures PublishedOver(ReservedOver(nodes, Finals(targets)), targets) == PublishedOver(nodes, targets)
  {
    hide Elements;
    PublishedExact(ReservedOver(nodes, Finals(targets)), targets);
    PublishedExact(nodes, targets);
    ReservedExact(nodes, Finals(targets));
  }

  lemma {:induction false} LastOfDistinct(targets: seq<Target>, i: nat)
    requires i < |targets| && Distinct(Finals(targets))
    ensures LastStaged(targets, targets[i].final) == targets[i].staged
  {
    var n := |targets| - 1;
    FinalsAt(targets, i);
    FinalsAt(targets, n);
    if i < n {
      assert Distinct(Finals(targets[..n])) by {
        forall j, k | 0 <= j < k < n ensures Finals(targets[..n])[j] != Finals(targets[..n])[k] {
          assert Finals(targets)[j] != Finals(targets)[k];
        }
      }
      assert targets[..n][i] == targets[i];
      LastOfDistinct(targets[..n], i);
    }
  }

  /** With distinct final paths every staged file is published at its own path,
      nothing else appears, and no reservation is left. */
  lemma EachPublishedOnce(nodes: map<Path, Node>, targets: seq<Target>, i: nat)
    requires i < |targets| && Distinct(Finals(targets)) && Elements(Finals(targets)) !! nodes.Keys
    requires forall p :: p in nodes ==> nodes[p].Earlier?
    ensures var after := PublishedOver(nodes, targets);
            && targets[i].final in after && after[targets[i].final] == Imported(targets[i].staged)
            && after.Keys == nodes.Keys + Elements(Finals(targets))
            && (forall p :: p in nodes ==> after[p] == nodes[p])
            && (forall p :: p in after ==> after[p] != Reservation)
  {
    PublishedExact(nodes, targets);
    FinalsAt(targets, i);
    LastOfDistinct(targets, i);
  }
}
