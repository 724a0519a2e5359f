/** What every run of the relay loops guarantees. */
module RelayProofs {
  import opened Wire
  import opened RelayCore
  import opened ExitLease
  import opened RelayLoops

  // ---- delivery ----

  lemma SidesDistinct(ready: set<Side>)
    ensures Distinctly(Only(SIDES, ready)) && forall s :: s in Only(SIDES, ready) ==> s in ready
  {
    OnlyExact(SIDES, ready);
  }

  lemma {:induction false} AllowedExact(cfg: RelayConfig, g: Gate, sides: seq<Side>, looks: Pair<Look>)
    requires Distinctly(sides)
    ensures Allowed(cfg, g, sides, looks) <= sides && Distinctly(Allowed(cfg, g, sides, looks))
    ensures forall s :: s in Allowed(cfg, g, sides, looks) ==> s in sides && CanForward(cfg, g, looks.At(s))
    decreases |sides|
  {
    if sides != [] && CanForward(cfg, g, looks.At(sides[0])) {
      assert Distinctly(sides[1..]) by {
        assert forall i :: 0 <= i < |sides[1..]| ==> sides[1..][i] == sides[i + 1];
      }
      AllowedExact(cfg, g, sides[1..], looks);
      var rest := Allowed(cfg, g, sides[1..], looks);
      assert sides == [sides[0]] + sides[1..];
      assert forall i :: 0 <= i < |rest| ==> rest[i] == sides[1..][i] == sides[i + 1];
    }
  }

  /** One gated pass keeps the books and never sends to a side it has shut. */
  lemma PassKeepsBooks(cfg: RelayConfig, s: Relay, p: Pass, input: Pair<seq<Byte>>)
    requires DuplexOk(s.d, input, MAX_BUFFER)
    ensures var (next, end) := Iterate(cfg, s, p);
            && DuplexOk(next.d, input, MAX_BUFFER)
            && s.d.closed <= next.d.closed && s.d.ended <= next.d.ended
            && (forall side :: side in s.d.closed ==> next.d.sent.At(side) == s.d.sent.At(side))
            && (end == Some(Eof) ==> Finished(next.d))
  {
    hide Top, Transfer, SideOk, CanForward;
    var (gate, stop) := Top(cfg, s.gate, p);
    CloseKeepsOk(s.d, input, MAX_BUFFER);
    if stop.None? {
      var c := CloseDrained(s.d);
      var writable, readable := Only(SIDES, Writers(c) * p.writable), Only(SIDES, Readers(c, MAX_BUFFER) * p.readable);
      SidesDistinct(Writers(c) * p.writable);
      SidesDistinct(Readers(c, MAX_BUFFER) * p.readable);
      AllowedExact(cfg, gate, writable, p.sendLooks);
      AllowedExact(cfg, gate, readable, p.recvLooks);
      TransferKeeps(c, Allowed(cfg, gate, writable, p.sendLooks), Allowed(cfg, gate, readable, p.recvLooks),
                    p.sends, p.receives, input, MAX_BUFFER);
      TransferEnds(c, Allowed(cfg, gate, writable, p.sendLooks), Allowed(cfg, gate, readable, p.recvLooks), p.sends, p.receives, MAX_BUFFER);
    }
    TopNeverEof(cfg, s.gate, p);
  }

  lemma TopNeverEof(cfg: RelayConfig, g: Gate, p: Pass)
    ensures Top(cfg, g, p).1 != Some(Eof)
  {
  }

  lemma TransferEnds(d: Duplex, writers: seq<Side>, readers: seq<Side>, sends: Pair<Attempt>, receives: Pair<Attempt>, limit: nat)
    ensures Transfer(d, writers, readers, sends, receives, limit).1 != Some(Eof)
  {
    SendEnds(d, writers, sends);
    RecvEnds(SendAll(d, writers, sends).0, readers, receives, limit);
  }

  lemma {:induction false} SendEnds(d: Duplex, dests: seq<Side>, tries: Pair<Attempt>)
    ensures SendAll(d, dests, tries).1 != Some(Eof)
    decreases |dests|
  {
    if dests != [] {
      SendEnds(SendOne(d, dests[0], tries.At(dests[0])).0, dests[1..], tries);
    }
  }

  lemma {:induction false} RecvEnds(d: Duplex, sources: seq<Side>, tries: Pair<Attempt>, limit: nat)
    ensures RecvAll(d, sources, tries, limit).1 != Some(Eof)
    decreases |sources|
  {
    if sources != [] {
      RecvEnds(RecvOne(d, sources[0], tries.At(sources[0]), limit).0, sources[1..], tries, limit);
    }
  }

  function Begin(input: Pair<seq<Byte>>, leaseStarted: Clock, now: Clock): Relay {
    Relay(Opened(input, now), Gate(leaseStarted, now, None), now)
  }

  /** Over every gated run: octets read equal octets sent followed by the buffer,
      buffers stay bounded, an ended side was read in full, a shut side received
      its whole stream, and the result "eof" means both streams were delivered. */
  lemma {:induction false} GatedRunDelivers(cfg: RelayConfig, input: Pair<seq<Byte>>, leaseStarted: Clock, now: Clock, passes: seq<Pass>)
    ensures var (s, end) := GatedRun(cfg, Begin(input, leaseStarted, now), passes);
            && DuplexOk(s.d, input, MAX_BUFFER)
            && (end == Some(Eof) ==> s.d.sent == Pair(input.parent, input.client))
            && (forall side :: side in s.d.closed ==> s.d.sent.At(side) == input.At(Other(side)))
  {
    hide Iterate, SideOk, Finished;
    var (s, end) := GatedRun(cfg, Begin(input, leaseStarted, now), passes);
    if passes == [] {
      OpenedOk(input, now, MAX_BUFFER);
    } else {
      var before := passes[..|passes| - 1];
      GatedRunDelivers(cfg, input, leaseStarted, now, before);
      var (b, stopped) := GatedRun(cfg, Begin(input, leaseStarted, now), before);
      if stopped.None? {
        PassKeepsBooks(cfg, b, passes[|passes| - 1], input);
        if end == Some(Eof) {
          FinishedIsDelivered(s.d, input, MAX_BUFFER);
        }
      }
    }
    forall side | side in s.d.closed ensures s.d.sent.At(side) == input.At(Other(side)) {
      ClosedIsDelivered(s.d, input, MAX_BUFFER, side);
    }
  }

  lemma OpenedOk(input: Pair<seq<Byte>>, now: Clock, limit: nat)
    ensures DuplexOk(Opened(input, now), input, limit)
  {
    assert forall s :: [] + input.At(s) == input.At(s);
  }

  /** The same for the ungated loop and every buffer limit. */
  lemma {:induction false} PlainRunDelivers(input: Pair<seq<Byte>>, now: Clock, idleTimeout: Clock, limit: nat, passes: seq<PlainPass>)
    ensures var (d, end) := PlainRun(Opened(input, now), idleTimeout, limit, passes);
            && DuplexOk(d, input, limit)
            && (end == Some(Eof) ==> d.sent == Pair(input.parent, input.client))
  {
    hide Transfer, SideOk, CloseDrained;
    if passes == [] {
      OpenedOk(input, now, limit);
    } else {
      var before := passes[..|passes| - 1];
      PlainRunDelivers(input, now, idleTimeout, limit, before);
      var (d, stopped) := PlainRun(Opened(input, now), idleTimeout, limit, before);
      if stopped.None? {
        var p, c := passes[|passes| - 1], CloseDrained(d);
        CloseKeepsOk(d, input, limit);
        if Finished(c) {
          FinishedIsDelivered(c, input, limit);
        }
        SidesDistinct(Readers(c, limit) * p.readable);
        TransferKeeps(c, Only(SIDES, Writers(c) * p.writable), Only(SIDES, Readers(c, limit) * p.readable), p.sends, p.receives, input, limit);
        TransferEnds(c, Only(SIDES, Writers(c) * p.writable), Only(SIDES, Readers(c, limit) * p.readable), p.sends, p.receives, limit);
      }
    }
  }

  // ---- the gated loop refines the ungated one ----

  function AsSet(sides: seq<Side>): set<Side> { set s | s in sides }

  /** Offering only the served sides makes exactly them ready. */
  lemma OnlyPrefix(ready: set<Side>, served: seq<Side>)
    requires served <= Only(SIDES, ready)
    ensures Only(SIDES, ready * AsSet(served)) == served
  {
    OnlyBoth(ready);
    OnlyBoth(ready * AsSet(served));
    var all := Only(SIDES, ready);
    assert |served| >= 1 ==> served[0] == all[0];
    assert |served| == 2 ==> served[1] == all[1];
  }

  lemma OnlyBoth(ready: set<Side>)
    ensures Only(SIDES, ready) == (if Client in ready then [Client] else []) + (if Parent in ready then [Parent] else [])
  {
    assert SIDES[1..] == [Parent] && [Parent][1..] == [];
    assert Only([Parent], ready) == if Parent in ready then [Parent] else [];
  }

  /** Whatever a gated pass moves that neither the gate nor the session deadline
      ends, one pass of the ungated loop moves from the same state, ending the same
      way: a refused side is one select did not report. */
  lemma SimulatingPass(cfg: RelayConfig, s: Relay, p: Pass) returns (q: PlainPass)
    requires Top(cfg, s.gate, p).1.None?
    requires cfg.sessionTimeout.Some? ==> p.now - s.started < cfg.sessionTimeout.value
    ensures var (next, end) := Iterate(cfg, s, p);
            PlainIterate(s.d, cfg.idleTimeout, MAX_BUFFER, q) == (next.d, AsClosed(end))
  {
    hide Top, Transfer, CanForward, CloseDrained;
    var gate, c := Top(cfg, s.gate, p).0, CloseDrained(s.d);
    var writers := Allowed(cfg, gate, Only(SIDES, Writers(c) * p.writable), p.sendLooks);
    var readers := Allowed(cfg, gate, Only(SIDES, Readers(c, MAX_BUFFER) * p.readable), p.recvLooks);
    SidesDistinct(Writers(c) * p.writable);
    SidesDistinct(Readers(c, MAX_BUFFER) * p.readable);
    AllowedExact(cfg, gate, Only(SIDES, Writers(c) * p.writable), p.sendLooks);
    AllowedExact(cfg, gate, Only(SIDES, Readers(c, MAX_BUFFER) * p.readable), p.recvLooks);
    OnlyPrefix(Writers(c) * p.writable, writers);
    OnlyPrefix(Readers(c, MAX_BUFFER) * p.readable, readers);
    q := PlainPass(p.now, p.readable * AsSet(readers), p.writable * AsSet(writers), p.sends, p.receives);
    assert Writers(c) * q.writable == Writers(c) * p.writable * AsSet(writers);
    assert Readers(c, MAX_BUFFER) * q.readable == Readers(c, MAX_BUFFER) * p.readable * AsSet(readers);
  }

  // ---- the lease gate ----

  /** The audit is not latched, and the lease reads valid, or not revoked within grace. */
  predicate MayForward(cfg: RelayConfig, g: Gate, look: Look) {
    var state := StateOf(cfg, look.file, g.leaseStarted, look.readAt);
    !look.auditFailed && (state == Valid || (state != Revoked && look.now - g.lastVerified < cfg.grace))
  }

  lemma ForwardExact(cfg: RelayConfig, g: Gate, look: Look)
    ensures CanForward(cfg, g, look) <==> MayForward(cfg, g, look)
  {
    hide StateOf;
  }

  /** A side on which a pass sends or receives passed the check just before: the
      audit was not latched, and the lease read valid, or not revoked within grace. */
  lemma MovedUnderLease(cfg: RelayConfig, s: Relay, p: Pass, side: Side, input: Pair<seq<Byte>>)
    requires DuplexOk(s.d, input, MAX_BUFFER)
    ensures var next, gate := Iterate(cfg, s, p).0, Top(cfg, s.gate, p).0;
            && (next.d.sent.At(side) != s.d.sent.At(side) ==> MayForward(cfg, gate, p.sendLooks.At(side)))
            && (next.d.received.At(side) != s.d.received.At(side) || (side in next.d.ended && side !in s.d.ended) ==>
                  MayForward(cfg, gate, p.recvLooks.At(side)))
            && (next.d != s.d ==> Top(cfg, s.gate, p).1.None?)
  {
    hide Top, Transfer, SideOk, CanForward, MayForward;
    ForwardExact(cfg, Top(cfg, s.gate, p).0, p.sendLooks.At(side));
    ForwardExact(cfg, Top(cfg, s.gate, p).0, p.recvLooks.At(side));
    var (gate, stop) := Top(cfg, s.gate, p);
    if stop.None? {
      CloseKeepsOk(s.d, input, MAX_BUFFER);
      var c := CloseDrained(s.d);
      var writable, readable := Only(SIDES, Writers(c) * p.writable), Only(SIDES, Readers(c, MAX_BUFFER) * p.readable);
      SidesDistinct(Writers(c) * p.writable);
      SidesDistinct(Readers(c, MAX_BUFFER) * p.readable);
      AllowedExact(cfg, gate, writable, p.sendLooks);
      AllowedExact(cfg, gate, readable, p.recvLooks);
      TransferKeeps(c, Allowed(cfg, gate, writable, p.sendLooks), Allowed(cfg, gate, readable, p.recvLooks),
                    p.sends, p.receives, input, MAX_BUFFER);
    }
  }

  /** A lease was read as valid and was checked no earlier than `since`. */
  ghost predicate CheckedSince(cfg: RelayConfig, file: LeaseFile, since: Clock) {
    cfg.leaseConfigured ==> file.Document? && file.doc.ok && file.doc.checked >= since
  }

  /** One look at the top: the grace clock restarts only on a lease checked at or
      after the failure, no pass goes on once the grace has run out, and the oldest
      acceptable check never moves back. */
  lemma TopKeepsGrace(cfg: RelayConfig, g: Gate, p: Pass)
    ensures var (h, end) := Top(cfg, g, p);
            && h.leaseStarted >= g.leaseStarted
            && (end.None? && h.unverified.Some? ==> p.top.now - h.lastVerified < cfg.grace && h.lastVerified == g.lastVerified)
            && (end.None? && g.unverified.Some? && h != g ==>
                  && CheckedSince(cfg, p.recheck.file, g.unverified.value)
                  && h.unverified.None? && h.leaseStarted >= g.unverified.value && h.lastVerified == p.top.now)
            && (end.None? && g.unverified.None? && h.unverified.Some? ==> h.unverified == Some(p.top.now))
  {
  }

  lemma RunStep(cfg: RelayConfig, s: Relay, passes: seq<Pass>, j: nat)
    requires j < |passes| && GatedRun(cfg, s, passes[..j]).1.None?
    ensures GatedRun(cfg, s, passes[..j + 1]) == Iterate(cfg, GatedRun(cfg, s, passes[..j]).0, passes[j])
    ensures GatedRun(cfg, s, passes[..j + 1]).0.gate == Top(cfg, GatedRun(cfg, s, passes[..j]).0.gate, passes[j]).0
    ensures GatedRun(cfg, s, passes[..j + 1]).1.None? ==> Top(cfg, GatedRun(cfg, s, passes[..j]).0.gate, passes[j]).1.None?
  {
    hide Top, Transfer, Allowed;
    var upto := passes[..j + 1];
    assert upto[..|upto| - 1] == passes[..j] && upto[|upto| - 1] == passes[j];
  }

  /** The gates a run goes through never lower the bound on lease age. */
  lemma {:induction false} BoundNeverFalls(cfg: RelayConfig, s: Relay, passes: seq<Pass>, i: nat)
    requires i <= |passes|
    ensures GatedRun(cfg, s, passes[..i]).0.gate.leaseStarted <= GatedRun(cfg, s, passes).0.gate.leaseStarted
    decreases |passes|
  {
    hide Top, Transfer;
    if i == |passes| {
      assert passes[..i] == passes;
    } else {
      var before := passes[..|passes| - 1];
      BoundNeverFalls(cfg, s, before, i);
      assert before[..i] == passes[..i];
      TopKeepsGrace(cfg, GatedRun(cfg, s, before).0.gate, passes[|passes| - 1]);
    }
  }

  /** After the relay has recovered from a failure noticed at `since`, a lease
      checked before that failure reads as revoked for the rest of the run. */
  lemma RecoveryOutdatesOldLeases(cfg: RelayConfig, s: Relay, passes: seq<Pass>, i: nat, since: Clock, doc: LeaseDoc, at: Clock)
    requires cfg.leaseConfigured && i < |passes|
    requires GatedRun(cfg, s, passes[..i]).1.None? && GatedRun(cfg, s, passes[..i]).0.gate.unverified == Some(since)
    requires var top := Top(cfg, GatedRun(cfg, s, passes[..i]).0.gate, passes[i]);
             top.1.None? && top.0.unverified.None?
    requires doc.checked < since
    ensures StateOf(cfg, Document(doc), GatedRun(cfg, s, passes).0.gate.leaseStarted, at) == Revoked
  {
    hide Top, Transfer;
    assert passes[..i + 1][..i] == passes[..i] && passes[..i + 1][i] == passes[i];
    var g := GatedRun(cfg, s, passes[..i]).0.gate;
    TopKeepsGrace(cfg, g, passes[i]);
    assert GatedRun(cfg, s, passes[..i + 1]).0.gate.leaseStarted >= since;
    BoundNeverFalls(cfg, s, passes, i + 1);
    StaleIsRevoked(cfg, doc, GatedRun(cfg, s, passes).0.gate.leaseStarted, at);
  }

  /** The relay has been unsure since the same moment over passes [i, j). */
  ghost predicate Uncertain(cfg: RelayConfig, s: Relay, passes: seq<Pass>, i: nat, j: nat)
    requires i <= j <= |passes|
  {
    forall k :: i <= k <= j ==> GatedRun(cfg, s, passes[..k]).1.None? && GatedRun(cfg, s, passes[..k]).0.gate.unverified.Some?
  }

  /** While the relay stays uncertain its last verification stands still, the
      moment of failure too, and every pass it goes through is within grace of it. */
  lemma {:induction false} UncertaintyIsBounded(cfg: RelayConfig, s: Relay, passes: seq<Pass>, i: nat, j: nat)
    requires i <= j <= |passes| && Uncertain(cfg, s, passes, i, j)
    ensures var g, h := GatedRun(cfg, s, passes[..i]).0.gate, GatedRun(cfg, s, passes[..j]).0.gate;
            h.lastVerified == g.lastVerified && h.unverified == g.unverified
            && forall k :: i <= k < j ==> passes[k].top.now - g.lastVerified < cfg.grace
    decreases j
  {
    hide Top, Transfer, Iterate, GatedRun;
    if i < j {
      assert Uncertain(cfg, s, passes, i, j - 1);
      UncertaintyIsBounded(cfg, s, passes, i, j - 1);
      assert GatedRun(cfg, s, passes[..j - 1]).1.None? && GatedRun(cfg, s, passes[..j - 1]).0.gate.unverified.Some?;
      assert GatedRun(cfg, s, passes[..j]).1.None? && GatedRun(cfg, s, passes[..j]).0.gate.unverified.Some?;
      RunStep(cfg, s, passes, j - 1);
      TopKeepsGrace(cfg, GatedRun(cfg, s, passes[..j - 1]).0.gate, passes[j - 1]);
    }
  }
}
