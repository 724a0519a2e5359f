/** Both relay loops end on every finite input, once the clock moves on whenever
    nothing else does. */
module RelayEnds {
  import opened Wire
  import opened RelayCore
  import opened ExitLease
  import opened RelayLoops
  import opened RelayProofs

  /** Work left, weighed so that one unit outlasts the whole idle allowance, plus idle time left. */
  function Potential(idleTimeout: Clock, d: Duplex, now: Clock): int {
    Work(d) * (idleTimeout + 1) + idleTimeout - (now - d.lastActivity)
  }

  /** A pass at `now` from `d` to `e`, followed by one at `later`, did work or let time go by. */
  predicate Spends(idleTimeout: Clock, d: Duplex, e: Duplex, now: Clock, later: Clock) {
    && now <= later && e.lastActivity <= later && now - d.lastActivity < idleTimeout
    && ((Idled(d, e) && Work(e) == Work(d) && now < later) || Work(e) < Work(d))
  }

  lemma {:induction false} MulMonotone(a: nat, b: nat, unit: int)
    requires a <= b && unit > 0
    ensures a * unit <= b * unit
    decreases b
  {
    if a < b {
      MulMonotone(a, b - 1, unit);
      assert b * unit == (b - 1) * unit + unit;
    }
  }

  lemma WorkWeight(before: nat, after: nat, unit: int)
    requires after < before && unit > 0
    ensures after * unit <= before * unit - unit
  {
    assert (before - 1) * unit == before * unit - unit;
    MulMonotone(after, before - 1, unit);
  }

  lemma PotentialStep(idleTimeout: Clock, d: Duplex, e: Duplex, now: Clock, later: Clock)
    requires idleTimeout > 0 && Spends(idleTimeout, d, e, now, later)
    ensures Potential(idleTimeout, e, later) + 1 <= Potential(idleTimeout, d, now)
  {
    hide Work;
    if Work(e) < Work(d) {
      WorkWeight(Work(d), Work(e), idleTimeout + 1);
    }
  }

  /** Passes that each spend something use up the potential one by one. */
  lemma {:induction false} PotentialFalls(idleTimeout: Clock, states: seq<Duplex>, times: seq<Clock>)
    requires idleTimeout > 0 && 0 < |states| == |times|
    requires forall i :: 0 <= i < |states| - 1 ==> Spends(idleTimeout, states[i], states[i + 1], times[i], times[i + 1])
    ensures Potential(idleTimeout, states[|states| - 1], times[|times| - 1]) + |states| - 1 <= Potential(idleTimeout, states[0], times[0])
  {
    hide Potential, Spends;
    var n := |states| - 1;
    if n > 0 {
      assert forall i :: 0 <= i < n ==> states[..n][i] == states[i] && times[..n][i] == times[i];
      PotentialFalls(idleTimeout, states[..n], times[..n]);
      PotentialStep(idleTimeout, states[n - 1], states[n], times[n - 1], times[n]);
    }
  }

  /** The passes a finite input leaves room for. */
  function PassBound(idleTimeout: Clock, input: Pair<seq<Byte>>): int {
    (2 * (|input.client| + |input.parent|) + 2) * (idleTimeout + 1) + idleTimeout
  }

  lemma SpendingIsBounded(idleTimeout: Clock, input: Pair<seq<Byte>>, now: Clock, states: seq<Duplex>, times: seq<Clock>)
    requires idleTimeout > 0 && 0 < |states| == |times| && states[0] == Opened(input, now) && times[0] >= now
    requires forall i :: 0 <= i < |states| - 1 ==> Spends(idleTimeout, states[i], states[i + 1], times[i], times[i + 1])
    requires times[|times| - 1] - states[|states| - 1].lastActivity < idleTimeout
    ensures |states| <= PassBound(idleTimeout, input)
  {
    hide Work, Spends;
    PotentialFalls(idleTimeout, states, times);
    MulMonotone(0, Work(states[|states| - 1]), idleTimeout + 1);
    assert Work(states[0]) == 2 * (|input.client| + |input.parent|) + 2 by { OpenedWork(input, now); }
  }

  lemma OpenedWork(input: Pair<seq<Byte>>, now: Clock)
    ensures Work(Opened(input, now)) == 2 * (|input.client| + |input.parent|) + 2
  {
  }

  lemma CloseWork(d: Duplex)
    ensures Work(CloseDrained(d)) == Work(d) && CloseDrained(d).lastActivity == d.lastActivity
    ensures Idled(d, CloseDrained(d))
  {
  }

  /** Every clock reading of a pass is made by `later`, and `later` is past `now` if nothing happened. */
  predicate ClockMoves(now: Clock, sends: Pair<Attempt>, receives: Pair<Attempt>, later: Clock, idled: bool) {
    && sends.client.at <= later && sends.parent.at <= later && receives.client.at <= later && receives.parent.at <= later
    && now <= later && (idled ==> now < later)
  }

  // ---- the gated loop ----

  ghost predicate GatedClock(cfg: RelayConfig, s: Relay, passes: seq<Pass>) {
    forall i :: 0 <= i < |passes| - 1 ==>
      ClockMoves(passes[i].now, passes[i].sends, passes[i].receives, passes[i + 1].now,
                 Idled(GatedRun(cfg, s, passes[..i]).0.d, GatedRun(cfg, s, passes[..i + 1]).0.d))
  }

  lemma GatedPassSpends(cfg: RelayConfig, s: Relay, p: Pass, later: Clock, input: Pair<seq<Byte>>)
    requires Iterate(cfg, s, p).1.None? && DuplexOk(s.d, input, MAX_BUFFER) && s.d.lastActivity <= p.now
    requires ClockMoves(p.now, p.sends, p.receives, later, Idled(s.d, Iterate(cfg, s, p).0.d))
    ensures Spends(cfg.idleTimeout, s.d, Iterate(cfg, s, p).0.d, p.now, later)
  {
    hide Top, Transfer, CanForward, Work;
    var gate, c := Top(cfg, s.gate, p).0, CloseDrained(s.d);
    var writable, readable := Only(SIDES, Writers(c) * p.writable), Only(SIDES, Readers(c, MAX_BUFFER) * p.readable);
    SidesDistinct(Readers(c, MAX_BUFFER) * p.readable);
    AllowedExact(cfg, gate, readable, p.recvLooks);
    TransferProgress(c, Allowed(cfg, gate, writable, p.sendLooks), Allowed(cfg, gate, readable, p.recvLooks), p.sends, p.receives, MAX_BUFFER, later);
    CloseWork(s.d);
  }

  lemma StillRunning(cfg: RelayConfig, s: Relay, passes: seq<Pass>, n: nat)
    requires n < |passes| && GatedRun(cfg, s, passes[..n + 1]).1.None?
    ensures GatedRun(cfg, s, passes[..n]).1.None?
    ensures passes[n].now - GatedRun(cfg, s, passes[..n]).0.d.lastActivity < cfg.idleTimeout
  {
    hide Top, Transfer;
    var upto := passes[..n + 1];
    assert upto[..n] == passes[..n];
  }

  /** Each pass of a run that goes on spends something. */
  lemma {:induction false} GatedRunSpends(cfg: RelayConfig, input: Pair<seq<Byte>>, leaseStarted: Clock, now: Clock, passes: seq<Pass>, n: nat)
    requires n < |passes| && passes[0].now >= now
    requires GatedClock(cfg, Begin(input, leaseStarted, now), passes)
    requires GatedRun(cfg, Begin(input, leaseStarted, now), passes[..n + 1]).1.None?
    ensures var s := Begin(input, leaseStarted, now);
            && GatedRun(cfg, s, passes[..n]).0.d.lastActivity <= passes[n].now
            && (n + 1 < |passes| ==>
                  Spends(cfg.idleTimeout, GatedRun(cfg, s, passes[..n]).0.d, GatedRun(cfg, s, passes[..n + 1]).0.d, passes[n].now, passes[n + 1].now))
  {
    hide Iterate, SideOk, Work, Spends, Idled, ClockMoves;
    var s := Begin(input, leaseStarted, now);
    StillRunning(cfg, s, passes, n);
    if n > 0 {
      GatedRunSpends(cfg, input, leaseStarted, now, passes, n - 1);
      SpentInTime(cfg.idleTimeout, GatedRun(cfg, s, passes[..n - 1]).0.d, GatedRun(cfg, s, passes[..n]).0.d, passes[n - 1].now, passes[n].now);
    }
    if n + 1 < |passes| {
      RunStep(cfg, s, passes, n);
      GatedRunDelivers(cfg, input, leaseStarted, now, passes[..n]);
      GatedPassSpends(cfg, GatedRun(cfg, s, passes[..n]).0, passes[n], passes[n + 1].now, input);
    }
  }

  lemma SpentInTime(idleTimeout: Clock, d: Duplex, e: Duplex, now: Clock, later: Clock)
    requires Spends(idleTimeout, d, e, now, later)
    ensures e.lastActivity <= later
  {
  }

  lemma {:induction false} PrefixRuns(cfg: RelayConfig, s: Relay, passes: seq<Pass>, n: nat)
    requires n <= |passes| && GatedRun(cfg, s, passes).1.None?
    ensures GatedRun(cfg, s, passes[..n]).1.None?
    decreases |passes| - n
  {
    hide Iterate;
    if n == |passes| {
      assert passes[..n] == passes;
    } else {
      PrefixRuns(cfg, s, passes, n + 1);
      StillRunning(cfg, s, passes, n);
    }
  }

  /** The gated loop ends: a run that goes on has no more passes than the work
      there is, times the idle allowance plus one, plus the allowance. */
  lemma GatedRunEnds(cfg: RelayConfig, input: Pair<seq<Byte>>, leaseStarted: Clock, now: Clock, passes: seq<Pass>)
    requires ValidConfig(cfg) && passes != [] && passes[0].now >= now
    requires GatedClock(cfg, Begin(input, leaseStarted, now), passes)
    requires GatedRun(cfg, Begin(input, leaseStarted, now), passes).1.None?
    ensures |passes| <= PassBound(cfg.idleTimeout, input)
  {
    hide Iterate, Work, GatedClock, Spends, PassBound, GatedRun;
    var s := Begin(input, leaseStarted, now);
    var states := seq(|passes|, i requires 0 <= i < |passes| => GatedRun(cfg, s, passes[..i]).0.d);
    var times := seq(|passes|, i requires 0 <= i < |passes| => passes[i].now);
    forall i | 0 <= i < |passes| - 1 ensures Spends(cfg.idleTimeout, states[i], states[i + 1], times[i], times[i + 1]) {
      PrefixRuns(cfg, s, passes, i + 1);
      GatedRunSpends(cfg, input, leaseStarted, now, passes, i);
    }
    PrefixRuns(cfg, s, passes, |passes|);
    StillRunning(cfg, s, passes, |passes| - 1);
    assert GatedRun(cfg, s, passes[..0]).0 == s by { NothingRun(cfg, s, passes); }
    SpendingIsBounded(cfg.idleTimeout, input, now, states, times);
  }

  lemma NothingRun(cfg: RelayConfig, s: Relay, passes: seq<Pass>)
    ensures GatedRun(cfg, s, passes[..0]) == (s, None)
  {
  }

  // ---- the ungated loop ----

  ghost predicate PlainClock(d: Duplex, idleTimeout: Clock, limit: nat, passes: seq<PlainPass>) {
    forall i :: 0 <= i < |passes| - 1 ==>
      ClockMoves(passes[i].now, passes[i].sends, passes[i].receives, passes[i + 1].now,
                 Idled(PlainRun(d, idleTimeout, limit, passes[..i]).0, PlainRun(d, idleTimeout, limit, passes[..i + 1]).0))
  }

  lemma PlainPassSpends(d: Duplex, idleTimeout: Clock, limit: nat, p: PlainPass, later: Clock)
    requires PlainIterate(d, idleTimeout, limit, p).1.None? && d.lastActivity <= p.now
    requires ClockMoves(p.now, p.sends, p.receives, later, Idled(d, PlainIterate(d, idleTimeout, limit, p).0))
    ensures Spends(idleTimeout, d, PlainIterate(d, idleTimeout, limit, p).0, p.now, later)
  {
    hide Transfer, Work;
    var c := CloseDrained(d);
    SidesDistinct(Readers(c, limit) * p.readable);
    TransferProgress(c, Only(SIDES, Writers(c) * p.writable), Only(SIDES, Readers(c, limit) * p.readable), p.sends, p.receives, limit, later);
    CloseWork(d);
  }

  lemma PlainStep(d: Duplex, idleTimeout: Clock, limit: nat, passes: seq<PlainPass>, n: nat)
    requires n < |passes| && PlainRun(d, idleTimeout, limit, passes[..n + 1]).1.None?
    ensures PlainRun(d, idleTimeout, limit, passes[..n]).1.None?
    ensures PlainRun(d, idleTimeout, limit, passes[..n + 1])
            == PlainIterate(PlainRun(d, idleTimeout, limit, passes[..n]).0, idleTimeout, limit, passes[n])
    ensures passes[n].now - PlainRun(d, idleTimeout, limit, passes[..n]).0.lastActivity < idleTimeout
  {
    hide Transfer;
    var upto := passes[..n + 1];
    assert upto[..n] == passes[..n];
  }

  lemma {:induction false} PlainRunSpends(d: Duplex, idleTimeout: Clock, limit: nat, passes: seq<PlainPass>, n: nat)
    requires n < |passes| && passes[0].now >= d.lastActivity && PlainClock(d, idleTimeout, limit, passes)
    requires PlainRun(d, idleTimeout, limit, passes[..n + 1]).1.None?
    ensures PlainRun(d, idleTimeout, limit, passes[..n]).0.lastActivity <= passes[n].now
    ensures n + 1 < |passes| ==>
              Spends(idleTimeout, PlainRun(d, idleTimeout, limit, passes[..n]).0, PlainRun(d, idleTimeout, limit, passes[..n + 1]).0,
                     passes[n].now, passes[n + 1].now)
  {
    hide PlainIterate, Work, Spends, Idled, ClockMoves;
    PlainStep(d, idleTimeout, limit, passes, n);
    if n > 0 {
      PlainRunSpends(d, idleTimeout, limit, passes, n - 1);
      SpentInTime(idleTimeout, PlainRun(d, idleTimeout, limit, passes[..n - 1]).0, PlainRun(d, idleTimeout, limit, passes[..n]).0,
                  passes[n - 1].now, passes[n].now);
    }
    if n + 1 < |passes| {
      PlainPassSpends(PlainRun(d, idleTimeout, limit, passes[..n]).0, idleTimeout, limit, passes[n], passes[n + 1].now);
    }
  }

  lemma {:induction false} PlainPrefixRuns(d: Duplex, idleTimeout: Clock, limit: nat, passes: seq<PlainPass>, n: nat)
    requires n <= |passes| && PlainRun(d, idleTimeout, limit, passes).1.None?
    ensures PlainRun(d, idleTimeout, limit, passes[..n]).1.None?
    decreases |passes| - n
  {
    hide PlainIterate;
    if n == |passes| {
      assert passes[..n] == passes;
    } else {
      PlainPrefixRuns(d, idleTimeout, limit, passes, n + 1);
      PlainStep(d, idleTimeout, limit, passes, n);
    }
  }

  /** The ungated loop ends too, within the same bound and for every buffer limit. */
  lemma PlainRunEnds(input: Pair<seq<Byte>>, now: Clock, idleTimeout: Clock, limit: nat, passes: seq<PlainPass>)
    requires idleTimeout > 0 && passes != [] && passes[0].now >= now
    requires PlainClock(Opened(input, now), idleTimeout, limit, passes)
    requires PlainRun(Opened(input, now), idleTimeout, limit, passes).1.None?
    ensures |passes| <= PassBound(idleTimeout, input)
  {
    hide PlainIterate, Work, PlainClock, Spends, PassBound, PlainRun;
    var d := Opened(input, now);
    var states := seq(|passes|, i requires 0 <= i < |passes| => PlainRun(d, idleTimeout, limit, passes[..i]).0);
    var times := seq(|passes|, i requires 0 <= i < |passes| => passes[i].now);
    forall i | 0 <= i < |passes| - 1 ensures Spends(idleTimeout, states[i], states[i + 1], times[i], times[i + 1]) {
      PlainPrefixRuns(d, idleTimeout, limit, passes, i + 1);
      PlainRunSpends(d, idleTimeout, limit, passes, i);
    }
    PlainPrefixRuns(d, idleTimeout, limit, passes, |passes|);
    PlainStep(d, idleTimeout, limit, passes, |passes| - 1);
    assert PlainRun(d, idleTimeout, limit, passes[..0]).0 == d by { NothingPlain(d, idleTimeout, limit, passes); }
    SpendingIsBounded(idleTimeout, input, now, states, times);
  }

  lemma NothingPlain(d: Duplex, idleTimeout: Clock, limit: nat, passes: seq<PlainPass>)
    ensures PlainRun(d, idleTimeout, limit, passes[..0]) == (d, None)
  {
  }
}
