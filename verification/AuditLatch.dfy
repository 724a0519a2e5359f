/** The relay's audit log, whose first failed write is remembered for good, and
    what that failure does to established relays. */
module AuditLatch {
  import opened Wire
  import opened ExitLease
  import opened RelayCore
  import opened RelayLoops

  /** The lines a run of writes leaves, and whether the failure latched. */
  function Logged(lines: seq<string>, failed: bool, records: seq<string>, storage: seq<Append>): (seq<string>, bool)
    requires |records| == |storage|
  {
    if records == [] then (lines, failed)
    else
      var n := |records| - 1;
      var (before, latched) := Logged(lines, failed, records[..n], storage[..n]);
      if latched then (before, true)
      else (if storage[n].Lost? then before else before + [records[n]], !storage[n].Written?)
  }

  class Audit {
    var lines: seq<string>
    var failed: bool

    constructor ()
      ensures lines == [] && !failed
    {
      lines, failed := [], false;
    }

    method Write(record: string, storage: Append) returns (ok: bool)
      modifies this
      ensures ok == (!old(failed) && storage.Written?) && failed == !ok
      ensures lines == if old(failed) || storage.Lost? then old(lines) else old(lines) + [record]
    {
      if failed {
        return false;
      }
      if !storage.Lost? {
        lines := lines + [record];
      }
      failed := !storage.Written?;
      return !failed;
    }

    /** A run of writes by any number of sessions, in lock order. */
    method WriteAll(records: seq<string>, storage: seq<Append>)
      requires |records| == |storage|
      modifies this
      ensures (lines, failed) == Logged(old(lines), old(failed), records, storage)
    {
      for i := 0 to |records|
        invariant (lines, failed) == Logged(old(lines), old(failed), records[..i], storage[..i])
      {
        assert records[..i + 1][..i] == records[..i] && storage[..i + 1][..i] == storage[..i];
        var _ := Write(records[i], storage[i]);
      }
      assert records[..|records|] == records && storage[..|storage|] == storage;
    }
  }

  /** From the first failure at write `i` on, the log stands still and every write is refused. */
  lemma {:induction false} FailureLatches(records: seq<string>, storage: seq<Append>, i: nat)
    requires |records| == |storage| && i < |records| && !storage[i].Written?
    requires forall j :: 0 <= j < i ==> storage[j].Written?
    ensures Logged([], false, records, storage)
            == (if storage[i].Lost? then records[..i] else records[..i + 1], true)
  {
    var n := |records| - 1;
    if i < n {
      assert records[..n][..i] == records[..i] && records[..n][..i + 1] == records[..i + 1];
      FailureLatches(records[..n], storage[..n], i);
    } else {
      AllWritten(records[..n], storage[..n]);
      assert records[..i + 1] == records[..n] + [records[n]];
    }
  }

  lemma {:induction false} AllWritten(records: seq<string>, storage: seq<Append>)
    requires |records| == |storage| && forall j :: 0 <= j < |storage| ==> storage[j].Written?
    ensures Logged([], false, records, storage) == (records, false)
  {
    if records != [] {
      var n := |records| - 1;
      AllWritten(records[..n], storage[..n]);
      assert storage[n].Written? && records == records[..n] + [records[n]];
    }
  }

  /** Some look of the pass saw the latch set. */
  predicate SawFailure(p: Pass) {
    p.top.auditFailed || p.sendLooks.client.auditFailed || p.sendLooks.parent.auditFailed
    || p.recvLooks.client.auditFailed || p.recvLooks.parent.auditFailed
  }

  /** A latch once seen set is seen set at the top of every later pass. */
  ghost predicate Latched(passes: seq<Pass>) {
    forall i, j :: 0 <= i < j < |passes| && SawFailure(passes[i]) ==> passes[j].top.auditFailed
  }

  /** How many writes the log has taken when each look of a pass reads the latch. */
  datatype Moments = Moments(top: nat, sends: Pair<nat>, receives: Pair<nat>)

  predicate FailedAfter(records: seq<string>, storage: seq<Append>, m: nat)
    requires m <= |records| == |storage|
  {
    Logged([], false, records[..m], storage[..m]).1
  }

  predicate Within(ms: Moments, m: nat) {
    ms.top <= m && ms.sends.client <= m && ms.sends.parent <= m && ms.receives.client <= m && ms.receives.parent <= m
  }

  /** Each look of the pass reads the latch as the writes so far have left it. */
  predicate ReadsLatch(p: Pass, ms: Moments, records: seq<string>, storage: seq<Append>)
    requires |records| == |storage|
  {
    && Within(ms, |records|)
    && p.top.auditFailed == FailedAfter(records, storage, ms.top)
    && p.sendLooks.client.auditFailed == FailedAfter(records, storage, ms.sends.client)
    && p.sendLooks.parent.auditFailed == FailedAfter(records, storage, ms.sends.parent)
    && p.recvLooks.client.auditFailed == FailedAfter(records, storage, ms.receives.client)
    && p.recvLooks.parent.auditFailed == FailedAfter(records, storage, ms.receives.parent)
  }

  /** Every look of a run reads one log, and no pass looks before an earlier one did. */
  ghost predicate ReadsLog(passes: seq<Pass>, moments: seq<Moments>, records: seq<string>, storage: seq<Append>) {
    && |moments| == |passes| && |records| == |storage|
    && (forall i :: 0 <= i < |passes| ==> ReadsLatch(passes[i], moments[i], records, storage))
    && (forall i, j :: 0 <= i < j < |passes| ==> Within(moments[i], moments[j].top))
  }

  lemma {:induction false} LatchStays(records: seq<string>, storage: seq<Append>, m: nat, n: nat)
    requires m <= n <= |records| == |storage| && FailedAfter(records, storage, m)
    ensures FailedAfter(records, storage, n)
    decreases n
  {
    if m < n {
      LatchStays(records, storage, m, n - 1);
      assert records[..n][..n - 1] == records[..n - 1] && storage[..n][..n - 1] == storage[..n - 1];
    }
  }

  /** The log's own latch is what makes a failure once seen stay seen. */
  lemma LogKeepsLatch(passes: seq<Pass>, moments: seq<Moments>, records: seq<string>, storage: seq<Append>)
    requires ReadsLog(passes, moments, records, storage)
    ensures Latched(passes)
  {
    hide FailedAfter;
    forall i, j | 0 <= i < j < |passes| && SawFailure(passes[i]) ensures passes[j].top.auditFailed {
      assert ReadsLatch(passes[i], moments[i], records, storage) && ReadsLatch(passes[j], moments[j], records, storage);
      assert Within(moments[i], moments[j].top);
      forall m: nat | m <= moments[j].top && FailedAfter(records, storage, m) ensures FailedAfter(records, storage, moments[j].top) {
        LatchStays(records, storage, m, moments[j].top);
      }
    }
  }

  /** A relay ends at the latest one pass after the failure, having moved nothing since that pass. */
  lemma FailureStopsRelay(cfg: RelayConfig, s: Relay, passes: seq<Pass>, i: nat,
                          moments: seq<Moments>, records: seq<string>, storage: seq<Append>)
    requires ReadsLog(passes, moments, records, storage) && i + 1 < |passes| && SawFailure(passes[i])
    ensures GatedRun(cfg, s, passes).0 == GatedRun(cfg, s, passes[..i + 1]).0
    ensures GatedRun(cfg, s, passes).1 ==
            if GatedRun(cfg, s, passes[..i + 1]).1.Some? then GatedRun(cfg, s, passes[..i + 1]).1 else Some(AuditUnavailable)
  {
    hide Iterate, SawFailure, ReadsLog;
    LogKeepsLatch(passes, moments, records, storage);
    if GatedRun(cfg, s, passes[..i + 1]).1.Some? {
      GatedStays(cfg, s, passes, i + 1);
    } else {
      assert passes[..i + 2][..i + 1] == passes[..i + 1] && passes[..i + 2][i + 1] == passes[i + 1];
      FailedTop(cfg, GatedRun(cfg, s, passes[..i + 1]).0, passes[i + 1]);
      GatedStays(cfg, s, passes, i + 2);
    }
  }

  lemma FailedTop(cfg: RelayConfig, s: Relay, p: Pass)
    requires p.top.auditFailed
    ensures Iterate(cfg, s, p) == (s, Some(AuditUnavailable))
  {
    hide Transfer, Allowed;
  }
}
