/** One refresh round of the exit monitor, and how relays read what it publishes. */
module ExitMonitor {
  import opened Wire
  import opened RelayCore
  import opened ExitLease
  import opened RelayLoops

  datatype MonitorConfig = MonitorConfig(expectedExit: string, parentHost: string, parentPort: int, probeCount: nat,
                                         second: nat, leaseTicks: Clock)

  /** The bounds a monitor configuration is validated against. */
  predicate ValidMonitor(m: MonitorConfig) {
    1 <= m.probeCount <= 4 && m.second > 0 && 0 < m.leaseTicks <= LEASE_SECONDS * m.second
  }

  predicate Matched(m: MonitorConfig, p: Probe) { p.ok && p.observed == Some(m.expectedExit) }

  predicate AllMatched(m: MonitorConfig, outcomes: seq<Probe>) {
    forall i :: 0 <= i < |outcomes| ==> Matched(m, outcomes[i])
  }

  function RecordOf(m: MonitorConfig, bootId: string, results: seq<Probe>, ok: bool, reason: Reason, now: Clock): LeaseDoc {
    LeaseDoc(1, ok, m.parentHost, m.parentPort, m.expectedExit, if ok then Some(m.expectedExit) else None, bootId,
             now, now + m.leaseTicks, reason, results)
  }

  function Verdict(m: MonitorConfig, bootId: string, results: seq<Probe>, ok: bool, now: Clock): LeaseDoc {
    RecordOf(m, bootId, results, ok, if ok then AllProbesMatched else ProbeFailure, now)
  }

  /** The records published while the first `k` probes complete: one per failure. */
  function Warnings(m: MonitorConfig, bootId: string, outcomes: seq<Probe>, clock: nat -> Clock, k: nat): seq<LeaseDoc>
    requires k <= |outcomes|
  {
    if k == 0 then []
    else if Matched(m, outcomes[k - 1]) then Warnings(m, bootId, outcomes, clock, k - 1)
    else Warnings(m, bootId, outcomes, clock, k - 1) + [Verdict(m, bootId, outcomes[..k], false, clock(k - 1))]
  }

  function Final(m: MonitorConfig, bootId: string, outcomes: seq<Probe>, clock: nat -> Clock): LeaseDoc {
    Verdict(m, bootId, outcomes, AllMatched(m, outcomes) && |outcomes| == m.probeCount, clock(|outcomes|))
  }

  /** One round: `outcomes` in completion order, `clock(i)` read when the i-th record is made. */
  method Refresh(m: MonitorConfig, bootId: string, ready: bool, outcomes: seq<Probe>, clock: nat -> Clock)
    returns (final: LeaseDoc, published: seq<LeaseDoc>)
    requires ValidMonitor(m) && |outcomes| == m.probeCount
    ensures !ready ==> final == RecordOf(m, bootId, [], false, RuntimeNotReady, clock(0)) && published == [final]
    ensures ready ==> final == Final(m, bootId, outcomes, clock)
                      && published == Warnings(m, bootId, outcomes, clock, |outcomes|) + [final]
  {
    if !ready {
      final := RecordOf(m, bootId, [], false, RuntimeNotReady, clock(0));
      return final, [final];
    }
    var results: seq<Probe> := [];
    var failed := false;
    published := [];
    for i := 0 to |outcomes|
      invariant results == outcomes[..i]
      invariant failed <==> !AllMatched(m, outcomes[..i])
      invariant published == Warnings(m, bootId, outcomes, clock, i)
    {
      var result := outcomes[i];
      assert outcomes[..i + 1] == outcomes[..i] + [result];
      var valid := result.ok && result.observed == Some(m.expectedExit);
      results := results + [result];
      if !valid {
        assert !Matched(m, outcomes[..i + 1][i]);
        failed := true;
        published := published + [Verdict(m, bootId, results, false, clock(i))];
      } else {
        assert failed ==> !AllMatched(m, outcomes[..i + 1]) by {
          if failed {
            var j :| 0 <= j < i && !Matched(m, outcomes[..i][j]);
            assert outcomes[..i + 1][j] == outcomes[..i][j];
          }
        }
      }
    }
    assert outcomes[..|outcomes|] == outcomes;
    final := Verdict(m, bootId, results, !failed && |results| == m.probeCount, clock(|outcomes|));
    published := published + [final];
  }

  /** A relay that trusts this monitor's exit, parent and boot. */
  predicate Trusts(cfg: RelayConfig, m: MonitorConfig, bootId: string) {
    && cfg.leaseConfigured && cfg.expectedExit == m.expectedExit && cfg.bootId == bootId
    && cfg.parentHost == m.parentHost && cfg.parentPort == m.parentPort && cfg.second == m.second
  }

  /** A probe saw some other address. */
  predicate Mismatched(m: MonitorConfig, p: Probe) { p.observed.Some? && p.observed != Some(m.expectedExit) }

  /** The i-th published record of a round is made once `made(i)` probes have completed. */
  ghost predicate MadeAfter(m: MonitorConfig, bootId: string, outcomes: seq<Probe>, doc: LeaseDoc, k: nat) {
    0 < k <= |outcomes| && doc.probes == outcomes[..k]
    && (doc.ok ==> k == |outcomes| && AllMatched(m, outcomes))
    && (!doc.ok ==> !AllMatched(m, outcomes[..k]) && doc.observedExit.None? && doc.reason == ProbeFailure)
    && doc == RecordOf(m, bootId, outcomes[..k], doc.ok, doc.reason, doc.checked)
  }

  lemma {:induction false} WarningsMade(m: MonitorConfig, bootId: string, outcomes: seq<Probe>, clock: nat -> Clock, k: nat, doc: LeaseDoc)
    requires k <= |outcomes| && doc in Warnings(m, bootId, outcomes, clock, k)
    ensures exists j: nat :: j <= k && MadeAfter(m, bootId, outcomes, doc, j) && !doc.ok
  {
    if k > 0 {
      if doc in Warnings(m, bootId, outcomes, clock, k - 1) {
        WarningsMade(m, bootId, outcomes, clock, k - 1, doc);
      } else {
        assert !Matched(m, outcomes[..k][k - 1]);
        assert MadeAfter(m, bootId, outcomes, doc, k);
      }
    }
  }

  /** One failing record over the first `n` outcomes, made when the n-th probe completed. */
  predicate Warns(m: MonitorConfig, bootId: string, outcomes: seq<Probe>, clock: nat -> Clock, doc: LeaseDoc, n: nat)
    requires 1 <= n <= |outcomes|
  {
    && doc.schema == 1 && !doc.ok && doc.observedExit == None && doc.reason == ProbeFailure && doc.probes == outcomes[..n]
    && doc.expectedExit == m.expectedExit && doc.parentHost == m.parentHost && doc.parentPort == m.parentPort
    && doc.bootId == bootId && doc.checked == clock(n - 1) && doc.expires == clock(n - 1) + m.leaseTicks
  }

  /** Before the final record, each probe that failed or saw another address gives one
      failing record, in completion order, and no other record is made. */
  lemma {:induction false} WarningsExact(m: MonitorConfig, bootId: string, outcomes: seq<Probe>, clock: nat -> Clock, k: nat)
    requires k <= |outcomes|
    ensures var w := Warnings(m, bootId, outcomes, clock, k);
            && (forall i :: 0 <= i < |w| ==> 1 <= |w[i].probes| <= k && Warns(m, bootId, outcomes, clock, w[i], |w[i].probes|))
            && (forall i, j :: 0 <= i < j < |w| ==> |w[i].probes| < |w[j].probes|)
            && (forall n :: 0 <= n < k ==>
                  ((exists i :: 0 <= i < |w| && |w[i].probes| == n + 1) <==> !(outcomes[n].ok && outcomes[n].observed == Some(m.expectedExit))))
  {
    if k > 0 {
      WarningsExact(m, bootId, outcomes, clock, k - 1);
      var before, w := Warnings(m, bootId, outcomes, clock, k - 1), Warnings(m, bootId, outcomes, clock, k);
      if !Matched(m, outcomes[k - 1]) {
        assert |w[|before|].probes| == k;
        assert forall i :: 0 <= i < |before| ==> w[i] == before[i];
      }
    }
  }

  /** The final record is ok exactly when every probe matched, in every completion order. */
  lemma FinalIsUnanimous(m: MonitorConfig, bootId: string, outcomes: seq<Probe>, clock: nat -> Clock, cfg: RelayConfig, newerThan: Clock, now: Clock)
    requires ValidMonitor(m) && |outcomes| == m.probeCount && Trusts(cfg, m, bootId)
    ensures var final := Final(m, bootId, outcomes, clock);
            && (final.ok <==> forall i :: 0 <= i < |outcomes| ==> outcomes[i].ok && outcomes[i].observed == Some(m.expectedExit))
            && final.checked == clock(|outcomes|) && final.expires == final.checked + m.leaseTicks && final.probes == outcomes
            && final.reason == (if final.ok then AllProbesMatched else ProbeFailure)
            && (final.ok ==>
                  StateOf(cfg, Document(final), newerThan, now) ==
                  if !(newerThan <= final.checked <= now) then Revoked
                  else if now < final.expires then Valid else Expired)
  {
  }

  /** Every published record of a round, its final one included, is made over a prefix of the outcomes. */
  lemma PublishedMade(m: MonitorConfig, bootId: string, outcomes: seq<Probe>, clock: nat -> Clock, doc: LeaseDoc)
    requires ValidMonitor(m) && |outcomes| == m.probeCount
    requires doc in Warnings(m, bootId, outcomes, clock, |outcomes|) + [Final(m, bootId, outcomes, clock)]
    ensures exists k: nat :: MadeAfter(m, bootId, outcomes, doc, k)
  {
    if doc in Warnings(m, bootId, outcomes, clock, |outcomes|) {
      WarningsMade(m, bootId, outcomes, clock, |outcomes|, doc);
    } else {
      assert outcomes[..|outcomes|] == outcomes;
      assert MadeAfter(m, bootId, outcomes, doc, |outcomes|);
    }
  }

  /** Once a probe of the round has failed, no published record of it reads as valid. */
  lemma FailureIsNeverValid(m: MonitorConfig, bootId: string, outcomes: seq<Probe>, clock: nat -> Clock, doc: LeaseDoc,
                            cfg: RelayConfig, newerThan: Clock, now: Clock)
    requires ValidMonitor(m) && |outcomes| == m.probeCount && Trusts(cfg, m, bootId)
    requires !AllMatched(m, outcomes)
    requires doc in Warnings(m, bootId, outcomes, clock, |outcomes|) + [Final(m, bootId, outcomes, clock)]
    ensures StateOf(cfg, Document(doc), newerThan, now) != Valid
  {
    PublishedMade(m, bootId, outcomes, clock, doc);
  }

  /** Once a probe has seen another address, every record published from then on
      reads as revoked, whenever and by whichever relay. */
  lemma MismatchIsRevoked(m: MonitorConfig, bootId: string, outcomes: seq<Probe>, clock: nat -> Clock, doc: LeaseDoc, k: nat, i: nat,
                          cfg: RelayConfig, newerThan: Clock, now: Clock)
    requires Trusts(cfg, m, bootId) && MadeAfter(m, bootId, outcomes, doc, k)
    requires i < k && Mismatched(m, outcomes[i])
    ensures StateOf(cfg, Document(doc), newerThan, now) == Revoked
  {
    assert doc.probes[i] == outcomes[i];
  }

  /** A round whose failures are all errors reads as probe-failed, never as a revocation, while the record is current. */
  lemma ErrorsAreUncertainty(m: MonitorConfig, bootId: string, outcomes: seq<Probe>, doc: LeaseDoc, k: nat,
                             cfg: RelayConfig, newerThan: Clock, now: Clock)
    requires ValidMonitor(m) && Trusts(cfg, m, bootId) && MadeAfter(m, bootId, outcomes, doc, k) && !doc.ok
    requires forall i :: 0 <= i < k ==> !Mismatched(m, outcomes[i])
    requires newerThan <= doc.checked <= now
    ensures StateOf(cfg, Document(doc), newerThan, now) == ProbeFailed
  {
    assert forall i :: 0 <= i < k ==> doc.probes[i] == outcomes[i];
  }

  /** A runtime that is not ready publishes a record every relay reads as revoked. */
  lemma NotReadyIsRevoked(m: MonitorConfig, bootId: string, at: Clock, cfg: RelayConfig, newerThan: Clock, now: Clock)
    requires cfg.leaseConfigured
    ensures StateOf(cfg, Document(RecordOf(m, bootId, [], false, RuntimeNotReady, at)), newerThan, now) == Revoked
  {
  }

  /** Producer and consumer together: a relay that reads, at the top of a pass, a
      record made after a mismatch stops there, having moved nothing in that pass. */
  lemma MismatchStopsRelay(m: MonitorConfig, bootId: string, outcomes: seq<Probe>, clock: nat -> Clock, doc: LeaseDoc, k: nat, i: nat,
                           cfg: RelayConfig, s: Relay, p: Pass)
    requires Trusts(cfg, m, bootId) && MadeAfter(m, bootId, outcomes, doc, k) && i < k && Mismatched(m, outcomes[i])
    requires p.top.file == Document(doc)
    ensures var (next, end) := Iterate(cfg, s, p);
            && next == s && (end == Some(LeaseRevoked) || end == Some(AuditUnavailable))
  {
    hide Transfer, Allowed, StateOf;
    MismatchIsRevoked(m, bootId, outcomes, clock, doc, k, i, cfg, s.gate.leaseStarted, p.top.readAt);
  }

  /** Errors alone keep an established relay going, but only within its grace. */
  lemma ErrorsKeepRelayWithinGrace(m: MonitorConfig, bootId: string, outcomes: seq<Probe>, doc: LeaseDoc, k: nat, cfg: RelayConfig, g: Gate, p: Pass)
    requires ValidMonitor(m) && Trusts(cfg, m, bootId) && MadeAfter(m, bootId, outcomes, doc, k) && !doc.ok
    requires forall i :: 0 <= i < k ==> !Mismatched(m, outcomes[i])
    requires p.top.file == Document(doc) && g.leaseStarted <= doc.checked <= p.top.readAt && !p.top.auditFailed && p.auditOk
    ensures Top(cfg, g, p).1.None? <==> p.top.now - g.lastVerified < cfg.grace && cfg.grace != 0
  {
    hide StateOf;
    ErrorsAreUncertainty(m, bootId, outcomes, doc, k, cfg, g.leaseStarted, p.top.readAt);
  }
}
