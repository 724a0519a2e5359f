/** The lease document that says which exit the parent proxy was seen to use,
    and how an established relay reads it. */
module ExitLease {
  import opened Wire
  import opened RelayCore

  /** One probe's outcome; a probe that failed outright observed nothing. */
  datatype Probe = Probe(ok: bool, observed: Option<string>)

  datatype Reason = AllProbesMatched | ProbeFailure | RuntimeNotReady

  datatype LeaseDoc = LeaseDoc(schema: int, ok: bool, parentHost: string, parentPort: int, expectedExit: string,
                               observedExit: Option<string>, bootId: string, checked: Clock, expires: Clock,
                               reason: Reason, probes: seq<Probe>)

  /** A missing, oversized or malformed file is unreadable. */
  datatype LeaseFile = Unreadable | Document(doc: LeaseDoc)

  datatype LeaseState = Valid | Expired | ProbeFailed | Revoked

  /** `second` is the number of clock ticks in a second. */
  datatype RelayConfig = RelayConfig(leaseConfigured: bool, expectedExit: string, parentHost: string, parentPort: int,
                                     bootId: string, second: nat, idleTimeout: Clock, sessionTimeout: Option<Clock>, grace: Clock)

  const LEASE_SECONDS: int := 15

  predicate ValidConfig(cfg: RelayConfig) {
    && cfg.second > 0 && cfg.idleTimeout > 0
    && (cfg.sessionTimeout.Some? ==> cfg.sessionTimeout.value > 0)
    && 0 <= cfg.grace <= 900 * cfg.second
  }

  predicate IdentityOk(cfg: RelayConfig, doc: LeaseDoc, newerThan: Clock, now: Clock) {
    && doc.schema == 1 && doc.expectedExit == cfg.expectedExit
    && doc.parentHost == cfg.parentHost && doc.parentPort == cfg.parentPort && doc.bootId == cfg.bootId
    && newerThan <= doc.checked <= now
    && 0 < doc.expires - doc.checked <= LEASE_SECONDS * cfg.second
  }

  predicate OnlyErrors(cfg: RelayConfig, probes: seq<Probe>) {
    probes != [] && forall i :: 0 <= i < |probes| ==> probes[i].observed.None? || probes[i].observed == Some(cfg.expectedExit)
  }

  /** How a relay reads the lease file at `now`, refusing leases checked before `newerThan`. */
  function StateOf(cfg: RelayConfig, file: LeaseFile, newerThan: Clock, now: Clock): LeaseState {
    if !cfg.leaseConfigured then Valid
    else match file
      case Unreadable => Revoked
      case Document(doc) =>
        if !IdentityOk(cfg, doc, newerThan, now) then Revoked
        else if doc.ok && doc.observedExit == Some(cfg.expectedExit) then (if now < doc.expires then Valid else Expired)
        else if !doc.ok && doc.observedExit.None? && doc.reason == ProbeFailure && OnlyErrors(cfg, doc.probes) then ProbeFailed
        else Revoked
  }

  /** A lease checked before the bound is revoked, whatever it says. */
  lemma StaleIsRevoked(cfg: RelayConfig, doc: LeaseDoc, newerThan: Clock, now: Clock)
    requires cfg.leaseConfigured && doc.checked < newerThan
    ensures StateOf(cfg, Document(doc), newerThan, now) == Revoked
  {
  }

  /** The document is for this exit, this parent and this boot, was checked neither
      before the bound nor in the future, and lasts at most 15 seconds. */
  predicate MadeForUs(cfg: RelayConfig, doc: LeaseDoc, newerThan: Clock, now: Clock) {
    && doc.schema == 1 && doc.expectedExit == cfg.expectedExit && doc.bootId == cfg.bootId
    && doc.parentHost == cfg.parentHost && doc.parentPort == cfg.parentPort
    && newerThan <= doc.checked && doc.checked <= now
    && doc.checked < doc.expires && doc.expires <= doc.checked + 15 * cfg.second
  }

  /** What each document is read as. */
  lemma LeaseExact(cfg: RelayConfig, doc: LeaseDoc, newerThan: Clock, now: Clock)
    requires cfg.leaseConfigured
    ensures var state, ours := StateOf(cfg, Document(doc), newerThan, now), MadeForUs(cfg, doc, newerThan, now);
            && (state == Valid <==> ours && doc.ok && doc.observedExit == Some(cfg.expectedExit) && now < doc.expires)
            && (state == Expired <==> ours && doc.ok && doc.observedExit == Some(cfg.expectedExit) && doc.expires <= now)
            && (state == ProbeFailed <==>
                  && ours && !doc.ok && doc.observedExit == None && doc.reason == ProbeFailure && |doc.probes| > 0
                  && forall i :: 0 <= i < |doc.probes| ==>
                       doc.probes[i].observed == None || doc.probes[i].observed == Some(cfg.expectedExit))
            && StateOf(cfg, Unreadable, newerThan, now) == Revoked
  {
  }

  /** A document for another exit, parent or boot is revoked. */
  lemma ForeignIsRevoked(cfg: RelayConfig, doc: LeaseDoc, newerThan: Clock, now: Clock)
    requires cfg.leaseConfigured
    requires doc.expectedExit != cfg.expectedExit || doc.parentHost != cfg.parentHost || doc.parentPort != cfg.parentPort || doc.bootId != cfg.bootId
    ensures StateOf(cfg, Document(doc), newerThan, now) == Revoked
  {
  }
}
