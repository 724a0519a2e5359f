/** The durable store of held requests and the transitions it allows. */
module ReviewStore {
  import opened Wire

  /** Microseconds. */
  type Moment = int

  const SECOND: int := 1_000_000
  const MAX_APPROVAL_SECONDS: int := 300

  datatype ReviewState =
    | Pending | ApprovedOnce | Authorized
    | Blocked | Expired | ClientDisconnected | Completed | UpstreamError | DispatchUnknown

  /** What identifies the held request; it never changes after enqueueing. */
  datatype Identity = Identity(id: string, created: Moment, reviewExpires: Moment, policyDigest: string,
                               requestSha: string, bodySha: string, scheme: string, host: string, port: nat,
                               verb: string, path: string)

  datatype ReviewRecord = ReviewRecord(identity: Identity, state: ReviewState, updated: Moment,
                                       decisionExpires: Option<Moment>, reason: Option<string>)

  type Store = map<string, ReviewRecord>

  /** A write replaces the record atomically; it can fail before the replacement, or after it. */
  datatype WriteOutcome = Wrote | LostBefore | FailedAfter

  datatype Io = Io(readable: bool, write: WriteOutcome)

  datatype Outcome = Returned(record: ReviewRecord) | Failed

  /** The record as it is after a write attempt. */
  function Put(store: Store, record: ReviewRecord, io: Io): Store {
    if io.write.LostBefore? then store else store[record.identity.id := record]
  }

  function Replaced(r: ReviewRecord, state: ReviewState, now: Moment, deadline: Option<Moment>, reason: Option<string>): ReviewRecord {
    r.(state := state, updated := now, decisionExpires := deadline, reason := reason)
  }

  function Replace(store: Store, r: ReviewRecord, state: ReviewState, now: Moment, deadline: Option<Moment>,
                   reason: Option<string>, io: Io): (Store, Outcome)
  {
    var updated := Replaced(r, state, now, deadline, reason);
    (Put(store, updated, io), if io.write.Wrote? then Returned(updated) else Failed)
  }

  // ---- the operations ----

  datatype StoreOp =
    | Enqueue(identity: Identity, ttlSeconds: int)
    | Approve(id: string, ttlSeconds: int, reason: string)
    | Reject(id: string, reason: string)
    | FailClosed(id: string, reason: string)
    | Consume(id: string, requestSha: string, policyDigest: string)
    | MarkOutcome(id: string, outcome: ReviewState, reason: string)
    | MarkDisconnected(id: string)
    | ExpireDue(ids: seq<string>)

  predicate IsOutcome(s: ReviewState) { s.Completed? || s.UpstreamError? || s.DispatchUnknown? }

  /** A pending record still open for a decision; an overdue one is expired on the way. */
  function RequirePending(store: Store, r: ReviewRecord, now: Moment, io: Io): (Store, bool) {
    if !r.state.Pending? then (store, false)
    else if r.identity.reviewExpires <= now then
      (Replace(store, r, Expired, now, None, Some("review timed out"), io).0, false)
    else (store, r.identity.created <= now + 5 * SECOND)
  }

  function DoApprove(store: Store, id: string, ttlSeconds: int, reason: string, now: Moment, io: Io): (Store, Outcome) {
    if !(1 <= ttlSeconds <= MAX_APPROVAL_SECONDS) || reason == "" || !io.readable || id !in store then (store, Failed)
    else
      var (checked, open) := RequirePending(store, store[id], now, io);
      if !open then (checked, Failed)
      else Replace(store, store[id], ApprovedOnce, now, Some(now + ttlSeconds * SECOND), Some(reason), io)
  }

  function DoReject(store: Store, id: string, reason: string, now: Moment, io: Io): (Store, Outcome) {
    if reason == "" || !io.readable || id !in store then (store, Failed)
    else
      var (checked, open) := RequirePending(store, store[id], now, io);
      if !open then (checked, Failed) else Replace(store, store[id], Blocked, now, None, Some(reason), io)
  }

  predicate Undecided(s: ReviewState) { s.Pending? || s.ApprovedOnce? }

  function DoFailClosed(store: Store, id: string, reason: string, now: Moment, io: Io): (Store, Outcome) {
    if reason == "" || !io.readable || id !in store || !Undecided(store[id].state) then (store, Failed)
    else Replace(store, store[id], Blocked, now, None, Some(reason), io)
  }

  function DoConsume(store: Store, id: string, requestSha: string, policyDigest: string, now: Moment, io: Io): (Store, Outcome) {
    if !io.readable || id !in store || !store[id].state.ApprovedOnce? || store[id].decisionExpires.None? then (store, Failed)
    else
      var r := store[id];
      if r.decisionExpires.value <= now then (Replace(store, r, Expired, now, None, Some("approval expired"), io).0, Failed)
      else if requestSha != r.identity.requestSha || policyDigest != r.identity.policyDigest then (store, Failed)
      else Replace(store, r, Authorized, now, None, r.reason, io)
  }

  /** An empty reason is replaced by the name of the outcome. */
  function OutcomeReason(outcome: ReviewState, reason: string): string {
    if reason != "" then reason
    else if outcome.Completed? then "completed"
    else if outcome.UpstreamError? then "upstream_error"
    else "dispatch_unknown"
  }

  function DoMarkOutcome(store: Store, id: string, outcome: ReviewState, reason: string, now: Moment, io: Io): (Store, Outcome) {
    if !io.readable || id !in store || !store[id].state.Authorized? || !IsOutcome(outcome) then (store, Failed)
    else Replace(store, store[id], outcome, now, None, Some(OutcomeReason(outcome, reason)), io)
  }

  function DoDisconnect(store: Store, id: string, now: Moment, io: Io): (Store, Outcome) {
    if !io.readable || id !in store || !Undecided(store[id].state) then (store, Failed)
    else Replace(store, store[id], ClientDisconnected, now, None, Some("client disconnected before authorization"), io)
  }

  /** The state a due record expires with, if it is due. */
  function DueReason(r: ReviewRecord, now: Moment): Option<string> {
    if r.state.ApprovedOnce? && r.decisionExpires.Some? && r.decisionExpires.value <= now then Some("approval expired")
    else if r.state.Pending? && r.identity.reviewExpires <= now then Some("review timed out")
    else None
  }

  /** Expires every due record in turn; the first failure stops the sweep. */
  function DoExpire(store: Store, ids: seq<string>, now: Moment, io: string -> Io): (Store, bool) {
    if ids == [] then (store, true)
    else
      var (before, ok) := DoExpire(store, ids[..|ids| - 1], now, io);
      var id := ids[|ids| - 1];
      if !ok then (before, false)
      else if id !in before || !io(id).readable then (before, false)
      else if DueReason(before[id], now).None? then (before, true)
      else
        var (after, outcome) := Replace(before, before[id], Expired, now, None, DueReason(before[id], now), io(id));
        (after, outcome.Returned?)
  }

  /** Publishes a complete new record.  A publication that fails and cannot be
      taken back leaves the record although enqueueing fails. */
  function DoEnqueue(store: Store, identity: Identity, ttlSeconds: int, now: Moment, io: Io): (Store, Outcome) {
    if !(1 <= ttlSeconds <= 3600) || identity.id in store then (store, Failed)
    else
      var r := ReviewRecord(identity.(created := now, reviewExpires := now + ttlSeconds * SECOND), Pending, now, None, None);
      (Put(store, r, io), if io.write.Wrote? then Returned(r) else Failed)
  }

  /** One operation under the lock, with what storage does to it. */
  function Apply(store: Store, op: StoreOp, now: Moment, io: Io): (Store, Outcome) {
    match op
    case Enqueue(identity, ttlSeconds) => DoEnqueue(store, identity, ttlSeconds, now, io)
    case Approve(id, ttlSeconds, reason) => DoApprove(store, id, ttlSeconds, reason, now, io)
    case Reject(id, reason) => DoReject(store, id, reason, now, io)
    case FailClosed(id, reason) => DoFailClosed(store, id, reason, now, io)
    case Consume(id, requestSha, policyDigest) => DoConsume(store, id, requestSha, policyDigest, now, io)
    case MarkOutcome(id, outcome, reason) => DoMarkOutcome(store, id, outcome, reason, now, io)
    case MarkDisconnected(id) => DoDisconnect(store, id, now, io)
    case ExpireDue(ids) => (DoExpire(store, ids, now, (_: string) => io).0, Failed)
  }

  /** The store as its operations update it. */
  class RequestStore {
    var records: Store

    constructor ()
      ensures records == map[]
    {
      records := map[];
    }

    method WriteRecord(updated: ReviewRecord, io: Io) returns (r: Outcome)
      modifies this
      ensures records == Put(old(records), updated, io)
      ensures r == if io.write.Wrote? then Returned(updated) else Failed
    {
      if io.write.LostBefore? {
        return Failed;
      }
      records := records[updated.identity.id := updated];
      return if io.write.Wrote? then Returned(updated) else Failed;
    }

    method CheckPending(record: ReviewRecord, now: Moment, io: Io) returns (open: bool)
      modifies this
      ensures (records, open) == RequirePending(old(records), record, now, io)
    {
      if !record.state.Pending? {
        return false;
      }
      if record.identity.reviewExpires <= now {
        var _ := WriteRecord(Replaced(record, Expired, now, None, Some("review timed out")), io);
        return false;
      }
      return record.identity.created <= now + 5 * SECOND;
    }

    method EnqueueRequest(identity: Identity, ttlSeconds: int, now: Moment, io: Io) returns (r: Outcome)
      modifies this
      ensures (records, r) == Apply(old(records), Enqueue(identity, ttlSeconds), now, io)
    {
      if !(1 <= ttlSeconds <= 3600) || identity.id in records {
        return Failed;
      }
      var record := ReviewRecord(identity.(created := now, reviewExpires := now + ttlSeconds * SECOND), Pending, now, None, None);
      r := WriteRecord(record, io);
    }

    method ApproveOnce(id: string, ttlSeconds: int, reason: string, now: Moment, io: Io) returns (r: Outcome)
      modifies this
      ensures (records, r) == Apply(old(records), Approve(id, ttlSeconds, reason), now, io)
    {
      if !(1 <= ttlSeconds <= MAX_APPROVAL_SECONDS) || reason == "" || !io.readable || id !in records {
        return Failed;
      }
      var record := records[id];
      var open := CheckPending(record, now, io);
      if !open {
        return Failed;
      }
      r := WriteRecord(Replaced(record, ApprovedOnce, now, Some(now + ttlSeconds * SECOND), Some(reason)), io);
    }

    method RejectRequest(id: string, reason: string, now: Moment, io: Io) returns (r: Outcome)
      modifies this
      ensures (records, r) == Apply(old(records), Reject(id, reason), now, io)
    {
      if reason == "" || !io.readable || id !in records {
        return Failed;
      }
      var record := records[id];
      var open := CheckPending(record, now, io);
      if !open {
        return Failed;
      }
      r := WriteRecord(Replaced(record, Blocked, now, None, Some(reason)), io);
    }

    method CloseRequest(id: string, reason: string, now: Moment, io: Io) returns (r: Outcome)
      modifies this
      ensures (records, r) == Apply(old(records), FailClosed(id, reason), now, io)
    {
      if reason == "" || !io.readable || id !in records || !Undecided(records[id].state) {
        return Failed;
      }
      r := WriteRecord(Replaced(records[id], Blocked, now, None, Some(reason)), io);
    }

    method ConsumeApproval(id: string, requestSha: string, policyDigest: string, now: Moment, io: Io) returns (r: Outcome)
      modifies this
      ensures (records, r) == Apply(old(records), Consume(id, requestSha, policyDigest), now, io)
    {
      if !io.readable || id !in records {
        return Failed;
      }
      var record := records[id];
      if !record.state.ApprovedOnce? || record.decisionExpires.None? {
        return Failed;
      }
      if record.decisionExpires.value <= now {
        var _ := WriteRecord(Replaced(record, Expired, now, None, Some("approval expired")), io);
        return Failed;
      }
      if requestSha != record.identity.requestSha || policyDigest != record.identity.policyDigest {
        return Failed;
      }
      r := WriteRecord(Replaced(record, Authorized, now, None, record.reason), io);
    }

    method RecordOutcome(id: string, outcome: ReviewState, reason: string, now: Moment, io: Io) returns (r: Outcome)
      requires IsOutcome(outcome)
      modifies this
      ensures (records, r) == Apply(old(records), MarkOutcome(id, outcome, reason), now, io)
    {
      if !io.readable || id !in records || !records[id].state.Authorized? {
        return Failed;
      }
      r := WriteRecord(Replaced(records[id], outcome, now, None, Some(OutcomeReason(outcome, reason))), io);
    }

    method MarkClientDisconnected(id: string, now: Moment, io: Io) returns (r: Outcome)
      modifies this
      ensures (records, r) == Apply(old(records), MarkDisconnected(id), now, io)
    {
      if !io.readable || id !in records || !Undecided(records[id].state) {
        return Failed;
      }
      r := WriteRecord(Replaced(records[id], ClientDisconnected, now, None, Some("client disconnected before authorization")), io);
    }

    /** Sweeps the listed records in order. */
    method ExpireAllDue(ids: seq<string>, now: Moment, io: string -> Io) returns (ok: bool)
      modifies this
      ensures (records, ok) == DoExpire(old(records), ids, now, io)
    {
      ok := true;
      for i := 0 to |ids|
        invariant ok && (records, true) == DoExpire(old(records), ids[..i], now, io)
      {
        var id := ids[i];
        assert ids[..i + 1][..i] == ids[..i] && ids[..i + 1][i] == id;
        ghost var before := records;
        if id !in records || !io(id).readable {
          ExpireStops(old(records), ids, now, io, i + 1);
          return false;
        }
        var due := DueReason(records[id], now);
        if due.Some? {
          var outcome := WriteRecord(Replaced(records[id], Expired, now, None, due), io(id));
          if outcome.Failed? {
            assert (records, false) == DoExpire(old(records), ids[..i + 1], now, io);
            ExpireStops(old(records), ids, now, io, i + 1);
            return false;
          }
        }
      }
      assert ids[..|ids|] == ids;
    }
  }

  lemma {:induction false} ExpireStops(store: Store, ids: seq<string>, now: Moment, io: string -> Io, i: nat)
    requires i <= |ids| && !DoExpire(store, ids[..i], now, io).1
    ensures DoExpire(store, ids, now, io) == DoExpire(store, ids[..i], now, io)
    decreases |ids| - i
  {
    if i == |ids| {
      assert ids[..i] == ids;
    } else {
      assert ids[..i + 1][..i] == ids[..i];
      ExpireStops(store, ids, now, io, i + 1);
    }
  }

  // ---- what one operation may do to a record ----

  function Rank(s: ReviewState): nat {
    match s
    case Pending => 0
    case ApprovedOnce => 1
    case Authorized => 2
    case _ => 3
  }

  predicate Terminal(s: ReviewState) { Rank(s) == 3 }

  ghost predicate RecordOk(id: string, r: ReviewRecord) {
    && r.identity.id == id
    && (r.decisionExpires.Some? <==> r.state.ApprovedOnce?)
  }

  ghost predicate StoreOk(store: Store) { forall id :: id in store ==> RecordOk(id, store[id]) }

  /** The record did not move, or moved up in rank with its identity intact. */
  ghost predicate Moved(r: ReviewRecord, q: ReviewRecord) {
    q == r || (q.identity == r.identity && Rank(r.state) < Rank(q.state) && Legal(r.state, q.state))
  }

  predicate Legal(from: ReviewState, to: ReviewState) {
    match from
    case Pending => to.ApprovedOnce? || to.Blocked? || to.Expired? || to.ClientDisconnected?
    case ApprovedOnce => to.Authorized? || to.Blocked? || to.Expired? || to.ClientDisconnected?
    case Authorized => IsOutcome(to)
    case _ => false
  }

  /** Every step from one store to another only moves records up. */
  ghost predicate Progress(before: Store, after: Store) {
    && StoreOk(after)
    && (forall id :: id in before ==> id in after && Moved(before[id], after[id]))
    && (forall id :: id in after && id !in before ==> after[id].state.Pending?)
  }

  lemma ReplaceProgress(store: Store, id: string, state: ReviewState, now: Moment, deadline: Option<Moment>, reason: Option<string>, io: Io)
    requires StoreOk(store) && id in store && Legal(store[id].state, state)
    requires deadline.Some? <==> state.ApprovedOnce?
    ensures Progress(store, Replace(store, store[id], state, now, deadline, reason, io).0)
  {
    assert RecordOk(id, store[id]);
  }

  lemma {:induction false} ExpireProgress(store: Store, ids: seq<string>, now: Moment, io: string -> Io)
    requires StoreOk(store)
    ensures Progress(store, DoExpire(store, ids, now, io).0)
    ensures forall id :: id in DoExpire(store, ids, now, io).0 && id in store && DoExpire(store, ids, now, io).0[id] != store[id] ==>
              DoExpire(store, ids, now, io).0[id].state.Expired?
    ensures DoExpire(store, ids, now, io).0.Keys == store.Keys
  {
    hide DueReason;
    if ids != [] {
      ExpireProgress(store, ids[..|ids| - 1], now, io);
      var (before, ok) := DoExpire(store, ids[..|ids| - 1], now, io);
      var id := ids[|ids| - 1];
      if ok && id in before && io(id).readable && DueReason(before[id], now).Some? {
        DueIsOpen(before[id], now);
        ReplaceProgress(before, id, Expired, now, None, DueReason(before[id], now), io(id));
      }
    }
  }

  lemma DueIsOpen(r: ReviewRecord, now: Moment)
    requires DueReason(r, now).Some?
    ensures Legal(r.state, Expired)
  {
  }

  lemma SameProgress(store: Store)
    requires StoreOk(store)
    ensures Progress(store, store)
  {
  }

  lemma EnqueueProgress(store: Store, identity: Identity, ttlSeconds: int, now: Moment, io: Io)
    requires StoreOk(store)
    ensures Progress(store, DoEnqueue(store, identity, ttlSeconds, now, io).0)
  {
  }

  /** Every operation, whatever storage does to it, moves records only up in
      rank: identities never change, terminal states absorb, and a decision
      deadline is present exactly while approved. */
  lemma ApplyProgress(store: Store, op: StoreOp, now: Moment, io: Io)
    requires StoreOk(store)
    ensures Progress(store, Apply(store, op, now, io).0)
  {
    hide Progress, Replace, StoreOk, DoExpire;
    SameProgress(store);
    match op {
      case Enqueue(identity, ttlSeconds) => EnqueueProgress(store, identity, ttlSeconds, now, io);
      case Approve(id, ttlSeconds, reason) =>
        if id in store && store[id].state.Pending? {
          ReplaceProgress(store, id, Expired, now, None, Some("review timed out"), io);
          ReplaceProgress(store, id, ApprovedOnce, now, Some(now + ttlSeconds * SECOND), Some(reason), io);
        }
      case Reject(id, reason) =>
        if id in store && store[id].state.Pending? {
          ReplaceProgress(store, id, Expired, now, None, Some("review timed out"), io);
          ReplaceProgress(store, id, Blocked, now, None, Some(reason), io);
        }
      case FailClosed(id, reason) =>
        if id in store && Undecided(store[id].state) {
          ReplaceProgress(store, id, Blocked, now, None, Some(reason), io);
        }
      case Consume(id, requestSha, policyDigest) =>
        if id in store && store[id].state.ApprovedOnce? {
          ReplaceProgress(store, id, Expired, now, None, Some("approval expired"), io);
          ReplaceProgress(store, id, Authorized, now, None, store[id].reason, io);
        }
      case MarkOutcome(id, outcome, reason) =>
        if id in store && store[id].state.Authorized? && IsOutcome(outcome) {
          ReplaceProgress(store, id, outcome, now, None, Some(OutcomeReason(outcome, reason)), io);
        }
      case MarkDisconnected(id) =>
        if id in store && Undecided(store[id].state) {
          ReplaceProgress(store, id, ClientDisconnected, now, None, Some("client disconnected before authorization"), io);
        }
      case ExpireDue(ids) => ExpireProgress(store, ids, now, (_: string) => io);
    }
  }

  /** A record becomes approved only by an approval before its review deadline,
      for at most 300 seconds. */
  lemma ApprovalIsTimely(store: Store, op: StoreOp, now: Moment, io: Io, id: string)
    requires StoreOk(store)
    requires var after := Apply(store, op, now, io).0; id in after && after[id].state.ApprovedOnce? && (id in store ==> after[id] != store[id])
    ensures op.Approve? && op.id == id && id in store && store[id].state.Pending?
    ensures now < store[id].identity.reviewExpires
    ensures var after := Apply(store, op, now, io).0;
            after[id].decisionExpires == Some(now + op.ttlSeconds * SECOND) && now < after[id].decisionExpires.value <= now + MAX_APPROVAL_SECONDS * SECOND
  {
    hide DueReason;
    if op.ExpireDue? {
      ExpireProgress(store, op.ids, now, (_: string) => io);
    }
    assert forall k :: k in store ==> RecordOk(k, store[k]);
  }

  /** A record becomes authorized only by consuming a live approval with matching digests. */
  lemma AuthorizationIsConsumed(store: Store, op: StoreOp, now: Moment, io: Io, id: string)
    requires StoreOk(store)
    requires var after := Apply(store, op, now, io).0; id in after && after[id].state.Authorized? && (id in store ==> after[id] != store[id])
    ensures op.Consume? && op.id == id && id in store && store[id].state.ApprovedOnce?
    ensures store[id].decisionExpires.Some? && now < store[id].decisionExpires.value
    ensures op.requestSha == store[id].identity.requestSha && op.policyDigest == store[id].identity.policyDigest
  {
    hide DueReason;
    if op.ExpireDue? {
      ExpireProgress(store, op.ids, now, (_: string) => io);
    }
    assert forall k :: k in store ==> RecordOk(k, store[k]);
  }

  /** Working storage. */
  const WORKS: Io := Io(true, Wrote)

  /** Approval succeeds exactly for a pending record within its review deadline,
      not from the future, with a reason and 1 to 300 seconds to live. */
  lemma ApprovalExact(store: Store, id: string, ttlSeconds: int, reason: string, now: Moment)
    requires StoreOk(store) && id in store
    ensures var (after, outcome) := Apply(store, Approve(id, ttlSeconds, reason), now, WORKS);
            var r := store[id];
            && (outcome.Returned? <==>
                  && r.state.Pending? && r.identity.created - 5 * SECOND <= now < r.identity.reviewExpires
                  && reason != "" && 1 <= ttlSeconds <= MAX_APPROVAL_SECONDS)
            && (outcome.Returned? ==> after[id].state.ApprovedOnce? && after[id].decisionExpires == Some(now + ttlSeconds * SECOND))
            && (outcome.Failed? && after != store ==> r.state.Pending? && after[id].state.Expired? && r.identity.reviewExpires <= now)
  {
    assert RecordOk(id, store[id]);
  }

  /** Consumption succeeds exactly for a live approval with both digests matching;
      a late one expires, a mismatched one stays as it is. */
  lemma ConsumptionExact(store: Store, id: string, requestSha: string, policyDigest: string, now: Moment)
    requires StoreOk(store) && id in store
    ensures var (after, outcome) := Apply(store, Consume(id, requestSha, policyDigest), now, WORKS);
            var r := store[id];
            var live := r.state.ApprovedOnce? && now < r.decisionExpires.value;
            && (outcome.Returned? <==> live && requestSha == r.identity.requestSha && policyDigest == r.identity.policyDigest)
            && (outcome.Returned? ==> after[id].state.Authorized? && after[id].decisionExpires.None? && after[id].reason == r.reason)
            && (outcome.Failed? ==> after[id] == r || (r.state.ApprovedOnce? && !live && after[id].state.Expired?))
            && (outcome.Failed? && r.state.ApprovedOnce? && !live ==> after[id].state.Expired?)
  {
    assert RecordOk(id, store[id]);
  }

  /** A rejection blocks exactly a timely pending record, and expires an overdue one. */
  lemma RejectionExact(store: Store, id: string, reason: string, now: Moment)
    requires StoreOk(store) && id in store
    ensures var (after, outcome) := Apply(store, Reject(id, reason), now, WORKS);
            var r := store[id];
            && (outcome.Returned? <==>
                  r.state.Pending? && r.identity.created - 5 * SECOND <= now < r.identity.reviewExpires && reason != "")
            && (outcome.Returned? ==>
                  after[id] == r.(state := Blocked, updated := now, decisionExpires := None, reason := Some(reason)))
            && (outcome.Failed? && after != store ==> r.state.Pending? && after[id].state.Expired? && r.identity.reviewExpires <= now)
  {
    assert RecordOk(id, store[id]);
  }

  /** Closing blocks exactly an undecided record; a disconnection closes exactly the same ones. */
  lemma ClosingExact(store: Store, id: string, reason: string, now: Moment)
    requires StoreOk(store) && id in store
    ensures var (blocked, outcome) := Apply(store, FailClosed(id, reason), now, WORKS);
            var (left, gone) := Apply(store, MarkDisconnected(id), now, WORKS);
            var r := store[id];
            var undecided := r.state.Pending? || r.state.ApprovedOnce?;
            && (outcome.Returned? <==> undecided && reason != "")
            && blocked == (if undecided && reason != ""
                             then store[id := r.(state := Blocked, updated := now, decisionExpires := None, reason := Some(reason))] else store)
            && (gone.Returned? <==> undecided)
            && left == if undecided
                         then store[id := r.(state := ClientDisconnected, updated := now, decisionExpires := None,
                                             reason := Some("client disconnected before authorization"))]
                       else store
  {
    assert RecordOk(id, store[id]);
  }

  /** An outcome is recorded exactly on an authorized record, and it is the one given. */
  lemma OutcomeExact(store: Store, id: string, outcome: ReviewState, reason: string, now: Moment)
    requires StoreOk(store) && id in store && (outcome.Completed? || outcome.UpstreamError? || outcome.DispatchUnknown?)
    ensures var (after, result) := Apply(store, MarkOutcome(id, outcome, reason), now, WORKS);
            var r := store[id];
            && (result.Returned? <==> r.state.Authorized?)
            && after == if r.state.Authorized?
                          then store[id := r.(state := outcome, updated := now, decisionExpires := None,
                                              reason := Some(if reason != "" then reason
                                                             else match outcome
                                                                  case Completed => "completed"
                                                                  case UpstreamError => "upstream_error"
                                                                  case _ => "dispatch_unknown"))]
                        else store
  {
    assert RecordOk(id, store[id]);
  }

  /** A request is enqueued exactly for 1 to 3600 seconds under a new identifier, pending. */
  lemma EnqueueExact(store: Store, identity: Identity, ttlSeconds: int, now: Moment)
    ensures var (after, outcome) := Apply(store, Enqueue(identity, ttlSeconds), now, WORKS);
            && (outcome.Returned? <==> 1 <= ttlSeconds <= 3600 && identity.id !in store)
            && after == if 1 <= ttlSeconds <= 3600 && identity.id !in store
                          then store[identity.id := ReviewRecord(identity.(created := now, reviewExpires := now + ttlSeconds * 1_000_000),
                                                                 Pending, now, None, None)]
                        else store
  {
  }

  /** A sweep over working storage expires exactly the due records it visits, each with its own reason. */
  lemma {:induction false} SweepExact(store: Store, ids: seq<string>, now: Moment)
    requires StoreOk(store) && forall id :: id in ids ==> id in store
    ensures var (after, complete) := DoExpire(store, ids, now, (_: string) => WORKS);
            && complete && after.Keys == store.Keys
            && forall id :: id in store ==>
                 var r := store[id];
                 after[id] ==
                 if id in ids && r.state.ApprovedOnce? && r.decisionExpires.value <= now
                   then r.(state := Expired, updated := now, decisionExpires := None, reason := Some("approval expired"))
                 else if id in ids && r.state.Pending? && r.identity.reviewExpires <= now
                   then r.(state := Expired, updated := now, decisionExpires := None, reason := Some("review timed out"))
                 else r
  {
    if ids != [] {
      var n := |ids| - 1;
      SweepExact(store, ids[..n], now);
      assert ids == ids[..n] + [ids[n]];
      assert RecordOk(ids[n], store[ids[n]]);
    }
  }

  /** Every operation but the sweep touches only the record it names. */
  lemma OthersUntouched(store: Store, op: StoreOp, now: Moment, io: Io, id: string)
    requires StoreOk(store) && !op.ExpireDue? && id != (if op.Enqueue? then op.identity.id else op.id)
    ensures var after := Apply(store, op, now, io).0;
            (id in after <==> id in store) && (id in store ==> after[id] == store[id])
  {
    assert forall k :: k in store ==> RecordOk(k, store[k]);
  }

  // ---- whole histories ----

  datatype Step = Step(op: StoreOp, now: Moment, io: Io)

  function After(steps: seq<Step>, k: nat): Store
    requires k <= |steps|
  {
    if k == 0 then map[] else Apply(After(steps, k - 1), steps[k - 1].op, steps[k - 1].now, steps[k - 1].io).0
  }

  lemma {:induction false} HistoryOk(steps: seq<Step>, k: nat)
    requires k <= |steps|
    ensures StoreOk(After(steps, k))
  {
    hide Apply;
    if k > 0 {
      HistoryOk(steps, k - 1);
      ApplyProgress(After(steps, k - 1), steps[k - 1].op, steps[k - 1].now, steps[k - 1].io);
    }
  }

  /** Over any history a record only moves up in rank, with its identity intact;
      once terminal it never changes again. */
  lemma {:induction false} HistoryMovesUp(steps: seq<Step>, j: nat, k: nat, id: string)
    requires j <= k <= |steps| && id in After(steps, j)
    ensures id in After(steps, k)
    ensures After(steps, k)[id].identity == After(steps, j)[id].identity
    ensures After(steps, k)[id] == After(steps, j)[id] || Rank(After(steps, j)[id].state) < Rank(After(steps, k)[id].state)
    decreases k
  {
    hide Apply;
    if j < k {
      HistoryMovesUp(steps, j, k - 1, id);
      HistoryOk(steps, k - 1);
      ApplyProgress(After(steps, k - 1), steps[k - 1].op, steps[k - 1].now, steps[k - 1].io);
    }
  }

  /** Blocked, expired, disconnected and completed requests, and those with an error
      or an unknown outcome, never change again. */
  lemma EndedStays(steps: seq<Step>, j: nat, k: nat, id: string)
    requires j <= k <= |steps| && id in After(steps, j)
    requires var state := After(steps, j)[id].state;
             !state.Pending? && !state.ApprovedOnce? && !state.Authorized?
    ensures id in After(steps, k) && After(steps, k)[id] == After(steps, j)[id]
  {
    hide After;
    HistoryMovesUp(steps, j, k, id);
  }

  predicate PastAuthorization(s: ReviewState) { s.Authorized? || IsOutcome(s) }

  /** The step at `j` authorized the record, on an approval made by the step at `i`. */
  ghost predicate AuthorizedBy(steps: seq<Step>, id: string, i: nat, j: nat)
    requires i < j < |steps|
  {
    var approve, consume := steps[i], steps[j];
    && id in After(steps, i) && After(steps, i)[id].state.Pending?
    && approve.op.Approve? && approve.op.id == id && approve.now < After(steps, i)[id].identity.reviewExpires
    && 1 <= approve.op.ttlSeconds <= MAX_APPROVAL_SECONDS
    && id in After(steps, j) && After(steps, j)[id].state.ApprovedOnce?
    && consume.op.Consume? && consume.op.id == id
    && consume.now < approve.now + approve.op.ttlSeconds * SECOND
    && consume.op.requestSha == After(steps, j)[id].identity.requestSha
    && consume.op.policyDigest == After(steps, j)[id].identity.policyDigest
    && After(steps, j + 1)[id].state.Authorized?
  }

  /** A record still approved was approved by some earlier step, whose deadline it carries. */
  lemma {:induction false} ApprovedSince(steps: seq<Step>, k: nat, id: string) returns (i: nat)
    requires k <= |steps| && id in After(steps, k) && After(steps, k)[id].state.ApprovedOnce?
    ensures i < k && id in After(steps, i) && After(steps, i)[id].state.Pending?
    ensures steps[i].op.Approve? && steps[i].op.id == id && steps[i].now < After(steps, i)[id].identity.reviewExpires
    ensures 1 <= steps[i].op.ttlSeconds <= MAX_APPROVAL_SECONDS
    ensures After(steps, k)[id].decisionExpires == Some(steps[i].now + steps[i].op.ttlSeconds * SECOND)
    decreases k
  {
    hide Apply;
    var before := After(steps, k - 1);
    HistoryOk(steps, k - 1);
    if id in before && before[id] == After(steps, k)[id] {
      i := ApprovedSince(steps, k - 1, id);
    } else {
      i := k - 1;
      ApprovalIsTimely(before, steps[i].op, steps[i].now, steps[i].io, id);
    }
  }

  /** A request that is authorized, or has an upstream outcome, became authorized
      exactly once: by a consumption, before the approval's own deadline and with
      matching digests, of an approval given before the review deadline. */
  lemma {:induction false} AuthorizationHistory(steps: seq<Step>, k: nat, id: string) returns (i: nat, j: nat)
    requires k <= |steps| && id in After(steps, k) && PastAuthorization(After(steps, k)[id].state)
    ensures i < j < k && AuthorizedBy(steps, id, i, j)
    ensures forall m: nat :: m <= j && id in After(steps, m) ==> !PastAuthorization(After(steps, m)[id].state)
    ensures forall m: nat :: j < m <= k ==> id in After(steps, m) && PastAuthorization(After(steps, m)[id].state)
    decreases k
  {
    hide Apply;
    var before := After(steps, k - 1);
    HistoryOk(steps, k - 1);
    ApplyProgress(before, steps[k - 1].op, steps[k - 1].now, steps[k - 1].io);
    if id in before && PastAuthorization(before[id].state) {
      i, j := AuthorizationHistory(steps, k - 1, id);
    } else {
      j := k - 1;
      AuthorizationIsConsumed(before, steps[j].op, steps[j].now, steps[j].io, id);
      i := ApprovedSince(steps, j, id);
      forall m: nat | m <= j && id in After(steps, m) ensures !PastAuthorization(After(steps, m)[id].state) {
        HistoryMovesUp(steps, m, j, id);
      }
    }
  }

  /** At most one step of a history authorizes a request. */
  lemma AuthorizedAtMostOnce(steps: seq<Step>, id: string, j: nat, k: nat)
    requires j < k < |steps|
    requires id in After(steps, j + 1) && After(steps, j + 1)[id].state.Authorized?
    ensures id in After(steps, k) && PastAuthorization(After(steps, k)[id].state) && id in After(steps, k + 1)
    ensures After(steps, k + 1)[id].state.Authorized? ==> After(steps, k + 1)[id] == After(steps, j + 1)[id]
  {
    hide Apply;
    HistoryMovesUp(steps, j + 1, k + 1, id);
    StaysPast(steps, j + 1, k, id);
  }

  lemma {:induction false} StaysPast(steps: seq<Step>, j: nat, k: nat, id: string)
    requires j <= k <= |steps| && id in After(steps, j) && PastAuthorization(After(steps, j)[id].state)
    ensures id in After(steps, k) && PastAuthorization(After(steps, k)[id].state)
    decreases k
  {
    hide Apply;
    if j < k {
      StaysPast(steps, j, k - 1, id);
      HistoryOk(steps, k - 1);
      ApplyProgress(After(steps, k - 1), steps[k - 1].op, steps[k - 1].now, steps[k - 1].io);
    }
  }
}
