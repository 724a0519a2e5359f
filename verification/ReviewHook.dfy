/** The gateway coroutine that holds a request for review, polls its record and
    dispatches it, while operators act and storage fails between any two calls. */
module ReviewHook {
  import opened Wire
  import opened ReviewStore

  /** A store call: what other processes did just before it, the clock, and what storage does. */
  datatype Call = Call(before: seq<Step>, now: Moment, io: Io)

  /** The two calls of the exception handler. */
  datatype Handler = Handler(get: Call, write: Call)

  /** One round of the polling loop.  `policy` is the digest of the re-verified
      policy, absent when it cannot be loaded; `pinned` says whether the
      dispatch can be pinned. */
  datatype Poll = Poll(get: Call, connected: bool, mark: Call, policy: Option<string>, close: Call, consume: Call,
                       pinned: bool, handler: Handler)

  datatype BlockCode = ReviewRejected | ReviewTimeout | ReviewError | PolicyUnavailable

  /** How the hook lets go of a request: upstream, without a response because the
      client is gone, or with a blocked response. */
  datatype Exit = Dispatched | ClientGone | BlockedWith(code: BlockCode)

  datatype HookState = HookState(store: Store, fault: bool, exit: Option<Exit>)

  function Meddle(store: Store, steps: seq<Step>): Store {
    if steps == [] then store
    else
      var last := steps[|steps| - 1];
      Apply(Meddle(store, steps[..|steps| - 1]), last.op, last.now, last.io).0
  }

  function Read(store: Store, id: string, io: Io): Option<ReviewRecord> {
    if io.readable && id in store then Some(store[id]) else None
  }

  function Stop(s: HookState, exit: Exit): HookState { s.(exit := Some(exit)) }

  /** One store operation of the hook itself. */
  function Make(s: HookState, op: StoreOp, c: Call): (HookState, Outcome) {
    var (store, outcome) := Apply(Meddle(s.store, c.before), op, c.now, c.io);
    (s.(store := store), outcome)
  }

  /** The exception handler: records an outcome or latches the audit fault, and blocks. */
  function Recover(s: HookState, id: string, h: Handler): HookState {
    var t := s.(store := Meddle(s.store, h.get.before));
    match Read(t.store, id, h.get.io)
    case None => Stop(t.(fault := true), BlockedWith(ReviewError))
    case Some(current) =>
      if Undecided(current.state) then
        var (u, outcome) := Make(t, FailClosed(id, "review subsystem failed before upstream dispatch"), h.write);
        Stop(if outcome.Failed? then u.(fault := true) else u, BlockedWith(ReviewError))
      else if current.state.Authorized? then
        var (u, outcome) := Make(t, MarkOutcome(id, DispatchUnknown, "gateway failed while upstream dispatch status was uncertain"), h.write);
        Stop(if outcome.Failed? then u.(fault := true) else u, BlockedWith(ReviewError))
      else Stop(t, BlockedWith(ReviewError))
  }

  /** An approved record: re-verify the policy, then consume the approval. */
  function Decide(s: HookState, id: string, sha: string, p: Poll): HookState {
    match p.policy
    case None => Stop(Make(s, FailClosed(id, "policy unavailable before authorization"), p.close).0, BlockedWith(PolicyUnavailable))
    case Some(digest) =>
      var (t, outcome) := Make(s, Consume(id, sha, digest), p.consume);
      if outcome.Failed? || !p.pinned then Recover(t, id, p.handler) else Stop(t, Dispatched)
  }

  function PollOnce(s: HookState, id: string, sha: string, p: Poll): HookState {
    var t := s.(store := Meddle(s.store, p.get.before));
    match Read(t.store, id, p.get.io)
    case None => Recover(t, id, p.handler)
    case Some(current) =>
      if !p.connected then
        if Undecided(current.state) then
          var (u, outcome) := Make(t, MarkDisconnected(id), p.mark);
          if outcome.Failed? then Recover(u, id, p.handler) else Stop(u, ClientGone)
        else Stop(t, ClientGone)
      else if current.state.ApprovedOnce? then Decide(t, id, sha, p)
      else if current.state.Blocked? || current.state.Expired? then Stop(t, BlockedWith(ReviewRejected))
      else t
  }

  /** The polling loop, while the deadline has not passed. */
  function Polled(s: HookState, id: string, sha: string, polls: seq<Poll>): HookState {
    if polls == [] then s
    else
      var before := Polled(s, id, sha, polls[..|polls| - 1]);
      if before.exit.Some? then before else PollOnce(before, id, sha, polls[|polls| - 1])
  }

  /** What happens at the deadline. */
  function TimeOut(s: HookState, id: string, get: Call, close: Call, handler: Handler): HookState {
    var t := s.(store := Meddle(s.store, get.before));
    match Read(t.store, id, get.io)
    case None => Recover(t, id, handler)
    case Some(current) =>
      if current.state.Pending? then
        var (u, outcome) := Make(t, Reject(id, "review timed out"), close);
        if outcome.Failed? then Recover(u, id, handler) else Stop(u, BlockedWith(ReviewTimeout))
      else Stop(t, BlockedWith(ReviewTimeout))
  }

  /** The whole hold, from the enqueued record to the exit. */
  function Hold(store: Store, fault: bool, id: string, sha: string, polls: seq<Poll>, get: Call, close: Call, handler: Handler): HookState {
    var s := Polled(HookState(store, fault, None), id, sha, polls);
    if s.exit.Some? then s else TimeOut(s, id, get, close, handler)
  }

  /** The addon's share of the hold: its store handle and its latched audit fault. */
  class GatewayHook {
    const store: RequestStore
    var auditFault: bool

    ghost function State(exit: Option<Exit>): HookState
      reads this, store
    {
      HookState(store.records, auditFault, exit)
    }

    constructor (store: RequestStore)
      ensures this.store == store && !auditFault
    {
      this.store, auditFault := store, false;
    }

    /** Other processes use the store. */
    method Others(steps: seq<Step>)
      modifies store
      ensures store.records == Meddle(old(store.records), steps)
    {
      store.records := Meddle(store.records, steps);
    }

    method LatchAuditFault()
      modifies this
      ensures auditFault
    {
      if !auditFault {
        auditFault := true;
      }
    }

    method RecoverFromError(id: string, h: Handler) returns (exit: Exit)
      modifies this, store
      ensures State(Some(exit)) == Recover(old(State(None)), id, h)
    {
      Others(h.get.before);
      var current := Read(store.records, id, h.get.io);
      if current.None? {
        LatchAuditFault();
        return BlockedWith(ReviewError);
      }
      var outcome: Outcome;
      if Undecided(current.value.state) {
        Others(h.write.before);
        outcome := store.CloseRequest(id, "review subsystem failed before upstream dispatch", h.write.now, h.write.io);
        if outcome.Failed? {
          LatchAuditFault();
        }
      } else if current.value.state.Authorized? {
        Others(h.write.before);
        outcome := store.RecordOutcome(id, DispatchUnknown, "gateway failed while upstream dispatch status was uncertain", h.write.now, h.write.io);
        if outcome.Failed? {
          LatchAuditFault();
        }
      }
      return BlockedWith(ReviewError);
    }

    method DecideApproved(id: string, sha: string, p: Poll) returns (exit: Exit)
      modifies this, store
      ensures State(Some(exit)) == Decide(old(State(None)), id, sha, p)
    {
      if p.policy.None? {
        Others(p.close.before);
        var _ := store.CloseRequest(id, "policy unavailable before authorization", p.close.now, p.close.io);
        return BlockedWith(PolicyUnavailable);
      }
      Others(p.consume.before);
      var outcome := store.ConsumeApproval(id, sha, p.policy.value, p.consume.now, p.consume.io);
      if outcome.Failed? || !p.pinned {
        exit := RecoverFromError(id, p.handler);
        return;
      }
      return Dispatched;
    }

    method PollRecord(id: string, sha: string, p: Poll) returns (exit: Option<Exit>)
      modifies this, store
      ensures State(exit) == PollOnce(old(State(None)), id, sha, p)
    {
      hide Recover, Decide;
      Others(p.get.before);
      var current := Read(store.records, id, p.get.io);
      if current.None? {
        var e := RecoverFromError(id, p.handler);
        return Some(e);
      }
      if !p.connected {
        if Undecided(current.value.state) {
          Others(p.mark.before);
          var outcome := store.MarkClientDisconnected(id, p.mark.now, p.mark.io);
          if outcome.Failed? {
            var e := RecoverFromError(id, p.handler);
            return Some(e);
          }
        }
        return Some(ClientGone);
      }
      if current.value.state.ApprovedOnce? {
        var e := DecideApproved(id, sha, p);
        return Some(e);
      }
      if current.value.state.Blocked? || current.value.state.Expired? {
        return Some(BlockedWith(ReviewRejected));
      }
      return None;
    }

    /** Polls until a decision or the deadline; the polls are those made before it. */
    method HoldRequest(id: string, sha: string, polls: seq<Poll>, get: Call, close: Call, handler: Handler) returns (exit: Exit)
      modifies this, store
      ensures State(Some(exit)) == Hold(old(store.records), old(auditFault), id, sha, polls, get, close, handler)
    {
      hide PollOnce, Recover;
      for i := 0 to |polls|
        invariant State(None) == Polled(old(State(None)), id, sha, polls[..i])
      {
        assert polls[..i + 1][..i] == polls[..i] && polls[..i + 1][i] == polls[i];
        var e := PollRecord(id, sha, polls[i]);
        if e.Some? {
          assert State(e) == Polled(old(State(None)), id, sha, polls[..i + 1]);
          PolledStops(old(State(None)), id, sha, polls, i + 1);
          return e.value;
        }
      }
      assert polls[..|polls|] == polls;
      Others(get.before);
      var current := Read(store.records, id, get.io);
      if current.None? {
        exit := RecoverFromError(id, handler);
        return;
      }
      if current.value.state.Pending? {
        Others(close.before);
        var outcome := store.RejectRequest(id, "review timed out", close.now, close.io);
        if outcome.Failed? {
          exit := RecoverFromError(id, handler);
          return;
        }
      }
      return BlockedWith(ReviewTimeout);
    }

    /** The response and error hooks: record the outcome of an authorized request. */
    method FinishRequest(id: string, outcome: ReviewState, reason: string, get: Call, write: Call)
      requires IsOutcome(outcome)
      modifies this, store
      ensures (store.records, auditFault) == Finish(old(store.records), old(auditFault), id, outcome, reason, get, write)
    {
      Others(get.before);
      var current := Read(store.records, id, get.io);
      if current.None? {
        LatchAuditFault();
      } else if current.value.state.Authorized? {
        Others(write.before);
        var result := store.RecordOutcome(id, outcome, reason, write.now, write.io);
        if result.Failed? {
          LatchAuditFault();
        }
      }
    }
  }

  lemma {:induction false} PolledStops(s: HookState, id: string, sha: string, polls: seq<Poll>, i: nat)
    requires i <= |polls| && Polled(s, id, sha, polls[..i]).exit.Some?
    ensures Polled(s, id, sha, polls) == Polled(s, id, sha, polls[..i])
    decreases |polls| - i
  {
    hide PollOnce;
    if i == |polls| {
      assert polls[..i] == polls;
    } else {
      assert polls[..i + 1][..i] == polls[..i];
      PolledStops(s, id, sha, polls, i + 1);
    }
  }

  // ---- what every interleaving guarantees ----

  ghost predicate StoreMoved(before: Store, after: Store) {
    && StoreOk(after)
    && forall id :: id in before ==>
         (&& id in after && after[id].identity == before[id].identity
          && Rank(before[id].state) <= Rank(after[id].state)
          && (PastAuthorization(before[id].state) ==> PastAuthorization(after[id].state)))
  }

  lemma ApplyMoves(store: Store, op: StoreOp, now: Moment, io: Io)
    requires StoreOk(store)
    ensures StoreMoved(store, Apply(store, op, now, io).0)
  {
    hide Apply;
    ApplyProgress(store, op, now, io);
  }

  lemma {:induction false} MeddleMoves(store: Store, steps: seq<Step>)
    requires StoreOk(store)
    ensures StoreMoved(store, Meddle(store, steps))
  {
    hide Apply;
    if steps != [] {
      var last := steps[|steps| - 1];
      MeddleMoves(store, steps[..|steps| - 1]);
      ApplyMoves(Meddle(store, steps[..|steps| - 1]), last.op, last.now, last.io);
    }
  }

  lemma MakeMoves(s: HookState, op: StoreOp, c: Call)
    requires StoreOk(s.store)
    ensures StoreMoved(s.store, Make(s, op, c).0.store)
  {
    hide Apply;
    MeddleMoves(s.store, c.before);
    ApplyMoves(Meddle(s.store, c.before), op, c.now, c.io);
  }

  /** Closing a request or recording its outcome ends it, unless the store reports a failure. */
  lemma ClosingEnds(s: HookState, id: string, op: StoreOp, c: Call)
    requires StoreOk(s.store)
    requires (op.FailClosed? || op.Reject? || op.MarkOutcome? || op.MarkDisconnected?) && op.id == id
    ensures var (t, outcome) := Make(s, op, c);
            && t == s.(store := t.store) && StoreMoved(s.store, t.store)
            && (!outcome.Failed? ==> id in t.store && Terminal(t.store[id].state))
  {
    hide Meddle, StoreMoved, PastAuthorization;
    MakeMoves(s, op, c);
    MeddleMoves(s.store, c.before);
    var ready := Meddle(s.store, c.before);
    assert StoreOk(ready) by { MeddledOk(s.store, c.before); }
    if id in ready {
      assert RecordOk(id, ready[id]);
    }
  }

  lemma MeddledOk(store: Store, steps: seq<Step>)
    requires StoreOk(store)
    ensures StoreOk(Meddle(store, steps))
  {
    hide Meddle, StoreOk;
    MeddleMoves(store, steps);
  }

  /** The handler always blocks, and unless it latches the audit fault the
      record has left every undecided and authorized state. */
  lemma RecoverRecordsOrLatches(s: HookState, id: string, h: Handler)
    requires StoreOk(s.store) && s.exit.None?
    ensures var t := Recover(s, id, h);
            && StoreOk(t.store) && t.exit == Some(BlockedWith(ReviewError))
            && (s.fault ==> t.fault)
            && (!t.fault ==> id in t.store && Terminal(t.store[id].state))
  {
    hide Make, Meddle, PastAuthorization;
    MeddleMoves(s.store, h.get.before);
    var t := s.(store := Meddle(s.store, h.get.before));
    ClosingEnds(t, id, FailClosed(id, "review subsystem failed before upstream dispatch"), h.write);
    ClosingEnds(t, id, MarkOutcome(id, DispatchUnknown, "gateway failed while upstream dispatch status was uncertain"), h.write);
  }

  lemma DecideKeeps(s: HookState, id: string, sha: string, p: Poll)
    requires StoreOk(s.store) && s.exit.None?
    ensures var t := Decide(s, id, sha, p);
            StoreOk(t.store) && t.exit.Some? && t.exit != Some(ClientGone)
  {
    hide Meddle, Recover;
    match p.policy {
      case None => MakeMoves(s, FailClosed(id, "policy unavailable before authorization"), p.close);
      case Some(digest) =>
        MakeMoves(s, Consume(id, sha, digest), p.consume);
        var (t, outcome) := Make(s, Consume(id, sha, digest), p.consume);
        RecoverRecordsOrLatches(t, id, p.handler);
    }
  }

  lemma PollKeeps(s: HookState, id: string, sha: string, p: Poll)
    requires StoreOk(s.store) && s.exit.None?
    ensures var t := PollOnce(s, id, sha, p);
            && StoreOk(t.store)
            && (p.connected ==> t.exit != Some(ClientGone))
  {
    hide Meddle, Recover, Decide;
    MeddleMoves(s.store, p.get.before);
    var t := s.(store := Meddle(s.store, p.get.before));
    match Read(t.store, id, p.get.io) {
      case None => RecoverRecordsOrLatches(t, id, p.handler);
      case Some(current) =>
        MakeMoves(t, MarkDisconnected(id), p.mark);
        var (u, outcome) := Make(t, MarkDisconnected(id), p.mark);
        RecoverRecordsOrLatches(u, id, p.handler);
        DecideKeeps(t, id, sha, p);
    }
  }

  lemma {:induction false} PolledKeeps(store: Store, fault: bool, id: string, sha: string, polls: seq<Poll>)
    requires StoreOk(store)
    ensures var t := Polled(HookState(store, fault, None), id, sha, polls);
            && StoreOk(t.store)
            && ((forall i :: 0 <= i < |polls| ==> polls[i].connected) ==> t.exit != Some(ClientGone))
  {
    hide PollOnce;
    if polls != [] {
      PolledKeeps(store, fault, id, sha, polls[..|polls| - 1]);
      var before := Polled(HookState(store, fault, None), id, sha, polls[..|polls| - 1]);
      if before.exit.None? {
        PollKeeps(before, id, sha, polls[|polls| - 1]);
      }
    }
  }

  lemma TimeOutKeeps(s: HookState, id: string, sha: string, get: Call, close: Call, handler: Handler)
    requires StoreOk(s.store) && s.exit.None?
    ensures var t := TimeOut(s, id, get, close, handler);
            StoreOk(t.store) && t.exit.Some? && t.exit.value.BlockedWith?
  {
    hide Meddle, Recover;
    MeddleMoves(s.store, get.before);
    var t := s.(store := Meddle(s.store, get.before));
    match Read(t.store, id, get.io) {
      case None => RecoverRecordsOrLatches(t, id, handler);
      case Some(current) =>
        MakeMoves(t, Reject(id, "review timed out"), close);
        RecoverRecordsOrLatches(Make(t, Reject(id, "review timed out"), close).0, id, handler);
    }
  }

  // ---- what dispatches a request ----

  /** What the hook's own consumption would meet: the store after others acted since the read. */
  function ReadyStore(store: Store, p: Poll): Store { Meddle(Meddle(store, p.get.before), p.consume.before) }

  /** The store the hook's own consumption leaves. */
  function Consumed(store: Store, id: string, sha: string, p: Poll): Store
    requires p.policy.Some?
  {
    Apply(ReadyStore(store, p), Consume(id, sha, p.policy.value), p.consume.now, p.consume.io).0
  }

  /** The poll sees a connected client and reads an approval; the policy is verified
      again; and this hook's own consumption of the approval, still live, under that
      policy and for this very request, is written and reported as such. */
  predicate OwnConsume(store: Store, id: string, sha: string, p: Poll) {
    var read, ready := Meddle(store, p.get.before), ReadyStore(store, p);
    && p.connected && p.pinned && p.policy.Some?
    && p.get.io.readable && id in read && read[id].state.ApprovedOnce?
    && p.consume.io == WORKS && id in ready && ready[id].state.ApprovedOnce?
    && ready[id].decisionExpires.Some? && p.consume.now < ready[id].decisionExpires.value
    && p.policy.value == ready[id].identity.policyDigest && sha == ready[id].identity.requestSha
  }

  lemma PollDispatches(s: HookState, id: string, sha: string, p: Poll)
    requires StoreOk(s.store) && s.exit.None?
    ensures PollOnce(s, id, sha, p).exit == Some(Dispatched) <==> OwnConsume(s.store, id, sha, p)
    ensures OwnConsume(s.store, id, sha, p) ==>
              var after := Consumed(s.store, id, sha, p);
              PollOnce(s, id, sha, p).store == after && id in after && after[id].state.Authorized?
  {
    hide Meddle, Recover;
    MeddledOk(s.store, p.get.before);
    var t := s.(store := Meddle(s.store, p.get.before));
    MeddledOk(t.store, p.consume.before);
    RecoverBlocks(t, id, p.handler);
    RecoverBlocks(Make(t, MarkDisconnected(id), p.mark).0, id, p.handler);
    if p.policy.Some? {
      var ready := ReadyStore(s.store, p);
      assert id in ready ==> RecordOk(id, ready[id]);
      RecoverBlocks(Make(t, Consume(id, sha, p.policy.value), p.consume).0, id, p.handler);
    }
  }

  lemma RecoverBlocks(s: HookState, id: string, h: Handler)
    ensures Recover(s, id, h).exit == Some(BlockedWith(ReviewError))
  {
    hide Make, Meddle;
  }

  /** Poll `i` is reached and dispatches by the hook's own consumption. */
  predicate ConsumesAt(start: HookState, id: string, sha: string, polls: seq<Poll>, i: nat) {
    && i < |polls| && Polled(start, id, sha, polls[..i]).exit.None?
    && OwnConsume(Polled(start, id, sha, polls[..i]).store, id, sha, polls[i])
  }

  function StoreAfter(start: HookState, id: string, sha: string, polls: seq<Poll>, i: nat): Store
    requires ConsumesAt(start, id, sha, polls, i)
  {
    Consumed(Polled(start, id, sha, polls[..i]).store, id, sha, polls[i])
  }

  lemma {:induction false} PolledDispatches(store: Store, fault: bool, id: string, sha: string, polls: seq<Poll>)
    requires StoreOk(store)
    ensures var start := HookState(store, fault, None);
            var t := Polled(start, id, sha, polls);
            && (t.exit == Some(Dispatched) ==> exists i: nat :: ConsumesAt(start, id, sha, polls, i))
            && (forall i: nat :: ConsumesAt(start, id, sha, polls, i) ==>
                  t.exit == Some(Dispatched) && t.store == StoreAfter(start, id, sha, polls, i)
                  && id in t.store && t.store[id].state.Authorized?)
  {
    hide PollOnce, OwnConsume, Consumed;
    var start := HookState(store, fault, None);
    if polls != [] {
      var n := |polls| - 1;
      var front := polls[..n];
      PolledDispatches(store, fault, id, sha, front);
      PolledKeeps(store, fault, id, sha, front);
      var before := Polled(start, id, sha, front);
      forall i: nat | i < n ensures polls[..i] == front[..i] && (ConsumesAt(start, id, sha, polls, i) <==> ConsumesAt(start, id, sha, front, i)) {
        assert polls[..i] == front[..i];
      }
      if before.exit.None? {
        PollDispatches(before, id, sha, polls[n]);
        assert ConsumesAt(start, id, sha, polls, n) <==> OwnConsume(before.store, id, sha, polls[n]);
      }
    }
  }

  /** For every operator action between any two calls and every storage failure,
      the hold ends, and the request goes upstream exactly when some poll of this
      hook consumes a live approval under the re-verified policy; the store is
      then as that consumption left it, with the record authorized. */
  lemma DispatchNeedsOwnConsume(store: Store, fault: bool, id: string, sha: string, polls: seq<Poll>, get: Call, close: Call, handler: Handler)
    requires StoreOk(store)
    ensures var start, t := HookState(store, fault, None), Hold(store, fault, id, sha, polls, get, close, handler);
            && t.exit.Some?
            && (t.exit == Some(Dispatched) <==> exists i: nat :: ConsumesAt(start, id, sha, polls, i))
            && (forall i: nat :: ConsumesAt(start, id, sha, polls, i) ==>
                  t.store == StoreAfter(start, id, sha, polls, i)
                  && id in t.store && t.store[id].state.Authorized?)
  {
    hide TimeOut, Polled, ConsumesAt, Consumed, StoreAfter;
    PolledDispatches(store, fault, id, sha, polls);
    var s := Polled(HookState(store, fault, None), id, sha, polls);
    PolledKeeps(store, fault, id, sha, polls);
    if s.exit.None? {
      TimeOutKeeps(s, id, sha, get, close, handler);
    }
  }

  /** If every poll saw the client connected, every exit but a dispatch is a blocked response. */
  lemma OtherExitsBlock(store: Store, fault: bool, id: string, sha: string, polls: seq<Poll>, get: Call, close: Call, handler: Handler)
    requires StoreOk(store) && forall i :: 0 <= i < |polls| ==> polls[i].connected
    ensures var t := Hold(store, fault, id, sha, polls, get, close, handler);
            t.exit == Some(Dispatched) || (t.exit.Some? && t.exit.value.BlockedWith?)
  {
    hide TimeOut, Polled;
    PolledKeeps(store, fault, id, sha, polls);
    var s := Polled(HookState(store, fault, None), id, sha, polls);
    if s.exit.None? {
      TimeOutKeeps(s, id, sha, get, close, handler);
    }
  }

  /** What one poll does with what it reads, whoever else acted before: it waits on a
      record that is neither approved, blocked nor expired, touching nothing; answers
      a blocked or expired one; and lets go of a client that left, closing a record
      that is still undecided. */
  lemma PollExact(s: HookState, id: string, sha: string, p: Poll)
    requires StoreOk(s.store) && s.exit.None?
    ensures var read, t := Meddle(s.store, p.get.before), PollOnce(s, id, sha, p);
            if !p.get.io.readable || id !in read then t.exit == Some(BlockedWith(ReviewError))
            else
              var state := read[id].state;
              if p.connected then
                && (t.exit.None? <==> !state.ApprovedOnce? && !state.Blocked? && !state.Expired?)
                && (t.exit.None? ==> t == s.(store := read))
                && (state.Blocked? || state.Expired? ==> t.exit == Some(BlockedWith(ReviewRejected)) && t.store == read)
                && (state.ApprovedOnce? && p.policy.None? ==> t.exit == Some(BlockedWith(PolicyUnavailable)))
                && (state.ApprovedOnce? && p.policy.Some? ==> t.exit == Some(Dispatched) || t.exit == Some(BlockedWith(ReviewError)))
              else if state.Pending? || state.ApprovedOnce? then
                var (after, outcome) := Apply(Meddle(read, p.mark.before), MarkDisconnected(id), p.mark.now, p.mark.io);
                t.exit == Some(if outcome.Failed? then BlockedWith(ReviewError) else ClientGone)
                && (outcome.Returned? ==> t.store == after)
              else t.exit == Some(ClientGone) && t.store == read
  {
    hide Meddle, Recover, Apply;
    var t := s.(store := Meddle(s.store, p.get.before));
    RecoverBlocks(t, id, p.handler);
    RecoverBlocks(Make(t, MarkDisconnected(id), p.mark).0, id, p.handler);
    if p.policy.Some? {
      RecoverBlocks(Make(t, Consume(id, sha, p.policy.value), p.consume).0, id, p.handler);
    }
  }

  /** The handler's and the deadline's closing, when nobody acts between their two
      calls and the write works: an undecided record is blocked, an authorized one gets
      an unknown outcome, and at the deadline a pending one is blocked. */
  lemma ClosingsExact(s: HookState, id: string, h: Handler)
    requires StoreOk(s.store) && h.get.io.readable && h.write.before == [] && h.write.io == WORKS
    requires id in Meddle(s.store, h.get.before)
    ensures var read := Meddle(s.store, h.get.before);
            var r, t := read[id], Recover(s, id, h);
            && t.fault == s.fault
            && t.store == if r.state.Pending? || r.state.ApprovedOnce?
                            then read[id := r.(state := Blocked, updated := h.write.now, decisionExpires := None,
                                               reason := Some("review subsystem failed before upstream dispatch"))]
                          else if r.state.Authorized?
                            then read[id := r.(state := DispatchUnknown, updated := h.write.now, decisionExpires := None,
                                               reason := Some("gateway failed while upstream dispatch status was uncertain"))]
                          else read
  {
    hide Apply, Meddle;
    var read := Meddle(s.store, h.get.before);
    MeddledOk(s.store, h.get.before);
    assert Meddle(read, []) == read by { NoMeddling(read); }
    ClosingExact(read, id, "review subsystem failed before upstream dispatch", h.write.now);
    OutcomeExact(read, id, DispatchUnknown, "gateway failed while upstream dispatch status was uncertain", h.write.now);
  }

  lemma NoMeddling(store: Store)
    ensures Meddle(store, []) == store
  {
  }

  /** At the deadline the answer is a timeout exactly when the record is readable and
      is not pending or its rejection is recorded. */
  lemma TimeOutExact(s: HookState, id: string, get: Call, close: Call, handler: Handler)
    requires s.exit.None?
    ensures var read, t := Meddle(s.store, get.before), TimeOut(s, id, get, close, handler);
            var rejected := Apply(Meddle(read, close.before), Reject(id, "review timed out"), close.now, close.io);
            && (t.exit == Some(BlockedWith(ReviewTimeout)) <==>
                  get.io.readable && id in read && (read[id].state.Pending? ==> rejected.1.Returned?))
            && (t.exit == Some(BlockedWith(ReviewTimeout)) ==>
                  t.fault == s.fault && t.store == if read[id].state.Pending? then rejected.0 else read)
            && (t.exit != Some(BlockedWith(ReviewTimeout)) ==> t.exit == Some(BlockedWith(ReviewError)))
  {
    hide Meddle, Recover, Apply;
    var t := s.(store := Meddle(s.store, get.before));
    RecoverBlocks(t, id, handler);
    RecoverBlocks(Make(t, Reject(id, "review timed out"), close).0, id, handler);
  }

  // ---- when a hold leaves its record open ----

  /** The request went upstream, its record is closed, or the fault is latched. */
  ghost predicate Settled(s: HookState, id: string) {
    s.fault || s.exit == Some(Dispatched) || (id in s.store && Terminal(s.store[id].state))
  }

  /** A closing finds the record undecided and takes effect, reported or not. */
  predicate Closes(ready: Store, id: string, io: Io) {
    io.readable && id in ready && Undecided(ready[id].state) && !io.write.LostBefore?
  }

  /** The poll reads the record as authorized for a client that left, or as
      approved with the policy gone and then neither closes it nor finds it closed. */
  predicate PollLeavesOpen(store: Store, id: string, p: Poll) {
    var read := Meddle(store, p.get.before);
    match Read(read, id, p.get.io)
    case None => false
    case Some(current) =>
      if !p.connected then current.state.Authorized?
      else
        var ready := Meddle(read, p.close.before);
        && current.state.ApprovedOnce? && p.policy.None?
        && !Closes(ready, id, p.close.io) && !(id in ready && Terminal(ready[id].state))
  }

  /** The poll that ends the hold leaves the record open. */
  predicate PollsLeaveOpen(s: HookState, id: string, sha: string, polls: seq<Poll>) {
    if polls == [] then false
    else
      var front := polls[..|polls| - 1];
      if Polled(s, id, sha, front).exit.Some? then PollsLeaveOpen(s, id, sha, front)
      else PollLeavesOpen(Polled(s, id, sha, front).store, id, polls[|polls| - 1])
  }

  /** At the deadline the record is read as already approved or authorized. */
  predicate TimeOutLeavesOpen(store: Store, id: string, get: Call) {
    match Read(Meddle(store, get.before), id, get.io)
    case None => false
    case Some(current) => current.state.ApprovedOnce? || current.state.Authorized?
  }

  /** The exits that leave the record open, in terms of what the hook reads. */
  predicate LeavesOpen(store: Store, fault: bool, id: string, sha: string, polls: seq<Poll>, get: Call) {
    var start := HookState(store, fault, None);
    || PollsLeaveOpen(start, id, sha, polls)
    || (Polled(start, id, sha, polls).exit.None? && TimeOutLeavesOpen(Polled(start, id, sha, polls).store, id, get))
  }

  /** A lost policy blocks the request and never latches the fault; the record is
      closed exactly when the closing takes effect or someone closed it before. */
  lemma PolicyLossLeavesFaultAlone(s: HookState, id: string, sha: string, p: Poll)
    requires StoreOk(s.store) && p.policy.None?
    ensures var t, ready := Decide(s, id, sha, p), Meddle(s.store, p.close.before);
            && t.exit == Some(BlockedWith(PolicyUnavailable)) && t.fault == s.fault
            && ((id in t.store && Terminal(t.store[id].state)) <==>
                  Closes(ready, id, p.close.io) || (id in ready && Terminal(ready[id].state)))
  {
    hide Meddle;
    var ready := Meddle(s.store, p.close.before);
    assert StoreOk(ready) by { MeddledOk(s.store, p.close.before); }
    if id in ready {
      assert RecordOk(id, ready[id]);
    }
  }

  lemma ApprovedPollSettles(s: HookState, id: string, sha: string, p: Poll)
    requires StoreOk(s.store) && s.exit.None?
    ensures var t, ready := Decide(s, id, sha, p), Meddle(s.store, p.close.before);
            && (s.fault ==> t.fault)
            && (Settled(t, id) <==>
                  s.fault || p.policy.Some? || Closes(ready, id, p.close.io) || (id in ready && Terminal(ready[id].state)))
  {
    hide Meddle, Recover, Closes;
    match p.policy {
      case None => PolicyLossLeavesFaultAlone(s, id, sha, p);
      case Some(digest) =>
        ConsumingSettles(s, id, sha, p, digest);
    }
  }

  /** An attempt to consume dispatches the request or goes through the handler. */
  lemma ConsumingSettles(s: HookState, id: string, sha: string, p: Poll, digest: string)
    requires StoreOk(s.store) && s.exit.None? && p.policy == Some(digest)
    ensures var t := Decide(s, id, sha, p); Settled(t, id) && (s.fault ==> t.fault)
  {
    hide Meddle, Recover;
    MakeMoves(s, Consume(id, sha, digest), p.consume);
    RecoverRecordsOrLatches(Make(s, Consume(id, sha, digest), p.consume).0, id, p.handler);
  }

  /** A poll that ends the hold settles the record unless it leaves it open; one
      that does not end it latches nothing. */
  lemma PollSettles(s: HookState, id: string, sha: string, p: Poll)
    requires StoreOk(s.store) && s.exit.None?
    ensures var t := PollOnce(s, id, sha, p);
            && (t.exit.None? ==> t.fault == s.fault && !PollLeavesOpen(s.store, id, p))
            && (t.exit.Some? ==> (Settled(t, id) <==> s.fault || !PollLeavesOpen(s.store, id, p)))
  {
    hide Meddle, Recover, Decide, Closes, Make;
    MeddleMoves(s.store, p.get.before);
    var t := s.(store := Meddle(s.store, p.get.before));
    match Read(t.store, id, p.get.io) {
      case None => RecoverRecordsOrLatches(t, id, p.handler);
      case Some(current) =>
        if !p.connected {
          if Undecided(current.state) {
            ClosingEnds(t, id, MarkDisconnected(id), p.mark);
            RecoverRecordsOrLatches(Make(t, MarkDisconnected(id), p.mark).0, id, p.handler);
          }
        } else if current.state.ApprovedOnce? {
          DecideKeeps(t, id, sha, p);
          ApprovedPollSettles(t, id, sha, p);
        }
    }
  }

  lemma {:induction false} PolledSettles(store: Store, fault: bool, id: string, sha: string, polls: seq<Poll>)
    requires StoreOk(store)
    ensures var start := HookState(store, fault, None);
            var t := Polled(start, id, sha, polls);
            && (t.exit.None? ==> t.fault == fault && !PollsLeaveOpen(start, id, sha, polls))
            && (t.exit.Some? ==> (Settled(t, id) <==> fault || !PollsLeaveOpen(start, id, sha, polls)))
  {
    hide PollOnce, Settled, PollLeavesOpen;
    if polls != [] {
      var front := polls[..|polls| - 1];
      PolledSettles(store, fault, id, sha, front);
      PolledKeeps(store, fault, id, sha, front);
      var before := Polled(HookState(store, fault, None), id, sha, front);
      if before.exit.None? {
        PollSettles(before, id, sha, polls[|polls| - 1]);
      }
    }
  }

  lemma TimeOutSettles(s: HookState, id: string, sha: string, get: Call, close: Call, handler: Handler)
    requires StoreOk(s.store) && s.exit.None?
    ensures Settled(TimeOut(s, id, get, close, handler), id) <==> s.fault || !TimeOutLeavesOpen(s.store, id, get)
  {
    hide Meddle, Recover, Make;
    MeddleMoves(s.store, get.before);
    var t := s.(store := Meddle(s.store, get.before));
    match Read(t.store, id, get.io) {
      case None => RecoverRecordsOrLatches(t, id, handler);
      case Some(current) =>
        if current.state.Pending? {
          ClosingEnds(t, id, Reject(id, "review timed out"), close);
          RecoverRecordsOrLatches(Make(t, Reject(id, "review timed out"), close).0, id, handler);
        }
    }
  }

  /** For every operator action between any two calls and every storage failure:
      a hold dispatches the request, closes its record or latches the fault,
      except exactly when the call that ends it finds the record authorized for a
      client that left, loses the policy without closing the record, or meets the
      deadline with the record already approved or authorized. */
  lemma HoldSettlesExactly(store: Store, fault: bool, id: string, sha: string, polls: seq<Poll>, get: Call, close: Call, handler: Handler)
    requires StoreOk(store)
    ensures Settled(Hold(store, fault, id, sha, polls, get, close, handler), id) <==> fault || !LeavesOpen(store, fault, id, sha, polls, get)
  {
    hide TimeOut, Polled, PollsLeaveOpen, TimeOutLeavesOpen, Settled;
    PolledKeeps(store, fault, id, sha, polls);
    PolledSettles(store, fault, id, sha, polls);
    var s := Polled(HookState(store, fault, None), id, sha, polls);
    if s.exit.None? {
      TimeOutSettles(s, id, sha, get, close, handler);
    }
  }

  /** An approval given too late to be polled outlives the hold: the request is
      answered as timed out and the record stays approved, with no fault latched. */
  lemma TimeOutLeavesApproval(store: Store, fault: bool, id: string, sha: string, get: Call, close: Call, handler: Handler)
    requires var read := Meddle(store, get.before); get.io.readable && id in read && read[id].state.ApprovedOnce?
    ensures Hold(store, fault, id, sha, [], get, close, handler)
            == HookState(Meddle(store, get.before), fault, Some(BlockedWith(ReviewTimeout)))
  {
    hide Meddle;
    assert Polled(HookState(store, fault, None), id, sha, []) == HookState(store, fault, None);
  }

  // ---- after dispatch ----

  /** What the response and error hooks do: record the outcome or latch the fault. */
  function Finish(store: Store, fault: bool, id: string, outcome: ReviewState, reason: string, get: Call, write: Call): (Store, bool) {
    var s := Meddle(store, get.before);
    match Read(s, id, get.io)
    case None => (s, true)
    case Some(current) =>
      if !current.state.Authorized? then (s, fault)
      else
        var (after, result) := Apply(Meddle(s, write.before), MarkOutcome(id, outcome, reason), write.now, write.io);
        (after, fault || result.Failed?)
  }

  /** A dispatched request gets its outcome on record or the fault is latched, and never a second one. */
  lemma FinishRecordsOrLatches(store: Store, fault: bool, id: string, outcome: ReviewState, reason: string, get: Call, write: Call)
    requires StoreOk(store) && id in store && PastAuthorization(store[id].state) && IsOutcome(outcome)
    ensures var (after, latched) := Finish(store, fault, id, outcome, reason, get, write);
            && (!latched ==> id in after && IsOutcome(after[id].state))
            && (IsOutcome(store[id].state) ==> id in after && IsOutcome(after[id].state))
  {
    hide Meddle;
    MeddleMoves(store, get.before);
    var s := Meddle(store, get.before);
    MeddleMoves(s, write.before);
    ApplyMoves(Meddle(s, write.before), MarkOutcome(id, outcome, reason), write.now, write.io);
  }

  /** With working storage and nobody in between, an authorized request gets exactly
      the outcome given, any other record stays, and nothing is latched. */
  lemma FinishExact(store: Store, fault: bool, id: string, outcome: ReviewState, reason: string, get: Call, write: Call)
    requires StoreOk(store) && (outcome.Completed? || outcome.UpstreamError? || outcome.DispatchUnknown?)
    requires get.io.readable && write.before == [] && write.io == WORKS && id in Meddle(store, get.before)
    ensures var read := Meddle(store, get.before);
            Finish(store, fault, id, outcome, reason, get, write) ==
            (if read[id].state.Authorized?
               then read[id := read[id].(state := outcome, updated := write.now, decisionExpires := None,
                                         reason := Some(OutcomeReason(outcome, reason)))]
             else read, fault)
  {
    hide Apply, Meddle;
    var read := Meddle(store, get.before);
    MeddledOk(store, get.before);
    NoMeddling(read);
    OutcomeExact(read, id, outcome, reason, write.now);
  }
}
