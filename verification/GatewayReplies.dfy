/** Which names the gateway resolves, what it replies, and that it does resolve. */
module GatewayReplies {
  import opened Wire
  import opened DnsNames
  import opened DnsMessages
  import opened DnsTtlCap
  import opened DnsBuild
  import opened Leases
  import opened ResponseCache
  import opened GatewayMachine

  // ---- the name policy ----

  /** The policy lets this name through and no static address answers for it. */
  predicate Admitted(cfg: Config, name: string) { cfg.allowed(name) && name !in cfg.statics }

  /** The question a request is resolving. */
  function Resolving(p: Phase): Option<Question> {
    match p
    case Asked(packet, q) => Some(q)
    case Looked(packet, q, hit) => Some(q)
    case Querying(packet, q) => Some(q)
    case UpstreamLost(packet, q) => Some(q)
    case Received(packet, q, response) => Some(q)
    case Accepted(packet, q, response, answer) => Some(q)
    case Storing(packet, q, response, answer, expires) => Some(q)
    case Stored(packet, q, response, answer) => Some(q)
    case Drawn(packet, q, response, answer, drawn) => Some(q)
    case LiveAudited(packet, q, response, answer, drawn) => Some(q)
    case LiveGranting(packet, q, response, answer, id, expires) => Some(q)
    case Reusing(packet, q, cached) => Some(q)
    case Reused(packet, q, cached, response, id) => Some(q)
    case ReuseAudited(packet, q, cached, response, id) => Some(q)
    case ReuseGranting(packet, q, cached, response, id) => Some(q)
    case _ => None
  }

  /** What a request does with the packet it begins with, and what it will put on record. */
  lemma BeginExact(cfg: Config, s: State, t: nat, packet: Packet)
    requires PhaseOf(s, t).Idle?
    ensures var p := PhaseOf(Next(cfg, s, t, Begin(packet)), t);
            match QueryMeaning(packet)
            case None => p == Closing(packet, ServfailMeaning(packet), AuditRecord(ServfailAnswer, None, [], None))
            case Some(q) =>
              if q.name in cfg.statics && IsAddress(cfg.statics[q.name]) then
                && p.Closing? && p.packet == packet && StaticMeaning(packet, cfg.statics[q.name]) == Some(p.reply)
                && p.record == AuditRecord(StaticAnswer, Some(q.name), [cfg.statics[q.name]], None)
              else if cfg.allowed(q.name) && q.name !in cfg.statics then p == Asked(packet, q)
              else p == Closing(packet, ServfailMeaning(packet), AuditRecord(ServfailAnswer, Some(q.name), [], None))
  {
    hide QueryMeaning, ServfailMeaning, StaticPacket;
  }

  lemma AdvanceResolves(cfg: Config, s: State, t: nat, id: string)
    ensures var p := PhaseOf(GatewayMachine.Advance(cfg, s, t, id), t); Resolving(p).Some? ==> Resolving(p) == Resolving(PhaseOf(s, t))
  {
    hide ResponseMeaning, ServfailMeaning, Revalidate, ResponseCache.Lookup, Store, WithAll, Unexpired, LiveExpiry;
  }

  lemma OtherResolves(cfg: Config, s: State, t: nat, a: Action)
    requires !a.Proceed? && !a.Begin?
    ensures var p := PhaseOf(Next(cfg, s, t, a), t); Resolving(p).Some? ==> Resolving(p) == Resolving(PhaseOf(s, t))
  {
    hide ServfailMeaning, Unexpired, Appended, LiveRecord, ReuseRecord;
  }

  /** A request goes on with its question, or takes up an admitted one. */
  lemma StepResolves(cfg: Config, s: State, t: nat, a: Action)
    ensures var p := PhaseOf(Next(cfg, s, t, a), t);
            Resolving(p).Some? ==> Resolving(p) == Resolving(PhaseOf(s, t)) || Admitted(cfg, Resolving(p).value.name)
  {
    hide GatewayMachine.Advance, Audit, StartRequest, Unexpired, QueryMeaning, ServfailMeaning, StaticMeaning;
    match a {
      case Proceed(id) => AdvanceResolves(cfg, s, t, id);
      case Begin(packet) =>
        if PhaseOf(s, t).Idle? {
          BeginExact(cfg, s, t, packet);
        }
      case _ => OtherResolves(cfg, s, t, a);
    }
  }

  lemma ElsewhereKept(cfg: Config, s: State, t: nat, a: Action)
    ensures forall r :: r != t ==> PhaseOf(Next(cfg, s, t, a), r) == PhaseOf(s, r)
  {
    StepOrigins(cfg, s, t, a);
  }

  ghost predicate PolicyOk(cfg: Config, s: State) {
    && (forall t :: Resolving(PhaseOf(s, t)).Some? ==> Admitted(cfg, Resolving(PhaseOf(s, t)).value.name))
    && (forall e :: e in s.history ==> Admitted(cfg, e.answer.name))
  }

  lemma ServedName(cfg: Config, s: State, t: nat, e: Live)
    requires Inv(cfg, s) && Serves(PhaseOf(s, t), s.clock, e)
    ensures Resolving(PhaseOf(s, t)).Some? && e.answer.name == Resolving(PhaseOf(s, t)).value.name
  {
    hide QueryMeaning, ResponseMeaning, HistoryOk, LeasesOk, CacheOk;
    var p := PhaseOf(s, t);
    assert PhaseOk(cfg, s.history, s.log, p);
    LiveNames(cfg, p.packet, p.q, p.response, p.answer);
  }

  lemma {:induction false} RunPolicy(cfg: Config, steps: seq<(nat, Action)>)
    ensures PolicyOk(cfg, Run(cfg, steps))
  {
    hide Next, Resolving, Serves, Admitted, Inv, PhaseOf;
    if steps == [] {
      NothingResolving();
    } else {
      var n := |steps| - 1;
      var s, last := Run(cfg, steps[..n]), steps[n];
      RunPolicy(cfg, steps[..n]);
      RunKeepsInv(cfg, steps[..n]);
      StepResolves(cfg, s, last.0, last.1);
      ElsewhereKept(cfg, s, last.0, last.1);
      StepHistory(cfg, s, last.0, last.1);
      forall e | e in Run(cfg, steps).history ensures Admitted(cfg, e.answer.name) {
        if e !in s.history {
          ServedName(cfg, s, last.0, e);
        }
      }
    }
  }

  lemma NothingResolving()
    ensures forall t :: Resolving(PhaseOf(START, t)).None?
  {
  }

  /** Over every run, only names the policy lets through, and no static ones, are
      asked upstream, cached or leased. */
  lemma OnlyAdmittedNames(cfg: Config, steps: seq<(nat, Action)>, t: nat, key: Key, a: Address)
    ensures var s := Run(cfg, steps);
            && (PhaseOf(s, t).Querying? ==> cfg.allowed(PhaseOf(s, t).q.name) && PhaseOf(s, t).q.name !in cfg.statics)
            && (key in s.cache.entries ==> cfg.allowed(key.0) && key.0 !in cfg.statics)
            && ((key.0, a) in s.leases ==> cfg.allowed(key.0) && key.0 !in cfg.statics)
  {
    hide QueryMeaning, ResponseMeaning, Run, PhaseOk, WellOrdered;
    RunPolicy(cfg, steps);
    RunKeepsInv(cfg, steps);
    var s := Run(cfg, steps);
    if key in s.cache.entries {
      assert FromLive(cfg, s.history, key, s.cache.entries[key]);
    }
    if (key.0, a) in s.leases {
      assert LeaseOk(cfg, s.history, s.log, key.0, a, s.leases[(key.0, a)]);
    }
  }

  // ---- what is replied ----

  /** The packet a request began with. */
  function PacketOf(p: Phase): Option<Packet> {
    match p
    case Idle => None
    case Crashed => None
    case Asked(packet, q) => Some(packet)
    case Looked(packet, q, hit) => Some(packet)
    case Querying(packet, q) => Some(packet)
    case UpstreamLost(packet, q) => Some(packet)
    case Received(packet, q, response) => Some(packet)
    case Accepted(packet, q, response, answer) => Some(packet)
    case Storing(packet, q, response, answer, expires) => Some(packet)
    case Stored(packet, q, response, answer) => Some(packet)
    case Drawn(packet, q, response, answer, drawn) => Some(packet)
    case LiveAudited(packet, q, response, answer, drawn) => Some(packet)
    case LiveGranting(packet, q, response, answer, id, expires) => Some(packet)
    case Reusing(packet, q, cached) => Some(packet)
    case Reused(packet, q, cached, response, id) => Some(packet)
    case ReuseAudited(packet, q, cached, response, id) => Some(packet)
    case ReuseGranting(packet, q, cached, response, id) => Some(packet)
    case Closing(packet, reply, record) => Some(packet)
    case Replied(packet, reply) => Some(packet)
  }

  /** Request `t` began with this packet at some step. */
  ghost predicate Begun(cfg: Config, steps: seq<(nat, Action)>, t: nat, packet: Packet) {
    exists i :: 0 <= i < |steps| && BeginsAt(cfg, steps, i, t, packet)
  }

  ghost predicate BeginsAt(cfg: Config, steps: seq<(nat, Action)>, i: nat, t: nat, packet: Packet)
    requires i < |steps|
  {
    steps[i] == (t, Begin(packet)) && PhaseOf(Run(cfg, steps[..i]), t).Idle?
  }

  /** The reply a request is about to give or has given. */
  function ReplyOf(p: Phase): Option<Packet> {
    match p
    case Closing(packet, reply, record) => Some(reply)
    case Replied(packet, reply) => Some(reply)
    case _ => None
  }

  ghost predicate StaticReply(cfg: Config, packet: Packet, reply: Packet) {
    match QueryMeaning(packet)
    case None => false
    case Some(q) => q.name in cfg.statics && IsAddress(cfg.statics[q.name]) && StaticMeaning(packet, cfg.statics[q.name]) == Some(reply)
  }

  /** An accepted live answer to the same question, its time-to-live fields zero, under the packet's ID. */
  ghost predicate ReuseReply(cfg: Config, history: set<Live>, packet: Packet, reply: Packet) {
    exists e :: e in history && Repeats(cfg, e, packet, reply)
  }

  ghost predicate Repeats(cfg: Config, e: Live, packet: Packet, reply: Packet) {
    match QueryMeaning(packet)
    case None => false
    case Some(q) =>
      && e.answer.name == q.name && e.answer.qtype == q.qtype && |packet| >= 2 && |e.response| >= 2
      && CapMeaning(WithId(packet, e.response), 0) == Some(reply) && ResponseMeaning(packet, reply, cfg.pub).Some?
  }

  /** The reply is a failure reply or a static answer for the packet, a live answer
      being worked on for it, or a repeated live answer. */
  ghost predicate ReplyOk(cfg: Config, s: State, u: State, t: nat, packet: Packet, reply: Packet) {
    || reply == ServfailMeaning(packet)
    || StaticReply(cfg, packet, reply)
    || (InWork(PhaseOf(s, t)) == Some((packet, reply)) && ResponseMeaning(packet, reply, cfg.pub).Some?)
    || ReuseReply(cfg, u.history, packet, reply)
  }

  lemma AdvanceReplies(cfg: Config, s: State, t: nat, id: string)
    requires Inv(cfg, s)
    ensures var u := GatewayMachine.Advance(cfg, s, t, id);
            var p, r := PhaseOf(s, t), PhaseOf(u, t);
            && (PacketOf(r).Some? ==> PacketOf(r) == PacketOf(p))
            && (ReplyOf(r).Some? ==> (ReplyOf(r) == ReplyOf(p)) || ReplyOk(cfg, s, u, t, PacketOf(r).value, ReplyOf(r).value))
  {
    hide QueryMeaning, ResponseMeaning, ServfailMeaning, StaticMeaning, Revalidate, ResponseCache.Lookup, Store, WithAll, Unexpired, LiveExpiry,
         HistoryOk, LeasesOk, CacheOk, CapMeaning, WithId, Logged, Origin;
    var p := PhaseOf(s, t);
    assert t in s.requests ==> PhaseOk(cfg, s.history, s.log, p);
    if p.ReuseGranting? {
      ReuseRepeats(cfg, s, p);
    }
  }

  lemma ReuseRepeats(cfg: Config, s: State, p: Phase)
    requires p.ReuseGranting? && PhaseOk(cfg, s.history, s.log, p)
    ensures ReuseReply(cfg, s.history, p.packet, p.response)
  {
    hide QueryMeaning, ResponseMeaning, CapMeaning, WithId, Logged;
    var e :| e in s.history && Remembers(cfg, e, (p.q.name, p.q.qtype), p.cached);
    assert Repeats(cfg, e, p.packet, p.response);
  }

  lemma BeginReplies(cfg: Config, s: State, t: nat, packet: Packet)
    requires PhaseOf(s, t).Idle?
    ensures var u := Next(cfg, s, t, Begin(packet));
            var r := PhaseOf(u, t);
            && PacketOf(r) == Some(packet)
            && (ReplyOf(r).Some? ==> ReplyOk(cfg, s, u, t, packet, ReplyOf(r).value))
  {
    hide QueryMeaning, ServfailMeaning, StaticMeaning, Next;
    BeginExact(cfg, s, t, packet);
  }

  lemma OtherReplies(cfg: Config, s: State, t: nat, a: Action)
    requires !a.Proceed? && !(a.Begin? && PhaseOf(s, t).Idle?)
    ensures var u := Next(cfg, s, t, a);
            var p, r := PhaseOf(s, t), PhaseOf(u, t);
            && (PacketOf(r).Some? ==> PacketOf(r) == PacketOf(p))
            && (ReplyOf(r).Some? ==> ReplyOf(r) == ReplyOf(p) || ReplyOf(r).value == ServfailMeaning(PacketOf(r).value))
  {
    hide ServfailMeaning, Unexpired, Appended, LiveRecord, ReuseRecord;
  }

  /** Over a run, the reply to a packet is the failure reply, the static answer, the
      live answer an upstream step delivered to that request, or a repeated live
      answer that was processed before. */
  ghost predicate GoodReply(cfg: Config, steps: seq<(nat, Action)>, t: nat, packet: Packet, reply: Packet) {
    || reply == ServfailMeaning(packet)
    || StaticReply(cfg, packet, reply)
    || (Delivered(cfg, steps, t, packet, reply) && ResponseMeaning(packet, reply, cfg.pub).Some?)
    || exists e :: Processed(cfg, steps, e) && Repeats(cfg, e, packet, reply)
  }

  ghost predicate RepliesOk(cfg: Config, steps: seq<(nat, Action)>, s: State, t: nat) {
    var p := PhaseOf(s, t);
    && (PacketOf(p).Some? ==> Begun(cfg, steps, t, PacketOf(p).value))
    && (ReplyOf(p).Some? ==> PacketOf(p).Some? && GoodReply(cfg, steps, t, PacketOf(p).value, ReplyOf(p).value))
  }

  lemma BegunGrows(cfg: Config, front: seq<(nat, Action)>, last: (nat, Action), t: nat, packet: Packet)
    requires Begun(cfg, front, t, packet)
    ensures Begun(cfg, front + [last], t, packet)
  {
    hide Run;
    var i :| 0 <= i < |front| && BeginsAt(cfg, front, i, t, packet);
    assert (front + [last])[..i] == front[..i];
    assert BeginsAt(cfg, front + [last], i, t, packet);
  }

  lemma GoodReplyGrows(cfg: Config, front: seq<(nat, Action)>, last: (nat, Action), t: nat, packet: Packet, reply: Packet)
    requires GoodReply(cfg, front, t, packet, reply)
    ensures GoodReply(cfg, front + [last], t, packet, reply)
  {
    hide Delivered, Processed, Repeats, ResponseMeaning, ServfailMeaning, StaticReply;
    if Delivered(cfg, front, t, packet, reply) {
      DeliveredGrows(cfg, front, last, t, packet, reply);
    }
    if e :| Processed(cfg, front, e) && Repeats(cfg, e, packet, reply) {
      ProcessedGrows(cfg, front, last, e);
    }
  }

  lemma RepliesGrow(cfg: Config, front: seq<(nat, Action)>, last: (nat, Action), s: State, u: State, t: nat)
    requires RepliesOk(cfg, front, s, t) && PhaseOf(u, t) == PhaseOf(s, t)
    ensures RepliesOk(cfg, front + [last], u, t)
  {
    hide Begun, GoodReply, PhaseOf;
    var p := PhaseOf(s, t);
    if PacketOf(p).Some? {
      BegunGrows(cfg, front, last, t, PacketOf(p).value);
    }
    if ReplyOf(p).Some? {
      GoodReplyGrows(cfg, front, last, t, PacketOf(p).value, ReplyOf(p).value);
    }
  }

  /** What a step may leave a request with. */
  ghost predicate StepReplies(cfg: Config, s: State, u: State, t: nat, a: Action) {
    var p, r := PhaseOf(s, t), PhaseOf(u, t);
    && (PacketOf(r).Some? ==> PacketOf(r) == PacketOf(p) || (a == Begin(PacketOf(r).value) && p.Idle?))
    && (ReplyOf(r).Some? ==> ReplyOf(r) == ReplyOf(p) || (PacketOf(r).Some? && ReplyOk(cfg, s, u, t, PacketOf(r).value, ReplyOf(r).value)))
  }

  lemma NextReplies(cfg: Config, s: State, t: nat, a: Action)
    requires Inv(cfg, s)
    ensures StepReplies(cfg, s, Next(cfg, s, t, a), t, a)
  {
    hide Inv, ServfailMeaning, StaticReply, ReuseReply, Audit, StartRequest, GatewayMachine.Advance, ResponseMeaning, InWork;
    match a {
      case Proceed(id) => AdvanceReplies(cfg, s, t, id);
      case Begin(packet) =>
        if PhaseOf(s, t).Idle? {
          BeginReplies(cfg, s, t, packet);
        } else {
          OtherReplies(cfg, s, t, a);
        }
      case _ => OtherReplies(cfg, s, t, a);
    }
  }

  lemma OkIsGood(cfg: Config, steps: seq<(nat, Action)>, front: seq<(nat, Action)>, last: (nat, Action), t: nat, packet: Packet, reply: Packet)
    requires steps == front + [last] && ReplyOk(cfg, Run(cfg, front), Run(cfg, steps), t, packet, reply)
    ensures GoodReply(cfg, steps, t, packet, reply)
  {
    hide Run, Delivered, Processed, Repeats, ResponseMeaning, ServfailMeaning, StaticReply, InWork, PhaseOf;
    RunDelivers(cfg, front);
    RunProcesses(cfg, steps);
    if InWork(PhaseOf(Run(cfg, front), t)) == Some((packet, reply)) {
      DeliveredGrows(cfg, front, last, t, packet, reply);
    }
  }

  lemma LastBegins(cfg: Config, steps: seq<(nat, Action)>, front: seq<(nat, Action)>, last: (nat, Action), packet: Packet)
    requires steps == front + [last] && last.1 == Begin(packet) && PhaseOf(Run(cfg, front), last.0).Idle?
    ensures Begun(cfg, steps, last.0, packet)
  {
    hide Run, PhaseOf;
    assert steps[..|front|] == front;
    assert BeginsAt(cfg, steps, |front|, last.0, packet);
  }

  /** Every request of every run has the packet it began with, and every reply is one of these. */
  lemma {:induction false} RunReplies(cfg: Config, steps: seq<(nat, Action)>, t: nat)
    ensures RepliesOk(cfg, steps, Run(cfg, steps), t)
  {
    hide Next, GoodReply, Begun, PacketOf, ReplyOf, ReplyOk, Inv, PhaseOf;
    if steps == [] {
      NothingReplied(t);
    } else {
      var n := |steps| - 1;
      var front, last := steps[..n], steps[n];
      assert steps == front + [last];
      var s, u := Run(cfg, front), Run(cfg, steps);
      RunReplies(cfg, front, t);
      ElsewhereKept(cfg, s, last.0, last.1);
      if t != last.0 {
        RepliesGrow(cfg, front, last, s, u, t);
      } else {
        RunKeepsInv(cfg, front);
        NextReplies(cfg, s, t, last.1);
        var p, r := PhaseOf(s, t), PhaseOf(u, t);
        if PacketOf(r).Some? {
          if PacketOf(r) == PacketOf(p) {
            BegunGrows(cfg, front, last, t, PacketOf(r).value);
          } else {
            LastBegins(cfg, steps, front, last, PacketOf(r).value);
          }
        }
        if ReplyOf(r).Some? {
          RepliesHavePackets(r);
          if PacketOf(r).Some? && ReplyOk(cfg, s, u, t, PacketOf(r).value, ReplyOf(r).value) {
            OkIsGood(cfg, steps, front, last, t, PacketOf(r).value, ReplyOf(r).value);
          } else {
            IdleHasNoReply(p);
            GoodReplyGrows(cfg, front, last, t, PacketOf(r).value, ReplyOf(r).value);
          }
        }
      }
    }
  }

  lemma NothingReplied(t: nat)
    ensures PacketOf(PhaseOf(START, t)).None? && ReplyOf(PhaseOf(START, t)).None?
  {
  }

  lemma RepliesHavePackets(p: Phase)
    ensures ReplyOf(p).Some? ==> PacketOf(p).Some?
  {
  }

  lemma IdleHasNoReply(p: Phase)
    ensures p.Idle? ==> ReplyOf(p).None?
  {
  }

  /** In every run, a request that replied had begun with some packet, and its reply
      is the failure reply to that packet, the static answer to it, an accepted
      response that a step of the run delivered to this very request, or an accepted
      repetition, with time-to-live zero, of a live answer to the same question that
      an earlier step processed. */
  lemma RepliesAreJustified(cfg: Config, steps: seq<(nat, Action)>, t: nat)
    requires PhaseOf(Run(cfg, steps), t).Replied?
    ensures var p := PhaseOf(Run(cfg, steps), t);
            Begun(cfg, steps, t, p.packet) && GoodReply(cfg, steps, t, p.packet, p.reply)
  {
    hide Run, Begun, GoodReply;
    RunReplies(cfg, steps, t);
  }
}
