/** What an undisturbed request achieves: a live answer is cached, audited, granted
    and returned, and so is a cached one when it is fresh or upstream fails. */
module GatewayRuns {
  import opened Wire
  import opened DnsNames
  import opened DnsMessages
  import opened DnsBuild
  import opened DnsTtlCap
  import opened Leases
  import opened ResponseCache
  import opened GatewayMachine
  import opened GatewayReplies

  /** Request `t` takes these actions with nothing in between. */
  ghost function Play(cfg: Config, s: State, t: nat, actions: seq<Action>): State
    decreases |actions|
  {
    if actions == [] then s else Play(cfg, Next(cfg, s, t, actions[0]), t, actions[1..])
  }

  lemma {:induction false} PlayConcat(cfg: Config, s: State, t: nat, a: seq<Action>, b: seq<Action>)
    ensures Play(cfg, s, t, a + b) == Play(cfg, Play(cfg, s, t, a), t, b)
    decreases |a|
  {
    hide Next;
    if a == [] {
      assert a + b == b;
    } else {
      assert (a + b)[1..] == a[1..] + b;
      PlayConcat(cfg, Next(cfg, s, t, a[0]), t, a[1..], b);
    }
  }

  lemma PlayTwo(cfg: Config, s: State, t: nat, a: Action, b: Action)
    ensures Play(cfg, s, t, [a, b]) == Next(cfg, Next(cfg, s, t, a), t, b)
  {
    hide Next;
    assert [a, b][1..] == [b] && [b][1..] == [];
    assert Play(cfg, Next(cfg, s, t, a), t, [b]) == Next(cfg, Next(cfg, s, t, a), t, b);
  }

  const STEP: Action := Proceed("")

  lemma MoveTwice(s: State, t: nat, a: Phase, b: Phase)
    ensures Move(Move(s, t, a), t, b) == Move(s, t, b) && PhaseOf(Move(s, t, a), t) == a
  {
    assert s.requests[t := a][t := b] == s.requests[t := b];
  }

  /** An admitted query looks in the cache. */
  lemma AskRun(cfg: Config, s: State, t: nat, packet: Packet, q: Question)
    requires PhaseOf(s, t).Idle? && QueryMeaning(packet) == Some(q) && cfg.allowed(q.name) && q.name !in cfg.statics
    ensures var (cache, hit) := ResponseCache.Lookup(s.cache, (q.name, q.qtype), s.clock);
            Play(cfg, s, t, [Begin(packet), STEP]) == Move(s.(cache := cache), t, Looked(packet, q, hit))
  {
    hide QueryMeaning, ResponseCache.Lookup, StaticMeaning, ServfailMeaning, Play, Refuse;
    PlayTwo(cfg, s, t, Begin(packet), STEP);
    var (cache, hit) := ResponseCache.Lookup(s.cache, (q.name, q.qtype), s.clock);
    MoveTwice(s, t, Asked(packet, q), Looked(packet, q, hit));
    assert Next(cfg, s, t, Begin(packet)) == Move(s, t, Asked(packet, q));
  }

  /** Without a fresh entry upstream is asked, and an accepted answer is served. */
  lemma AnswerRun(cfg: Config, s: State, t: nat, packet: Packet, q: Question, hit: Option<Cached>, response: Packet, answer: Answer)
    requires PhaseOf(s, t) == Looked(packet, q, hit)
    requires hit.None? || hit.value.expires - cfg.grace as real <= s.clock
    requires ResponseMeaning(packet, response, cfg.pub) == Some(answer)
    ensures Play(cfg, s, t, [STEP, UpstreamAnswers(response), STEP]) == Move(s, t, Accepted(packet, q, response, answer))
  {
    hide ResponseMeaning, ServfailMeaning, Play, Refuse;
    PlayTwo(cfg, s, t, STEP, UpstreamAnswers(response));
    MoveTwice(s, t, Querying(packet, q), Received(packet, q, response));
    MoveTwice(s, t, Received(packet, q, response), Accepted(packet, q, response, answer));
    assert Next(cfg, s, t, STEP) == Move(s, t, Querying(packet, q));
    PlayConcat(cfg, s, t, [STEP, UpstreamAnswers(response)], [STEP]);
    PlayOne(cfg, Move(s, t, Received(packet, q, response)), t, STEP);
    assert [STEP, UpstreamAnswers(response)] + [STEP] == [STEP, UpstreamAnswers(response), STEP];
  }

  lemma PlayOne(cfg: Config, s: State, t: nat, a: Action)
    ensures Play(cfg, s, t, [a]) == Next(cfg, s, t, a)
  {
    hide Next;
    assert [a][1..] == [];
  }

  /** A usable answer is stored in the cache until it lapses. */
  lemma StoreRun(cfg: Config, s: State, t: nat, packet: Packet, q: Question, response: Packet, answer: Answer)
    requires PhaseOf(s, t) == Accepted(packet, q, response, answer) && answer.addresses != [] && answer.ttl > 0
    ensures var expires := s.clock + Min(answer.ttl, cfg.maxTtl) as real + cfg.grace as real;
            Play(cfg, s, t, [STEP, STEP]) ==
            Move(s.(history := s.history + {Live(packet, response, answer, s.clock)},
                    cache := Store(s.cache, (q.name, q.qtype), Cached(response, answer.addresses, expires), s.clock, 4096)),
                 t, Stored(packet, q, response, answer))
  {
    hide ResponseMeaning, ServfailMeaning, Play, Store;
    PlayTwo(cfg, s, t, STEP, STEP);
    var expires := LiveExpiry(s.clock, answer.ttl, cfg.maxTtl, cfg.grace);
    var u := s.(history := s.history + {Live(packet, response, answer, s.clock)});
    MoveTwice(u, t, Storing(packet, q, response, answer, expires), Stored(packet, q, response, answer));
    assert Next(cfg, s, t, STEP) == Move(u, t, Storing(packet, q, response, answer, expires));
  }

  /** Its audit record is written with a fresh lease identifier. */
  lemma AuditRun(cfg: Config, s: State, t: nat, packet: Packet, q: Question, response: Packet, answer: Answer, id: string)
    requires PhaseOf(s, t) == Stored(packet, q, response, answer) && answer.addresses != [] && answer.ttl > 0 && IsLeaseId(id)
    ensures Play(cfg, s, t, [Proceed(id), WriteAudit(Written)]) ==
            Move(s.(log := s.log + [AuditRecord(Allow, Some(q.name), answer.addresses, Some(id))]), t,
                 LiveAudited(packet, q, response, answer, Some(id)))
  {
    hide ResponseMeaning, ServfailMeaning, Play, IsLeaseId;
    PlayTwo(cfg, s, t, Proceed(id), WriteAudit(Written));
    MoveTwice(s, t, Drawn(packet, q, response, answer, Some(id)), LiveAudited(packet, q, response, answer, Some(id)));
    assert Next(cfg, s, t, Proceed(id)) == Move(s, t, Drawn(packet, q, response, answer, Some(id)));
  }

  /** Then its addresses are leased, and the client gets the response as it came. */
  lemma GrantRun(cfg: Config, s: State, t: nat, packet: Packet, q: Question, response: Packet, answer: Answer, id: string)
    requires PhaseOf(s, t) == LiveAudited(packet, q, response, answer, Some(id))
    ensures var u := Play(cfg, s, t, [STEP, STEP]);
            var expires := s.clock + Min(answer.ttl, cfg.maxTtl) as real + cfg.grace as real;
            && PhaseOf(u, t) == Replied(packet, response) && u.clock == s.clock && u.log == s.log && u.cache == s.cache
            && u.leases == WithAll(Unexpired(s.leases, s.clock), q.name, answer.addresses, Lease(expires, id))
  {
    hide ResponseMeaning, ServfailMeaning, Play, WithAll, Unexpired;
    PlayTwo(cfg, s, t, STEP, STEP);
    var expires := LiveExpiry(s.clock, answer.ttl, cfg.maxTtl, cfg.grace);
    var u := s.(history := s.history + {Live(packet, response, answer, s.clock)});
    assert Next(cfg, s, t, STEP) == Move(u, t, LiveGranting(packet, q, response, answer, id, expires));
    MoveTwice(u, t, LiveGranting(packet, q, response, answer, id, expires), Replied(packet, response));
  }

  lemma GrantAuthorizes(s: State, leases: LeaseMap, hostname: string, addresses: seq<Address>, lease: Lease, a: Address)
    requires s.leases == WithAll(leases, hostname, addresses, lease) && a in addresses && lease.expires > s.clock
    ensures Authorized(s, hostname, a) == Some(lease.id)
  {
    WithAllExact(leases, hostname, addresses, lease);
  }

  /** The actions of a query that is answered from upstream. */
  function LiveActions(packet: Packet, response: Packet, id: string): seq<Action> {
    [Begin(packet), STEP] + ([STEP, UpstreamAnswers(response), STEP] + ([STEP, STEP] + ([Proceed(id), WriteAudit(Written)] + [STEP, STEP])))
  }

  /** An admitted query with no fresh cache entry, whose upstream answer is accepted
      and usable and whose audit record is written, is answered with that response;
      each of its addresses is then authorized for the name under the audited lease. */
  lemma LiveRunGrants(cfg: Config, s: State, t: nat, packet: Packet, q: Question, response: Packet, answer: Answer, id: string, a: Address)
    requires PhaseOf(s, t).Idle? && QueryMeaning(packet) == Some(q) && cfg.allowed(q.name) && q.name !in cfg.statics
    requires var hit := ResponseCache.Lookup(s.cache, (q.name, q.qtype), s.clock).1;
             hit.None? || hit.value.expires - cfg.grace as real <= s.clock
    requires ResponseMeaning(packet, response, cfg.pub) == Some(answer) && a in answer.addresses && answer.ttl > 0 && IsLeaseId(id)
    requires cfg.maxTtl > 0 && cfg.grace >= 0
    ensures var u := Play(cfg, s, t, LiveActions(packet, response, id));
            && PhaseOf(u, t) == Replied(packet, response)
            && u.log == s.log + [AuditRecord(Allow, Some(q.name), answer.addresses, Some(id))]
            && Authorized(u, q.name, a) == Some(id)
            && u.leases[(q.name, a)].expires == s.clock + Min(answer.ttl, cfg.maxTtl) as real + cfg.grace as real
  {
    hide QueryMeaning, ResponseMeaning, ResponseCache.Lookup, Store, Play, WithAll, Unexpired, IsLeaseId;
    var (cache, hit) := ResponseCache.Lookup(s.cache, (q.name, q.qtype), s.clock);
    AskRun(cfg, s, t, packet, q);
    var s1 := Play(cfg, s, t, [Begin(packet), STEP]);
    AnswerRun(cfg, s1, t, packet, q, hit, response, answer);
    var s2 := Play(cfg, s1, t, [STEP, UpstreamAnswers(response), STEP]);
    StoreRun(cfg, s2, t, packet, q, response, answer);
    var s3 := Play(cfg, s2, t, [STEP, STEP]);
    AuditRun(cfg, s3, t, packet, q, response, answer, id);
    var s4 := Play(cfg, s3, t, [Proceed(id), WriteAudit(Written)]);
    GrantRun(cfg, s4, t, packet, q, response, answer, id);
    var u := Play(cfg, s4, t, [STEP, STEP]);
    PlayConcat(cfg, s3, t, [Proceed(id), WriteAudit(Written)], [STEP, STEP]);
    PlayConcat(cfg, s2, t, [STEP, STEP], [Proceed(id), WriteAudit(Written)] + [STEP, STEP]);
    PlayConcat(cfg, s1, t, [STEP, UpstreamAnswers(response), STEP], [STEP, STEP] + ([Proceed(id), WriteAudit(Written)] + [STEP, STEP]));
    PlayConcat(cfg, s, t, [Begin(packet), STEP],
               [STEP, UpstreamAnswers(response), STEP] + ([STEP, STEP] + ([Proceed(id), WriteAudit(Written)] + [STEP, STEP])));
    var lease := Lease(s.clock + Min(answer.ttl, cfg.maxTtl) as real + cfg.grace as real, id);
    GrantAuthorizes(u, Unexpired(s4.leases, s4.clock), q.name, answer.addresses, lease, a);
    WithAllExact(Unexpired(s4.leases, s4.clock), q.name, answer.addresses, lease);
  }

  /** A fresh entry is reused without asking upstream. */
  lemma FreshRun(cfg: Config, s: State, t: nat, packet: Packet, q: Question, cached: Cached)
    requires PhaseOf(s, t) == Looked(packet, q, Some(cached)) && cached.expires - cfg.grace as real > s.clock
    ensures Next(cfg, s, t, STEP) == Move(s, t, Reusing(packet, q, cached))
  {
  }

  /** When upstream fails, an unexpired entry is reused, and without one the request fails. */
  lemma LostRun(cfg: Config, s: State, t: nat, packet: Packet, q: Question)
    requires PhaseOf(s, t) == Querying(packet, q)
    ensures var (cache, hit) := ResponseCache.Lookup(s.cache, (q.name, q.qtype), s.clock);
            var u := Play(cfg, s, t, [UpstreamFails, STEP]);
            && u.cache == cache && u.log == s.log && u.leases == s.leases
            && (if hit.Some? then PhaseOf(u, t) == Reusing(packet, q, hit.value)
                else PhaseOf(u, t).Closing? && PhaseOf(u, t).reply == ServfailMeaning(packet))
  {
    hide ResponseCache.Lookup, ServfailMeaning, Play;
    PlayTwo(cfg, s, t, UpstreamFails, STEP);
    MoveTwice(s, t, UpstreamLost(packet, q), Idle);
    assert Next(cfg, s, t, UpstreamFails) == Move(s, t, UpstreamLost(packet, q));
  }

  function ReuseActions(id: string): seq<Action> { [Proceed(id), WriteAudit(Written)] + [STEP, STEP] }

  /** A reuse that passes revalidation and whose audit record is written is answered
      with the capped response, and grants the cached addresses until the entry expires. */
  lemma ReuseRunGrants(cfg: Config, s: State, t: nat, packet: Packet, q: Question, cached: Cached, capped: Packet, id: string, a: Address)
    requires PhaseOf(s, t) == Reusing(packet, q, cached) && IsLeaseId(id)
    requires Revalidate(cfg, s, packet, cached) == Some(capped) && a in cached.addresses && cached.expires > s.clock
    ensures var u := Play(cfg, s, t, ReuseActions(id));
            && PhaseOf(u, t) == Replied(packet, capped)
            && u.log == s.log + [AuditRecord(CachedPending, Some(q.name), cached.addresses, Some(id))]
            && Authorized(u, q.name, a) == Some(id) && u.leases[(q.name, a)].expires == cached.expires
  {
    hide Revalidate, Play, WithAll, Unexpired, IsLeaseId, ServfailMeaning;
    ReuseAuditRun(cfg, s, t, packet, q, cached, capped, id);
    var s1 := Play(cfg, s, t, [Proceed(id), WriteAudit(Written)]);
    ReuseGrantRun(cfg, s1, t, packet, q, cached, capped, id);
    var u := Play(cfg, s1, t, [STEP, STEP]);
    PlayConcat(cfg, s, t, [Proceed(id), WriteAudit(Written)], [STEP, STEP]);
    GrantAuthorizes(u, Unexpired(s1.leases, s1.clock), q.name, cached.addresses, Lease(cached.expires, id), a);
    WithAllExact(Unexpired(s1.leases, s1.clock), q.name, cached.addresses, Lease(cached.expires, id));
  }

  lemma ReuseAuditRun(cfg: Config, s: State, t: nat, packet: Packet, q: Question, cached: Cached, capped: Packet, id: string)
    requires PhaseOf(s, t) == Reusing(packet, q, cached) && IsLeaseId(id) && Revalidate(cfg, s, packet, cached) == Some(capped)
    ensures Play(cfg, s, t, [Proceed(id), WriteAudit(Written)]) ==
            Move(s.(log := s.log + [AuditRecord(CachedPending, Some(q.name), cached.addresses, Some(id))]), t,
                 ReuseAudited(packet, q, cached, capped, id))
  {
    hide Revalidate, Play, IsLeaseId, ServfailMeaning;
    PlayTwo(cfg, s, t, Proceed(id), WriteAudit(Written));
    MoveTwice(s, t, Reused(packet, q, cached, capped, id), ReuseAudited(packet, q, cached, capped, id));
    assert Next(cfg, s, t, Proceed(id)) == Move(s, t, Reused(packet, q, cached, capped, id));
  }

  lemma ReuseGrantRun(cfg: Config, s: State, t: nat, packet: Packet, q: Question, cached: Cached, capped: Packet, id: string)
    requires PhaseOf(s, t) == ReuseAudited(packet, q, cached, capped, id) && cached.addresses != [] && cached.expires > s.clock
    ensures var u := Play(cfg, s, t, [STEP, STEP]);
            && PhaseOf(u, t) == Replied(packet, capped) && u.clock == s.clock && u.log == s.log
            && u.leases == WithAll(Unexpired(s.leases, s.clock), q.name, cached.addresses, Lease(cached.expires, id))
  {
    hide Play, WithAll, Unexpired, ServfailMeaning;
    PlayTwo(cfg, s, t, STEP, STEP);
    MoveTwice(s, t, ReuseGranting(packet, q, cached, capped, id), Replied(packet, capped));
    assert Next(cfg, s, t, STEP) == Move(s, t, ReuseGranting(packet, q, cached, capped, id));
  }

  /** A cached response passes revalidation exactly when it is accepted under the
      packet's ID, has a whole second left, and is still accepted with every
      time-to-live zero. */
  lemma RevalidateExact(cfg: Config, s: State, packet: Packet, cached: Cached, capped: Packet)
    requires |packet| >= 2 && |cached.response| >= 2
    ensures Revalidate(cfg, s, packet, cached) == Some(capped) <==>
            var renewed := packet[..2] + cached.response[2..];
            && ResponseMeaning(packet, renewed, cfg.pub).Some? && cached.expires >= s.clock + 1.0
            && CapMeaning(renewed, 0) == Some(capped) && ResponseMeaning(packet, capped, cfg.pub).Some?
  {
    hide ResponseMeaning, CapMeaning;
  }

  lemma UnusableDrawn(cfg: Config, s: State, t: nat, packet: Packet, q: Question, response: Packet, answer: Answer, id: string)
    requires PhaseOf(s, t) == Accepted(packet, q, response, answer) && (answer.addresses == [] || answer.ttl <= 0) && IsLeaseId(id)
    ensures Play(cfg, s, t, [STEP, Proceed(id)]) == Move(s, t, Drawn(packet, q, response, answer, None))
  {
    hide ResponseMeaning, ServfailMeaning, Play, IsLeaseId;
    PlayTwo(cfg, s, t, STEP, Proceed(id));
    MoveTwice(s, t, Stored(packet, q, response, answer), Drawn(packet, q, response, answer, None));
    assert Next(cfg, s, t, STEP) == Move(s, t, Stored(packet, q, response, answer));
  }

  lemma UnusableReplied(cfg: Config, s: State, t: nat, packet: Packet, q: Question, response: Packet, answer: Answer)
    requires PhaseOf(s, t) == Drawn(packet, q, response, answer, None)
    ensures Play(cfg, s, t, [WriteAudit(Written), STEP]) ==
            Move(s.(log := s.log + [AuditRecord(Allow, Some(q.name), answer.addresses, None)]), t, Replied(packet, response))
  {
    hide ResponseMeaning, ServfailMeaning, Play;
    PlayTwo(cfg, s, t, WriteAudit(Written), STEP);
    var u := s.(log := s.log + [AuditRecord(Allow, Some(q.name), answer.addresses, None)]);
    MoveTwice(u, t, LiveAudited(packet, q, response, answer, None), Replied(packet, response));
    assert Next(cfg, s, t, WriteAudit(Written)) == Move(u, t, LiveAudited(packet, q, response, answer, None));
  }

  /** A live answer without addresses or with a zero time-to-live is audited without a
      lease identifier and returned; it is neither cached nor leased. */
  lemma UnusableRun(cfg: Config, s: State, t: nat, packet: Packet, q: Question, response: Packet, answer: Answer, id: string)
    requires PhaseOf(s, t) == Accepted(packet, q, response, answer) && (answer.addresses == [] || answer.ttl <= 0) && IsLeaseId(id)
    ensures Play(cfg, s, t, [STEP, Proceed(id)] + [WriteAudit(Written), STEP]) ==
            Move(s.(log := s.log + [AuditRecord(Allow, Some(q.name), answer.addresses, None)]), t, Replied(packet, response))
  {
    hide Play, IsLeaseId;
    PlayConcat(cfg, s, t, [STEP, Proceed(id)], [WriteAudit(Written), STEP]);
    UnusableDrawn(cfg, s, t, packet, q, response, answer, id);
    UnusableReplied(cfg, Move(s, t, Drawn(packet, q, response, answer, None)), t, packet, q, response, answer);
    MoveTwice(s.(log := s.log + [AuditRecord(Allow, Some(q.name), answer.addresses, None)]), t,
              Drawn(packet, q, response, answer, None), Replied(packet, response));
  }

  /** The step replaces the lease of this pair. */
  predicate Regrants(s: State, t: nat, a: Action, hostname: string, address: Address) {
    a.Proceed? &&
    match PhaseOf(s, t)
    case LiveGranting(packet, q, response, answer, id, expires) => q.name == hostname && address in answer.addresses
    case ReuseGranting(packet, q, cached, response, id) => q.name == hostname && address in cached.addresses
    case _ => false
  }

  /** But for the passage of time and a grant of that very pair, no step of any request,
      and no lookup, changes what is authorized. */
  lemma AuthorizationStands(cfg: Config, s: State, t: nat, a: Action, hostname: string, address: Address)
    requires !a.Tick? && !Regrants(s, t, a, hostname, address)
    ensures Authorized(Next(cfg, s, t, a), hostname, address) == Authorized(s, hostname, address)
  {
    hide ResponseCache.Lookup, ResponseMeaning, QueryMeaning, ServfailMeaning, StaticMeaning, Revalidate, Store, WithAll, LiveExpiry, IsLeaseId;
    match PhaseOf(s, t) {
      case LiveGranting(packet, q, response, answer, id, expires) =>
        WithAllExact(Unexpired(s.leases, s.clock), q.name, answer.addresses, Lease(expires, id));
      case ReuseGranting(packet, q, cached, response, id) =>
        WithAllExact(Unexpired(s.leases, s.clock), q.name, cached.addresses, Lease(cached.expires, id));
      case _ =>
    }
  }

  /** A request in work gives up at a local step exactly when upstream is lost and no live
      entry is left, when the response is refused, when a reuse is not revalidated, or
      when the entry expired while the audit record was written.  It then replies with
      SERVFAIL and grants nothing. */
  lemma StepFailsExactly(cfg: Config, s: State, t: nat, id: string)
    requires IsLeaseId(id) && !PhaseOf(s, t).Closing?
    ensures var u := Next(cfg, s, t, Proceed(id));
            && (PhaseOf(u, t).Closing? <==>
                match PhaseOf(s, t)
                case UpstreamLost(packet, q) => ResponseCache.Lookup(s.cache, (q.name, q.qtype), s.clock).1.None?
                case Received(packet, q, response) => ResponseMeaning(packet, response, cfg.pub).None?
                case Reusing(packet, q, cached) => Revalidate(cfg, s, packet, cached).None?
                case ReuseAudited(packet, q, cached, response, leaseId) => cached.addresses == [] || cached.expires <= s.clock
                case _ => false)
            && (PhaseOf(u, t).Closing? ==>
                && u.leases == s.leases && u.log == s.log
                && PhaseOf(u, t) == Closing(PhaseOf(s, t).packet, ServfailMeaning(PhaseOf(s, t).packet),
                     if PhaseOf(s, t).ReuseAudited?
                     then AuditRecord(ServfailAnswer, Some(PhaseOf(s, t).q.name), PhaseOf(s, t).cached.addresses, Some(PhaseOf(s, t).id))
                     else AuditRecord(ServfailAnswer, Some(PhaseOf(s, t).q.name), [], None)))
  {
    hide ResponseCache.Lookup, ResponseMeaning, ServfailMeaning, Revalidate, Store, WithAll, Unexpired, IsLeaseId;
  }

  /** A written last record is the request's own, and only then does the client get its reply. */
  lemma ClosingReplies(cfg: Config, s: State, t: nat)
    requires PhaseOf(s, t).Closing?
    ensures Next(cfg, s, t, WriteAudit(Written)) ==
            Move(s.(log := s.log + [PhaseOf(s, t).record]), t, Replied(PhaseOf(s, t).packet, PhaseOf(s, t).reply))
  {
  }

  /** A pending audit record that cannot be written keeps the answer from the client and
      grants nothing; a last record that cannot be written leaves the client without a reply. */
  lemma AuditFails(cfg: Config, s: State, t: nat, storage: Append)
    requires !storage.Written?
    ensures var u := Next(cfg, s, t, WriteAudit(storage));
            && u.leases == s.leases && u.cache == s.cache
            && (match PhaseOf(s, t)
                case Drawn(packet, q, response, answer, drawn) =>
                  PhaseOf(u, t) == Closing(packet, ServfailMeaning(packet), AuditRecord(ServfailAnswer, Some(q.name), answer.addresses, drawn))
                case Reused(packet, q, cached, response, id) =>
                  PhaseOf(u, t) == Closing(packet, ServfailMeaning(packet), AuditRecord(ServfailAnswer, Some(q.name), cached.addresses, Some(id)))
                case Closing(packet, reply, record) => PhaseOf(u, t).Crashed?
                case _ => u == s)
  {
    hide ServfailMeaning;
  }
}
