/** The DNS gateway under every interleaving of concurrent requests, upstream
    failures, audit failures, lease lookups and clock steps.  Each locked section,
    clock reading, upstream call and audit write is one step. */
module GatewayMachine {
  import opened Wire
  import opened DnsNames
  import opened DnsMessages
  import opened DnsTtlCap
  import opened DnsBuild
  import opened Leases
  import opened ResponseCache
  import DnsAnswers

  datatype Config = Config(maxTtl: int, grace: int, statics: map<string, Address>,
                           allowed: string -> bool, pub: Address -> bool)

  datatype AuditAction = Allow | CachedPending | StaticAnswer | ServfailAnswer

  datatype AuditRecord = AuditRecord(action: AuditAction, name: Option<string>, addresses: seq<Address>, leaseId: Option<string>)

  /** A live response that was accepted, and a clock reading made while serving it. */
  datatype Live = Live(query: Packet, response: Packet, answer: Answer, at: Time)

  /** Where one request stands. */
  datatype Phase =
    | Idle
    | Asked(packet: Packet, q: Question)
    | Looked(packet: Packet, q: Question, hit: Option<Cached>)
    | Querying(packet: Packet, q: Question)
    | UpstreamLost(packet: Packet, q: Question)
    | Received(packet: Packet, q: Question, response: Packet)
    | Accepted(packet: Packet, q: Question, response: Packet, answer: Answer)
    | Storing(packet: Packet, q: Question, response: Packet, answer: Answer, expires: Time)
    | Stored(packet: Packet, q: Question, response: Packet, answer: Answer)
    | Drawn(packet: Packet, q: Question, response: Packet, answer: Answer, drawn: Option<string>)
    | LiveAudited(packet: Packet, q: Question, response: Packet, answer: Answer, drawn: Option<string>)
    | LiveGranting(packet: Packet, q: Question, response: Packet, answer: Answer, id: string, expires: Time)
    | Reusing(packet: Packet, q: Question, cached: Cached)
    | Reused(packet: Packet, q: Question, cached: Cached, response: Packet, id: string)
    | ReuseAudited(packet: Packet, q: Question, cached: Cached, response: Packet, id: string)
    | ReuseGranting(packet: Packet, q: Question, cached: Cached, response: Packet, id: string)
    | Closing(packet: Packet, reply: Packet, record: AuditRecord)
    | Replied(packet: Packet, reply: Packet)
    | Crashed

  datatype State = State(clock: Time, leases: LeaseMap, cache: Cache, log: seq<AuditRecord>,
                         requests: map<nat, Phase>, history: set<Live>)

  datatype Action =
    | Tick(elapsed: Time)
    | Lookup(hostname: string, address: Address)   // a client of the lease service
    | Begin(packet: Packet)
    | UpstreamAnswers(response: Packet)
    | UpstreamFails
    | Proceed(id: string)                          // the next local step, with a fresh identifier
    | WriteAudit(storage: Append)

  function PhaseOf(s: State, t: nat): Phase { if t in s.requests then s.requests[t] else Idle }

  function Move(s: State, t: nat, phase: Phase): State { s.(requests := s.requests[t := phase]) }

  function ServfailRecord(record: AuditRecord): AuditRecord { record.(action := ServfailAnswer) }

  function NamedRecord(q: Question): AuditRecord { AuditRecord(Allow, Some(q.name), [], None) }

  ghost function Refuse(s: State, t: nat, packet: Packet, record: AuditRecord): State {
    Move(s, t, Closing(packet, ServfailMeaning(packet), ServfailRecord(record)))
  }

  ghost function StartRequest(cfg: Config, s: State, t: nat, packet: Packet): State {
    match QueryMeaning(packet)
    case None => Refuse(s, t, packet, AuditRecord(Allow, None, [], None))
    case Some(q) =>
      if q.name in cfg.statics then
        if IsAddress(cfg.statics[q.name]) then
          match StaticMeaning(packet, cfg.statics[q.name])
          case Some(reply) => Move(s, t, Closing(packet, reply, AuditRecord(StaticAnswer, Some(q.name), [cfg.statics[q.name]], None)))
          case None => Refuse(s, t, packet, NamedRecord(q))
        else Refuse(s, t, packet, NamedRecord(q))
      else if !cfg.allowed(q.name) then Refuse(s, t, packet, NamedRecord(q))
      else Move(s, t, Asked(packet, q))
  }

  /** Validate, check expiry, cap and validate again. */
  ghost function Revalidate(cfg: Config, s: State, packet: Packet, cached: Cached): Option<Packet> {
    if |packet| < 2 || |cached.response| < 2 || ResponseMeaning(packet, WithId(packet, cached.response), cfg.pub).None? then None
    else if (cached.expires - s.clock).Floor <= 0 then None
    else match CapMeaning(WithId(packet, cached.response), 0)
      case None => None
      case Some(capped) => if ResponseMeaning(packet, capped, cfg.pub).None? then None else Some(capped)
  }

  function LiveRecord(q: Question, answer: Answer, id: Option<string>): AuditRecord {
    AuditRecord(Allow, Some(q.name), answer.addresses, id)
  }

  function ReuseRecord(q: Question, cached: Cached, id: string): AuditRecord {
    AuditRecord(CachedPending, Some(q.name), cached.addresses, Some(id))
  }

  /** The next local step of a request. */
  ghost function Advance(cfg: Config, s: State, t: nat, id: string): State {
    match PhaseOf(s, t)
    case Asked(packet, q) =>
      var (cache, hit) := ResponseCache.Lookup(s.cache, (q.name, q.qtype), s.clock);
      Move(s.(cache := cache), t, Looked(packet, q, hit))
    case Looked(packet, q, hit) =>
      if hit.Some? && hit.value.expires - cfg.grace as real > s.clock then Move(s, t, Reusing(packet, q, hit.value))
      else Move(s, t, Querying(packet, q))
    case UpstreamLost(packet, q) =>
      var (cache, hit) := ResponseCache.Lookup(s.cache, (q.name, q.qtype), s.clock);
      if hit.Some? then Move(s.(cache := cache), t, Reusing(packet, q, hit.value))
      else Refuse(s.(cache := cache), t, packet, NamedRecord(q))
    case Received(packet, q, response) =>
      (match ResponseMeaning(packet, response, cfg.pub)
       case None => Refuse(s, t, packet, NamedRecord(q))
       case Some(answer) => Move(s, t, Accepted(packet, q, response, answer)))
    case Accepted(packet, q, response, answer) =>
      if answer.addresses == [] || answer.ttl <= 0 then Move(s, t, Stored(packet, q, response, answer))
      else
        Move(s.(history := s.history + {Live(packet, response, answer, s.clock)}), t,
             Storing(packet, q, response, answer, LiveExpiry(s.clock, answer.ttl, cfg.maxTtl, cfg.grace)))
    case Storing(packet, q, response, answer, expires) =>
      Move(s.(cache := Store(s.cache, (q.name, q.qtype), Cached(response, answer.addresses, expires), s.clock, CACHE_LIMIT)), t,
           Stored(packet, q, response, answer))
    case Stored(packet, q, response, answer) =>
      if !IsLeaseId(id) then s
      else Move(s, t, Drawn(packet, q, response, answer, if answer.addresses != [] && answer.ttl > 0 then Some(id) else None))
    case LiveAudited(packet, q, response, answer, drawn) =>
      (match drawn
       case None => Move(s, t, Replied(packet, response))
       case Some(leaseId) =>
         Move(s.(history := s.history + {Live(packet, response, answer, s.clock)}), t,
              LiveGranting(packet, q, response, answer, leaseId, LiveExpiry(s.clock, answer.ttl, cfg.maxTtl, cfg.grace))))
    case LiveGranting(packet, q, response, answer, leaseId, expires) =>
      Move(s.(leases := WithAll(Unexpired(s.leases, s.clock), q.name, answer.addresses, Lease(expires, leaseId))), t, Replied(packet, response))
    case Reusing(packet, q, cached) =>
      if !IsLeaseId(id) then s
      else (match Revalidate(cfg, s, packet, cached)
            case None => Refuse(s, t, packet, NamedRecord(q))
            case Some(capped) => Move(s, t, Reused(packet, q, cached, capped, id)))
    case ReuseAudited(packet, q, cached, response, leaseId) =>
      if cached.addresses == [] || cached.expires <= s.clock then Refuse(s, t, packet, ReuseRecord(q, cached, leaseId))
      else Move(s, t, ReuseGranting(packet, q, cached, response, leaseId))
    case ReuseGranting(packet, q, cached, response, leaseId) =>
      Move(s.(leases := WithAll(Unexpired(s.leases, s.clock), q.name, cached.addresses, Lease(cached.expires, leaseId))), t, Replied(packet, response))
    case _ => s
  }

  /** The log after an attempt to append a record. */
  function Appended(log: seq<AuditRecord>, record: AuditRecord, storage: Append): seq<AuditRecord> {
    if storage.Lost? then log else log + [record]
  }

  /** One attempt to write the pending audit record. */
  ghost function Audit(s: State, t: nat, storage: Append): State {
    match PhaseOf(s, t)
    case Drawn(packet, q, response, answer, id) =>
      var u := s.(log := Appended(s.log, LiveRecord(q, answer, id), storage));
      if storage.Written? then Move(u, t, LiveAudited(packet, q, response, answer, id))
      else Refuse(u, t, packet, LiveRecord(q, answer, id))
    case Reused(packet, q, cached, response, id) =>
      var u := s.(log := Appended(s.log, ReuseRecord(q, cached, id), storage));
      if storage.Written? then Move(u, t, ReuseAudited(packet, q, cached, response, id))
      else Refuse(u, t, packet, ReuseRecord(q, cached, id))
    case Closing(packet, reply, record) =>
      Move(s.(log := Appended(s.log, record, storage)), t, if storage.Written? then Replied(packet, reply) else Crashed)
    case _ => s
  }

  /** Request `t` takes an action; a step that is not enabled changes nothing. */
  ghost function Next(cfg: Config, s: State, t: nat, a: Action): State {
    match a
    case Tick(elapsed) => if elapsed >= 0.0 then s.(clock := s.clock + elapsed) else s
    case Lookup(hostname, address) => s.(leases := Unexpired(s.leases, s.clock))
    case Begin(packet) => if PhaseOf(s, t).Idle? then StartRequest(cfg, s, t, packet) else s
    case UpstreamAnswers(response) =>
      (match PhaseOf(s, t)
       case Querying(packet, q) => Move(s, t, Received(packet, q, response))
       case _ => s)
    case UpstreamFails =>
      (match PhaseOf(s, t)
       case Querying(packet, q) => Move(s, t, UpstreamLost(packet, q))
       case _ => s)
    case Proceed(id) => Advance(cfg, s, t, id)
    case WriteAudit(storage) => Audit(s, t, storage)
  }

  /** What the lease service answers now. */
  function Authorized(s: State, hostname: string, address: Address): Option<string> {
    if (hostname, address) in s.leases && s.leases[(hostname, address)].expires > s.clock
    then Some(s.leases[(hostname, address)].id) else None
  }

  const START: State := State(0.0, map[], Cache([], map[]), [], map[], {})

  ghost function Run(cfg: Config, steps: seq<(nat, Action)>): State {
    if steps == [] then START
    else Next(cfg, Run(cfg, steps[..|steps| - 1]), steps[|steps| - 1].0, steps[|steps| - 1].1)
  }

  // ---- the invariant ----

  /** `expires` is the lapse time of an accepted live answer for this hostname with these addresses. */
  ghost predicate Origin(cfg: Config, history: set<Live>, hostname: string, addresses: seq<Address>, expires: Time) {
    exists e :: e in history && Grounds(cfg, e, hostname, addresses, expires)
  }

  ghost predicate Grounds(cfg: Config, e: Live, hostname: string, addresses: seq<Address>, expires: Time) {
    && e.answer.name == hostname && e.answer.addresses == addresses
    && expires == LiveExpiry(e.at, e.answer.ttl, cfg.maxTtl, cfg.grace)
  }

  /** An audit record names the hostname, the addresses and the lease identifier. */
  ghost predicate Logged(log: seq<AuditRecord>, hostname: string, addresses: seq<Address>, id: string) {
    exists i :: 0 <= i < |log| && Names(log[i], hostname, addresses, id)
  }

  predicate Names(r: AuditRecord, hostname: string, addresses: seq<Address>, id: string) {
    (r.action == Allow || r.action == CachedPending)
    && r.name == Some(hostname) && r.addresses == addresses && r.leaseId == Some(id)
  }

  /** A cache entry holds the response of an accepted live answer to its key, until that answer lapses. */
  ghost predicate FromLive(cfg: Config, history: set<Live>, key: Key, c: Cached) {
    exists e :: e in history && Remembers(cfg, e, key, c)
  }

  ghost predicate Remembers(cfg: Config, e: Live, key: Key, c: Cached) {
    && e.answer.name == key.0 && e.answer.qtype == key.1
    && c.response == e.response && c.addresses == e.answer.addresses
    && c.expires == LiveExpiry(e.at, e.answer.ttl, cfg.maxTtl, cfg.grace)
  }

  ghost predicate PhaseOk(cfg: Config, history: set<Live>, log: seq<AuditRecord>, phase: Phase) {
    match phase
    case Asked(packet, q) => QueryMeaning(packet) == Some(q)
    case Looked(packet, q, hit) =>
      QueryMeaning(packet) == Some(q) && (hit.Some? ==> FromLive(cfg, history, (q.name, q.qtype), hit.value))
    case Querying(packet, q) => QueryMeaning(packet) == Some(q)
    case UpstreamLost(packet, q) => QueryMeaning(packet) == Some(q)
    case Received(packet, q, response) => QueryMeaning(packet) == Some(q)
    case Accepted(packet, q, response, answer) =>
      QueryMeaning(packet) == Some(q) && ResponseMeaning(packet, response, cfg.pub) == Some(answer)
    case Storing(packet, q, response, answer, expires) =>
      && QueryMeaning(packet) == Some(q) && ResponseMeaning(packet, response, cfg.pub) == Some(answer)
      && FromLive(cfg, history, (q.name, q.qtype), Cached(response, answer.addresses, expires))
    case Stored(packet, q, response, answer) =>
      QueryMeaning(packet) == Some(q) && ResponseMeaning(packet, response, cfg.pub) == Some(answer)
    case Drawn(packet, q, response, answer, id) =>
      QueryMeaning(packet) == Some(q) && ResponseMeaning(packet, response, cfg.pub) == Some(answer)
    case LiveAudited(packet, q, response, answer, id) =>
      && QueryMeaning(packet) == Some(q) && ResponseMeaning(packet, response, cfg.pub) == Some(answer)
      && (id.Some? ==> Logged(log, q.name, answer.addresses, id.value))
    case LiveGranting(packet, q, response, answer, id, expires) =>
      && QueryMeaning(packet) == Some(q) && ResponseMeaning(packet, response, cfg.pub) == Some(answer)
      && Origin(cfg, history, q.name, answer.addresses, expires) && Logged(log, q.name, answer.addresses, id)
    case Reusing(packet, q, cached) =>
      QueryMeaning(packet) == Some(q) && FromLive(cfg, history, (q.name, q.qtype), cached)
    case Reused(packet, q, cached, response, id) =>
      QueryMeaning(packet) == Some(q) && FromLive(cfg, history, (q.name, q.qtype), cached) && Capping(cfg, packet, cached, response)
    case ReuseAudited(packet, q, cached, response, id) =>
      && QueryMeaning(packet) == Some(q) && FromLive(cfg, history, (q.name, q.qtype), cached) && Capping(cfg, packet, cached, response)
      && Logged(log, q.name, cached.addresses, id)
    case ReuseGranting(packet, q, cached, response, id) =>
      && QueryMeaning(packet) == Some(q) && FromLive(cfg, history, (q.name, q.qtype), cached) && Capping(cfg, packet, cached, response)
      && Logged(log, q.name, cached.addresses, id)
    case _ => true
  }

  /** The reply of a reuse is the cached response under the query's ID with every time-to-live zero. */
  ghost predicate Capping(cfg: Config, packet: Packet, cached: Cached, response: Packet) {
    && |packet| >= 2 && |cached.response| >= 2
    && CapMeaning(WithId(packet, cached.response), 0) == Some(response)
    && ResponseMeaning(packet, response, cfg.pub).Some?
  }

  ghost predicate HistoryOk(cfg: Config, s: State) {
    forall e :: e in s.history ==> e.at <= s.clock && ResponseMeaning(e.query, e.response, cfg.pub) == Some(e.answer)
  }

  ghost predicate LeasesOk(cfg: Config, s: State) {
    forall h, a :: (h, a) in s.leases ==> LeaseOk(cfg, s.history, s.log, h, a, s.leases[(h, a)])
  }

  ghost predicate LeaseOk(cfg: Config, history: set<Live>, log: seq<AuditRecord>, h: string, a: Address, lease: Lease) {
    exists addresses :: a in addresses && Origin(cfg, history, h, addresses, lease.expires) && Logged(log, h, addresses, lease.id)
  }

  ghost predicate CacheOk(cfg: Config, s: State) {
    WellOrdered(s.cache) && forall k :: k in s.cache.entries ==> FromLive(cfg, s.history, k, s.cache.entries[k])
  }

  ghost predicate Inv(cfg: Config, s: State) {
    && HistoryOk(cfg, s) && LeasesOk(cfg, s) && CacheOk(cfg, s)
    && forall t :: t in s.requests ==> PhaseOk(cfg, s.history, s.log, s.requests[t])
  }

  // ---- growth ----

  ghost predicate Grows(s: State, u: State) { s.history <= u.history && s.log <= u.log && s.clock <= u.clock }

  lemma LoggedGrows(log: seq<AuditRecord>, more: seq<AuditRecord>, h: string, addresses: seq<Address>, id: string)
    requires log <= more && Logged(log, h, addresses, id)
    ensures Logged(more, h, addresses, id)
  {
    var i :| 0 <= i < |log| && Names(log[i], h, addresses, id);
    assert Names(more[i], h, addresses, id);
  }

  lemma LeaseGrows(cfg: Config, s: State, u: State, h: string, a: Address, lease: Lease)
    requires Grows(s, u) && LeaseOk(cfg, s.history, s.log, h, a, lease)
    ensures LeaseOk(cfg, u.history, u.log, h, a, lease)
  {
    hide Grounds, Names;
    var addresses :| a in addresses && Origin(cfg, s.history, h, addresses, lease.expires) && Logged(s.log, h, addresses, lease.id);
    LoggedGrows(s.log, u.log, h, addresses, lease.id);
  }

  lemma PhaseGrows(cfg: Config, s: State, u: State, phase: Phase)
    requires Grows(s, u) && PhaseOk(cfg, s.history, s.log, phase)
    ensures PhaseOk(cfg, u.history, u.log, phase)
  {
    hide Grounds, Names, Remembers, QueryMeaning, ResponseMeaning, Capping;
    match phase {
      case LiveAudited(packet, q, response, answer, id) =>
        if id.Some? {
          LoggedGrows(s.log, u.log, q.name, answer.addresses, id.value);
        }
      case LiveGranting(packet, q, response, answer, id, expires) => LoggedGrows(s.log, u.log, q.name, answer.addresses, id);
      case ReuseAudited(packet, q, cached, response, id) => LoggedGrows(s.log, u.log, q.name, cached.addresses, id);
      case ReuseGranting(packet, q, cached, response, id) => LoggedGrows(s.log, u.log, q.name, cached.addresses, id);
      case _ =>
    }
  }

  /** A step keeps the invariant when it only grows the past, moves one request to
      a justified phase, and justifies what it puts in the maps. */
  lemma StepKeepsInv(cfg: Config, s: State, u: State, t: nat, phase: Phase)
    requires Inv(cfg, s) && Grows(s, u) && HistoryOk(cfg, u) && CacheOk(cfg, u)
    requires u.requests == s.requests || (u.requests == s.requests[t := phase] && PhaseOk(cfg, u.history, u.log, phase))
    requires forall h, a :: (h, a) in u.leases ==>
               ((h, a) in s.leases && u.leases[(h, a)] == s.leases[(h, a)]) || LeaseOk(cfg, u.history, u.log, h, a, u.leases[(h, a)])
    ensures Inv(cfg, u)
  {
    hide PhaseOk, LeaseOk, HistoryOk, CacheOk;
    forall r | r in u.requests ensures PhaseOk(cfg, u.history, u.log, u.requests[r]) {
      if !(u.requests == s.requests[t := phase] && r == t && PhaseOk(cfg, u.history, u.log, phase)) {
        PhaseGrows(cfg, s, u, s.requests[r]);
      }
    }
    forall h, a | (h, a) in u.leases ensures LeaseOk(cfg, u.history, u.log, h, a, u.leases[(h, a)]) {
      if (h, a) in s.leases && u.leases[(h, a)] == s.leases[(h, a)] {
        LeaseGrows(cfg, s, u, h, a, s.leases[(h, a)]);
      }
    }
  }

  lemma CacheGrows(cfg: Config, s: State, u: State)
    requires CacheOk(cfg, s) && Grows(s, u) && u.cache == s.cache
    ensures CacheOk(cfg, u)
  {
    hide Remembers;
  }

  lemma CacheLookup(cfg: Config, s: State, key: Key)
    requires CacheOk(cfg, s)
    ensures var (cache, hit) := ResponseCache.Lookup(s.cache, key, s.clock);
            CacheOk(cfg, s.(cache := cache)) && (hit.Some? ==> FromLive(cfg, s.history, key, hit.value) && hit.value.expires > s.clock)
  {
    hide PurgeExpired, FromLive;
    PurgeExact(s.cache, s.clock);
    var p := PurgeExpired(s.cache, s.clock);
    if key in p.entries {
      WithoutExact(p.order, key);
    }
  }

  lemma CacheStore(cfg: Config, s: State, key: Key, value: Cached)
    requires CacheOk(cfg, s) && FromLive(cfg, s.history, key, value)
    ensures CacheOk(cfg, s.(cache := Store(s.cache, key, value, s.clock, CACHE_LIMIT)))
  {
    hide PurgeExpired, FromLive, Evict;
    PurgeExact(s.cache, s.clock);
    var p := PurgeExpired(s.cache, s.clock);
    PutLastOrdered(p, key, value);
    EvictKeeps(PutLast(p, key, value), CACHE_LIMIT);
  }

  lemma GrantJustified(cfg: Config, s: State, h: string, addresses: seq<Address>, lease: Lease)
    requires LeasesOk(cfg, s) && Origin(cfg, s.history, h, addresses, lease.expires) && Logged(s.log, h, addresses, lease.id)
    ensures LeasesOk(cfg, s.(leases := WithAll(Unexpired(s.leases, s.clock), h, addresses, lease)))
  {
    hide Origin, Logged;
    WithAllExact(Unexpired(s.leases, s.clock), h, addresses, lease);
  }

  lemma LiveNames(cfg: Config, packet: Packet, q: Question, response: Packet, answer: Answer)
    requires QueryMeaning(packet) == Some(q) && ResponseMeaning(packet, response, cfg.pub) == Some(answer)
    ensures answer.name == q.name && answer.qtype == q.qtype
  {
    hide QueryMeaning, AllRecords, RecordsMeaning, QuestionAt;
    DnsAnswers.MeaningEchoes(response, AllRecords(response).value, q.name, q.qtype, cfg.pub);
  }

  // ---- each step ----

  lemma LiveClock(cfg: Config, s: State, t: nat, id: string)
    requires Inv(cfg, s) && (PhaseOf(s, t).Accepted? || PhaseOf(s, t).LiveAudited?)
    ensures Inv(cfg, Advance(cfg, s, t, id))
  {
    hide QueryMeaning, ResponseMeaning;
    var u := Advance(cfg, s, t, id);
    var p := PhaseOf(s, t);
    LiveNames(cfg, p.packet, p.q, p.response, p.answer);
    if u.history != s.history {
      var e := Live(p.packet, p.response, p.answer, s.clock);
      assert e in u.history;
      var expires := LiveExpiry(s.clock, p.answer.ttl, cfg.maxTtl, cfg.grace);
      assert Grounds(cfg, e, p.q.name, p.answer.addresses, expires);
      assert Remembers(cfg, e, (p.q.name, p.q.qtype), Cached(p.response, p.answer.addresses, expires));
    }
    CacheGrows(cfg, s, u);
    StepKeepsInv(cfg, s, u, t, u.requests[t]);
  }

  lemma GrantStep(cfg: Config, s: State, t: nat, id: string)
    requires Inv(cfg, s) && (PhaseOf(s, t).LiveGranting? || PhaseOf(s, t).ReuseGranting?)
    ensures Inv(cfg, Advance(cfg, s, t, id))
  {
    hide QueryMeaning, ResponseMeaning, Capping, LeaseOk, Unexpired, WithAll;
    var u := Advance(cfg, s, t, id);
    match PhaseOf(s, t) {
      case LiveGranting(packet, q, response, answer, leaseId, expires) =>
        GrantJustified(cfg, s, q.name, answer.addresses, Lease(expires, leaseId));
      case ReuseGranting(packet, q, cached, response, leaseId) =>
        var e :| e in s.history && Remembers(cfg, e, (q.name, q.qtype), cached);
        assert Grounds(cfg, e, q.name, cached.addresses, cached.expires);
        GrantJustified(cfg, s, q.name, cached.addresses, Lease(cached.expires, leaseId));
    }
    assert LeasesOk(cfg, u);
    CacheGrows(cfg, s, u);
    StepKeepsInv(cfg, s, u, t, u.requests[t]);
  }

  lemma CacheStep(cfg: Config, s: State, t: nat, id: string)
    requires Inv(cfg, s) && (PhaseOf(s, t).Asked? || PhaseOf(s, t).UpstreamLost? || PhaseOf(s, t).Storing?)
    ensures Inv(cfg, Advance(cfg, s, t, id))
  {
    hide QueryMeaning, ResponseMeaning, FromLive, ResponseCache.Lookup, Store, ServfailMeaning;
    var u := Advance(cfg, s, t, id);
    var p := PhaseOf(s, t);
    if p.Storing? {
      CacheStore(cfg, s, (p.q.name, p.q.qtype), Cached(p.response, p.answer.addresses, p.expires));
    } else {
      CacheLookup(cfg, s, (p.q.name, p.q.qtype));
    }
    StepKeepsInv(cfg, s, u, t, u.requests[t]);
  }

  lemma LocalStep(cfg: Config, s: State, t: nat, id: string)
    requires Inv(cfg, s)
    requires var p := PhaseOf(s, t);
             p.Looked? || p.Received? || p.Stored? || p.Reusing? || p.ReuseAudited?
    ensures Inv(cfg, Advance(cfg, s, t, id))
  {
    hide QueryMeaning, ResponseMeaning, FromLive, ServfailMeaning, CapMeaning, WithId, Logged;
    var u := Advance(cfg, s, t, id);
    CacheGrows(cfg, s, u);
    if u != s {
      StepKeepsInv(cfg, s, u, t, u.requests[t]);
    }
  }

  lemma LoggedLast(log: seq<AuditRecord>, record: AuditRecord, h: string, addresses: seq<Address>, id: string)
    requires Names(record, h, addresses, id)
    ensures Logged(log + [record], h, addresses, id)
  {
    assert Names((log + [record])[|log|], h, addresses, id);
  }

  lemma AppendKeepsInv(cfg: Config, s: State, t: nat, record: AuditRecord, storage: Append, phase: Phase)
    requires Inv(cfg, s) && PhaseOk(cfg, s.history, Appended(s.log, record, storage), phase)
    ensures Inv(cfg, Move(s.(log := Appended(s.log, record, storage)), t, phase))
  {
    hide PhaseOk, FromLive, LeaseOk, WellOrdered;
    var u := Move(s.(log := Appended(s.log, record, storage)), t, phase);
    CacheGrows(cfg, s, u);
    StepKeepsInv(cfg, s, u, t, phase);
  }

  lemma AuditStep(cfg: Config, s: State, t: nat, storage: Append)
    requires Inv(cfg, s)
    ensures Inv(cfg, Audit(s, t, storage))
  {
    hide QueryMeaning, ResponseMeaning, FromLive, ServfailMeaning, Capping, HistoryOk, LeasesOk, CacheOk, Origin, Logged;
    var next := PhaseOf(Audit(s, t, storage), t);
    match PhaseOf(s, t) {
      case Drawn(packet, q, response, answer, id) =>
        if id.Some? {
          LoggedLast(s.log, LiveRecord(q, answer, id), q.name, answer.addresses, id.value);
        }
        AppendKeepsInv(cfg, s, t, LiveRecord(q, answer, id), storage, next);
      case Reused(packet, q, cached, response, id) =>
        LoggedLast(s.log, ReuseRecord(q, cached, id), q.name, cached.addresses, id);
        AppendKeepsInv(cfg, s, t, ReuseRecord(q, cached, id), storage, next);
      case Closing(packet, reply, record) => AppendKeepsInv(cfg, s, t, record, storage, next);
      case _ =>
    }
  }

  lemma OutsideStep(cfg: Config, s: State, t: nat, a: Action)
    requires Inv(cfg, s) && !a.Proceed? && !a.WriteAudit?
    ensures Inv(cfg, Next(cfg, s, t, a))
  {
    hide QueryMeaning, ResponseMeaning, FromLive, ServfailMeaning, StaticMeaning, Capping, Origin, Logged, LeaseOk, WellOrdered;
    var u := Next(cfg, s, t, a);
    CacheGrows(cfg, s, u);
    if u.requests != s.requests {
      StepKeepsInv(cfg, s, u, t, u.requests[t]);
    } else {
      StepKeepsInv(cfg, s, u, t, Idle);
    }
  }

  lemma NextKeepsInv(cfg: Config, s: State, t: nat, a: Action)
    requires Inv(cfg, s)
    ensures Inv(cfg, Next(cfg, s, t, a)) && Grows(s, Next(cfg, s, t, a))
  {
    hide Inv, QueryMeaning, ResponseMeaning, ServfailMeaning, StaticMeaning, Revalidate;
    match a {
      case Proceed(id) =>
        match PhaseOf(s, t) {
          case Accepted(_, _, _, _) => LiveClock(cfg, s, t, id);
          case LiveAudited(_, _, _, _, _) => LiveClock(cfg, s, t, id);
          case LiveGranting(_, _, _, _, _, _) => GrantStep(cfg, s, t, id);
          case ReuseGranting(_, _, _, _, _) => GrantStep(cfg, s, t, id);
          case Asked(_, _) => CacheStep(cfg, s, t, id);
          case UpstreamLost(_, _) => CacheStep(cfg, s, t, id);
          case Storing(_, _, _, _, _) => CacheStep(cfg, s, t, id);
          case Looked(_, _, _) => LocalStep(cfg, s, t, id);
          case Received(_, _, _) => LocalStep(cfg, s, t, id);
          case Stored(_, _, _, _) => LocalStep(cfg, s, t, id);
          case Reusing(_, _, _) => LocalStep(cfg, s, t, id);
          case ReuseAudited(_, _, _, _, _) => LocalStep(cfg, s, t, id);
          case _ =>
        }
      case WriteAudit(storage) => AuditStep(cfg, s, t, storage);
      case _ => OutsideStep(cfg, s, t, a);
    }
  }

  lemma {:induction false} RunKeepsInv(cfg: Config, steps: seq<(nat, Action)>)
    ensures Inv(cfg, Run(cfg, steps))
  {
    if steps != [] {
      RunKeepsInv(cfg, steps[..|steps| - 1]);
      NextKeepsInv(cfg, Run(cfg, steps[..|steps| - 1]), steps[|steps| - 1].0, steps[|steps| - 1].1);
    }
  }

  // ---- where live answers come from ----

  /** Step `i` is the upstream's answer to request `t`, which asked with this query. */
  ghost predicate Delivers(cfg: Config, steps: seq<(nat, Action)>, i: nat, t: nat, query: Packet, response: Packet)
    requires i < |steps|
  {
    var asking := PhaseOf(Run(cfg, steps[..i]), t);
    steps[i] == (t, UpstreamAnswers(response)) && asking.Querying? && asking.packet == query
  }

  ghost predicate Delivered(cfg: Config, steps: seq<(nat, Action)>, t: nat, query: Packet, response: Packet) {
    exists i :: 0 <= i < |steps| && Delivers(cfg, steps, i, t, query, response)
  }

  /** The query and the upstream response a request is working on. */
  function InWork(p: Phase): Option<(Packet, Packet)> {
    match p
    case Received(packet, q, response) => Some((packet, response))
    case Accepted(packet, q, response, answer) => Some((packet, response))
    case Storing(packet, q, response, answer, expires) => Some((packet, response))
    case Stored(packet, q, response, answer) => Some((packet, response))
    case Drawn(packet, q, response, answer, drawn) => Some((packet, response))
    case LiveAudited(packet, q, response, answer, drawn) => Some((packet, response))
    case LiveGranting(packet, q, response, answer, id, expires) => Some((packet, response))
    case _ => None
  }

  /** The step works only on a response that request `t` already had in work. */
  ghost predicate KeepsOrigin(s: State, u: State, t: nat) {
    && (forall r :: r != t ==> PhaseOf(u, r) == PhaseOf(s, r))
    && (InWork(PhaseOf(u, t)).Some? ==> InWork(PhaseOf(u, t)) == InWork(PhaseOf(s, t)))
  }

  /** Request `p` is serving the live answer `e`, and reads the clock as `now` for it. */
  predicate Serves(p: Phase, now: Time, e: Live) {
    (p.Accepted? || p.LiveAudited?) && p.packet == e.query && p.response == e.response && p.answer == e.answer && e.at == now
  }

  lemma AdvanceHistory(cfg: Config, s: State, t: nat, id: string)
    ensures forall e :: e in Advance(cfg, s, t, id).history ==> e in s.history || Serves(PhaseOf(s, t), s.clock, e)
  {
    hide ResponseMeaning, ServfailMeaning, Revalidate, ResponseCache.Lookup, Store, WithAll, Unexpired, LiveExpiry;
  }

  lemma AdvanceElsewhere(cfg: Config, s: State, t: nat, id: string)
    ensures forall r :: r != t ==> PhaseOf(Advance(cfg, s, t, id), r) == PhaseOf(s, r)
  {
    hide ResponseMeaning, ServfailMeaning, Revalidate, ResponseCache.Lookup, Store, WithAll, Unexpired, LiveExpiry, InWork;
  }

  lemma AdvanceInWork(cfg: Config, s: State, t: nat, id: string)
    ensures InWork(PhaseOf(Advance(cfg, s, t, id), t)).Some? ==> InWork(PhaseOf(Advance(cfg, s, t, id), t)) == InWork(PhaseOf(s, t))
  {
    hide ResponseMeaning, ServfailMeaning, Revalidate, ResponseCache.Lookup, Store, WithAll, Unexpired, LiveExpiry;
  }

  lemma OtherOrigins(cfg: Config, s: State, t: nat, a: Action)
    requires !a.Proceed? && !a.UpstreamAnswers?
    ensures KeepsOrigin(s, Next(cfg, s, t, a), t)
  {
    hide QueryMeaning, ServfailMeaning, StaticMeaning, Unexpired, Appended, IsAddress, LiveRecord, ReuseRecord, NamedRecord, ServfailRecord;
  }

  /** A step takes upstream responses only from upstream, or from where the request already had one. */
  lemma StepOrigins(cfg: Config, s: State, t: nat, a: Action)
    ensures var u := Next(cfg, s, t, a);
            || KeepsOrigin(s, u, t)
            || (a.UpstreamAnswers? && PhaseOf(s, t).Querying?
                && InWork(PhaseOf(u, t)) == Some((PhaseOf(s, t).packet, a.response)) && forall r :: r != t ==> PhaseOf(u, r) == PhaseOf(s, r))
  {
    hide Advance, Audit, StartRequest, Unexpired;
    match a {
      case Proceed(id) =>
        AdvanceElsewhere(cfg, s, t, id);
        AdvanceInWork(cfg, s, t, id);
      case UpstreamAnswers(response) =>
      case _ => OtherOrigins(cfg, s, t, a);
    }
  }

  lemma DeliveredGrows(cfg: Config, front: seq<(nat, Action)>, last: (nat, Action), t: nat, query: Packet, response: Packet)
    requires Delivered(cfg, front, t, query, response)
    ensures Delivered(cfg, front + [last], t, query, response)
  {
    hide Run;
    var i :| 0 <= i < |front| && Delivers(cfg, front, i, t, query, response);
    assert (front + [last])[..i] == front[..i];
    assert Delivers(cfg, front + [last], i, t, query, response);
  }

  ghost predicate AllDelivered(cfg: Config, steps: seq<(nat, Action)>, s: State) {
    forall t :: InWork(PhaseOf(s, t)).Some? ==>
      Delivered(cfg, steps, t, InWork(PhaseOf(s, t)).value.0, InWork(PhaseOf(s, t)).value.1)
  }

  /** In every run, every response in work was delivered by an upstream step to that
      very request. */
  lemma {:induction false} RunDelivers(cfg: Config, steps: seq<(nat, Action)>)
    ensures AllDelivered(cfg, steps, Run(cfg, steps))
  {
    hide Next, InWork, Delivered, Delivers;
    if steps == [] {
      NothingInWork();
    } else {
      var front, last := steps[..|steps| - 1], steps[|steps| - 1];
      RunDelivers(cfg, front);
      StepOrigins(cfg, Run(cfg, front), last.0, last.1);
      assert steps == front + [last];
      forall t, query, response | Delivered(cfg, front, t, query, response) ensures Delivered(cfg, steps, t, query, response) {
        DeliveredGrows(cfg, front, last, t, query, response);
      }
      if last.1.UpstreamAnswers? && PhaseOf(Run(cfg, front), last.0).Querying? {
        LastDelivers(cfg, steps);
      }
    }
  }

  lemma NothingInWork()
    ensures forall t :: InWork(PhaseOf(START, t)).None?
  {
  }

  lemma LastDelivers(cfg: Config, steps: seq<(nat, Action)>)
    requires steps != []
    requires var asking, a := PhaseOf(Run(cfg, steps[..|steps| - 1]), steps[|steps| - 1].0), steps[|steps| - 1].1;
             asking.Querying? && a.UpstreamAnswers?
    ensures Delivered(cfg, steps, steps[|steps| - 1].0, PhaseOf(Run(cfg, steps[..|steps| - 1]), steps[|steps| - 1].0).packet, steps[|steps| - 1].1.response)
  {
    hide Run;
    assert Delivers(cfg, steps, |steps| - 1, steps[|steps| - 1].0, PhaseOf(Run(cfg, steps[..|steps| - 1]), steps[|steps| - 1].0).packet, steps[|steps| - 1].1.response);
  }

  /** At step `i` of the run a request serves this accepted answer, which an earlier
      step brought to it from upstream, and the clock then reads `e.at`. */
  ghost predicate ProcessedAt(cfg: Config, steps: seq<(nat, Action)>, i: nat, e: Live)
    requires i < |steps|
  {
    var s := Run(cfg, steps[..i]);
    && steps[i].1.Proceed? && Serves(PhaseOf(s, steps[i].0), s.clock, e)
    && Delivered(cfg, steps[..i], steps[i].0, e.query, e.response)
  }

  ghost predicate Processed(cfg: Config, steps: seq<(nat, Action)>, e: Live) {
    exists i :: 0 <= i < |steps| && ProcessedAt(cfg, steps, i, e)
  }

  lemma StepHistory(cfg: Config, s: State, t: nat, a: Action)
    ensures forall e :: e in Next(cfg, s, t, a).history ==> e in s.history || (a.Proceed? && Serves(PhaseOf(s, t), s.clock, e))
  {
    hide Advance, Serves, QueryMeaning, ServfailMeaning, StaticMeaning, Unexpired, Appended, PhaseOf;
    if a.Proceed? {
      AdvanceHistory(cfg, s, t, a.id);
    }
  }

  lemma ServedIsDelivered(cfg: Config, steps: seq<(nat, Action)>, t: nat, e: Live)
    requires Serves(PhaseOf(Run(cfg, steps), t), Run(cfg, steps).clock, e)
    ensures Delivered(cfg, steps, t, e.query, e.response)
  {
    hide Run, Delivered;
    RunDelivers(cfg, steps);
    assert InWork(PhaseOf(Run(cfg, steps), t)) == Some((e.query, e.response));
  }

  lemma ProcessedGrows(cfg: Config, front: seq<(nat, Action)>, last: (nat, Action), e: Live)
    requires Processed(cfg, front, e)
    ensures Processed(cfg, front + [last], e)
  {
    hide Run, Delivered, Serves;
    var i :| 0 <= i < |front| && ProcessedAt(cfg, front, i, e);
    assert (front + [last])[..i] == front[..i];
    assert ProcessedAt(cfg, front + [last], i, e);
  }

  /** In every run, each live answer was processed by a step of the run, at its time. */
  lemma {:induction false} RunProcesses(cfg: Config, steps: seq<(nat, Action)>)
    ensures forall e :: e in Run(cfg, steps).history ==> Processed(cfg, steps, e)
  {
    hide Next, Serves, Delivered, Processed;
    if steps != [] {
      var n := |steps| - 1;
      var front, last := steps[..n], steps[n];
      RunProcesses(cfg, front);
      var s := Run(cfg, front);
      StepHistory(cfg, s, last.0, last.1);
      assert steps == front + [last];
      forall e | e in Run(cfg, steps).history ensures Processed(cfg, steps, e) {
        if e in s.history {
          ProcessedGrows(cfg, front, last, e);
        } else {
          ServedIsDelivered(cfg, front, last.0, e);
          LastProcesses(cfg, steps, e);
        }
      }
    }
  }

  lemma LastProcesses(cfg: Config, steps: seq<(nat, Action)>, e: Live)
    requires steps != [] && ProcessedAt(cfg, steps, |steps| - 1, e)
    ensures Processed(cfg, steps, e)
  {
    hide ProcessedAt;
  }

  // ---- the main results ----

  /** In every reachable state an authorized address was in an accepted answer for
      that hostname that one step of the run brought from upstream to a request and
      a later step of that request processed, an audit record names the hostname, the
      address and the lease, and the lease lapses at that processing time plus
      min(ttl, max) plus grace, however often the cache re-granted it. */
  lemma AuthorizedIsLiveAndAudited(cfg: Config, steps: seq<(nat, Action)>, h: string, a: Address) returns (e: Live, record: AuditRecord)
    requires Authorized(Run(cfg, steps), h, a).Some?
    ensures var s := Run(cfg, steps);
            && e in s.history && Processed(cfg, steps, e) && ResponseMeaning(e.query, e.response, cfg.pub) == Some(e.answer)
            && e.answer.name == h && a in e.answer.addresses && e.at <= s.clock
            && s.leases[(h, a)].expires == LiveExpiry(e.at, e.answer.ttl, cfg.maxTtl, cfg.grace)
            && s.clock < e.at + Min(e.answer.ttl, cfg.maxTtl) as real + cfg.grace as real
            && record in s.log && record.leaseId == Authorized(s, h, a)
            && record.name == Some(h) && a in record.addresses
            && (record.action == Allow || record.action == CachedPending)
  {
    hide ResponseMeaning, PhaseOk, CacheOk, Next, Processed;
    RunKeepsInv(cfg, steps);
    RunProcesses(cfg, steps);
    var s := Run(cfg, steps);
    var lease := s.leases[(h, a)];
    assert LeaseOk(cfg, s.history, s.log, h, a, lease);
    var addresses :| a in addresses && Origin(cfg, s.history, h, addresses, lease.expires) && Logged(s.log, h, addresses, lease.id);
    e :| e in s.history && Grounds(cfg, e, h, addresses, lease.expires);
    var i :| 0 <= i < |s.log| && Names(s.log[i], h, addresses, lease.id);
    record := s.log[i];
  }

  lemma LeaseRecord(cfg: Config, s: State, h: string, a: Address) returns (i: nat)
    requires LeasesOk(cfg, s) && (h, a) in s.leases
    ensures i < |s.log| && s.log[i].leaseId == Some(s.leases[(h, a)].id) && s.log[i].name == Some(h) && a in s.log[i].addresses
  {
    var lease := s.leases[(h, a)];
    assert LeaseOk(cfg, s.history, s.log, h, a, lease);
    var addresses :| a in addresses && Origin(cfg, s.history, h, addresses, lease.expires) && Logged(s.log, h, addresses, lease.id);
    var j :| 0 <= j < |s.log| && Names(s.log[j], h, addresses, lease.id);
    i := j;
  }

  /** The audit record of a lease is in the log before the step that grants it. */
  lemma GrantFollowsAudit(cfg: Config, steps: seq<(nat, Action)>, t: nat, action: Action, h: string, a: Address)
    requires var s := Run(cfg, steps); var u := Next(cfg, s, t, action);
             (h, a) in u.leases && !((h, a) in s.leases && s.leases[(h, a)] == u.leases[(h, a)])
    ensures var s := Run(cfg, steps);
            exists i :: 0 <= i < |s.log| && s.log[i].leaseId == Some(Next(cfg, s, t, action).leases[(h, a)].id)
                        && s.log[i].name == Some(h) && a in s.log[i].addresses
  {
    hide ResponseMeaning, QueryMeaning, ServfailMeaning, StaticMeaning, Revalidate, Run, ResponseCache.Lookup, Store;
    RunKeepsInv(cfg, steps);
    var s := Run(cfg, steps);
    var u := Next(cfg, s, t, action);
    assert u.log == s.log;
    NextKeepsInv(cfg, s, t, action);
    var i := LeaseRecord(cfg, u, h, a);
  }

  /** However often the cache re-grants an address, the lease it sets lapses when
      some earlier live answer for that hostname, with that address, lapses. */
  lemma ReuseRepeatsLiveExpiry(cfg: Config, steps: seq<(nat, Action)>, t: nat, id: string, h: string, a: Address)
    returns (e: Live)
    requires PhaseOf(Run(cfg, steps), t).ReuseGranting?
    requires var s, u := Run(cfg, steps), Advance(cfg, Run(cfg, steps), t, id);
             (h, a) in u.leases && !((h, a) in s.leases && s.leases[(h, a)] == u.leases[(h, a)])
    ensures var s, u := Run(cfg, steps), Advance(cfg, Run(cfg, steps), t, id);
            && e in s.history && e.at <= s.clock && Processed(cfg, steps, e)
            && e.answer.name == h && a in e.answer.addresses
            && u.leases[(h, a)].expires == LiveExpiry(e.at, e.answer.ttl, cfg.maxTtl, cfg.grace)
  {
    hide ResponseMeaning, QueryMeaning, Capping, Run, LeasesOk, CacheOk, Processed, Unexpired, WithAll, LiveExpiry;
    RunKeepsInv(cfg, steps);
    RunProcesses(cfg, steps);
    var s := Run(cfg, steps);
    var p := PhaseOf(s, t);
    assert PhaseOk(cfg, s.history, s.log, p);
    WithAllExact(Unexpired(s.leases, s.clock), p.q.name, p.cached.addresses, Lease(p.cached.expires, p.id));
    UnexpiredKeeps(s.leases, s.clock, h, a);
    e :| e in s.history && Remembers(cfg, e, (p.q.name, p.q.qtype), p.cached);
  }

  lemma UnexpiredKeeps(leases: LeaseMap, now: Time, h: string, a: Address)
    ensures (h, a) in Unexpired(leases, now) ==> (h, a) in leases && Unexpired(leases, now)[(h, a)] == leases[(h, a)]
  {
  }

  /** A reuse whose cached response reads no ID or time-to-live octet in a name
      goes through while the entry has a second left: the client gets the live
      answer's addresses with time-to-live zero. */
  lemma ReuseServesCachedAnswer(cfg: Config, steps: seq<(nat, Action)>, t: nat, id: string)
    requires PhaseOf(Run(cfg, steps), t).Reusing? && IsLeaseId(id)
    requires var s := Run(cfg, steps);
             var cached := PhaseOf(s, t).cached;
             && cached.expires - s.clock >= 1.0
             && |cached.response| >= HEADER_SIZE && QuestionAt(cached.response).Some? && AllRecords(cached.response).Some?
             && NamesClear(cached.response, AllRecords(cached.response).value)
    ensures var p, later := PhaseOf(Run(cfg, steps), t), PhaseOf(Advance(cfg, Run(cfg, steps), t, id), t);
            && later.Reused? && later.cached == p.cached
            && ResponseMeaning(p.packet, later.response, cfg.pub) == Some(Answer(p.q.name, p.q.qtype, p.cached.addresses, 0))
  {
    hide ResponseMeaning, QueryMeaning, QuestionAt, AllRecords, NamesClear, CapMeaning, WithId, Run, Edited, LeasesOk, CacheOk;
    RunKeepsInv(cfg, steps);
    var s := Run(cfg, steps);
    var p := PhaseOf(s, t);
    assert PhaseOk(cfg, s.history, s.log, p);
    var e :| e in s.history && Remembers(cfg, e, (p.q.name, p.q.qtype), p.cached);
    assert ResponseMeaning(e.query, e.response, cfg.pub) == Some(e.answer);
    QueryOfAnswer(cfg, e.query, e.response);
    LiveNames(cfg, e.query, QueryMeaning(e.query).value, e.response, e.answer);
    FallbackKeepsMeaning(e.query, p.packet, e.response, 0, cfg.pub);
  }

  lemma QueryOfAnswer(cfg: Config, query: Packet, response: Packet)
    requires ResponseMeaning(query, response, cfg.pub).Some?
    ensures QueryMeaning(query).Some?
  {
    hide QueryMeaning, FrameMatches, AllRecords, RecordsMeaning;
  }
}
