/** Destinations authorized for a client connection, verified by requests that
    interleave wherever the gateway awaits a lease lookup. */
module ConnectionBindings {
  import opened Wire

  type Conn = nat

  datatype Binding = Binding(hostname: string, address: string, port: nat, scheme: string, sni: string, leaseId: Option<string>)

  /** The bindings of each connection, in the order their keys were first stored. */
  type Registry = map<Conn, seq<Binding>>

  predicate SameKey(a: Binding, b: Binding) { a.(leaseId := None) == b.(leaseId := None) }

  function Entries(r: Registry, c: Conn): seq<Binding> { if c in r then r[c] else [] }

  function FindIn(entries: seq<Binding>, key: Binding): Option<Binding> {
    if entries == [] then None
    else if SameKey(entries[0], key) then Some(entries[0])
    else FindIn(entries[1..], key)
  }

  /** A dictionary store: in place for a known key, at the end for a new one. */
  function PutIn(entries: seq<Binding>, b: Binding): seq<Binding> {
    if entries == [] then [b]
    else if SameKey(entries[0], b) then [b] + entries[1..]
    else [entries[0]] + PutIn(entries[1..], b)
  }

  /** Where the connection's first binding points. */
  function TargetOf(entries: seq<Binding>): Option<(string, nat)> {
    if entries == [] then None else Some((entries[0].address, entries[0].port))
  }

  /** A request as the hook sees it: its original destination, its logical host,
      whether its names are consistent, and how its host is to be justified. */
  datatype HostKind = Canary | Literal(address: string) | Domain

  datatype Request = Request(conn: Conn, hostname: string, kind: HostKind, address: string, port: nat, requestPort: nat,
                             scheme: string, sni: string, namesAgree: bool, isPublic: bool)

  datatype Verdict = Rejected | Bound(binding: Binding) | NeedsLease

  function KeyOf(q: Request): Binding { Binding(q.hostname, q.address, q.port, q.scheme, q.sni, None) }

  /** The connection already points somewhere else. */
  predicate Moved(entries: seq<Binding>, q: Request) {
    TargetOf(entries).Some? && TargetOf(entries) != Some((q.address, q.port))
  }

  /** Whether the host may be reached at that address at all. */
  predicate Plausible(q: Request, canary: string) {
    match q.kind
    case Canary => q.address == canary
    case Literal(address) => q.isPublic && address == q.address
    case Domain => q.isPublic
  }

  /** The part of verification before the await. */
  function Before(entries: seq<Binding>, q: Request, canary: string): (seq<Binding>, Verdict) {
    if q.port != q.requestPort || Moved(entries, q) || (q.scheme == "https" && !q.namesAgree) || !Plausible(q, canary) then (entries, Rejected)
    else match FindIn(entries, KeyOf(q))
      case Some(b) => (entries, Bound(b))
      case None => if q.kind.Domain? then (entries, NeedsLease) else (PutIn(entries, KeyOf(q)), Bound(KeyOf(q)))
  }

  /** The part after it, with the lease the lookup returned. */
  function Resumed(entries: seq<Binding>, q: Request, lease: Option<string>): (seq<Binding>, Verdict) {
    if Moved(entries, q) then (entries, Rejected)
    else match FindIn(entries, KeyOf(q))
      case Some(b) => (entries, Bound(b))
      case None =>
        if lease.None? then (entries, Rejected)
        else
          var b := KeyOf(q).(leaseId := lease);
          (PutIn(entries, b), Bound(b))
  }

  class ConnectionBindingRegistry {
    var bindings: Registry

    constructor ()
      ensures bindings == map[]
    {
      bindings := map[];
    }

    method Find(c: Conn, key: Binding) returns (r: Option<Binding>)
      ensures r == FindIn(Entries(bindings, c), key)
    {
      var entries := Entries(bindings, c);
      for i := 0 to |entries|
        invariant FindIn(entries, key) == FindIn(entries[i..], key)
      {
        assert entries[i..][0] == entries[i] && entries[i..][1..] == entries[i + 1..];
        if SameKey(entries[i], key) {
          return Some(entries[i]);
        }
      }
      return None;
    }

    method Target(c: Conn) returns (r: Option<(string, nat)>)
      ensures r == TargetOf(Entries(bindings, c))
    {
      var entries := Entries(bindings, c);
      return if entries == [] then None else Some((entries[0].address, entries[0].port));
    }

    method Remember(c: Conn, b: Binding)
      modifies this
      ensures bindings == old(bindings)[c := PutIn(Entries(old(bindings), c), b)]
    {
      bindings := bindings[c := PutIn(Entries(bindings, c), b)];
    }

    /** Verification of the original destination up to the lease lookup. */
    method BeginVerify(q: Request, canary: string) returns (v: Verdict)
      modifies this
      ensures v == Before(Entries(old(bindings), q.conn), q, canary).1
      ensures Entries(bindings, q.conn) == Before(Entries(old(bindings), q.conn), q, canary).0
      ensures forall c :: c != q.conn ==> Entries(bindings, c) == Entries(old(bindings), c)
    {
      if q.port != q.requestPort {
        return Rejected;
      }
      var target := Target(q.conn);
      if target.Some? && target != Some((q.address, q.port)) {
        return Rejected;
      }
      if (q.scheme == "https" && !q.namesAgree) || !Plausible(q, canary) {
        return Rejected;
      }
      var binding := Find(q.conn, KeyOf(q));
      if binding.Some? {
        return Bound(binding.value);
      }
      if q.kind.Domain? {
        return NeedsLease;
      }
      Remember(q.conn, KeyOf(q));
      return Bound(KeyOf(q));
    }

    /** Verification resumed with the lookup's result. */
    method FinishVerify(q: Request, lease: Option<string>) returns (v: Verdict)
      modifies this
      ensures v == Resumed(Entries(old(bindings), q.conn), q, lease).1
      ensures Entries(bindings, q.conn) == Resumed(Entries(old(bindings), q.conn), q, lease).0
      ensures forall c :: c != q.conn ==> Entries(bindings, c) == Entries(old(bindings), c)
    {
      var target := Target(q.conn);
      if target.Some? && target != Some((q.address, q.port)) {
        return Rejected;
      }
      var binding := Find(q.conn, KeyOf(q));
      if binding.None? && lease.None? {
        return Rejected;
      }
      if binding.None? {
        binding := Some(KeyOf(q).(leaseId := lease));
        Remember(q.conn, binding.value);
      }
      return Bound(binding.value);
    }
  }

  // ---- interleaved requests sharing lookups ----

  datatype LookupResult = Leased(id: string) | NoLease | Unavailable

  /** One lookup of the lease service, shared by every request waiting on its key. */
  datatype Lookup = Lookup(hostname: string, address: string, result: Option<LookupResult>)

  type LookupKey = (Conn, string, string)

  datatype Phase = Waiting(q: Request, lookup: nat) | Finished(q: Request, verdict: Verdict)

  /** `answers` collects what the lease service returned for each hostname and address. */
  datatype State = State(registry: Registry, pending: map<LookupKey, nat>, lookups: seq<Lookup>, requests: map<nat, Phase>,
                         answers: set<(string, string, string)>)

  datatype Action =
    | Arrive(q: Request)                            // a request runs up to its await
    | Answer(lookup: nat, result: LookupResult)     // the lease service answers
    | Forget(key: LookupKey)                        // a completed lookup is dropped
    | Resume                                        // a waiting request runs to its end

  function SetEntries(s: State, c: Conn, entries: seq<Binding>): State { s.(registry := s.registry[c := entries]) }

  function Await(s: State, t: nat, q: Request): State {
    var key := (q.conn, q.hostname, q.address);
    if key in s.pending then s.(requests := s.requests[t := Waiting(q, s.pending[key])])
    else
      s.(lookups := s.lookups + [Lookup(q.hostname, q.address, None)], pending := s.pending[key := |s.lookups|],
         requests := s.requests[t := Waiting(q, |s.lookups|)])
  }

  function Next(s: State, canary: string, t: nat, a: Action): State {
    match a
    case Arrive(q) =>
      if t in s.requests then s
      else
        var (entries, verdict) := Before(Entries(s.registry, q.conn), q, canary);
        if verdict.NeedsLease? then Await(s, t, q)
        else SetEntries(s, q.conn, entries).(requests := s.requests[t := Finished(q, verdict)])
    case Answer(lookup, result) =>
      if lookup >= |s.lookups| || s.lookups[lookup].result.Some? then s
      else
        var l := s.lookups[lookup];
        s.(lookups := s.lookups[lookup := l.(result := Some(result))],
           answers := if result.Leased? then s.answers + {(l.hostname, l.address, result.id)} else s.answers)
    case Forget(key) =>
      if key in s.pending && s.pending[key] < |s.lookups| && s.lookups[s.pending[key]].result.Some?
      then s.(pending := s.pending - {key}) else s
    case Resume =>
      if t !in s.requests || !s.requests[t].Waiting? then s
      else
        var q, lookup := s.requests[t].q, s.requests[t].lookup;
        if lookup >= |s.lookups| || s.lookups[lookup].result.None? then s
        else match s.lookups[lookup].result.value
          case Unavailable => s.(requests := s.requests[t := Finished(q, Rejected)])
          case NoLease =>
            var (entries, verdict) := Resumed(Entries(s.registry, q.conn), q, None);
            SetEntries(s, q.conn, entries).(requests := s.requests[t := Finished(q, verdict)])
          case Leased(id) =>
            var (entries, verdict) := Resumed(Entries(s.registry, q.conn), q, Some(id));
            SetEntries(s, q.conn, entries).(requests := s.requests[t := Finished(q, verdict)])
  }

  const START: State := State(map[], map[], [], map[], {})

  /** The host kinds of a run are a function of the hostname. */
  type Kinds = string -> HostKind

  predicate Known(kinds: Kinds, a: Action) { a.Arrive? ==> a.q.kind == kinds(a.q.hostname) }

  function Run(canary: string, steps: seq<(nat, Action)>): State {
    if steps == [] then START
    else Next(Run(canary, steps[..|steps| - 1]), canary, steps[|steps| - 1].0, steps[|steps| - 1].1)
  }

  // ---- the invariant ----

  /** A binding of a domain name carries a lease the service returned for exactly that name and address. */
  predicate Justified(kinds: Kinds, answers: set<(string, string, string)>, b: Binding) {
    kinds(b.hostname).Domain? ==> b.leaseId.Some? && (b.hostname, b.address, b.leaseId.value) in answers
  }

  ghost predicate EntriesOk(kinds: Kinds, answers: set<(string, string, string)>, entries: seq<Binding>) {
    forall i :: 0 <= i < |entries| ==>
      && Justified(kinds, answers, entries[i])
      && entries[i].address == entries[0].address && entries[i].port == entries[0].port
  }

  ghost predicate LookupOk(answers: set<(string, string, string)>, l: Lookup) {
    l.result.Some? && l.result.value.Leased? ==> (l.hostname, l.address, l.result.value.id) in answers
  }

  predicate PhaseOk(kinds: Kinds, lookups: seq<Lookup>, registry: Registry, p: Phase) {
    match p
    case Waiting(q, lookup) =>
      && lookup < |lookups| && lookups[lookup].hostname == q.hostname && lookups[lookup].address == q.address
      && q.kind == kinds(q.hostname)
    case Finished(q, verdict) =>
      verdict.Bound? ==> verdict.binding in Entries(registry, q.conn) && SameKey(verdict.binding, KeyOf(q))
  }

  ghost predicate Inv(kinds: Kinds, s: State) {
    && (forall c :: c in s.registry ==> EntriesOk(kinds, s.answers, s.registry[c]))
    && (forall i :: 0 <= i < |s.lookups| ==> LookupOk(s.answers, s.lookups[i]))
    && (forall k :: k in s.pending ==> s.pending[k] < |s.lookups| && s.lookups[s.pending[k]].hostname == k.1
                                       && s.lookups[s.pending[k]].address == k.2)
    && (forall t :: t in s.requests ==> PhaseOk(kinds, s.lookups, s.registry, s.requests[t]))
  }

  lemma {:induction false} FoundIsThere(entries: seq<Binding>, key: Binding)
    ensures FindIn(entries, key).Some? ==> FindIn(entries, key).value in entries && SameKey(FindIn(entries, key).value, key)
    ensures FindIn(entries, key).None? ==> forall b :: b in entries ==> !SameKey(b, key)
    decreases |entries|
  {
    if entries != [] {
      FoundIsThere(entries[1..], key);
      assert entries == [entries[0]] + entries[1..];
    }
  }

  /** Storing a new key appends it. */
  lemma {:induction false} PutNew(entries: seq<Binding>, b: Binding)
    requires FindIn(entries, b).None?
    ensures PutIn(entries, b) == entries + [b]
    decreases |entries|
  {
    if entries != [] {
      PutNew(entries[1..], b);
      assert entries == [entries[0]] + entries[1..];
    }
  }

  /** A new binding that agrees with the connection's target keeps the entries sound. */
  lemma StoreKeeps(kinds: Kinds, answers: set<(string, string, string)>, entries: seq<Binding>, q: Request, b: Binding)
    requires EntriesOk(kinds, answers, entries) && !Moved(entries, q)
    requires SameKey(b, KeyOf(q)) && FindIn(entries, KeyOf(q)).None? && Justified(kinds, answers, b)
    ensures EntriesOk(kinds, answers, PutIn(entries, b)) && PutIn(entries, b) == entries + [b]
  {
    SameFind(entries, b, KeyOf(q));
    PutNew(entries, b);
  }

  lemma {:induction false} SameFind(entries: seq<Binding>, a: Binding, b: Binding)
    requires SameKey(a, b)
    ensures FindIn(entries, a) == FindIn(entries, b)
    decreases |entries|
  {
    if entries != [] {
      SameFind(entries[1..], a, b);
    }
  }

  /** Writing a connection's entries keeps the invariant when they are sound and nothing is dropped. */
  lemma WriteKeeps(kinds: Kinds, s: State, t: nat, q: Request, entries: seq<Binding>, verdict: Verdict)
    requires Inv(kinds, s) && EntriesOk(kinds, s.answers, entries)
    requires forall b :: b in Entries(s.registry, q.conn) ==> b in entries
    requires verdict.Bound? ==> verdict.binding in entries && SameKey(verdict.binding, KeyOf(q))
    ensures Inv(kinds, SetEntries(s, q.conn, entries).(requests := s.requests[t := Finished(q, verdict)]))
  {
    hide EntriesOk, LookupOk, SameKey;
  }

  lemma ArriveKeeps(kinds: Kinds, s: State, canary: string, t: nat, q: Request)
    requires Inv(kinds, s) && q.kind == kinds(q.hostname)
    ensures Inv(kinds, Next(s, canary, t, Arrive(q)))
  {
    hide EntriesOk, LookupOk, PutIn, Moved, Plausible, FindIn;
    var prior := Entries(s.registry, q.conn);
    assert EntriesOk(kinds, s.answers, prior) by { NoEntriesOk(kinds, s.answers); }
    var (entries, verdict) := Before(prior, q, canary);
    FoundIsThere(prior, KeyOf(q));
    if t !in s.requests {
      if verdict.NeedsLease? {
        AwaitKeeps(kinds, s, t, q);
      } else {
        if verdict.Bound? && FindIn(prior, KeyOf(q)).None? {
          StoreKeeps(kinds, s.answers, prior, q, KeyOf(q));
        }
        WriteKeeps(kinds, s, t, q, entries, verdict);
      }
    }
  }

  lemma NoEntriesOk(kinds: Kinds, answers: set<(string, string, string)>)
    ensures EntriesOk(kinds, answers, [])
  {
  }

  lemma AwaitKeeps(kinds: Kinds, s: State, t: nat, q: Request)
    requires Inv(kinds, s) && q.kind == kinds(q.hostname)
    ensures Inv(kinds, Await(s, t, q))
  {
    hide EntriesOk;
  }

  lemma ResumeKeeps(kinds: Kinds, s: State, canary: string, t: nat)
    requires Inv(kinds, s)
    ensures Inv(kinds, Next(s, canary, t, Resume))
  {
    hide EntriesOk, PutIn, Moved, FindIn;
    if t in s.requests && s.requests[t].Waiting? {
      var q, lookup := s.requests[t].q, s.requests[t].lookup;
      assert LookupOk(s.answers, s.lookups[lookup]);
      if s.lookups[lookup].result.Some? && !s.lookups[lookup].result.value.Unavailable? {
        var lease := if s.lookups[lookup].result.value.Leased? then Some(s.lookups[lookup].result.value.id) else None;
        var prior := Entries(s.registry, q.conn);
        assert EntriesOk(kinds, s.answers, prior) by { NoEntriesOk(kinds, s.answers); }
        var (entries, verdict) := Resumed(prior, q, lease);
        FoundIsThere(prior, KeyOf(q));
        if verdict.Bound? && FindIn(prior, KeyOf(q)).None? {
          StoreKeeps(kinds, s.answers, prior, q, KeyOf(q).(leaseId := lease));
        }
        WriteKeeps(kinds, s, t, q, entries, verdict);
      }
    }
  }

  lemma AnswerKeeps(kinds: Kinds, s: State, canary: string, t: nat, lookup: nat, result: LookupResult)
    requires Inv(kinds, s)
    ensures Inv(kinds, Next(s, canary, t, Answer(lookup, result)))
  {
    var u := Next(s, canary, t, Answer(lookup, result));
    assert forall i :: 0 <= i < |s.lookups| ==> u.lookups[i].hostname == s.lookups[i].hostname && u.lookups[i].address == s.lookups[i].address;
    forall c | c in u.registry ensures EntriesOk(kinds, u.answers, u.registry[c]) {
      assert EntriesOk(kinds, s.answers, s.registry[c]);
    }
    forall i | 0 <= i < |u.lookups| ensures LookupOk(u.answers, u.lookups[i]) {
      assert LookupOk(s.answers, s.lookups[i]);
    }
  }

  lemma NextKeeps(kinds: Kinds, s: State, canary: string, t: nat, a: Action)
    requires Inv(kinds, s) && Known(kinds, a)
    ensures Inv(kinds, Next(s, canary, t, a))
  {
    hide EntriesOk, LookupOk, Before, Resumed;
    match a {
      case Arrive(q) => ArriveKeeps(kinds, s, canary, t, q);
      case Answer(lookup, result) => AnswerKeeps(kinds, s, canary, t, lookup, result);
      case Resume => ResumeKeeps(kinds, s, canary, t);
      case Forget(key) =>
    }
  }

  lemma {:induction false} RunKeeps(kinds: Kinds, canary: string, steps: seq<(nat, Action)>)
    requires forall i :: 0 <= i < |steps| ==> Known(kinds, steps[i].1)
    ensures Inv(kinds, Run(canary, steps))
  {
    hide Inv, Next;
    if steps == [] {
      assert Inv(kinds, START) by { NothingBound(kinds); }
    } else {
      RunKeeps(kinds, canary, steps[..|steps| - 1]);
      NextKeeps(kinds, Run(canary, steps[..|steps| - 1]), canary, steps[|steps| - 1].0, steps[|steps| - 1].1);
    }
  }

  lemma NothingBound(kinds: Kinds)
    ensures Inv(kinds, START)
  {
  }

  // ---- where lease identifiers come from ----

  /** Step `i` is the lease service's answer, with this lease, to an open lookup of
      exactly this hostname and address. */
  ghost predicate Answers(canary: string, steps: seq<(nat, Action)>, i: nat, hostname: string, address: string, id: string)
    requires i < |steps|
  {
    var a, lookups := steps[i].1, Run(canary, steps[..i]).lookups;
    a.Answer? && a.result == Leased(id) && a.lookup < |lookups| && lookups[a.lookup] == Lookup(hostname, address, None)
  }

  ghost predicate Answered(canary: string, steps: seq<(nat, Action)>, hostname: string, address: string, id: string) {
    exists i :: 0 <= i < |steps| && Answers(canary, steps, i, hostname, address, id)
  }

  lemma NewAnswers(s: State, canary: string, t: nat, a: Action)
    ensures forall x :: x in Next(s, canary, t, a).answers ==>
              x in s.answers
              || (a.Answer? && a.result == Leased(x.2) && a.lookup < |s.lookups| && s.lookups[a.lookup] == Lookup(x.0, x.1, None))
  {
    hide Before, Resumed;
  }

  lemma AnsweredGrows(canary: string, front: seq<(nat, Action)>, last: (nat, Action), hostname: string, address: string, id: string)
    requires Answered(canary, front, hostname, address, id)
    ensures Answered(canary, front + [last], hostname, address, id)
  {
    hide Run;
    var i :| 0 <= i < |front| && Answers(canary, front, i, hostname, address, id);
    assert (front + [last])[..i] == front[..i];
    assert Answers(canary, front + [last], i, hostname, address, id);
  }

  /** In every run, the answers collected are answers some step of the run gave. */
  lemma {:induction false} RunAnswers(canary: string, steps: seq<(nat, Action)>)
    ensures forall x :: x in Run(canary, steps).answers ==> Answered(canary, steps, x.0, x.1, x.2)
  {
    hide Next, Answered;
    if steps != [] {
      var n := |steps| - 1;
      var front, last := steps[..n], steps[n];
      RunAnswers(canary, front);
      NewAnswers(Run(canary, front), canary, last.0, last.1);
      assert steps == front + [last];
      forall x | x in Run(canary, steps).answers ensures Answered(canary, steps, x.0, x.1, x.2) {
        if x in Run(canary, front).answers {
          AnsweredGrows(canary, front, last, x.0, x.1, x.2);
        } else {
          LastAnswers(canary, steps, x.0, x.1, x.2);
        }
      }
    }
  }

  lemma LastAnswers(canary: string, steps: seq<(nat, Action)>, hostname: string, address: string, id: string)
    requires steps != [] && Answers(canary, steps, |steps| - 1, hostname, address, id)
    ensures Answered(canary, steps, hostname, address, id)
  {
    hide Answers;
  }

  /** Under every interleaving of requests, lookups and answers: all bindings of a
      connection share one address and port; every binding of a domain name
      carries a lease identifier with which some step of the run answered a lookup
      of exactly that hostname and address; and a verified request's binding is on its connection. */
  lemma BindingsShareOneJustifiedTarget(kinds: Kinds, canary: string, steps: seq<(nat, Action)>, c: Conn, a: Binding, b: Binding, t: nat)
    requires forall i :: 0 <= i < |steps| ==> Known(kinds, steps[i].1)
    requires a in Entries(Run(canary, steps).registry, c) && b in Entries(Run(canary, steps).registry, c)
    ensures a.address == b.address && a.port == b.port
    ensures kinds(a.hostname).Domain? ==>
              a.leaseId.Some? && Answered(canary, steps, a.hostname, a.address, a.leaseId.value)
    ensures var s := Run(canary, steps);
            t in s.requests && s.requests[t].Finished? && s.requests[t].verdict.Bound? ==>
              var p := s.requests[t]; p.verdict.binding in Entries(s.registry, p.q.conn) && SameKey(p.verdict.binding, KeyOf(p.q))
  {
    hide Run, Answered;
    RunKeeps(kinds, canary, steps);
    RunAnswers(canary, steps);
    var s := Run(canary, steps);
    assert EntriesOk(kinds, s.answers, s.registry[c]);
  }

  // ---- which requests are bound ----

  /** The request goes to its original port; over https its names agree; and its
      address is the canary's for the canary, public for any other host, and the
      host itself for a literal one. */
  predicate Admissible(q: Request, canary: string) {
    && q.port == q.requestPort
    && (q.scheme == "https" ==> q.namesAgree)
    && (q.kind.Canary? ==> q.address == canary)
    && (!q.kind.Canary? ==> q.isPublic)
    && (q.kind.Literal? ==> q.kind.address == q.address)
  }

  /** The connection is new or already points at the request's address and port. */
  predicate OnTarget(entries: seq<Binding>, q: Request) {
    entries != [] ==> entries[0].address == q.address && entries[0].port == q.port
  }

  /** The binding is for this request and no other host, address, port, scheme or SNI. */
  predicate IsFor(b: Binding, q: Request) {
    b.hostname == q.hostname && b.address == q.address && b.port == q.port && b.scheme == q.scheme && b.sni == q.sni
  }

  lemma BeforeExact(entries: seq<Binding>, q: Request, canary: string)
    ensures var (after, v) := Before(entries, q, canary);
            && (v.Rejected? <==> !Admissible(q, canary) || !OnTarget(entries, q))
            && (v.NeedsLease? ==> q.kind.Domain? && after == entries)
            && (v.Bound? ==> IsFor(v.binding, q) && v.binding in after)
            && (v.Rejected? ==> after == entries)
            && (!v.Rejected? && (forall b :: b in entries ==> !IsFor(b, q)) ==> (v.NeedsLease? <==> q.kind.Domain?))
  {
    FoundIsThere(entries, KeyOf(q));
    if FindIn(entries, KeyOf(q)).None? {
      PutNew(entries, KeyOf(q));
    }
  }

  lemma ResumedExact(entries: seq<Binding>, q: Request, lease: Option<string>)
    ensures var (after, v) := Resumed(entries, q, lease);
            && !v.NeedsLease?
            && (v.Rejected? <==> !OnTarget(entries, q) || (lease.None? && forall b :: b in entries ==> !IsFor(b, q)))
            && (v.Bound? ==> IsFor(v.binding, q) && v.binding in after)
            && (v.Rejected? ==> after == entries)
  {
    FoundIsThere(entries, KeyOf(q));
    if FindIn(entries, KeyOf(q)).None? && lease.Some? {
      SameFind(entries, KeyOf(q).(leaseId := lease), KeyOf(q));
      PutNew(entries, KeyOf(q).(leaseId := lease));
    }
  }

  predicate PhaseAdmitted(p: Phase, canary: string) {
    match p
    case Waiting(q, lookup) => Admissible(q, canary) && q.kind.Domain?
    case Finished(q, verdict) => !verdict.NeedsLease? && (verdict.Bound? ==> Admissible(q, canary) && IsFor(verdict.binding, q))
  }

  ghost predicate AllAdmitted(s: State, canary: string) {
    forall t :: t in s.requests ==> PhaseAdmitted(s.requests[t], canary)
  }

  lemma NextAdmits(s: State, canary: string, t: nat, a: Action)
    requires AllAdmitted(s, canary)
    ensures AllAdmitted(Next(s, canary, t, a), canary)
  {
    hide Before, Resumed, Admissible, IsFor, OnTarget;
    if a.Arrive? {
      BeforeExact(Entries(s.registry, a.q.conn), a.q, canary);
    } else if a.Resume? && t in s.requests && s.requests[t].Waiting? {
      var q := s.requests[t].q;
      assert PhaseAdmitted(s.requests[t], canary);
      forall lease ensures !Resumed(Entries(s.registry, q.conn), q, lease).1.NeedsLease?
        ensures Resumed(Entries(s.registry, q.conn), q, lease).1.Bound? ==>
                  IsFor(Resumed(Entries(s.registry, q.conn), q, lease).1.binding, q)
      {
        ResumedExact(Entries(s.registry, q.conn), q, lease);
      }
    }
  }

  lemma {:induction false} RunAdmits(canary: string, steps: seq<(nat, Action)>)
    ensures AllAdmitted(Run(canary, steps), canary)
  {
    hide Next, AllAdmitted;
    if steps == [] {
      NothingAdmitted(canary);
    } else {
      RunAdmits(canary, steps[..|steps| - 1]);
      NextAdmits(Run(canary, steps[..|steps| - 1]), canary, steps[|steps| - 1].0, steps[|steps| - 1].1);
    }
  }

  lemma NothingAdmitted(canary: string)
    ensures AllAdmitted(START, canary)
  {
  }

  /** Over every run, only admissible requests are bound, each to a binding for
      exactly its host, address, port, scheme and SNI. */
  lemma BoundIsAdmissible(canary: string, steps: seq<(nat, Action)>, t: nat)
    requires var s := Run(canary, steps); t in s.requests && s.requests[t].Finished? && s.requests[t].verdict.Bound?
    ensures var q, b := Run(canary, steps).requests[t].q, Run(canary, steps).requests[t].verdict.binding;
            Admissible(q, canary) && IsFor(b, q)
  {
    hide Run, Admissible, IsFor;
    RunAdmits(canary, steps);
    assert PhaseAdmitted(Run(canary, steps).requests[t], canary);
  }

  /** An arriving request is rejected exactly when it is inadmissible or off the
      connection's target; otherwise it is bound at once, or, for a domain name
      without a binding, waits on a lookup of exactly its hostname and address. */
  lemma ArriveExact(kinds: Kinds, s: State, canary: string, t: nat, q: Request)
    requires Inv(kinds, s) && t !in s.requests
    ensures var u := Next(s, canary, t, Arrive(q));
            && t in u.requests && u.requests[t].q == q
            && ((u.requests[t].Finished? && u.requests[t].verdict.Rejected?) <==>
                  !Admissible(q, canary) || !OnTarget(Entries(s.registry, q.conn), q))
            && (u.requests[t].Finished? && u.requests[t].verdict.Bound? ==>
                  IsFor(u.requests[t].verdict.binding, q) && u.requests[t].verdict.binding in Entries(u.registry, q.conn))
            && (u.requests[t].Waiting? ==>
                  && q.kind.Domain? && u.requests[t].lookup < |u.lookups|
                  && u.lookups[u.requests[t].lookup].hostname == q.hostname && u.lookups[u.requests[t].lookup].address == q.address)
            && (u.requests[t].Waiting? || u.requests[t].verdict.Rejected? || u.requests[t].verdict.Bound?)
  {
    hide Before, Admissible, IsFor, OnTarget, EntriesOk, PhaseOk;
    BeforeExact(Entries(s.registry, q.conn), q, canary);
  }

  /** A request whose lookup brought a lease is bound, unless the connection was
      bound elsewhere meanwhile; without a lease it needs a binding made meanwhile. */
  lemma ResumeExact(s: State, canary: string, t: nat)
    requires t in s.requests && s.requests[t].Waiting?
    requires s.requests[t].lookup < |s.lookups| && s.lookups[s.requests[t].lookup].result.Some?
    ensures var q, result, u := s.requests[t].q, s.lookups[s.requests[t].lookup].result.value, Next(s, canary, t, Resume);
            var entries := Entries(s.registry, q.conn);
            && t in u.requests && u.requests[t].Finished? && u.requests[t].q == q
            && (u.requests[t].verdict.Bound? <==>
                  !result.Unavailable? && OnTarget(entries, q) && (result.Leased? || exists b :: b in entries && IsFor(b, q)))
            && (u.requests[t].verdict.Bound? ==>
                  IsFor(u.requests[t].verdict.binding, q) && u.requests[t].verdict.binding in Entries(u.registry, q.conn))
  {
    hide Resumed, IsFor, OnTarget;
    var q, result := s.requests[t].q, s.lookups[s.requests[t].lookup].result.value;
    ResumedExact(Entries(s.registry, q.conn), q, None);
    if result.Leased? {
      ResumedExact(Entries(s.registry, q.conn), q, Some(result.id));
    }
  }
}
