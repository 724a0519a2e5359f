/** What an accepted DNS response means, stated over its records alone:
    RFC 1034 section 3.6.2 and RFC 9460 section 7.3. */
module DnsAnswers {
  import opened Wire
  import opened Chains
  import opened DnsNames
  import opened DnsMessages

  // ---- aliases ----

  /** `links` maps exactly the owners of answer aliases, each to its one target
      and to the smallest time-to-live among its records. */
  ghost predicate Describes(p: Packet, records: seq<Record>, links: map<string, Link>) {
    && (forall i :: 0 <= i < |records| && IsLink(records[i]) ==>
          && records[i].owner in links
          && links[records[i].owner].target == Target(p, records[i])
          && links[records[i].owner].ttl <= records[i].ttl)
    && (forall x :: x in links ==>
          exists i :: 0 <= i < |records| && IsLink(records[i]) && records[i].owner == x && records[i].ttl == links[x].ttl)
  }

  /** Two answer aliases give one owner different targets. */
  ghost predicate Competing(p: Packet, records: seq<Record>) {
    exists i, j :: 0 <= i < |records| && 0 <= j < |records| && Compete(p, records[i], records[j])
  }

  ghost predicate Compete(p: Packet, r: Record, s: Record) {
    IsLink(r) && IsLink(s) && r.owner == s.owner && Target(p, r) != Target(p, s)
  }

  lemma {:induction false} AliasesExact(p: Packet, records: seq<Record>)
    ensures LinksOf(p, records).None? <==> Competing(p, records)
    ensures LinksOf(p, records).Some? ==> Describes(p, records, LinksOf(p, records).value)
  {
    hide Target, IsLink;
    if records != [] {
      var front, r := records[..|records| - 1], records[|records| - 1];
      AliasesExact(p, front);
      if LinksOf(p, front).None? {
        var i, j :| 0 <= i < |front| && 0 <= j < |front| && Compete(p, front[i], front[j]);
        assert Compete(p, records[i], records[j]);
      } else {
        AliasStep(p, front, r, LinksOf(p, front).value);
        assert records == front + [r];
      }
    }
  }

  lemma AliasStep(p: Packet, front: seq<Record>, r: Record, links: map<string, Link>)
    requires Describes(p, front, links)
    ensures var next := if IsLink(r) then AddLink(links, r.owner, Target(p, r), r.ttl) else Some(links);
            && (next.None? <==> Competing(p, front + [r]))
            && (next.Some? ==> Describes(p, front + [r], next.value))
  {
    hide Target, IsLink;
    var records := front + [r];
    var next := if IsLink(r) then AddLink(links, r.owner, Target(p, r), r.ttl) else Some(links);
    if next.None? {
      var i :| 0 <= i < |front| && IsLink(front[i]) && front[i].owner == r.owner && front[i].ttl == links[r.owner].ttl;
      assert Compete(p, records[i], records[|front|]);
    } else {
      forall i | 0 <= i < |records| && IsLink(records[i])
        ensures records[i].owner in next.value
        ensures next.value[records[i].owner].target == Target(p, records[i])
        ensures next.value[records[i].owner].ttl <= records[i].ttl
      {
        assert i < |front| ==> records[i] == front[i];
      }
      forall x | x in next.value
        ensures exists i :: 0 <= i < |records| && IsLink(records[i]) && records[i].owner == x && records[i].ttl == next.value[x].ttl
      {
        if IsLink(r) && x == r.owner && next.value[x].ttl == r.ttl {
          assert records[|front|] == r;
        } else {
          var i :| 0 <= i < |front| && IsLink(front[i]) && front[i].owner == x && front[i].ttl == links[x].ttl;
          assert records[i] == front[i];
        }
      }
    }
  }

  /** The alias chase from `name` meets the same owner at steps `j` and `k`. */
  ghost predicate Revisits(links: map<string, Link>, name: string, j: nat, k: nat) {
    j < k && Iter(Hop(links), name, j).Some? && Iter(Hop(links), name, j) == Iter(Hop(links), name, k)
  }

  ghost predicate Cycles(links: map<string, Link>, name: string) {
    exists j: nat, k: nat :: Revisits(links, name, j, k)
  }

  /** The alias chase fails exactly when it meets an owner twice. */
  lemma ChaseEndsOrCycles(links: map<string, Link>, name: string)
    ensures (exists n: nat :: Stops(Hop(links), name, n)) <==> !Cycles(links, name)
  {
    if Cycles(links, name) {
      var j: nat, k: nat :| Revisits(links, name, j, k);
      forall n: nat ensures !Stops(Hop(links), name, n) {
        RevisitNeverStops(Hop(links), name, j, k, n);
      }
    } else {
      var n := ChaseEnd(links, name, 0, {}, name);
    }
  }

  lemma ChaseEnd(links: map<string, Link>, name: string, k: nat, visited: set<string>, at: string) returns (n: nat)
    requires Iter(Hop(links), name, k) == Some(at) && visited <= links.Keys
    requires MetBefore(Hop(links), name, visited, k)
    requires !Cycles(links, name)
    ensures Stops(Hop(links), name, n)
    decreases links.Keys - visited
  {
    if at !in links {
      n := k;
    } else {
      assert at !in visited by {
        if at in visited {
          var j: nat :| j < k && Iter(Hop(links), name, j) == Some(at);
          assert Revisits(links, name, j, k);
        }
      }
      MetBeforeGrows(Hop(links), name, visited, k, at);
      assert Iter(Hop(links), name, k + 1) == Some(links[at].target);
      n := ChaseEnd(links, name, k + 1, visited + {at}, links[at].target);
    }
  }

  /** A path of aliases through the answer section, from its first name to its owner. */
  ghost predicate AliasPath(p: Packet, records: seq<Record>, path: seq<string>) {
    && |path| >= 1
    && (forall k :: 0 <= k < |path| - 1 ==> Aliased(p, records, path[k], path[k + 1]))
    && (forall i :: 0 <= i < |records| && IsLink(records[i]) ==> records[i].owner != path[|path| - 1])
  }

  ghost predicate Aliased(p: Packet, records: seq<Record>, x: string, y: string) {
    exists i :: 0 <= i < |records| && IsLink(records[i]) && records[i].owner == x && Target(p, records[i]) == y
  }

  function PathOf(links: map<string, Link>, name: string, n: nat): seq<string>
    requires Iter(Hop(links), name, n).Some?
  {
    if n == 0 then [name]
    else
      IterPrefix(Hop(links), name, n - 1, n);
      PathOf(links, name, n - 1) + [Iter(Hop(links), name, n).value]
  }

  lemma {:induction false} PathOfHops(p: Packet, records: seq<Record>, links: map<string, Link>, name: string, n: nat)
    requires Describes(p, records, links) && Iter(Hop(links), name, n).Some?
    ensures var path := PathOf(links, name, n);
            && |path| == n + 1 && path[0] == name && path[n] == Iter(Hop(links), name, n).value
            && (forall k :: 0 <= k < n ==> path[k] in links && Aliased(p, records, path[k], path[k + 1]))
            && (forall t :: t in AliasTtls(links, name, n) <==> exists k :: 0 <= k < n && path[k] in links && t == links[path[k]].ttl)
  {
    hide Target, IsLink;
    if n > 0 {
      IterPrefix(Hop(links), name, n - 1, n);
      PathOfHops(p, records, links, name, n - 1);
      var before, path := PathOf(links, name, n - 1), PathOf(links, name, n);
      var x := before[n - 1];
      assert x in links && path[n] == links[x].target;
      var i :| 0 <= i < |records| && IsLink(records[i]) && records[i].owner == x && records[i].ttl == links[x].ttl;
      assert Aliased(p, records, x, path[n]);
      forall k | 0 <= k < n ensures path[k] in links && Aliased(p, records, path[k], path[k + 1]) {
        assert path[k] == before[k] && (k < n - 1 ==> path[k + 1] == before[k + 1]);
      }
      forall t | t in AliasTtls(links, name, n)
        ensures exists k :: 0 <= k < n && path[k] in links && t == links[path[k]].ttl
      {
        if t in AliasTtls(links, name, n - 1) {
          var k :| 0 <= k < n - 1 && before[k] in links && t == links[before[k]].ttl;
          assert path[k] == before[k];
        } else {
          assert path[n - 1] == x;
        }
      }
      forall k | 0 <= k < n ensures links[path[k]].ttl in AliasTtls(links, name, n) {
        assert k < n - 1 ==> path[k] == before[k] && links[before[k]].ttl in AliasTtls(links, name, n - 1);
      }
    }
  }

  // ---- addresses ----

  lemma {:induction false} GatherExact(p: Packet, records: seq<Record>, qtype: nat, owner: string, pub: Address -> bool)
    ensures forall a :: a in Gather(p, records, qtype, owner, pub) <==>
              exists i :: 0 <= i < |records| && a in Contribution(p, records[i], qtype, owner, pub)
    ensures forall t :: t in GatherTtls(p, records, qtype, owner, pub) <==>
              exists i :: 0 <= i < |records| && Contribution(p, records[i], qtype, owner, pub) != [] && t == records[i].ttl
    ensures |GatherTtls(p, records, qtype, owner, pub)| == |Gather(p, records, qtype, owner, pub)|
  {
    hide Contribution;
    if records != [] {
      var front, r := records[..|records| - 1], records[|records| - 1];
      GatherExact(p, front, qtype, owner, pub);
      var more := Contribution(p, r, qtype, owner, pub);
      assert forall i :: 0 <= i < |front| ==> records[i] == front[i];
      forall a ensures a in Gather(p, records, qtype, owner, pub) <==>
                       exists i :: 0 <= i < |records| && a in Contribution(p, records[i], qtype, owner, pub)
      {
        if a in more {
          assert a in Contribution(p, records[|front|], qtype, owner, pub);
        } else if a in Gather(p, front, qtype, owner, pub) {
          var i :| 0 <= i < |front| && a in Contribution(p, front[i], qtype, owner, pub);
          assert records[i] == front[i];
        }
      }
      forall t ensures t in GatherTtls(p, records, qtype, owner, pub) <==>
                       exists i :: 0 <= i < |records| && Contribution(p, records[i], qtype, owner, pub) != [] && t == records[i].ttl
      {
        if more != [] && t == r.ttl {
          assert Repeat(r.ttl, |more|)[0] == t;
          assert records[|front|].ttl == t;
        } else if t in GatherTtls(p, front, qtype, owner, pub) {
          var i :| 0 <= i < |front| && Contribution(p, front[i], qtype, owner, pub) != [] && t == front[i].ttl;
          assert records[i] == front[i];
        }
      }
    }
  }

  function FirstIndex(s: seq<Address>, a: Address): nat {
    if s == [] || s[0] == a then 0 else 1 + FirstIndex(s[1..], a)
  }

  lemma {:induction false} FirstIndexSnoc(s: seq<Address>, x: Address, a: Address)
    ensures FirstIndex(s, a) <= |s| && (FirstIndex(s, a) < |s| <==> a in s)
    ensures a in s ==> FirstIndex(s + [x], a) == FirstIndex(s, a)
    ensures a !in s ==> FirstIndex(s + [x], a) == |s| + if x == a then 0 else 1
  {
    if s == [] {
      assert s + [x] == [x] && [x][1..] == [];
    } else {
      FirstIndexSnoc(s[1..], x, a);
      assert (s + [x])[1..] == s[1..] + [x];
      assert s == [s[0]] + s[1..];
    }
  }

  /** Removing duplicates keeps every address once, in order of first appearance. */
  lemma {:induction false} DistinctExact(s: seq<Address>)
    ensures forall a :: a in Distinct(s) <==> a in s
    ensures forall i, j :: 0 <= i < j < |Distinct(s)| ==>
              Distinct(s)[i] != Distinct(s)[j] && FirstIndex(s, Distinct(s)[i]) < FirstIndex(s, Distinct(s)[j])
  {
    if s != [] {
      var front, x := s[..|s| - 1], s[|s| - 1];
      DistinctExact(front);
      assert s == front + [x];
      forall a ensures a in front ==> FirstIndex(s, a) == FirstIndex(front, a) < |front| {
        FirstIndexSnoc(front, x, a);
      }
      FirstIndexSnoc(front, x, x);
      forall i, j | 0 <= i < j < |Distinct(s)|
        ensures Distinct(s)[i] != Distinct(s)[j] && FirstIndex(s, Distinct(s)[i]) < FirstIndex(s, Distinct(s)[j])
      {
        assert Distinct(s)[i] == Distinct(front)[i] && Distinct(s)[i] in front;
        if j < |Distinct(front)| {
          assert Distinct(s)[j] == Distinct(front)[j] && Distinct(s)[j] in front;
        }
      }
    }
  }

  lemma DistinctNothing()
    ensures Distinct([]) == []
  {
  }

  lemma {:induction false} MinOfExact(s: seq<nat>)
    requires s != []
    ensures MinOf(s) in s && forall t :: t in s ==> MinOf(s) <= t
  {
    if |s| > 1 {
      var front := s[..|s| - 1];
      MinOfExact(front);
      assert s == front + [s[|s| - 1]];
    }
  }

  // ---- hints are public ----

  function Anything(): Address -> bool { (a: Address) => true }

  lemma {:induction false} ParamHintsPublic(p: Packet, o: nat, end: nat, pub: Address -> bool)
    requires o <= end <= |p|
    ensures ParamHints(p, o, end, pub) ==
            match ParamHints(p, o, end, Anything())
            case None => None
            case Some(all) => if AllPublic(all, pub) then Some(all) else None
    decreases end - o
  {
    hide Chunks, Whole;
    if o != end && o + 4 <= end && o + 4 + U16(p, o + 2) <= end {
      var next := o + 4 + U16(p, o + 2);
      ParamHintsPublic(p, next, end, pub);
      var here := ParamAddresses(U16(p, o), p[o + 4..next], Anything());
      var rest := ParamHints(p, next, end, Anything());
      if here.Some? && rest.Some? {
        AllPublicConcat(here.value, rest.value, pub);
      }
    }
  }

  lemma AllPublicConcat(a: seq<Address>, b: seq<Address>, pub: Address -> bool)
    ensures AllPublic(a + b, pub) <==> AllPublic(a, pub) && AllPublic(b, pub)
  {
    if AllPublic(a + b, pub) {
      assert forall i :: 0 <= i < |a| ==> a[i] == (a + b)[i];
      assert forall i :: 0 <= i < |b| ==> b[i] == (a + b)[|a| + i];
    }
  }

  /** Hints are accepted exactly when they parse and every one is public. */
  lemma HintsPublic(p: Packet, o: nat, end: nat, pub: Address -> bool)
    requires end <= |p|
    ensures SvcbHints(p, o, end, pub) ==
            match SvcbHints(p, o, end, Anything())
            case None => None
            case Some(all) => if AllPublic(all, pub) then Some(all) else None
  {
    hide DecodeName, ParamHints;
    if o + 3 <= end && DecodeName(p, o + 2).Some? && DecodeName(p, o + 2).value.next <= end {
      ParamHintsPublic(p, DecodeName(p, o + 2).value.next, end, pub);
    }
  }

  /** The addresses a class-IN record carries, public or not. */
  ghost function Carried(p: Packet, r: Record): seq<Address> {
    if !InPacket(p, r) || r.rclass != CLASS_IN then []
    else if r.rtype == TYPE_A || r.rtype == TYPE_AAAA then [Payload(p, r)]
    else if IsSvcb(r.rtype) && SvcbHints(p, r.start, r.end, Anything()).Some? then
      SvcbHints(p, r.start, r.end, Anything()).value
    else []
  }

  /** One non-public address anywhere in the records, in any section and for
      any owner, rejects the whole response. */
  lemma NonPublicRejects(query: Packet, response: Packet, pub: Address -> bool, i: nat, a: Address)
    requires |response| >= HEADER_SIZE && QuestionAt(response).Some? && AllRecords(response).Some?
    requires i < |AllRecords(response).value| && a in Carried(response, AllRecords(response).value[i]) && !pub(a)
    ensures ResponseMeaning(query, response, pub).None?
  {
    hide QuestionAt, RecordsTo, LinksOf, QueryMeaning;
    var records := AllRecords(response).value;
    var r := records[i];
    if IsSvcb(r.rtype) {
      HintsPublic(response, r.start, r.end, pub);
    }
    assert !WellFormed(response, records[i], pub);
  }

  // ---- the main result ----

  /** A record that the answer's time-to-live must respect. */
  ghost predicate Used(p: Packet, r: Record, qtype: nat, path: seq<string>, pub: Address -> bool)
    requires path != []
  {
    || (IsLink(r) && r.owner in path[..|path| - 1])
    || Contribution(p, r, qtype, path[|path| - 1], pub) != []
  }

  /** The answer to a query: `path` leads from the query name over aliases to an
      owner, the addresses are those the owner's records carry, and the
      time-to-live is the smallest of the aliases and records used. */
  ghost predicate Grants(p: Packet, records: seq<Record>, pub: Address -> bool, path: seq<string>, answer: Answer) {
    && AliasPath(p, records, path) && path[0] == answer.name
    && answer.addresses == Distinct(Gather(p, records, answer.qtype, path[|path| - 1], pub))
    && (forall a :: a in answer.addresses <==>
          exists i :: 0 <= i < |records| && a in Contribution(p, records[i], answer.qtype, path[|path| - 1], pub))
    && (forall a :: a in answer.addresses ==> pub(a))
    && (answer.addresses == [] ==> answer.ttl == 0)
    && (answer.addresses != [] ==>
          && (forall i :: 0 <= i < |records| && Used(p, records[i], answer.qtype, path, pub) ==> answer.ttl <= records[i].ttl)
          && (exists i :: 0 <= i < |records| && Used(p, records[i], answer.qtype, path, pub) && answer.ttl == records[i].ttl))
  }

  lemma ContributionPublic(p: Packet, r: Record, qtype: nat, owner: string, pub: Address -> bool)
    requires WellFormed(p, r, pub)
    ensures AllPublic(Contribution(p, r, qtype, owner, pub), pub)
  {
    hide SvcbHints;
    if IsSvcb(r.rtype) && r.rclass == CLASS_IN {
      HintsPublic(p, r.start, r.end, pub);
    }
  }

  lemma ChaseStep(p: Packet, records: seq<Record>, name: string, qtype: nat, pub: Address -> bool) returns (n: nat)
    requires RecordsMeaning(p, records, name, qtype, pub).Some?
    ensures AllWellFormed(p, records, pub) && LinksOf(p, records).Some?
    ensures var links := LinksOf(p, records).value;
            && Stops(Hop(links), name, n)
            && RecordsMeaning(p, records, name, qtype, pub) == Some(MeaningAt(p, records, links, name, n, qtype, pub))
  {
    hide AllWellFormed, LinksOf, Gather, GatherTtls, MinOf, Distinct, AliasTtls;
    var links := LinksOf(p, records).value;
    n :| Stops(Hop(links), name, n);
    forall m: nat | Stops(Hop(links), name, m) ensures m == n {
      StopsOnce(Hop(links), name, m, n);
    }
  }

  ghost function MeaningAt(p: Packet, records: seq<Record>, links: map<string, Link>, name: string, n: nat, qtype: nat, pub: Address -> bool): Answer
    requires Iter(Hop(links), name, n).Some?
  {
    var owner := Iter(Hop(links), name, n).value;
    var addresses := Gather(p, records, qtype, owner, pub);
    Answer(name, qtype, Distinct(addresses),
           if addresses == [] then 0 else MinOf(AliasTtls(links, name, n) + GatherTtls(p, records, qtype, owner, pub)))
  }

  lemma RecordsGrant(p: Packet, records: seq<Record>, name: string, qtype: nat, pub: Address -> bool) returns (path: seq<string>)
    requires RecordsMeaning(p, records, name, qtype, pub).Some?
    ensures Grants(p, records, pub, path, RecordsMeaning(p, records, name, qtype, pub).value)
  {
    hide Contribution, Target, IsLink, WellFormed, RecordsMeaning, Gather, GatherTtls, MinOf, Distinct, AliasTtls, LinksOf;
    var n := ChaseStep(p, records, name, qtype, pub);
    AliasesExact(p, records);
    var links := LinksOf(p, records).value;
    path := PathOf(links, name, n);
    PathOfHops(p, records, links, name, n);
    var owner := path[n];
    var addresses := Gather(p, records, qtype, owner, pub);
    GatherExact(p, records, qtype, owner, pub);
    DistinctExact(addresses);
    forall a | a in addresses ensures pub(a) {
      var i :| 0 <= i < |records| && a in Contribution(p, records[i], qtype, owner, pub);
      ContributionPublic(p, records[i], qtype, owner, pub);
    }
    var answer := RecordsMeaning(p, records, name, qtype, pub).value;
    if addresses != [] {
      assert addresses[0] in answer.addresses;
      TtlGranted(p, records, links, name, n, qtype, pub);
    } else {
      DistinctNothing();
    }
  }

  lemma TtlGranted(p: Packet, records: seq<Record>, links: map<string, Link>, name: string, n: nat, qtype: nat, pub: Address -> bool)
    requires Describes(p, records, links) && Stops(Hop(links), name, n)
    requires Gather(p, records, qtype, Iter(Hop(links), name, n).value, pub) != []
    ensures var owner := Iter(Hop(links), name, n).value;
            var path := PathOf(links, name, n);
            var ttl := MinOf(AliasTtls(links, name, n) + GatherTtls(p, records, qtype, owner, pub));
            && path != []
            && (forall i :: 0 <= i < |records| && Used(p, records[i], qtype, path, pub) ==> ttl <= records[i].ttl)
            && (exists i :: 0 <= i < |records| && Used(p, records[i], qtype, path, pub) && ttl == records[i].ttl)
  {
    hide Contribution, Target, IsLink, Gather, GatherTtls, AliasTtls, MinOf;
    var owner, path := Iter(Hop(links), name, n).value, PathOf(links, name, n);
    PathOfHops(p, records, links, name, n);
    GatherExact(p, records, qtype, owner, pub);
    var aliasTtls, recordTtls := AliasTtls(links, name, n), GatherTtls(p, records, qtype, owner, pub);
    var ttls := aliasTtls + recordTtls;
    MinOfExact(ttls);
    forall i | 0 <= i < |records| && Used(p, records[i], qtype, path, pub) ensures MinOf(ttls) <= records[i].ttl {
      if Contribution(p, records[i], qtype, owner, pub) != [] {
        assert records[i].ttl in recordTtls && records[i].ttl in ttls;
      } else {
        var k :| 0 <= k < n && path[k] == records[i].owner;
        assert links[path[k]].ttl in aliasTtls && links[path[k]].ttl in ttls;
      }
    }
    if MinOf(ttls) in recordTtls {
      var i :| 0 <= i < |records| && Contribution(p, records[i], qtype, owner, pub) != [] && MinOf(ttls) == records[i].ttl;
      assert Used(p, records[i], qtype, path, pub);
    } else {
      var k :| 0 <= k < n && path[k] in links && MinOf(ttls) == links[path[k]].ttl;
      var i :| 0 <= i < |records| && IsLink(records[i]) && records[i].owner == path[k] && records[i].ttl == links[path[k]].ttl;
      assert path[..n][k] == path[k];
      assert Used(p, records[i], qtype, path, pub);
    }
  }

  /** An accepted response grants exactly the public addresses at the end of the
      alias path from the query name, and its records fill the message. */
  lemma AcceptedResponseGrants(query: Packet, response: Packet, pub: Address -> bool) returns (path: seq<string>)
    requires ResponseMeaning(query, response, pub).Some?
    ensures QuestionAt(response).Some? && AllRecords(response).Some? && QueryMeaning(query).Some?
    ensures var records, answer := AllRecords(response).value, ResponseMeaning(query, response, pub).value;
            && answer.name == QueryMeaning(query).value.name && answer.qtype == QueryMeaning(query).value.qtype
            && Grants(response, records, pub, path, answer)
            && Contiguous(response, QuestionAt(response).value.end, records)
            && EndOf(QuestionAt(response).value.end, records) == |response|
  {
    hide QuestionAt, QueryMeaning, RecordsTo, RecordsMeaning, Grants;
    var q := QueryMeaning(query).value;
    var records := AllRecords(response).value;
    path := RecordsGrant(response, records, q.name, q.qtype, pub);
    assert RecordsMeaning(response, records, q.name, q.qtype, pub).value.name == q.name
        && RecordsMeaning(response, records, q.name, q.qtype, pub).value.qtype == q.qtype by {
      MeaningEchoes(response, records, q.name, q.qtype, pub);
    }
    RecordsContiguous(response, QuestionAt(response).value.end, U16(response, 6) + U16(response, 8) + U16(response, 10),
                      U16(response, 6), U16(response, 8));
  }

  lemma MeaningEchoes(p: Packet, records: seq<Record>, name: string, qtype: nat, pub: Address -> bool)
    requires RecordsMeaning(p, records, name, qtype, pub).Some?
    ensures var answer := RecordsMeaning(p, records, name, qtype, pub).value; answer.name == name && answer.qtype == qtype
  {
    hide AllWellFormed, LinksOf, Gather, GatherTtls, MinOf, Distinct, AliasTtls;
  }

  /** Given well-formed records, a response is rejected exactly for competing
      aliases or an alias cycle reachable from the query name. */
  lemma RejectionExact(p: Packet, records: seq<Record>, name: string, qtype: nat, pub: Address -> bool)
    requires AllWellFormed(p, records, pub)
    ensures RecordsMeaning(p, records, name, qtype, pub).None? <==>
            || Competing(p, records)
            || (LinksOf(p, records).Some? && Cycles(LinksOf(p, records).value, name))
  {
    hide AllWellFormed, LinksOf, Gather, GatherTtls, MinOf, Distinct, AliasTtls, Compete;
    AliasesExact(p, records);
    if LinksOf(p, records).Some? {
      ChaseEndsOrCycles(LinksOf(p, records).value, name);
    }
  }
}
