/** Rewriting a cached response: a new message ID and capped time-to-live fields. */
module DnsTtlCap {
  import opened Wire
  import opened Chains
  import opened DnsNames
  import opened DnsMessages
  import opened DnsAnswers

  /** Offset of a record's time-to-live field. */
  function TtlOffset(r: Record): int { r.start - 6 }

  function CapOne(p: Packet, r: Record, maximum: nat): (q: Packet)
    requires InPacket(p, r) && r.ttl < 0x1_0000_0000
    ensures |q| == |p|
  {
    if r.rtype == TYPE_OPT then p
    else p[..r.start - 6] + Put32(Min(r.ttl, maximum)) + p[r.start - 2..]
  }

  /** Every non-OPT time-to-live of `records` capped, in order. */
  function Capped(p: Packet, records: seq<Record>, maximum: nat): (q: Packet)
    requires forall i :: 0 <= i < |records| ==> InPacket(p, records[i]) && records[i].ttl < 0x1_0000_0000
    ensures |q| == |p|
  {
    if records == [] then p
    else
      var r := records[|records| - 1];
      assert InPacket(p, r);
      CapOne(Capped(p, records[..|records| - 1], maximum), r, maximum)
  }

  lemma {:induction false} RecordTtls(p: Packet, o: nat, k: nat, answers: nat, authorities: nat)
    requires RecordsTo(p, o, k, answers, authorities).Some?
    ensures var records := RecordsTo(p, o, k, answers, authorities).value;
            Contiguous(p, o, records)
            && forall i :: 0 <= i < |records| ==> InPacket(p, records[i]) && records[i].ttl == U32(p, TtlOffset(records[i]))
  {
    hide RecordAt, U32;
    RecordsContiguous(p, o, k, answers, authorities);
    var records := RecordsTo(p, o, k, answers, authorities).value;
    if k > 0 {
      RecordTtls(p, o, k - 1, answers, authorities);
      var before := RecordsTo(p, o, k - 1, answers, authorities).value;
      TtlField(p, EndOf(o, before), SectionOf(k - 1, answers, authorities));
      forall i | 0 <= i < |records|
        ensures InPacket(p, records[i]) && records[i].ttl == U32(p, TtlOffset(records[i]))
      {
        assert Placed(p, o, records, i);
        if i < k - 1 {
          assert records[i] == before[i];
        }
      }
    }
  }

  lemma TtlField(p: Packet, o: nat, section: Section)
    requires RecordAt(p, o, section).Some?
    ensures var r := RecordAt(p, o, section).value; InPacket(p, r) && r.ttl == U32(p, TtlOffset(r))
  {
    hide DecodeName, U32;
    RecordBounds(p, o, section);
  }

  /** What capping a response yields. */
  ghost function CapMeaning(p: Packet, maximum: int): Option<Packet> {
    if maximum < 0 || |p| < HEADER_SIZE || QuestionAt(p).None? || AllRecords(p).None? then None
    else
      RecordTtls(p, QuestionAt(p).value.end, U16(p, 6) + U16(p, 8) + U16(p, 10), U16(p, 6), U16(p, 8));
      Some(Capped(p, AllRecords(p).value, maximum))
  }

  /** Slice assignment into a byte buffer. */
  method WriteField(buffer: array<Byte>, at: nat, field: seq<Byte>)
    requires at + |field| <= buffer.Length
    modifies buffer
    ensures buffer[..] == old(buffer[..])[..at] + field + old(buffer[..])[at + |field|..]
  {
    for j := 0 to |field|
      invariant buffer[..] == old(buffer[..])[..at] + field[..j] + old(buffer[..])[at + j..]
    {
      buffer[at + j] := field[j];
    }
  }

  /** Edits a copy of the response in place while walking its records. */
  method CapResponseTtls(response: Packet, maximum: int) returns (r: Option<Packet>)
    ensures r == CapMeaning(response, maximum)
  {
    hide DecodeName, QuestionAt, RecordAt, Put32, U16;
    if maximum < 0 || |response| < HEADER_SIZE {
      return None;
    }
    var question := ReadQuestion(response);
    if question.None? {
      return None;
    }
    var start := question.value.end;
    var offset := start;
    var answers, authorities := U16(response, 6), U16(response, 8);
    var total := answers + authorities + U16(response, 10);
    var capped := new Byte[|response|](i requires 0 <= i < |response| => response[i]);
    assert capped[..] == response;
    ghost var records: seq<Record> := [];
    for k := 0 to total
      invariant RecordsTo(response, start, k, answers, authorities) == Some(records)
      invariant offset == EndOf(start, records)
      invariant forall i :: 0 <= i < |records| ==> InPacket(response, records[i]) && records[i].ttl < 0x1_0000_0000
      invariant capped.Length == |response| && capped[..] == Capped(response, records, maximum)
    {
      var record := ReadRecord(response, offset, SectionOf(k, answers, authorities));
      if record.None? {
        if RecordsTo(response, start, total, answers, authorities).Some? {
          RecordsPrefix(response, start, k + 1, total, answers, authorities);
        }
        return None;
      }
      var r := record.value;
      TtlField(response, offset, SectionOf(k, answers, authorities));
      if r.rtype != TYPE_OPT {
        var field := Put32(Min(r.ttl, maximum));
        ghost var before := capped[..];
        WriteField(capped, r.start - 6, field);
        assert capped[..] == CapOne(before, r, maximum);
      }
      assert (records + [r])[..|records|] == records;
      records := records + [r];
      offset := r.end;
    }
    if offset != |response| {
      return None;
    }
    return Some(capped[..]);
  }

  // ---- what capping changes ----

  /** Octet `x` lies in the time-to-live field of a non-OPT record. */
  ghost predicate InTtl(records: seq<Record>, x: int) {
    exists i :: 0 <= i < |records| && OwnTtl(records[i], x)
  }

  predicate OwnTtl(r: Record, x: int) { r.rtype != TYPE_OPT && r.start - 6 <= x < r.start - 2 }

  lemma TtlOwner(p: Packet, o: nat, records: seq<Record>, i: nat, x: nat)
    requires Contiguous(p, o, records) && i < |records|
    requires records[i].at <= x < records[i].end && InTtl(records, x)
    ensures OwnTtl(records[i], x)
  {
    var j :| 0 <= j < |records| && OwnTtl(records[j], x);
    assert Placed(p, o, records, i) && Placed(p, o, records, j);
    if i < j {
      RecordsInOrder(p, o, records, i, j);
    } else if j < i {
      RecordsInOrder(p, o, records, j, i);
    }
  }

  /** Capping keeps the length, writes exactly the capped values, and touches
      nothing outside the time-to-live fields of non-OPT records. */
  lemma {:induction false} CappedExact(p: Packet, o: nat, records: seq<Record>, maximum: nat)
    requires Contiguous(p, o, records)
    requires forall i :: 0 <= i < |records| ==> InPacket(p, records[i]) && records[i].ttl < 0x1_0000_0000
    ensures var q := Capped(p, records, maximum);
            && |q| == |p|
            && (forall x :: 0 <= x < |p| && !InTtl(records, x) ==> q[x] == p[x])
            && (forall i :: 0 <= i < |records| && records[i].rtype != TYPE_OPT ==>
                  q[records[i].start - 6..records[i].start - 2] == Put32(Min(records[i].ttl, maximum)))
  {
    hide Put32;
    if records != [] {
      var n := |records| - 1;
      var front, r := records[..n], records[n];
      assert Contiguous(p, o, front) by {
        forall i | 0 <= i < n ensures Placed(p, o, front, i) {
          assert Placed(p, o, records, i);
        }
      }
      CappedExact(p, o, front, maximum);
      var before, q := Capped(p, front, maximum), Capped(p, records, maximum);
      forall x | 0 <= x < |p| && !InTtl(records, x) ensures q[x] == p[x] {
        assert !OwnTtl(records[n], x);
        assert !InTtl(front, x);
      }
      forall i | 0 <= i < |records| && records[i].rtype != TYPE_OPT
        ensures q[records[i].start - 6..records[i].start - 2] == Put32(Min(records[i].ttl, maximum))
      {
        if i < n {
          RecordsInOrder(p, o, records, i, n);
          assert records[i].start <= r.start - 10;
          assert q[records[i].start - 6..records[i].start - 2] == before[records[i].start - 6..records[i].start - 2];
          assert front[i] == records[i];
        }
      }
    }
  }

  // ---- rewriting preserves meaning ----

  /** Octets a rewrite may change: the message ID and non-OPT time-to-live fields. */
  ghost predicate Edited(records: seq<Record>, x: int) { x < 2 || InTtl(records, x) }

  ghost predicate Clear(records: seq<Record>, octets: set<nat>) {
    forall x :: x in octets ==> !Edited(records, x)
  }

  /** No name that validation decodes reads an edited octet. */
  ghost predicate NamesClear(p: Packet, records: seq<Record>) {
    forall i :: 0 <= i < |records| ==> RecordClear(p, records, records[i])
  }

  ghost predicate RecordClear(p: Packet, records: seq<Record>, r: Record) {
    && Clear(records, NameOctets(p, r.at))
    && (r.rclass == CLASS_IN && r.rtype == TYPE_CNAME ==> Clear(records, NameOctets(p, r.start)))
    && (r.rclass == CLASS_IN && IsSvcb(r.rtype) ==> Clear(records, NameOctets(p, r.start + 2)))
  }

  function Retimed(r: Record, maximum: nat): Record {
    if r.rtype == TYPE_OPT then r else r.(ttl := Min(r.ttl, maximum))
  }

  function RetimedAll(records: seq<Record>, maximum: nat): seq<Record> {
    seq(|records|, i requires 0 <= i < |records| => Retimed(records[i], maximum))
  }

  /** `q` is `p` with edited octets changed and every time-to-live capped. */
  ghost predicate Rewritten(p: Packet, q: Packet, o: nat, records: seq<Record>, maximum: nat) {
    && |q| == |p| && o >= HEADER_SIZE && Contiguous(p, o, records)
    && (forall x :: 0 <= x < |p| && !Edited(records, x) ==> q[x] == p[x])
    && (forall i :: 0 <= i < |records| ==>
          InPacket(p, records[i]) && U32(q, TtlOffset(records[i])) == Retimed(records[i], maximum).ttl)
    && NamesClear(p, records)
  }

  lemma NamesKept(p: Packet, q: Packet, records: seq<Record>, o: nat)
    requires |q| == |p| && (forall x :: 0 <= x < |p| && !Edited(records, x) ==> q[x] == p[x])
    requires DecodeName(p, o).Some? && Clear(records, NameOctets(p, o))
    ensures DecodeName(q, o) == DecodeName(p, o) && NameOctets(q, o) == NameOctets(p, o)
  {
    hide Edited;
    NameOctetsInside(p, o);
    DecodeFrame(p, q, o);
  }

  /** Octets of a record outside its own time-to-live stay. */
  lemma RecordOctetsKept(p: Packet, q: Packet, o: nat, records: seq<Record>, maximum: nat, i: nat, lo: nat, hi: nat)
    requires Rewritten(p, q, o, records, maximum) && i < |records|
    requires records[i].at <= lo <= hi <= records[i].end
    requires hi <= records[i].start - 6 || records[i].start - 2 <= lo
    ensures SameOn(p, q, lo, hi)
  {
    hide NamesClear, Retimed;
    RecordsInOrder(p, o, records, i, i);
    forall x | lo <= x < hi ensures q[x] == p[x] {
      if InTtl(records, x) {
        TtlOwner(p, o, records, i, x);
      }
    }
  }

  lemma RewrittenParts(p: Packet, q: Packet, o: nat, records: seq<Record>, maximum: nat, i: nat)
    requires Rewritten(p, q, o, records, maximum) && i < |records|
    requires DecodeName(p, records[i].at).Some?
    ensures |q| == |p| && InPacket(p, records[i])
    ensures DecodeName(q, records[i].at) == DecodeName(p, records[i].at)
    ensures U32(q, TtlOffset(records[i])) == Retimed(records[i], maximum).ttl
  {
    hide DecodeName, NameOctets, Contiguous, Retimed, U32;
    assert RecordClear(p, records, records[i]);
    NamesKept(p, q, records, records[i].at);
  }

  lemma RecordKept(p: Packet, q: Packet, o: nat, records: seq<Record>, maximum: nat, i: nat)
    requires Rewritten(p, q, o, records, maximum) && i < |records|
    requires RecordAt(p, records[i].at, records[i].section) == Some(records[i])
    ensures RecordAt(q, records[i].at, records[i].section) == Some(Retimed(records[i], maximum))
  {
    hide DecodeName, NameOctets, Rewritten, U32;
    var r := records[i];
    RewrittenParts(p, q, o, records, maximum, i);
    NextInside(p, r.at);
    RecordOctetsKept(p, q, o, records, maximum, i, r.start - 10, r.start - 6);
    RecordOctetsKept(p, q, o, records, maximum, i, r.start - 2, r.start);
  }

  lemma {:induction false} RecordsKept(p: Packet, q: Packet, o: nat, k: nat, answers: nat, authorities: nat, records: seq<Record>, maximum: nat)
    requires RecordsTo(p, o, k, answers, authorities).Some? && RecordsTo(p, o, k, answers, authorities).value <= records
    requires Rewritten(p, q, o, records, maximum)
    ensures RecordsTo(q, o, k, answers, authorities) ==
            Some(RetimedAll(RecordsTo(p, o, k, answers, authorities).value, maximum))
  {
    hide RecordAt, Rewritten;
    if k == 0 {
      assert RetimedAll([], maximum) == [];
    } else {
      RecordsContiguous(p, o, k, answers, authorities);
      var here := RecordsTo(p, o, k, answers, authorities).value;
      var before := RecordsTo(p, o, k - 1, answers, authorities).value;
      RecordsContiguous(p, o, k - 1, answers, authorities);
      RecordsKept(p, q, o, k - 1, answers, authorities, records, maximum);
      var section := SectionOf(k - 1, answers, authorities);
      RecordBounds(p, EndOf(o, before), section);
      RecordSection(p, EndOf(o, before), section);
      assert records[k - 1] == here[k - 1];
      RecordKept(p, q, o, records, maximum, k - 1);
      assert EndOf(o, RetimedAll(before, maximum)) == EndOf(o, before);
      assert RetimedAll(here, maximum) == RetimedAll(before, maximum) + [Retimed(here[k - 1], maximum)];
    }
  }

  lemma RecordSection(p: Packet, o: nat, section: Section)
    requires RecordAt(p, o, section).Some?
    ensures RecordAt(p, o, section).value.section == section
  {
  }

  // ---- each part of the judgement ----

  lemma {:induction false} ParamsKept(p: Packet, q: Packet, o: nat, end: nat, pub: Address -> bool)
    requires o <= end && SameOn(p, q, o, end)
    ensures ParamHints(q, o, end, pub) == ParamHints(p, o, end, pub)
    decreases end - o
  {
    hide ParamAddresses;
    if o + 4 <= end {
      var next := o + 4 + U16(p, o + 2);
      if next <= end {
        assert q[o + 4..next] == p[o + 4..next];
        ParamsKept(p, q, next, end, pub);
      }
    }
  }

  lemma PayloadKept(p: Packet, q: Packet, o: nat, records: seq<Record>, maximum: nat, i: nat, pub: Address -> bool)
    requires Rewritten(p, q, o, records, maximum) && i < |records| && WellFormed(p, records[i], pub)
    ensures var r := records[i];
            && InPacket(q, r) && Payload(q, r) == Payload(p, r)
            && (r.rclass == CLASS_IN && r.rtype == TYPE_CNAME ==> DecodeName(q, r.start) == DecodeName(p, r.start))
            && (r.rclass == CLASS_IN && IsSvcb(r.rtype) ==> SvcbHints(q, r.start, r.end, pub) == SvcbHints(p, r.start, r.end, pub))
            && WellFormed(q, Retimed(r, maximum), pub)
  {
    hide DecodeName, NameOctets, ParamHints;
    var r := records[i];
    RecordsInOrder(p, o, records, i, i);
    assert RecordClear(p, records, records[i]);
    RecordOctetsKept(p, q, o, records, maximum, i, r.start, r.end);
    assert q[r.start..r.end] == p[r.start..r.end];
    if r.rclass == CLASS_IN && r.rtype == TYPE_CNAME {
      NamesKept(p, q, records, r.start);
    }
    if r.rclass == CLASS_IN && IsSvcb(r.rtype) {
      NamesKept(p, q, records, r.start + 2);
      NextInside(p, r.start + 2);
      var next := DecodeName(p, r.start + 2).value.next;
      ParamsKept(p, q, next, r.end, pub);
    }
  }

  function CappedLinks(links: map<string, Link>, maximum: nat): map<string, Link> {
    map x | x in links :: Link(links[x].target, Min(links[x].ttl, maximum))
  }

  function CappedTtls(s: seq<nat>, maximum: nat): seq<nat> {
    seq(|s|, i requires 0 <= i < |s| => Min(s[i], maximum))
  }

  /** The contents of each record survive, so the same aliases and addresses are found. */
  ghost predicate ContentsKept(p: Packet, q: Packet, r: Record, pub: Address -> bool) {
    && InPacket(p, r) && InPacket(q, r) && Payload(q, r) == Payload(p, r)
    && (r.rclass == CLASS_IN && r.rtype == TYPE_CNAME ==> DecodeName(q, r.start) == DecodeName(p, r.start))
    && (r.rclass == CLASS_IN && IsSvcb(r.rtype) ==> SvcbHints(q, r.start, r.end, pub) == SvcbHints(p, r.start, r.end, pub))
  }

  lemma {:induction false} LinksKept(p: Packet, q: Packet, records: seq<Record>, maximum: nat, pub: Address -> bool)
    requires forall i :: 0 <= i < |records| ==> ContentsKept(p, q, records[i], pub)
    requires LinksOf(p, records).Some?
    ensures LinksOf(q, RetimedAll(records, maximum)) == Some(CappedLinks(LinksOf(p, records).value, maximum))
  {
    hide DecodeName, SvcbHints;
    if records != [] {
      var front, r := records[..|records| - 1], records[|records| - 1];
      LinksKept(p, q, front, maximum, pub);
      assert RetimedAll(records, maximum)[..|front|] == RetimedAll(front, maximum);
      assert ContentsKept(p, q, records[|records| - 1], pub);
      var links := LinksOf(p, front).value;
      if IsLink(r) {
        var s := Retimed(r, maximum);
        assert Target(q, s) == Target(p, r);
        AddLinkCapped(links, r.owner, Target(p, r), r.ttl, maximum);
      }
    }
  }

  lemma AddLinkCapped(links: map<string, Link>, owner: string, target: string, ttl: nat, maximum: nat)
    requires AddLink(links, owner, target, ttl).Some?
    ensures AddLink(CappedLinks(links, maximum), owner, target, Min(ttl, maximum))
            == Some(CappedLinks(AddLink(links, owner, target, ttl).value, maximum))
  {
    var added := AddLink(CappedLinks(links, maximum), owner, target, Min(ttl, maximum));
    assert owner in links ==> Min(Min(ttl, maximum), Min(links[owner].ttl, maximum)) == Min(Min(ttl, links[owner].ttl), maximum);
    assert added.value == CappedLinks(AddLink(links, owner, target, ttl).value, maximum);
  }

  lemma {:induction false} ChaseKept(links: map<string, Link>, maximum: nat, name: string, k: nat)
    ensures Iter(Hop(CappedLinks(links, maximum)), name, k) == Iter(Hop(links), name, k)
    ensures AliasTtls(CappedLinks(links, maximum), name, k) == CappedTtls(AliasTtls(links, name, k), maximum)
  {
    if k > 0 {
      ChaseKept(links, maximum, name, k - 1);
      var before := AliasTtls(links, name, k - 1);
      match Iter(Hop(links), name, k - 1) {
        case None =>
        case Some(x) =>
          if x in links {
            assert CappedTtls(before + [links[x].ttl], maximum) == CappedTtls(before, maximum) + [Min(links[x].ttl, maximum)];
          }
      }
    }
  }

  lemma ContributionKept(p: Packet, q: Packet, r: Record, maximum: nat, qtype: nat, owner: string, pub: Address -> bool)
    requires ContentsKept(p, q, r, pub)
    ensures Contribution(q, Retimed(r, maximum), qtype, owner, pub) == Contribution(p, r, qtype, owner, pub)
    ensures Contribution(p, r, qtype, owner, pub) != [] && AllowedType(qtype) ==> Retimed(r, maximum).ttl == Min(r.ttl, maximum)
  {
    hide SvcbHints, DecodeName;
  }

  lemma {:induction false} GatherKept(p: Packet, q: Packet, records: seq<Record>, maximum: nat, qtype: nat, owner: string, pub: Address -> bool)
    requires AllowedType(qtype) && forall i :: 0 <= i < |records| ==> ContentsKept(p, q, records[i], pub)
    ensures Gather(q, RetimedAll(records, maximum), qtype, owner, pub) == Gather(p, records, qtype, owner, pub)
    ensures GatherTtls(q, RetimedAll(records, maximum), qtype, owner, pub) == CappedTtls(GatherTtls(p, records, qtype, owner, pub), maximum)
  {
    hide ContentsKept, Contribution, Retimed;
    if records != [] {
      var front, r := records[..|records| - 1], records[|records| - 1];
      GatherKept(p, q, front, maximum, qtype, owner, pub);
      assert RetimedAll(records, maximum)[..|front|] == RetimedAll(front, maximum);
      assert ContentsKept(p, q, records[|records| - 1], pub);
      ContributionKept(p, q, r, maximum, qtype, owner, pub);
      var ttls, more := GatherTtls(p, front, qtype, owner, pub), |Contribution(p, r, qtype, owner, pub)|;
      assert CappedTtls(ttls + Repeat(r.ttl, more), maximum) == CappedTtls(ttls, maximum) + Repeat(Min(r.ttl, maximum), more);
    }
  }

  lemma {:induction false} MinOfCapped(s: seq<nat>, maximum: nat)
    requires s != []
    ensures MinOf(CappedTtls(s, maximum)) == Min(MinOf(s), maximum)
  {
    if |s| > 1 {
      MinOfCapped(s[..|s| - 1], maximum);
      assert CappedTtls(s, maximum)[..|s| - 1] == CappedTtls(s[..|s| - 1], maximum);
    }
  }

  // ---- the main results ----

  /** The judgement of the rewritten records is the old one with a capped time-to-live. */
  lemma MeaningKept(p: Packet, q: Packet, o: nat, records: seq<Record>, maximum: nat, name: string, qtype: nat, pub: Address -> bool)
    requires Rewritten(p, q, o, records, maximum) && AllowedType(qtype)
    requires RecordsMeaning(p, records, name, qtype, pub).Some?
    ensures var answer := RecordsMeaning(p, records, name, qtype, pub).value;
            RecordsMeaning(q, RetimedAll(records, maximum), name, qtype, pub)
            == Some(answer.(ttl := Min(answer.ttl, maximum)))
  {
    hide Rewritten, WellFormed, LinksOf, Gather, GatherTtls, AliasTtls, MinOf, Distinct, AllowedType, Retimed, Iter;
    var later := RetimedAll(records, maximum);
    var n := ChaseStep(p, records, name, qtype, pub);
    var links := LinksOf(p, records).value;
    forall i | 0 <= i < |records| ensures ContentsKept(p, q, records[i], pub) && WellFormed(q, later[i], pub) {
      assert WellFormed(p, records[i], pub);
      KeptAt(p, q, o, records, maximum, i, pub);
    }
    LinksKept(p, q, records, maximum, pub);
    ChaseKeptStops(links, maximum, name, n);
    var owner := Iter(Hop(links), name, n).value;
    GatherKept(p, q, records, maximum, qtype, owner, pub);
    assert AllWellFormed(q, later, pub);
    assert RecordsMeaning(q, later, name, qtype, pub).Some?;
    var m := ChaseStep(q, later, name, qtype, pub);
    StopsOnce(Hop(CappedLinks(links, maximum)), name, m, n);
    ChaseKept(links, maximum, name, n);
    GatherExact(p, records, qtype, owner, pub);
    if Gather(p, records, qtype, owner, pub) != [] {
      TtlKept(AliasTtls(links, name, n), GatherTtls(p, records, qtype, owner, pub), maximum);
    }
  }

  lemma KeptAt(p: Packet, q: Packet, o: nat, records: seq<Record>, maximum: nat, i: nat, pub: Address -> bool)
    requires Rewritten(p, q, o, records, maximum) && i < |records| && WellFormed(p, records[i], pub)
    ensures ContentsKept(p, q, records[i], pub) && WellFormed(q, Retimed(records[i], maximum), pub)
  {
    hide Rewritten, DecodeName, SvcbHints;
    PayloadKept(p, q, o, records, maximum, i, pub);
  }

  lemma ChaseKeptStops(links: map<string, Link>, maximum: nat, name: string, n: nat)
    requires Stops(Hop(links), name, n)
    ensures Stops(Hop(CappedLinks(links, maximum)), name, n)
  {
    ChaseKept(links, maximum, name, n);
  }

  lemma TtlKept(aliases: seq<nat>, addresses: seq<nat>, maximum: nat)
    requires addresses != []
    ensures MinOf(CappedTtls(aliases, maximum) + CappedTtls(addresses, maximum)) == Min(MinOf(aliases + addresses), maximum)
  {
    MinOfCapped(aliases + addresses, maximum);
    assert CappedTtls(aliases + addresses, maximum) == CappedTtls(aliases, maximum) + CappedTtls(addresses, maximum);
  }

  lemma BeforeRecords(p: Packet, o: nat, records: seq<Record>, x: nat)
    requires Contiguous(p, o, records) && x < o
    ensures !InTtl(records, x)
  {
    if i :| 0 <= i < |records| && OwnTtl(records[i], x) {
      RecordsInOrder(p, o, records, i, i);
    }
  }

  lemma QuestionKept(p: Packet, q: Packet, o: nat, records: seq<Record>)
    requires |q| == |p| && Contiguous(p, o, records) && QuestionAt(p).Some? && o == QuestionAt(p).value.end
    requires forall x :: 0 <= x < |p| && !Edited(records, x) ==> q[x] == p[x]
    ensures QuestionAt(q) == QuestionAt(p) && SameOn(p, q, 2, o)
  {
    hide PlainNameAt, InTtl;
    forall x | 2 <= x < o ensures q[x] == p[x] {
      BeforeRecords(p, o, records, x);
    }
    PlainAgreesWithDecode(p, HEADER_SIZE);
    PlainFrame(p, q, HEADER_SIZE);
    assert U16(q, 4) == U16(p, 4);
  }

  lemma RecordsAreTheirOwn(p: Packet)
    requires |p| >= HEADER_SIZE && QuestionAt(p).Some? && AllRecords(p).Some?
    ensures var o, records := QuestionAt(p).value.end, AllRecords(p).value;
            && o >= HEADER_SIZE && Contiguous(p, o, records) && EndOf(o, records) == |p|
            && forall i :: 0 <= i < |records| ==> InPacket(p, records[i]) && records[i].ttl == U32(p, TtlOffset(records[i]))
  {
    hide RecordsTo, U32;
    PlainAgreesWithDecode(p, HEADER_SIZE);
    RecordTtls(p, QuestionAt(p).value.end, U16(p, 6) + U16(p, 8) + U16(p, 10), U16(p, 6), U16(p, 8));
  }

  /** A rewritten response is accepted for any query with the same question and
      ID, with the same answer under the capped time-to-live. */
  lemma RewriteAccepted(query: Packet, renewed: Packet, p: Packet, q: Packet, maximum: nat, pub: Address -> bool)
    requires ResponseMeaning(query, p, pub).Some?
    requires QueryMeaning(renewed).Some? && |q| >= 2 && q[..2] == renewed[..2]
    requires QueryMeaning(renewed).value.name == QueryMeaning(query).value.name
    requires QueryMeaning(renewed).value.qtype == QueryMeaning(query).value.qtype
    requires Rewritten(p, q, QuestionAt(p).value.end, AllRecords(p).value, maximum)
    ensures var answer := ResponseMeaning(query, p, pub).value;
            && QuestionAt(q) == QuestionAt(p)
            && AllRecords(q) == Some(RetimedAll(AllRecords(p).value, maximum))
            && ResponseMeaning(renewed, q, pub) == Some(answer.(ttl := Min(answer.ttl, maximum)))
  {
    hide QueryMeaning, QuestionAt, RecordsMeaning, RecordsTo, NamesClear, Retimed, Edited;
    var o, records := QuestionAt(p).value.end, AllRecords(p).value;
    AcceptedType(query);
    AcceptedType(renewed);
    QuestionKept(p, q, o, records);
    SameHeader(p, q, o);
    RecordsKept(p, q, o, U16(p, 6) + U16(p, 8) + U16(p, 10), U16(p, 6), U16(p, 8), records, maximum);
    assert EndOf(o, RetimedAll(records, maximum)) == EndOf(o, records) by { RetimedEnd(o, records, maximum); }
    MeaningKept(p, q, o, records, maximum, QueryMeaning(query).value.name, QueryMeaning(query).value.qtype, pub);
  }

  lemma SameHeader(p: Packet, q: Packet, o: nat)
    requires o >= HEADER_SIZE && SameOn(p, q, 2, o)
    ensures U16(q, 2) == U16(p, 2) && U16(q, 6) == U16(p, 6) && U16(q, 8) == U16(p, 8) && U16(q, 10) == U16(p, 10)
  {
  }

  lemma RetimedEnd(o: nat, records: seq<Record>, maximum: nat)
    ensures EndOf(o, RetimedAll(records, maximum)) == EndOf(o, records)
  {
  }

  /** The response of a cache entry under the ID of a new query. */
  function WithId(renewed: Packet, p: Packet): (q: Packet)
    requires |renewed| >= 2 && |p| >= 2
    ensures |q| == |p|
  {
    renewed[..2] + p[2..]
  }

  const NO_CAP: nat := 0x1_0000_0000

  lemma UncappedIsSame(records: seq<Record>)
    requires forall i :: 0 <= i < |records| ==> records[i].ttl < NO_CAP
    ensures RetimedAll(records, NO_CAP) == records
  {
  }

  lemma WithIdRewrites(renewed: Packet, p: Packet)
    requires |renewed| >= 2 && |p| >= HEADER_SIZE && QuestionAt(p).Some? && AllRecords(p).Some?
    requires NamesClear(p, AllRecords(p).value)
    ensures Rewritten(p, WithId(renewed, p), QuestionAt(p).value.end, AllRecords(p).value, NO_CAP)
    ensures RetimedAll(AllRecords(p).value, NO_CAP) == AllRecords(p).value
  {
    hide QuestionAt, AllRecords, NamesClear;
    var o, records, q := QuestionAt(p).value.end, AllRecords(p).value, WithId(renewed, p);
    RecordsAreTheirOwn(p);
    forall i | 0 <= i < |records|
      ensures InPacket(p, records[i]) && U32(q, TtlOffset(records[i])) == Retimed(records[i], NO_CAP).ttl
    {
      RecordsInOrder(p, o, records, i, i);
    }
    UncappedIsSame(records);
  }

  lemma FieldValue(q: Packet, at: nat, v: nat)
    requires at + 4 <= |q| && v < NO_CAP && q[at..at + 4] == Put32(v)
    ensures U32(q, at) == v
  {
    var field := q[at..at + 4];
    assert field[0] == q[at] && field[1] == q[at + 1] && field[2] == q[at + 2] && field[3] == q[at + 3];
  }

  lemma CappedField(p: Packet, q: Packet, o: nat, records: seq<Record>, maximum: nat, i: nat)
    requires Contiguous(p, o, records) && i < |records| && |q| == |p| && o >= HEADER_SIZE
    requires InPacket(p, records[i]) && records[i].ttl == U32(p, TtlOffset(records[i]))
    requires forall x :: 2 <= x < |p| && !InTtl(records, x) ==> q[x] == p[x]
    requires records[i].rtype != TYPE_OPT ==>
               q[records[i].start - 6..records[i].start - 2] == Put32(Min(records[i].ttl, maximum))
    ensures U32(q, TtlOffset(records[i])) == Retimed(records[i], maximum).ttl
  {
    hide Put32, InTtl;
    RecordsInOrder(p, o, records, i, i);
    var at := records[i].start - 6;
    if records[i].rtype == TYPE_OPT {
      forall x | at <= x < at + 4 ensures q[x] == p[x] {
        if InTtl(records, x) {
          TtlOwner(p, o, records, i, x);
        }
      }
    } else {
      FieldValue(q, at, Min(records[i].ttl, maximum));
    }
  }

  lemma CappingRewrites(renewed: Packet, p: Packet, maximum: nat)
    requires |renewed| >= 2 && |p| >= HEADER_SIZE && QuestionAt(p).Some? && AllRecords(p).Some?
    requires NamesClear(p, AllRecords(p).value)
    ensures var o, records := QuestionAt(p).value.end, AllRecords(p).value;
            && (forall i :: 0 <= i < |records| ==> InPacket(WithId(renewed, p), records[i]) && records[i].ttl < NO_CAP)
            && Rewritten(p, Capped(WithId(renewed, p), records, maximum), o, records, maximum)
            && Capped(WithId(renewed, p), records, maximum)[..2] == renewed[..2]
  {
    hide QuestionAt, AllRecords, NamesClear, Put32, Capped, U32, InTtl;
    var o, records, p1 := QuestionAt(p).value.end, AllRecords(p).value, WithId(renewed, p);
    RecordsAreTheirOwn(p);
    assert Contiguous(p1, o, records) by {
      forall i | 0 <= i < |records| ensures Placed(p1, o, records, i) {
        assert Placed(p, o, records, i);
      }
    }
    CappedExact(p1, o, records, maximum);
    var q := Capped(p1, records, maximum);
    forall i | 0 <= i < |records|
      ensures InPacket(p, records[i]) && U32(q, TtlOffset(records[i])) == Retimed(records[i], maximum).ttl
    {
      CappedField(p, q, o, records, maximum, i);
    }
    forall x | 0 <= x < 2 ensures q[x] == renewed[x] {
      BeforeRecords(p, o, records, x);
    }
    assert q[..2] == renewed[..2];
  }

  /** The cached fallback: when no decoded name reads an ID or time-to-live octet,
      an accepted response with its ID replaced and its time-to-live values capped
      is still accepted, for every query asking the same, with the same name, type
      and addresses; only the time-to-live shrinks, and only ID and non-OPT
      time-to-live octets change. */
  lemma FallbackKeepsMeaning(query: Packet, renewed: Packet, p: Packet, maximum: nat, pub: Address -> bool)
    requires ResponseMeaning(query, p, pub).Some? && QueryMeaning(renewed).Some?
    requires QueryMeaning(renewed).value.name == QueryMeaning(query).value.name
    requires QueryMeaning(renewed).value.qtype == QueryMeaning(query).value.qtype
    requires NamesClear(p, AllRecords(p).value)
    ensures |renewed| >= 2
    ensures var answer, p1 := ResponseMeaning(query, p, pub).value, WithId(renewed, p);
            && ResponseMeaning(renewed, p1, pub) == Some(answer)
            && CapMeaning(p1, maximum).Some?
            && var p2 := CapMeaning(p1, maximum).value;
               && |p2| == |p|
               && (forall x :: 0 <= x < |p| && !Edited(AllRecords(p).value, x) ==> p2[x] == p[x])
               && ResponseMeaning(renewed, p2, pub) == Some(answer.(ttl := Min(answer.ttl, maximum)))
  {
    hide QuestionAt, RecordsMeaning, RecordsTo, NamesClear, WithId, Capped, U32, InTtl;
    AcceptedType(renewed);
    var records, p1 := AllRecords(p).value, WithId(renewed, p);
    assert p1[..2] == renewed[..2] by { WithIdPrefix(renewed, p); }
    WithIdRewrites(renewed, p);
    RewriteAccepted(query, renewed, p, p1, NO_CAP, pub);
    AnswerTtlFits(query, p, pub);
    CappingRewrites(renewed, p, maximum);
    var p2 := Capped(p1, records, maximum);
    assert CapMeaning(p1, maximum) == Some(p2);
    RewriteAccepted(query, renewed, p, p2, maximum, pub);
  }

  lemma WithIdPrefix(renewed: Packet, p: Packet)
    requires |renewed| >= 2 && |p| >= 2
    ensures WithId(renewed, p)[..2] == renewed[..2]
  {
  }

  lemma AnswerTtlFits(query: Packet, p: Packet, pub: Address -> bool)
    requires ResponseMeaning(query, p, pub).Some?
    ensures ResponseMeaning(query, p, pub).value.ttl < NO_CAP
  {
    hide RecordsTo, RecordsMeaning, QuestionAt, U32;
    var path := AcceptedResponseGrants(query, p, pub);
    RecordsAreTheirOwn(p);
    TtlBelow(p, AllRecords(p).value, pub, path, ResponseMeaning(query, p, pub).value);
  }

  lemma TtlBelow(p: Packet, records: seq<Record>, pub: Address -> bool, path: seq<string>, answer: Answer)
    requires Grants(p, records, pub, path, answer)
    requires forall i :: 0 <= i < |records| ==> InPacket(p, records[i]) && records[i].ttl == U32(p, TtlOffset(records[i]))
    ensures answer.ttl < NO_CAP
  {
    hide Contribution, IsLink;
    if answer.addresses != [] {
      var i :| 0 <= i < |records| && Used(p, records[i], answer.qtype, path, pub) && answer.ttl == records[i].ttl;
    }
  }
}
