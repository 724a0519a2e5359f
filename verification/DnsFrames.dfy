/** Which octets make an acceptable query, question, record and response, and
    which octets the gateway's own responses are. */
module DnsFrames {
  import opened Wire
  import opened Chains
  import opened DnsNames
  import opened DnsText
  import opened DnsMessages
  import opened DnsAnswers
  import opened DnsBuild

  lemma OctetsAreBigEndian(p: Packet, o: nat)
    ensures o + 2 <= |p| ==> U16(p, o) == p[o] as int * 256 + p[o + 1] as int
    ensures o + 4 <= |p| ==>
              U32(p, o) == ((p[o] as int * 256 + p[o + 1] as int) * 256 + p[o + 2] as int) * 256 + p[o + 3] as int
  {
  }

  // ---- questions ----

  /** The question is read exactly where QDCOUNT is one and a non-empty
      uncompressed name with its type and class stands after the header. */
  lemma QuestionExact(p: Packet, q: Question)
    ensures QuestionAt(p) == Some(q) <==>
            && 12 <= q.end - 5 && q.end <= |p| && p[4] == 0 && p[5] == 1
            && q.qtype == U16(p, q.end - 4) && q.qclass == U16(p, q.end - 2)
            && exists labels :: GoodLabels(labels) && 1 <= |labels| <= 127 && p[12..q.end - 4] == Encode(labels) && q.name == Text(labels)
  {
    hide PlainNameAt, Text, Encode;
    if QuestionAt(p) == Some(q) {
      var name := PlainNameAt(p, 12).value;
      PlainNameExact(p, 12, name.labels, name.next);
      QuestionEnd(p);
      if name.labels == [] {
        EmptyText();
      }
    }
    if 12 <= q.end - 5 && q.end <= |p| && p[4] == 0 && p[5] == 1 {
      forall labels | GoodLabels(labels) && 1 <= |labels| <= 127 && p[12..q.end - 4] == Encode(labels) && q.name == Text(labels)
                      && q.qtype == U16(p, q.end - 4) && q.qclass == U16(p, q.end - 2)
        ensures QuestionAt(p) == Some(q)
      {
        PlainNameExact(p, 12, labels, q.end - 4);
        TextNotEmpty(labels);
      }
    }
  }

  // ---- queries ----

  lemma FlagOctets(p: Packet)
    requires |p| >= 4
    ensures IsResponse(U16(p, 2)) <==> p[2] >= 128
    ensures Opcode(U16(p, 2)) == p[2] / 8 % 16
    ensures Truncated(U16(p, 2)) <==> p[2] / 2 % 2 == 1
    ensures ReservedZ(U16(p, 2)) <==> p[3] / 64 % 2 == 1
    ensures Rcode(U16(p, 2)) == p[3] % 16
  {
    HighOctet(p[2], p[3]);
    MiddleOctet(p[2], p[3]);
    ZOctet(p[2], p[3]);
    LowOctet(p[2], p[3]);
  }

  lemma HighOctet(high: Byte, low: Byte)
    ensures var flags := high as int * 256 + low as int; (IsResponse(flags) <==> high >= 128) && Opcode(flags) == high / 8 % 16
  {
  }

  lemma MiddleOctet(high: Byte, low: Byte)
    ensures Truncated(high as int * 256 + low as int) <==> high / 2 % 2 == 1
  {
  }

  lemma ZOctet(high: Byte, low: Byte)
    ensures ReservedZ(high as int * 256 + low as int) <==> low / 64 % 2 == 1
  {
  }

  lemma LowOctet(high: Byte, low: Byte)
    ensures Rcode(high as int * 256 + low as int) == low % 16
  {
  }

  /** One additional record: a root owner, type 41, a size from 512 to 4096, no
      extended code or version, at most the DO flag, and no options. */
  predicate EmptyOptOctets(p: Packet, o: nat) {
    && |p| == o + 11 && p[o] == 0 && p[o + 1] == 0 && p[o + 2] == 41
    && 512 <= p[o + 3] as int * 256 + p[o + 4] as int <= 4096
    && p[o + 5] == 0 && p[o + 6] == 0 && (p[o + 7] == 0 || p[o + 7] == 128) && p[o + 8] == 0
    && p[o + 9] == 0 && p[o + 10] == 0
  }

  lemma OptExact(p: Packet, o: nat)
    ensures IsEmptyOpt(p, o) <==> EmptyOptOctets(p, o)
  {
  }

  /** A query is acceptable exactly when its question is class-IN A, AAAA, SVCB or
      HTTPS, its flags say query and opcode zero, it has no answers or authorities,
      and it ends after the question or one empty EDNS record. */
  lemma QueryExact(p: Packet, q: Question)
    ensures QueryMeaning(p) == Some(q) <==>
            && QuestionAt(p) == Some(q)
            && (q.qtype == 1 || q.qtype == 28 || q.qtype == 64 || q.qtype == 65) && q.qclass == 1
            && p[2] <= 7 && p[6] == 0 && p[7] == 0 && p[8] == 0 && p[9] == 0 && p[10] == 0
            && ((p[11] == 0 && q.end == |p|) || (p[11] == 1 && EmptyOptOctets(p, q.end)))
  {
    hide QuestionAt, IsEmptyOpt, EmptyOptOctets;
    OptExact(p, q.end);
    if QuestionAt(p) == Some(q) {
      FlagOctets(p);
      assert p[2] < 128 && p[2] / 8 % 16 == 0 <==> p[2] <= 7;
    }
  }

  // ---- records ----

  /** A record is its owner name, type, class, time-to-live, length and payload, one after the other. */
  lemma RecordExact(p: Packet, o: nat, r: Record)
    ensures RecordAt(p, o, r.section) == Some(r) <==>
            && r.at == o && r.start >= 10 && DecodeName(p, o) == Some(Name(r.owner, r.start - 10))
            && r.start <= r.end <= |p|
            && r.rtype == U16(p, r.start - 10) && r.rclass == U16(p, r.start - 8) && r.ttl == U32(p, r.start - 6)
            && r.end - r.start == U16(p, r.start - 2)
  {
    hide DecodeName, U16, U32;
  }

  /** Record `i` of a message with these counts belongs to the answers, the authorities or the additional records. */
  function SectionFor(i: nat, p: Packet): Section
    requires |p| >= 12
  {
    var answers, authorities := p[6] as int * 256 + p[7] as int, p[8] as int * 256 + p[9] as int;
    if i < answers then AnswerSection else if i < answers + authorities then AuthoritySection else AdditionalSection
  }

  /** Record `i` starts where the one before ends, the first after the question. */
  ghost function StartOf(p: Packet, records: seq<Record>, i: nat): nat
    requires QuestionAt(p).Some? && i < |records|
  {
    if i == 0 then QuestionAt(p).value.end else records[i - 1].end
  }

  /** Record `i` is read there, in the section its place says. */
  ghost predicate StandsIn(p: Packet, records: seq<Record>, i: nat)
    requires |p| >= 12 && QuestionAt(p).Some? && i < |records|
  {
    RecordAt(p, StartOf(p, records, i), SectionFor(i, p)) == Some(records[i])
  }

  ghost predicate ReadAt(p: Packet, o: nat, answers: nat, authorities: nat, records: seq<Record>, i: nat)
    requires i < |records|
  {
    RecordAt(p, if i == 0 then o else records[i - 1].end, SectionOf(i, answers, authorities)) == Some(records[i])
  }

  ghost predicate LaidOut(p: Packet, o: nat, k: nat, answers: nat, authorities: nat, records: seq<Record>) {
    |records| == k && forall i :: 0 <= i < k ==> ReadAt(p, o, answers, authorities, records, i)
  }

  lemma {:induction false} RecordsToExact(p: Packet, o: nat, k: nat, answers: nat, authorities: nat, records: seq<Record>)
    ensures RecordsTo(p, o, k, answers, authorities) == Some(records) <==> LaidOut(p, o, k, answers, authorities, records)
    decreases k
  {
    hide RecordAt, SectionOf, LaidOut;
    if k == 0 {
      assert LaidOut(p, o, 0, answers, authorities, records) <==> records == [] by { NothingLaidOut(p, o, answers, authorities, records); }
    } else if records != [] {
      var front, last := records[..|records| - 1], records[|records| - 1];
      RecordsToExact(p, o, k - 1, answers, authorities, front);
      LaidOutSnoc(p, o, k, answers, authorities, front, last);
      assert records == front + [last];
      if RecordsTo(p, o, k, answers, authorities) == Some(records) {
        assert RecordsTo(p, o, k - 1, answers, authorities).value == front;
      }
    } else {
      NotLaidOut(p, o, k, answers, authorities);
    }
  }

  lemma NothingLaidOut(p: Packet, o: nat, answers: nat, authorities: nat, records: seq<Record>)
    ensures LaidOut(p, o, 0, answers, authorities, records) <==> records == []
  {
  }

  lemma NotLaidOut(p: Packet, o: nat, k: nat, answers: nat, authorities: nat)
    requires k > 0
    ensures !LaidOut(p, o, k, answers, authorities, [])
  {
  }

  lemma LaidOutSnoc(p: Packet, o: nat, k: nat, answers: nat, authorities: nat, front: seq<Record>, last: Record)
    requires k > 0
    ensures LaidOut(p, o, k, answers, authorities, front + [last]) <==>
            LaidOut(p, o, k - 1, answers, authorities, front)
            && RecordAt(p, EndOf(o, front), SectionOf(k - 1, answers, authorities)) == Some(last)
  {
    hide RecordAt, SectionOf;
    var records := front + [last];
    if |records| == k {
      forall i | 0 <= i < k - 1 ensures ReadAt(p, o, answers, authorities, records, i) <==> ReadAt(p, o, answers, authorities, front, i) {
        assert records[i] == front[i] && (i > 0 ==> records[i - 1] == front[i - 1]);
      }
      assert ReadAt(p, o, answers, authorities, records, k - 1)
        <==> RecordAt(p, EndOf(o, front), SectionOf(k - 1, answers, authorities)) == Some(last);
    }
  }

  /** The records of a message are exactly as many as its three counts say, each
      starting where the one before ends and in the section its place says, from the
      end of the question to the end of the message. */
  lemma AllRecordsExact(p: Packet, records: seq<Record>)
    requires |p| >= 12 && QuestionAt(p).Some?
    ensures AllRecords(p) == Some(records) <==>
            && |records| == U16(p, 6) + U16(p, 8) + U16(p, 10)
            && (forall i :: 0 <= i < |records| ==> StandsIn(p, records, i))
            && |p| == if records == [] then QuestionAt(p).value.end else records[|records| - 1].end
  {
    hide RecordAt, QuestionAt, RecordsTo, SectionFor, SectionOf, U16;
    var o, k := QuestionAt(p).value.end, U16(p, 6) + U16(p, 8) + U16(p, 10);
    RecordsToExact(p, o, k, U16(p, 6), U16(p, 8), records);
    forall i | 0 <= i < |records| ensures StandsIn(p, records, i) <==> ReadAt(p, o, U16(p, 6), U16(p, 8), records, i) {
      SectionIs(i, p);
    }
  }

  lemma SectionIs(i: nat, p: Packet)
    requires |p| >= 12
    ensures SectionFor(i, p) == SectionOf(i, U16(p, 6), U16(p, 8))
  {
  }

  /** What makes a class-IN record acceptable, by its type. */
  lemma WellFormedExact(p: Packet, r: Record, pub: Address -> bool)
    ensures WellFormed(p, r, pub) <==>
            && r.at + 10 < r.start <= r.end <= |p|
            && (r.rclass == 1 && r.rtype == 1 ==> r.end - r.start == 4 && pub(p[r.start..r.end]))
            && (r.rclass == 1 && r.rtype == 28 ==> r.end - r.start == 16 && pub(p[r.start..r.end]))
            && (r.rclass == 1 && r.rtype == 5 ==> DecodeName(p, r.start).Some? && DecodeName(p, r.start).value.next == r.end)
            && (r.rclass == 1 && (r.rtype == 64 || r.rtype == 65) ==> SvcbHints(p, r.start, r.end, pub).Some?)
  {
    hide DecodeName, SvcbHints;
  }

  /** What an answer record adds to the addresses of a query. */
  lemma ContributionExact(p: Packet, r: Record, qtype: nat, owner: string, pub: Address -> bool)
    requires WellFormed(p, r, pub)
    ensures Contribution(p, r, qtype, owner, pub) ==
            if r.section != AnswerSection || r.rclass != 1 || r.owner != owner then []
            else if (qtype == 1 && r.rtype == 1) || (qtype == 28 && r.rtype == 28) then [p[r.start..r.end]]
            else if (qtype == 64 || qtype == 65) && (r.rtype == 64 || r.rtype == 65) then SvcbHints(p, r.start, r.end, pub).value
            else []
  {
    hide DecodeName, SvcbHints;
  }

  /** Addresses are gathered record by record, in order. */
  lemma GatherSnoc(p: Packet, records: seq<Record>, r: Record, qtype: nat, owner: string, pub: Address -> bool)
    ensures Gather(p, [], qtype, owner, pub) == []
    ensures Gather(p, records + [r], qtype, owner, pub) ==
            Gather(p, records, qtype, owner, pub) + Contribution(p, r, qtype, owner, pub)
  {
    hide Contribution;
    assert (records + [r])[..|records|] == records;
  }

  // ---- responses ----

  /** The ID of the query; a response with opcode, TC, Z and RCODE zero. */
  predicate HeaderOctets(query: Packet, response: Packet) {
    && |query| >= 2 && 12 <= |response| <= 65535
    && response[0] == query[0] && response[1] == query[1]
    && response[2] in {0x80, 0x81, 0x84, 0x85}
    && response[3] in {0x00, 0x10, 0x20, 0x30, 0x80, 0x90, 0xA0, 0xB0}
  }

  /** The aliases lead from the name into a cycle. */
  ghost predicate AliasCycle(p: Packet, records: seq<Record>, name: string) {
    LinksOf(p, records).Some? && Cycles(LinksOf(p, records).value, name)
  }

  /** A response is accepted exactly when its header is acceptable; its question has
      the query's name, type and class; its records fill it and are well formed; and
      its aliases neither compete nor lead from the query name into a cycle. */
  lemma ResponseExact(query: Packet, response: Packet, pub: Address -> bool)
    ensures ResponseMeaning(query, response, pub).Some? <==>
            && QueryMeaning(query).Some? && HeaderOctets(query, response)
            && QuestionAt(response).Some? && AllRecords(response).Some?
            && var q, r, records := QueryMeaning(query).value, QuestionAt(response).value, AllRecords(response).value;
               && r.name == q.name && r.qtype == q.qtype && r.qclass == q.qclass
               && (forall i :: 0 <= i < |records| ==> WellFormed(response, records[i], pub))
               && !Competing(response, records) && !AliasCycle(response, records, q.name)
  {
    hide QueryMeaning, QuestionAt, AllRecords, RecordsMeaning, Competing, Cycles, LinksOf, WellFormed, HeaderOctets, FrameMatches;
    if QueryMeaning(query).Some? {
      AcceptedType(query);
      HeaderExact(query, QueryMeaning(query).value, response);
      if |response| >= 12 && QuestionAt(response).Some? && AllRecords(response).Some? {
        var q, records := QueryMeaning(query).value, AllRecords(response).value;
        AliasesExact(response, records);
        if AllWellFormed(response, records, pub) {
          RejectionExact(response, records, q.name, q.qtype, pub);
        } else {
          IllFormed(response, records, q.name, q.qtype, pub);
        }
      }
    }
  }

  lemma IllFormed(p: Packet, records: seq<Record>, name: string, qtype: nat, pub: Address -> bool)
    requires !AllWellFormed(p, records, pub)
    ensures RecordsMeaning(p, records, name, qtype, pub).None?
  {
  }

  lemma HeaderExact(query: Packet, q: Question, r: Packet)
    requires |query| >= 2
    ensures FrameMatches(query, q, r) <==>
            && HeaderOctets(query, r) && QuestionAt(r).Some? && QuestionAt(r).value.name == q.name
            && QuestionAt(r).value.qtype == q.qtype && QuestionAt(r).value.qclass == q.qclass
    ensures HeaderOctets(query, r) ==> |r| >= 12
  {
    hide QuestionAt, U16, IsResponse, Opcode, Truncated, ReservedZ, Rcode;
    if |r| >= 12 {
      FlagOctets(r);
      HighFlags(r[2]);
      LowFlags(r[3]);
      assert r[..2] == [r[0], r[1]] && query[..2] == [query[0], query[1]];
    }
  }

  lemma HighFlags(b: Byte)
    ensures b >= 128 && b / 8 % 16 == 0 && b / 2 % 2 == 0 <==> b in {0x80, 0x81, 0x84, 0x85}
  {
  }

  lemma LowFlags(b: Byte)
    ensures b / 64 % 2 == 0 && b % 16 == 0 <==> b in {0x00, 0x10, 0x20, 0x30, 0x80, 0x90, 0xA0, 0xB0}
  {
  }

  // ---- service parameters ----

  datatype Param = Param(key: nat, value: seq<Byte>)

  predicate Fits(params: seq<Param>) {
    forall i :: 0 <= i < |params| ==> params[i].key < 0x1_0000 && |params[i].value| < 0x1_0000
  }

  /** Each parameter is its key, the length of its value and the value. */
  function EncodeParams(params: seq<Param>): seq<Byte>
    requires Fits(params)
  {
    if params == [] then []
    else Put16(params[0].key) + Put16(|params[0].value|) + params[0].value + EncodeParams(params[1..])
  }

  /** IPv4 hints are cut every 4 octets. */
  lemma {:induction false} ChunksOf4(s: seq<Byte>, i: nat)
    requires |s| % 4 == 0 && 4 * i < |s|
    ensures 4 * |Chunks(s, 4)| == |s| && Chunks(s, 4)[i] == s[4 * i..4 * i + 4]
    decreases |s|
  {
    if |s| == 4 {
      assert Chunks(s[4..], 4) == [];
    } else {
      ChunksOf4(s[4..], if i == 0 then 0 else i - 1);
      assert i > 0 ==> s[4..][4 * (i - 1)..4 * (i - 1) + 4] == s[4 * i..4 * i + 4];
    }
  }

  /** IPv6 hints are cut every 16 octets. */
  lemma {:induction false} ChunksOf16(s: seq<Byte>, i: nat)
    requires |s| % 16 == 0 && 16 * i < |s|
    ensures 16 * |Chunks(s, 16)| == |s| && Chunks(s, 16)[i] == s[16 * i..16 * i + 16]
    decreases |s|
  {
    if |s| == 16 {
      assert Chunks(s[16..], 16) == [];
    } else {
      ChunksOf16(s[16..], if i == 0 then 0 else i - 1);
      assert i > 0 ==> s[16..][16 * (i - 1)..16 * (i - 1) + 16] == s[16 * i..16 * i + 16];
    }
  }

  function ValueHints(param: Param): seq<Address> {
    if param.key == 4 then Chunks(param.value, 4) else if param.key == 6 then Chunks(param.value, 16) else []
  }

  /** An IPv4 hint holds whole 4-octet addresses, an IPv6 hint whole 16-octet ones, at least one and all public. */
  predicate GoodParam(param: Param, pub: Address -> bool) {
    && (param.key == 4 || param.key == 6 ==> param.value != [] && forall a :: a in ValueHints(param) ==> pub(a))
    && (param.key == 4 ==> |param.value| % 4 == 0)
    && (param.key == 6 ==> |param.value| % 16 == 0)
  }

  function HintsIn(params: seq<Param>): seq<Address> {
    if params == [] then [] else ValueHints(params[0]) + HintsIn(params[1..])
  }

  lemma ParamExact(param: Param, pub: Address -> bool)
    ensures ParamAddresses(param.key, param.value, pub) == if GoodParam(param, pub) then Some(ValueHints(param)) else None
  {
    hide Chunks;
  }

  /** Parameters are accepted exactly when the octets encode good parameters, and give their hints in order. */
  lemma {:induction false} ParamsExact(p: Packet, o: nat, end: nat, pub: Address -> bool, hints: seq<Address>)
    requires o <= end <= |p|
    ensures ParamHints(p, o, end, pub) == Some(hints) <==>
            exists params ::
              && Fits(params) && p[o..end] == EncodeParams(params)
              && (forall i :: 0 <= i < |params| ==> GoodParam(params[i], pub)) && hints == HintsIn(params)
    decreases end - o
  {
    hide GoodParam, ValueHints, ParamAddresses, U16, Put16;
    if ParamHints(p, o, end, pub) == Some(hints) {
      var params := ParamsFound(p, o, end, pub);
    }
    forall params | Fits(params) && p[o..end] == EncodeParams(params)
                    && (forall i :: 0 <= i < |params| ==> GoodParam(params[i], pub)) && hints == HintsIn(params)
      ensures ParamHints(p, o, end, pub) == Some(hints)
    {
      ParamsRead(p, o, end, pub, params);
    }
  }

  lemma {:induction false} ParamsFound(p: Packet, o: nat, end: nat, pub: Address -> bool) returns (params: seq<Param>)
    requires o <= end <= |p| && ParamHints(p, o, end, pub).Some?
    ensures Fits(params) && p[o..end] == EncodeParams(params)
    ensures (forall i :: 0 <= i < |params| ==> GoodParam(params[i], pub)) && ParamHints(p, o, end, pub) == Some(HintsIn(params))
    decreases end - o
  {
    hide GoodParam, ValueHints, ParamAddresses, Put16;
    if o == end {
      params := [];
    } else {
      var next := o + 4 + U16(p, o + 2);
      var rest := ParamsFound(p, next, end, pub);
      var first := Param(U16(p, o), p[o + 4..next]);
      ParamExact(first, pub);
      params := [first] + rest;
      assert params[1..] == rest;
      HeadOctets(p, o);
      assert p[o..end] == p[o..o + 2] + p[o + 2..o + 4] + p[o + 4..next] + p[next..end];
    }
  }

  lemma HeadOctets(p: Packet, o: nat)
    requires o + 4 <= |p|
    ensures p[o..o + 2] == Put16(U16(p, o)) && p[o + 2..o + 4] == Put16(U16(p, o + 2))
  {
  }

  lemma {:induction false} ParamsRead(p: Packet, o: nat, end: nat, pub: Address -> bool, params: seq<Param>)
    requires o <= end <= |p| && Fits(params) && p[o..end] == EncodeParams(params)
    requires forall i :: 0 <= i < |params| ==> GoodParam(params[i], pub)
    ensures ParamHints(p, o, end, pub) == Some(HintsIn(params))
    decreases |params|
  {
    hide GoodParam, ValueHints, ParamAddresses, U16, Put16;
    if params != [] {
      ParamOctets(p, o, end, params);
      var next := o + 4 + |params[0].value|;
      ParamExact(params[0], pub);
      ParamsRead(p, next, end, pub, params[1..]);
    }
  }

  lemma ParamOctets(p: Packet, o: nat, end: nat, params: seq<Param>)
    requires o <= end <= |p| && Fits(params) && params != [] && p[o..end] == EncodeParams(params)
    ensures var next := o + 4 + |params[0].value|;
            && next <= end && U16(p, o) == params[0].key && U16(p, o + 2) == |params[0].value|
            && p[o + 4..next] == params[0].value && Fits(params[1..]) && p[next..end] == EncodeParams(params[1..])
  {
    hide EncodeParams;
    var s, v := p[o..end], params[0].value;
    var k, n, rest := Put16(params[0].key), Put16(|v|), EncodeParams(params[1..]);
    assert s == k + n + v + rest by { EncodedHead(params); }
    assert s[0] == k[0] && s[1] == k[1] && s[2] == n[0] && s[3] == n[1];
    assert s[4..4 + |v|] == v && s[4 + |v|..|s|] == rest;
    Slices(p, o, end, 4, 4 + |v|);
    Slices(p, o, end, 4 + |v|, |s|);
    assert p[o] == s[0] && p[o + 1] == s[1] && p[o + 2] == s[2] && p[o + 3] == s[3];
  }

  lemma EncodedHead(params: seq<Param>)
    requires Fits(params) && params != []
    ensures EncodeParams(params) == Put16(params[0].key) + Put16(|params[0].value|) + params[0].value + EncodeParams(params[1..])
  {
  }

  /** The hints of a service payload: a two-octet priority, a target name, and parameters to the end. */
  lemma HintsExact(p: Packet, o: nat, end: nat, pub: Address -> bool)
    requires end <= |p|
    ensures SvcbHints(p, o, end, pub).Some? ==> o + 3 <= end && DecodeName(p, o + 2).Some? && DecodeName(p, o + 2).value.next <= end
    ensures o + 3 <= end && DecodeName(p, o + 2).Some? && DecodeName(p, o + 2).value.next <= end ==>
              SvcbHints(p, o, end, pub) == ParamHints(p, DecodeName(p, o + 2).value.next, end, pub)
  {
    hide DecodeName, ParamHints;
  }

  // ---- built responses ----

  /** The octets of a static answer: the ID, flags QR and RA with the query's RD, the
      counts, the question as asked, and one answer pointing at its name, for 60
      seconds, when the family matches. */
  lemma StaticOctets(query: Packet, address: Address)
    requires QueryMeaning(query).Some? && IsAddress(address)
    ensures 12 <= QueryMeaning(query).value.end <= |query| && StaticMeaning(query, address).Some?
    ensures var end, kind := QueryMeaning(query).value.end, if |address| == 4 then 1 else 28;
            var matches := QueryMeaning(query).value.qtype == kind;
            StaticMeaning(query, address).value ==
            [query[0], query[1], 0x80 + query[2] % 2, 0x80, 0, 1, 0, if matches then 1 else 0, 0, 0, 0, 0] + query[12..end]
            + if matches then [0xC0, 0x0C, 0, kind, 0, 1, 0, 0, 0, 60, 0, |address|] + address else []
  {
    hide QuestionAt, QueryMeaning, Header, AnswerRecord;
    AcceptedType(query);
    QuestionEnd(query);
    var answers := if QueryMeaning(query).value.qtype == AddressType(address) then 1 else 0;
    HeaderIs(query, 0x80, answers);
    AnswerIs(address);
  }

  lemma HeaderIs(query: Packet, low: Byte, answers: Byte)
    requires |query| >= 4
    ensures Header(query, 0x8000 + RecursionDesired(U16(query, 2)) + low as int, answers as int)
            == [query[0], query[1], 0x80 + query[2] % 2, low, 0, 1, 0, answers, 0, 0, 0, 0]
  {
    DesiredOctet(query);
  }

  lemma AnswerIs(address: Address)
    requires IsAddress(address)
    ensures AnswerRecord(address) == [0xC0, 0x0C, 0, if |address| == 4 then 1 else 28, 0, 1, 0, 0, 0, 60, 0, |address|] + address
  {
  }

  lemma DesiredOctet(query: Packet)
    requires |query| >= 4
    ensures RecursionDesired(U16(query, 2)) == query[2] as int % 2 * 256
  {
  }

  /** The octets of a failure reply: the same with RCODE 2 and no answer. */
  lemma ServfailOctets(query: Packet)
    ensures QuestionAt(query).None? ==> ServfailMeaning(query) == []
    ensures QuestionAt(query).Some? ==>
              var end := QuestionAt(query).value.end;
              && 12 <= end <= |query|
              && ServfailMeaning(query) == [query[0], query[1], 0x80 + query[2] % 2, 0x82, 0, 1, 0, 0, 0, 0, 0, 0] + query[12..end]
  {
    hide QuestionAt, Header;
    if QuestionAt(query).Some? {
      QuestionEnd(query);
      HeaderIs(query, 0x82, 0);
    }
  }
}
