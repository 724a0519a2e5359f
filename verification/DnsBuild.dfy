/** Responses the gateway builds itself: static answers and SERVFAIL. */
module DnsBuild {
  import opened Wire
  import opened Chains
  import opened DnsNames
  import opened DnsMessages

  const STATIC_TTL: nat := 60

  /** The recursion-desired bit of a query's flags, in place. */
  function RecursionDesired(flags: nat): nat { flags / 0x100 % 2 * 0x100 }

  function AddressType(address: Address): nat { if |address| == 4 then TYPE_A else TYPE_AAAA }

  predicate IsAddress(address: Address) { |address| == 4 || |address| == 16 }

  function Header(query: Packet, flags: nat, answers: nat): (h: seq<Byte>)
    requires |query| >= 2 && flags < 0x1_0000 && answers < 0x1_0000
    ensures |h| == HEADER_SIZE && h[..2] == query[..2]
    ensures U16(h, 2) == flags && U16(h, 4) == 1 && U16(h, 6) == answers && U16(h, 8) == 0 && U16(h, 10) == 0
  {
    query[..2] + Put16(flags) + Put16(1) + Put16(answers) + Put16(0) + Put16(0)
  }

  /** One answer record whose owner is a pointer to the question name. */
  function AnswerRecord(address: Address): (s: seq<Byte>)
    requires IsAddress(address)
    ensures |s| == 12 + |address| && s[12..] == address
    ensures U16(s, 0) == 0xC00C && U16(s, 2) == AddressType(address) && U16(s, 4) == CLASS_IN
    ensures U32(s, 6) == STATIC_TTL && U16(s, 10) == |address|
  {
    Put16(0xC00C) + Put16(AddressType(address)) + Put16(CLASS_IN) + Put32(STATIC_TTL) + Put16(|address|) + address
  }

  function StaticPacket(query: Packet, q: Question, address: Address): Packet
    requires HEADER_SIZE <= q.end <= |query| && IsAddress(address)
  {
    var answers := if q.qtype == AddressType(address) && q.qclass == CLASS_IN then 1 else 0;
    Header(query, 0x8000 + RecursionDesired(U16(query, 2)) + 0x80, answers) + query[HEADER_SIZE..q.end]
    + if answers == 1 then AnswerRecord(address) else []
  }

  ghost function StaticMeaning(query: Packet, address: Address): Option<Packet>
    requires IsAddress(address)
  {
    match QueryMeaning(query)
    case None => None
    case Some(q) =>
      QuestionEnd(query);
      Some(StaticPacket(query, q, address))
  }

  lemma QuestionEnd(p: Packet)
    requires QuestionAt(p).Some?
    ensures HEADER_SIZE + 5 <= QuestionAt(p).value.end <= Min(|p|, 8145)
  {
    hide WireSize, Text;
    PlainAgreesWithDecode(p, HEADER_SIZE);
    PlainNameFits(p, HEADER_SIZE);
    assert WireSize(PlainNameAt(p, HEADER_SIZE).value.labels) >= 1 by { WireSizePositive(PlainNameAt(p, HEADER_SIZE).value.labels); }
  }

  lemma WireSizePositive(labels: seq<Label>)
    ensures WireSize(labels) >= 1
  {
  }

  method StaticResponse(query: Packet, address: Address) returns (r: Option<Packet>)
    requires IsAddress(address)
    ensures r == StaticMeaning(query, address)
  {
    var q := CheckedQuery(query);
    if q.None? {
      return None;
    }
    QuestionEnd(query);
    return Some(StaticPacket(query, q.value, address));
  }

  /** The reply to a query that cannot be answered; empty when no question can be read. */
  function ServfailPacket(query: Packet, q: Question): Packet
    requires HEADER_SIZE <= q.end <= |query|
  {
    Header(query, 0x8000 + RecursionDesired(U16(query, 2)) + 0x80 + 2, 0) + query[HEADER_SIZE..q.end]
  }

  ghost function ServfailMeaning(query: Packet): Packet {
    match QuestionAt(query)
    case None => []
    case Some(q) =>
      QuestionEnd(query);
      ServfailPacket(query, q)
  }

  method Servfail(query: Packet) returns (r: Packet)
    ensures r == ServfailMeaning(query)
  {
    var q := ReadQuestion(query);
    if q.None? {
      return [];
    }
    QuestionEnd(query);
    return ServfailPacket(query, q.value);
  }

  // ---- building then validating ----

  /** A packet that copies a question after a fresh header asks the same question. */
  lemma QuestionCopied(query: Packet, h: seq<Byte>, rest: seq<Byte>)
    requires QuestionAt(query).Some? && |h| == HEADER_SIZE && U16(h, 4) == 1
    ensures var q := QuestionAt(query).value;
            HEADER_SIZE <= q.end <= |query| &&
            var r := h + query[HEADER_SIZE..q.end] + rest;
            && QuestionAt(r) == Some(q) && PlainNameAt(r, HEADER_SIZE) == PlainNameAt(query, HEADER_SIZE)
            && U16(r, 2) == U16(h, 2) && U16(r, 6) == U16(h, 6) && U16(r, 8) == U16(h, 8) && U16(r, 10) == U16(h, 10)
            && r[..2] == h[..2]
  {
    hide PlainNameAt, Text;
    var q := QuestionAt(query).value;
    QuestionEnd(query);
    var r := h + query[HEADER_SIZE..q.end] + rest;
    assert forall x :: 0 <= x < HEADER_SIZE ==> r[x] == h[x];
    assert SameOn(query, r, HEADER_SIZE, q.end);
    PlainAgreesWithDecode(query, HEADER_SIZE);
    PlainFrame(query, r, HEADER_SIZE);
    var next := PlainNameAt(query, HEADER_SIZE).value.next;
    assert U16(r, next) == U16(query, next) && U16(r, next + 2) == U16(query, next + 2);
    assert r[..2] == h[..2];
  }

  /** The wire size of the name a query asks for. */
  ghost function AskedSize(query: Packet): nat {
    match PlainNameAt(query, HEADER_SIZE)
    case None => 0
    case Some(name) => WireSize(name.labels)
  }

  lemma AnswerRead(r: Packet, q: Question, address: Address)
    requires QuestionAt(r) == Some(q) && IsAddress(address) && |r| == q.end + |AnswerRecord(address)|
    requires r[q.end..] == AnswerRecord(address)
    ensures RecordAt(r, q.end, AnswerSection) ==
            if AskedSize(r) <= NAME_LIMIT
            then Some(Record(AnswerSection, q.end, q.name, AddressType(address), CLASS_IN, STATIC_TTL, q.end + 12, |r|)) else None
  {
    hide PlainNameAt, Text, WireSize, AnswerRecord, U32, DecodeName, NameOctets;
    QuestionEnd(r);
    AnswerFields(r, q.end, address);
    PointerReads(r, q.end);
    PlainAgreesWithDecode(r, HEADER_SIZE);
  }

  lemma AnswerFields(r: Packet, o: nat, address: Address)
    requires IsAddress(address) && o + 12 + |address| == |r| && r[o..] == AnswerRecord(address)
    ensures U16(r, o) == 0xC00C && U16(r, o + 2) == AddressType(address) && U16(r, o + 4) == CLASS_IN
    ensures U32(r, o + 6) == STATIC_TTL && U16(r, o + 10) == |address|
    ensures |r| >= HEADER_SIZE + 1 ==> IsPointer(r, o) && PointerTarget(r, o) == HEADER_SIZE
  {
    hide AnswerRecord;
    var s := AnswerRecord(address);
    assert forall x :: 0 <= x < 12 ==> s[x] == r[o..][x];
    assert r[o] == s[0] && r[o + 1] == s[1] && r[o + 2] == s[2] && r[o + 3] == s[3] && r[o + 4] == s[4] && r[o + 5] == s[5];
    assert r[o + 6] == s[6] && r[o + 7] == s[7] && r[o + 8] == s[8] && r[o + 9] == s[9] && r[o + 10] == s[10] && r[o + 11] == s[11];
  }

  /** The built packet answers the query's question and ends with what was added. */
  lemma StaticFrame(query: Packet, address: Address)
    requires QueryMeaning(query).Some? && IsAddress(address)
    ensures var q := QueryMeaning(query).value;
            var rest := if q.qtype == AddressType(address) then AnswerRecord(address) else [];
            && StaticMeaning(query, address).Some?
            && var r := StaticMeaning(query, address).value;
               && HEADER_SIZE <= q.end && |r| == q.end + |rest| && r[q.end..] == rest
               && FrameMatches(query, q, r) && QuestionAt(r) == Some(q) && AskedSize(r) == AskedSize(query)
               && U16(r, 6) == (if q.qtype == AddressType(address) then 1 else 0) && U16(r, 8) == 0 && U16(r, 10) == 0
  {
    hide PlainNameAt, Text, WireSize, AnswerRecord, QuestionAt, Header, AllowedType;
    AcceptedType(query);
    QuestionEnd(query);
    var q := QueryMeaning(query).value;
    var answers := if q.qtype == AddressType(address) then 1 else 0;
    var rd := RecursionDesired(U16(query, 2));
    assert rd == 0 || rd == 0x100;
    var h, rest := Header(query, 0x8000 + rd + 0x80, answers), if answers == 1 then AnswerRecord(address) else [];
    QuestionCopied(query, h, rest);
    assert StaticPacket(query, q, address) == h + query[HEADER_SIZE..q.end] + rest;
  }

  /** Validating a static answer gives back the query's name and type with exactly
      that address for a public address of the right family and a name of at most
      255 octets; a mismatched family gives no address; everything else is refused. */
  lemma StaticRoundTrip(query: Packet, address: Address, pub: Address -> bool)
    requires QueryMeaning(query).Some? && IsAddress(address)
    ensures var q := QueryMeaning(query).value;
            && StaticMeaning(query, address).Some?
            && ResponseMeaning(query, StaticMeaning(query, address).value, pub) ==
               if q.qtype != AddressType(address) then Some(Answer(q.name, q.qtype, [], 0))
               else if AskedSize(query) <= NAME_LIMIT && pub(address) then Some(Answer(q.name, q.qtype, [address], STATIC_TTL))
               else None
  {
    hide AskedSize, AnswerRecord, QuestionAt, RecordAt, RecordsMeaning, FrameMatches, StaticMeaning, QueryMeaning, U16;
    StaticFrame(query, address);
    var q, r := QueryMeaning(query).value, StaticMeaning(query, address).value;
    if q.qtype != AddressType(address) {
      assert RecordsTo(r, q.end, 0, 0, 0) == Some([]);
      NothingGranted(r, q.name, q.qtype, pub);
    } else {
      AnswerRead(r, q, address);
      OneRecord(r, q.end);
      if AskedSize(query) <= NAME_LIMIT {
        assert r[q.end + 12..] == r[q.end..][12..];
        OneGranted(r, RecordAt(r, q.end, AnswerSection).value, q.name, address, pub);
      }
    }
  }

  lemma OneRecord(r: Packet, o: nat)
    ensures RecordsTo(r, o, 1, 1, 0) ==
            match RecordAt(r, o, AnswerSection) case None => None case Some(x) => Some([x])
  {
    hide RecordAt;
    assert RecordsTo(r, o, 0, 1, 0) == Some([]);
    assert EndOf(o, []) == o && SectionOf(0, 1, 0) == AnswerSection;
    var x := RecordAt(r, o, AnswerSection);
    assert x.Some? ==> [] + [x.value] == [x.value];
  }

  lemma NothingGranted(r: Packet, name: string, qtype: nat, pub: Address -> bool)
    ensures RecordsMeaning(r, [], name, qtype, pub) == Some(Answer(name, qtype, [], 0))
  {
    assert Stops(Hop(map[]), name, 0);
  }

  /** A single address record grants its address to its owner, if it is public. */
  lemma OneGranted(r: Packet, record: Record, name: string, address: Address, pub: Address -> bool)
    requires InPacket(r, record) && Payload(r, record) == address && IsAddress(address)
    requires record.section == AnswerSection && record.rclass == CLASS_IN && record.rtype == AddressType(address)
    ensures RecordsMeaning(r, [record], name, record.rtype, pub) ==
            if !pub(address) then None
            else if record.owner == name then Some(Answer(name, record.rtype, [address], record.ttl))
            else Some(Answer(name, record.rtype, [], 0))
  {
    hide Contribution, WellFormed, LinksOf, Gather, GatherTtls, AliasTtls, Distinct, MinOf;
    OneRecordParts(r, record, name, address, pub);
    if pub(address) {
      assert AllWellFormed(r, [record], pub);
      assert Stops(Hop(map[]), name, 0);
      forall n: nat | Stops(Hop(map[]), name, n) ensures n == 0 {
        StopsOnce(Hop(map[]), name, n, 0);
      }
    } else {
      assert !WellFormed(r, [record][0], pub);
    }
  }

  lemma OneRecordParts(r: Packet, record: Record, name: string, address: Address, pub: Address -> bool)
    requires InPacket(r, record) && Payload(r, record) == address && IsAddress(address)
    requires record.section == AnswerSection && record.rclass == CLASS_IN && record.rtype == AddressType(address)
    ensures WellFormed(r, record, pub) <==> pub(address)
    ensures LinksOf(r, [record]) == Some(map[])
    ensures Gather(r, [record], record.rtype, name, pub) == if record.owner == name then [address] else []
    ensures AliasTtls(map[], name, 0) + GatherTtls(r, [record], record.rtype, name, pub)
            == if record.owner == name then [record.ttl] else []
    ensures Distinct([address]) == [address] && Distinct([]) == [] && MinOf([record.ttl]) == record.ttl
  {
    hide SvcbHints, DecodeName;
    NoRecordParts(r, record.rtype, name, pub);
    var records := [record];
    assert records[..0] == [] && records[|records| - 1] == record && |records| - 1 == 0;
    assert Contribution(r, record, record.rtype, name, pub) == if record.owner == name then [address] else [];
    assert Repeat(record.ttl, 1) == [record.ttl];
    DistinctOne(address);
  }

  lemma NoRecordParts(r: Packet, qtype: nat, owner: string, pub: Address -> bool)
    ensures LinksOf(r, []) == Some(map[])
    ensures Gather(r, [], qtype, owner, pub) == [] && GatherTtls(r, [], qtype, owner, pub) == []
    ensures AliasTtls(map[], owner, 0) == []
  {
  }

  lemma DistinctOne(address: Address)
    ensures Distinct([address]) == [address] && Distinct([]) == []
  {
    assert [address][..0] == [] && Distinct([]) == [];
  }

  /** A SERVFAIL repeats the query's ID and question, and validation never takes it for an answer. */
  lemma ServfailIsNoAnswer(query: Packet, other: Packet, pub: Address -> bool)
    requires QuestionAt(query).Some?
    ensures var r := ServfailMeaning(query);
            && |r| >= HEADER_SIZE && r[..2] == query[..2] && QuestionAt(r) == QuestionAt(query)
            && IsResponse(U16(r, 2)) && Rcode(U16(r, 2)) == 2
            && ResponseMeaning(other, r, pub).None?
  {
    hide PlainNameAt, Text, WireSize, QuestionAt, Header, AllRecords, RecordsMeaning, QueryMeaning;
    QuestionEnd(query);
    var rd := RecursionDesired(U16(query, 2));
    assert rd == 0 || rd == 0x100;
    var q, h := QuestionAt(query).value, Header(query, 0x8000 + rd + 0x80 + 2, 0);
    QuestionCopied(query, h, []);
    assert ServfailMeaning(query) == h + query[HEADER_SIZE..q.end] + [];
  }

  // ---- a query whose static answer is refused ----

  /** Five labels of 63 octets. */
  function LongLabels(): (s: seq<Byte>)
    ensures |s| == 320 && forall i :: 0 <= i < 320 ==> s[i] == if i % 64 == 0 then 63 else 97
  {
    seq(320, i => if i % 64 == 0 then 63 else 97)
  }

  /** A query for the addresses of a name of 321 octets. */
  function LongQuery(): (p: Packet)
    ensures |p| == 337
  {
    [0, 0, 1, 0, 0, 1, 0, 0, 0, 0, 0, 0] + LongLabels() + [0, 0, 1, 0, 1]
  }

  lemma LongLabel(k: nat)
    requires k < 5
    ensures IsLabel(LongQuery(), HEADER_SIZE + 64 * k) && LongQuery()[HEADER_SIZE + 64 * k] == 63
  {
    hide LongLabels;
    var o := HEADER_SIZE + 64 * k;
    assert LongQuery()[o] == LongLabels()[64 * k];
    forall i | 0 <= i < 63 ensures LabelAt(LongQuery(), o)[i] == 97 {
      assert LongQuery()[o + 1 + i] == LongLabels()[64 * k + 1 + i];
    }
  }

  lemma {:induction false} LongTrail(k: nat)
    requires k <= 5
    ensures Follow(LongQuery(), HEADER_SIZE, k).Some?
    ensures var t := Follow(LongQuery(), HEADER_SIZE, k).value;
            t.at == HEADER_SIZE + 64 * k && |t.labels| == k && t.resume.None? && WireSize(t.labels) == 1 + 64 * k
  {
    hide LongQuery, WireSize, Ascii, LabelAt;
    if k == 0 {
      EmptyWireSize();
    } else {
      LongTrail(k - 1);
      LongLabel(k - 1);
      WireSizeSnoc(Follow(LongQuery(), HEADER_SIZE, k - 1).value.labels, LabelAt(LongQuery(), HEADER_SIZE + 64 * (k - 1)));
    }
  }

  lemma LongTail()
    ensures var p := LongQuery();
            && IsRoot(p, 332) && U16(p, 333) == TYPE_A && U16(p, 335) == CLASS_IN
            && U16(p, 2) == 0x100 && U16(p, 4) == 1 && U16(p, 6) == 0 && U16(p, 8) == 0 && U16(p, 10) == 0
  {
    hide LongLabels;
  }

  lemma LongName()
    ensures PlainNameAt(LongQuery(), HEADER_SIZE).Some?
    ensures var name := PlainNameAt(LongQuery(), HEADER_SIZE).value;
            |name.labels| == 5 && name.next == 333 && WireSize(name.labels) == 321
  {
    hide LongQuery, WireSize, Follow, Text;
    LongTrail(5);
    LongTail();
    WalkMeaning(LongQuery(), HEADER_SIZE, 5);
  }

  /** The query's name is over 255 octets, yet the query is acceptable; its
      static answer is built and then refused by validation. */
  lemma LongQueryIsRefused(address: Address, pub: Address -> bool)
    requires |address| == 4
    ensures QueryMeaning(LongQuery()).Some? && AskedSize(LongQuery()) == 321
    ensures StaticMeaning(LongQuery(), address).Some?
    ensures ResponseMeaning(LongQuery(), StaticMeaning(LongQuery(), address).value, pub).None?
  {
    hide LongQuery, WireSize, PlainNameAt, ResponseMeaning, StaticMeaning;
    LongName();
    LongTail();
    assert Text(PlainNameAt(LongQuery(), HEADER_SIZE).value.labels) != "";
    assert QueryMeaning(LongQuery()).Some? && QueryMeaning(LongQuery()).value.qtype == TYPE_A;
    StaticRoundTrip(LongQuery(), address, pub);
  }
}
