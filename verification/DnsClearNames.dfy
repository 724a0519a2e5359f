/** Which responses have names clear of what the cached fallback edits, and what
    happens to one whose answer owner is a compression pointer into that
    record's own time-to-live field. */
module DnsClearNames {
  import opened Wire
  import opened DnsNames
  import opened DnsMessages
  import opened DnsBuild
  import opened DnsAnswers
  import opened DnsTtlCap

  // ---- what reading a name looks at, element by element ----

  /** The octets of the label or pointer at `o`. */
  function Element(p: Packet, o: nat): set<nat>
    requires Step(p, o).Some?
  {
    if IsLabel(p, o) then Range(o, o + 1 + p[o]) else Range(o, o + 2)
  }

  lemma {:induction false} OctetsCons(p: Packet, o: nat, k: nat)
    requires Step(p, o).Some? && Follow(p, o, k + 1).Some?
    ensures Follow(p, Step(p, o).value, k).Some?
    ensures Follow(p, o, k + 1).value.octets == Element(p, o) + Follow(p, Step(p, o).value, k).value.octets
    ensures Follow(p, o, k + 1).value.at == Follow(p, Step(p, o).value, k).value.at
  {
    hide Text, Ascii, LabelAt, WireSize;
    if k == 0 {
      assert Follow(p, o, 0) == Some(Trail(o, [], None, {}));
    } else {
      OctetsCons(p, o, k - 1);
    }
  }

  /** Reading a name reads its first label or pointer and what that leads to. */
  lemma ElementOctets(p: Packet, o: nat)
    requires DecodeName(p, o).Some? && Step(p, o).Some?
    ensures NameOctets(p, o) == Element(p, o) + NameOctets(p, Step(p, o).value)
  {
    hide Text, Ascii, LabelAt, WireSize, Advance, Step, Element;
    var n: nat :| Walks(p, o, n) && WireSize(Follow(p, o, n).value.labels) <= NAME_LIMIT;
    WalkMeaning(p, o, n);
    assert n > 0 by { NotYetRoot(p, o); }
    OctetsCons(p, o, n - 1);
    WalkMeaning(p, Step(p, o).value, n - 1);
  }

  lemma NotYetRoot(p: Packet, o: nat)
    requires Step(p, o).Some?
    ensures !Walks(p, o, 0)
  {
    assert Follow(p, o, 0) == Some(Trail(o, [], None, {}));
  }

  lemma RootOctets(p: Packet, o: nat)
    requires IsRoot(p, o)
    ensures NameOctets(p, o) == {o}
  {
    assert Follow(p, o, 0) == Some(Trail(o, [], None, {}));
    assert Walks(p, o, 0);
    WalkMeaning(p, o, 0);
  }

  // ---- ordinary responses ----

  /** Octet `x` belongs to the question, to the owner name of a record or to its payload. */
  ghost predicate InNameField(p: Packet, records: seq<Record>, x: int) {
    || (QuestionAt(p).Some? && HEADER_SIZE <= x < QuestionAt(p).value.end)
    || exists i :: 0 <= i < |records| && OwnField(records[i], x)
  }

  predicate OwnField(r: Record, x: int) { r.at <= x < r.start - 10 || r.start <= x < r.end }

  /** Reading the name at `o` stays in such octets, wherever its pointers lead. */
  ghost predicate Ordinary(p: Packet, records: seq<Record>, o: nat) {
    forall x :: x in NameOctets(p, o) ==> InNameField(p, records, x)
  }

  ghost predicate OrdinaryNames(p: Packet, records: seq<Record>, r: Record) {
    && Ordinary(p, records, r.at)
    && (r.rclass == CLASS_IN && r.rtype == TYPE_CNAME ==> Ordinary(p, records, r.start))
    && (r.rclass == CLASS_IN && IsSvcb(r.rtype) ==> Ordinary(p, records, r.start + 2))
  }

  lemma QuestionIsOrdinary(p: Packet, records: seq<Record>)
    requires QuestionAt(p).Some?
    ensures Ordinary(p, records, HEADER_SIZE)
  {
    hide PlainNameAt, DecodeName, NameOctets, Text, WireSize;
    PlainAgreesWithDecode(p, HEADER_SIZE);
  }

  /** A name is ordinary when its first label or pointer is in such octets and
      leads to an ordinary name: labels before a pointer, pointers to suffixes of
      earlier owners and alias targets, and chains of them. */
  lemma OrdinaryByStep(p: Packet, records: seq<Record>, o: nat)
    requires DecodeName(p, o).Some? && InNameField(p, records, o)
    requires Step(p, o).Some? ==>
               && (forall x :: x in Element(p, o) ==> InNameField(p, records, x))
               && Ordinary(p, records, Step(p, o).value)
    ensures Ordinary(p, records, o)
  {
    hide DecodeName, NameOctets, Element, InNameField;
    if Step(p, o).Some? {
      ElementOctets(p, o);
    } else {
      assert IsRoot(p, o) by { DecodesToRoot(p, o); }
      RootOctets(p, o);
    }
  }

  lemma DecodesToRoot(p: Packet, o: nat)
    requires DecodeName(p, o).Some? && Step(p, o).None?
    ensures IsRoot(p, o)
  {
    hide Text, Ascii, LabelAt, WireSize;
    assert Follow(p, o, 0) == Some(Trail(o, [], None, {}));
    if !IsRoot(p, o) {
      NoWalk(p, o, 0);
    }
  }

  lemma NameFieldUnedited(p: Packet, o: nat, records: seq<Record>, x: nat)
    requires Contiguous(p, o, records) && QuestionAt(p).Some? && o == QuestionAt(p).value.end && o >= HEADER_SIZE
    requires InNameField(p, records, x)
    ensures !Edited(records, x)
  {
    hide InTtl, QuestionAt;
    if x < o {
      BeforeRecords(p, o, records, x);
      if x < HEADER_SIZE {
        var i :| 0 <= i < |records| && OwnField(records[i], x);
        RecordsInOrder(p, o, records, i, i);
      }
    } else {
      var i :| 0 <= i < |records| && OwnField(records[i], x);
      RecordsInOrder(p, o, records, i, i);
      if InTtl(records, x) {
        TtlOwner(p, o, records, i, x);
      }
    }
  }

  /** A response whose every name is ordinary has clear names, so the fallback keeps its meaning. */
  lemma OrdinaryIsClear(p: Packet)
    requires |p| >= HEADER_SIZE && QuestionAt(p).Some? && AllRecords(p).Some?
    requires forall i :: 0 <= i < |AllRecords(p).value| ==> OrdinaryNames(p, AllRecords(p).value, AllRecords(p).value[i])
    ensures NamesClear(p, AllRecords(p).value)
  {
    hide QuestionAt, AllRecords, Edited, InNameField, NameOctets;
    var o, records := QuestionAt(p).value.end, AllRecords(p).value;
    RecordsAreTheirOwn(p);
    forall x: nat | InNameField(p, records, x) ensures !Edited(records, x) {
      NameFieldUnedited(p, o, records, x);
    }
    forall i | 0 <= i < |records| ensures RecordClear(p, records, records[i]) {
      assert OrdinaryNames(p, records, records[i]);
    }
  }

  /** Every accepted static answer is such a response. */
  lemma StaticIsClear(query: Packet, address: Address, pub: Address -> bool)
    requires QueryMeaning(query).Some? && IsAddress(address)
    requires ResponseMeaning(query, StaticMeaning(query, address).value, pub).Some?
    ensures NamesClear(StaticMeaning(query, address).value, AllRecords(StaticMeaning(query, address).value).value)
  {
    hide AskedSize, AnswerRecord, QuestionAt, RecordAt, RecordsMeaning, FrameMatches, StaticMeaning, QueryMeaning, U16, Ordinary, NamesClear;
    StaticFrame(query, address);
    var q, r := QueryMeaning(query).value, StaticMeaning(query, address).value;
    if q.qtype != AddressType(address) {
      assert RecordsTo(r, q.end, 0, 0, 0) == Some([]);
    } else {
      AnswerRead(r, q, address);
      OneRecord(r, q.end);
      AnswerFields(r, q.end, address);
      PointsAtQuestion(r, AllRecords(r).value, q.end);
    }
    OrdinaryIsClear(r);
  }

  lemma PointsAtQuestion(p: Packet, records: seq<Record>, o: nat)
    requires QuestionAt(p).Some? && IsPointer(p, o) && PointerTarget(p, o) == HEADER_SIZE
    requires |records| == 1 && records[0].at == o && records[0].start == o + 12 && RecordAt(p, o, AnswerSection) == Some(records[0])
    ensures Ordinary(p, records, o)
  {
    hide DecodeName, QuestionAt, U32, Ordinary;
    QuestionIsOrdinary(p, records);
    assert OwnField(records[0], o) && OwnField(records[0], o + 1);
    OrdinaryByStep(p, records, o);
  }

  // ---- a response that is not ----

  const ASKED: string := "a"
  const ADDRESS: Address := [9, 9, 9, 9]
  const SPELLING_TTL: nat := 0x0161_0000 // its octets spell the name "a"

  /** A query for the addresses of "a". */
  const QUERY: Packet := [0, 0, 1, 0, 0, 1, 0, 0, 0, 0, 0, 0, 1, 97, 0, 0, 1, 0, 1]

  /** Its response with one answer whose owner is whatever the answer's time-to-live spells. */
  function Reply(ttl: nat): (p: Packet)
    requires ttl < 0x1_0000_0000
    ensures |p| == 35
  {
    [0, 0, 0x81, 0x80, 0, 1, 0, 1, 0, 0, 0, 0, 1, 97, 0, 0, 1, 0, 1, 0xC0, 25, 0, 1, 0, 1] + Put32(ttl) + [0, 4] + ADDRESS
  }

  lemma OneLetterName(p: Packet, o: nat)
    requires o + 3 <= |p| && p[o] == 1 && p[o + 1] == 97 && p[o + 2] == 0
    ensures PlainNameAt(p, o) == Some(PlainName([[97]], o + 3))
    ensures DecodeName(p, o) == Some(Name(ASKED, o + 3))
    ensures Text([[97]]) == ASKED
  {
    assert Follow(p, o, 0) == Some(Trail(o, [], None, {}));
    assert LabelAt(p, o) == [97];
    assert Follow(p, o, 1).value.labels == [] + [[97]] == [[97]];
    assert Walks(p, o, 1);
    assert Lower([97]) == ASKED;
    assert WireSize([[97]]) == 3 by { WireSizeSnoc([], [97]); assert [] + [[97]] == [[97]]; }
    WalkMeaning(p, o, 1);
  }

  lemma RootName(p: Packet, o: nat)
    requires o < |p| && p[o] == 0
    ensures DecodeName(p, o) == Some(Name("", o + 1))
  {
    assert Follow(p, o, 0) == Some(Trail(o, [], None, {}));
    assert Walks(p, o, 0);
    WalkMeaning(p, o, 0);
  }

  lemma AskedQuestion(p: Packet)
    requires |p| >= 19 && p[4] == 0 && p[5] == 1 && p[12] == 1 && p[13] == 97 && p[14] == 0
    requires p[15] == 0 && p[16] == 1 && p[17] == 0 && p[18] == 1
    ensures QuestionAt(p) == Some(Question(ASKED, TYPE_A, CLASS_IN, 19))
  {
    hide PlainNameAt, Text;
    OneLetterName(p, 12);
  }

  lemma ReplyOctets(ttl: nat)
    requires ttl < 0x1_0000_0000
    ensures var p := Reply(ttl); U32(p, 25) == ttl && p[25..29] == Put32(ttl) && p[31..35] == ADDRESS
  {
    hide Put32;
    var p, field := Reply(ttl), Put32(ttl);
    assert p[25] == field[0] && p[26] == field[1] && p[27] == field[2] && p[28] == field[3];
  }

  /** The owner of the answer is the name its time-to-live spells. */
  lemma ReplyOwner(ttl: nat)
    requires ttl == SPELLING_TTL || ttl == 0
    ensures DecodeName(Reply(ttl), 19) == Some(Name(if ttl == 0 then "" else ASKED, 21))
  {
    hide PlainNameAt, DecodeName, Text;
    var p := Reply(ttl);
    assert p[25..29] == Put32(ttl) by { ReplyOctets(ttl); }
    assert p[25] == Put32(ttl)[0] && p[26] == Put32(ttl)[1] && p[27] == Put32(ttl)[2];
    PointerReads(p, 19);
    if ttl == 0 {
      RootName(p, 25);
    } else {
      OneLetterName(p, 25);
    }
  }

  lemma ReplyRecord(ttl: nat)
    requires ttl == SPELLING_TTL || ttl == 0
    ensures RecordAt(Reply(ttl), 19, AnswerSection)
            == Some(Record(AnswerSection, 19, if ttl == 0 then "" else ASKED, TYPE_A, CLASS_IN, ttl, 31, 35))
  {
    hide DecodeName, Put32, U32;
    ReplyOwner(ttl);
    ReplyOctets(ttl);
  }

  lemma ReplyFrame(ttl: nat)
    requires ttl < 0x1_0000_0000
    ensures var p := Reply(ttl);
            && QuestionAt(p) == Some(Question(ASKED, TYPE_A, CLASS_IN, 19))
            && FrameMatches(QUERY, Question(ASKED, TYPE_A, CLASS_IN, 19), p)
            && U16(p, 6) == 1 && U16(p, 8) == 0 && U16(p, 10) == 0
  {
    hide QuestionAt, Put32;
    AskedQuestion(Reply(ttl));
    assert Reply(ttl)[..2] == QUERY[..2];
  }

  lemma ReplyRead(ttl: nat)
    requires ttl == SPELLING_TTL || ttl == 0
    ensures var p := Reply(ttl);
            && QuestionAt(p) == Some(Question(ASKED, TYPE_A, CLASS_IN, 19))
            && AllRecords(p) == Some([Record(AnswerSection, 19, if ttl == 0 then "" else ASKED, TYPE_A, CLASS_IN, ttl, 31, 35)])
            && Payload(p, AllRecords(p).value[0]) == ADDRESS
            && FrameMatches(QUERY, Question(ASKED, TYPE_A, CLASS_IN, 19), p)
  {
    hide QuestionAt, FrameMatches, RecordAt, Reply;
    ReplyFrame(ttl);
    ReplyRecord(ttl);
    ReplyOctets(ttl);
    OneRecord(Reply(ttl), 19);
  }

  /** Without clear names the fallback is still accepted but loses the answer:
      capping the time-to-live renames the record, and no address is left. */
  lemma CappingMayRenameTheAnswer(pub: Address -> bool)
    requires pub(ADDRESS)
    ensures ResponseMeaning(QUERY, Reply(SPELLING_TTL), pub) == Some(Answer(ASKED, TYPE_A, [ADDRESS], SPELLING_TTL))
    ensures CapMeaning(Reply(SPELLING_TTL), 0) == Some(Reply(0))
    ensures ResponseMeaning(QUERY, Reply(0), pub) == Some(Answer(ASKED, TYPE_A, [], 0))
    ensures QuestionAt(Reply(SPELLING_TTL)).Some? && AllRecords(Reply(SPELLING_TTL)).Some?
    ensures !NamesClear(Reply(SPELLING_TTL), AllRecords(Reply(SPELLING_TTL)).value)
  {
    hide QuestionAt, AllRecords, RecordsMeaning, FrameMatches, Reply, NamesClear;
    ReplyRead(SPELLING_TTL);
    ReplyRead(0);
    AskedQuery();
    var p, r := Reply(SPELLING_TTL), AllRecords(Reply(SPELLING_TTL)).value[0];
    OneGranted(p, r, ASKED, ADDRESS, pub);
    OneGranted(Reply(0), AllRecords(Reply(0)).value[0], ASKED, ADDRESS, pub);
    CappedReply();
    SameId();
    if NamesClear(p, [r]) {
      FallbackKeepsMeaning(QUERY, QUERY, p, 0, pub);
    }
  }

  lemma AskedQuery()
    ensures QueryMeaning(QUERY) == Some(Question(ASKED, TYPE_A, CLASS_IN, 19))
  {
    hide QuestionAt;
    AskedQuestion(QUERY);
  }

  lemma SameId()
    ensures WithId(QUERY, Reply(SPELLING_TTL)) == Reply(SPELLING_TTL)
  {
  }

  lemma CappedReply()
    ensures CapMeaning(Reply(SPELLING_TTL), 0) == Some(Reply(0))
  {
    hide QuestionAt, AllRecords, Put32, Reply, Capped;
    ReplyRead(SPELLING_TTL);
    OneCapped(AllRecords(Reply(SPELLING_TTL)).value[0]);
  }

  lemma OneCapped(r: Record)
    requires r.rtype == TYPE_A && r.at == 19 && r.start == 31 && r.end == 35 && r.ttl == SPELLING_TTL
    ensures Capped(Reply(SPELLING_TTL), [r], 0) == Reply(0)
  {
    hide Put32;
    var p := Reply(SPELLING_TTL);
    assert [r][..0] == [] && Capped(p, [], 0) == p;
    assert Capped(p, [r], 0) == p[..25] + Put32(0) + p[29..];
    assert p[..25] == Reply(0)[..25] && p[29..] == Reply(0)[29..];
    ReplyOctets(0);
  }
}
