/** Queries, responses and the addresses a response grants: what
    `dns_gateway.checked_response` accepts and what it returns. */
module DnsMessages {
  import opened Wire
  import opened Chains
  import opened DnsNames

  /** A packed IPv4 (4 octets) or IPv6 (16 octets) address. */
  type Address = seq<Byte>

  datatype Question = Question(name: string, qtype: nat, qclass: nat, end: nat)

  datatype Section = AnswerSection | AuthoritySection | AdditionalSection

  /** A resource record: its owner name starts at `at`, its payload is [start, end). */
  datatype Record = Record(section: Section, at: nat, owner: string, rtype: nat, rclass: nat, ttl: nat,
                           start: nat, end: nat)

  datatype Link = Link(target: string, ttl: nat)

  datatype Answer = Answer(name: string, qtype: nat, addresses: seq<Address>, ttl: nat)

  const HEADER_SIZE: nat := 12
  const MAX_MESSAGE: nat := 65535
  const CLASS_IN: nat := 1
  const TYPE_A: nat := 1
  const TYPE_CNAME: nat := 5
  const TYPE_AAAA: nat := 28
  const TYPE_OPT: nat := 41
  const TYPE_SVCB: nat := 64
  const TYPE_HTTPS: nat := 65
  const IPV4HINT: nat := 4
  const IPV6HINT: nat := 6

  // ---- header fields ----

  predicate IsResponse(flags: nat) { flags / 0x8000 % 2 == 1 }
  function Opcode(flags: nat): nat { flags / 0x800 % 16 }
  predicate Truncated(flags: nat) { flags / 0x200 % 2 == 1 }
  predicate ReservedZ(flags: nat) { flags / 0x40 % 2 == 1 }
  function Rcode(flags: nat): nat { flags % 16 }

  // ---- questions and queries ----

  ghost function QuestionAt(p: Packet): (r: Option<Question>)
    ensures r.Some? ==> HEADER_SIZE <= |p| && r.value.end <= |p|
  {
    if |p| < HEADER_SIZE || U16(p, 4) != 1 then None
    else match PlainNameAt(p, HEADER_SIZE)
      case None => None
      case Some(name) =>
        if name.next + 4 > |p| || Text(name.labels) == "" then None
        else Some(Question(Text(name.labels), U16(p, name.next), U16(p, name.next + 2), name.next + 4))
  }

  /** One empty EDNS0 record at `o`, ending the packet. */
  predicate IsEmptyOpt(p: Packet, o: nat) {
    && |p| == o + 11 && p[o] == 0
    && U16(p, o + 1) == TYPE_OPT && 512 <= U16(p, o + 3) <= 4096
    && (U32(p, o + 5) == 0 || U32(p, o + 5) == 0x8000)
    && U16(p, o + 9) == 0
  }

  predicate AllowedType(qtype: nat) {
    qtype == TYPE_A || qtype == TYPE_AAAA || qtype == TYPE_SVCB || qtype == TYPE_HTTPS
  }

  /** The question of an acceptable query. */
  ghost function QueryMeaning(p: Packet): Option<Question> {
    match QuestionAt(p)
    case None => None
    case Some(q) =>
      if && AllowedType(q.qtype) && q.qclass == CLASS_IN
         && !IsResponse(U16(p, 2)) && Opcode(U16(p, 2)) == 0
         && U16(p, 6) == 0 && U16(p, 8) == 0
         && (if U16(p, 10) == 0 then q.end == |p| else U16(p, 10) == 1 && IsEmptyOpt(p, q.end))
      then Some(q) else None
  }

  method ReadQuestion(p: Packet) returns (r: Option<Question>)
    ensures r == QuestionAt(p)
  {
    if |p| < HEADER_SIZE || U16(p, 4) != 1 {
      return None;
    }
    var name := ReadName(p, HEADER_SIZE);
    if name.None? || name.value.next + 4 > |p| {
      return None;
    }
    var text := Text(name.value.labels);
    var offset := name.value.next;
    return if text == "" then None else Some(Question(text, U16(p, offset), U16(p, offset + 2), offset + 4));
  }

  method CheckedQuery(p: Packet) returns (r: Option<Question>)
    ensures r == QueryMeaning(p)
  {
    hide QuestionAt;
    var question := ReadQuestion(p);
    if question.None? || !AllowedType(question.value.qtype) {
      return None;
    }
    var offset := question.value.end;
    var flags := U16(p, 2);
    if IsResponse(flags) || Opcode(flags) != 0 {
      return None;
    }
    var additional := U16(p, 10);
    if question.value.qclass != CLASS_IN || U16(p, 6) != 0 || U16(p, 8) != 0 || additional > 1 {
      return None;
    }
    if additional == 0 {
      return if offset != |p| then None else question;
    }
    if offset >= |p| || p[offset] != 0 || offset + 11 > |p| {
      return None;
    }
    offset := offset + 1;
    var ttl := U32(p, offset + 4);
    if U16(p, offset) != TYPE_OPT || !(512 <= U16(p, offset + 2) <= 4096) {
      return None;
    }
    if ttl / 0x1_0000 % 256 != 0 || (ttl != 0 && ttl != 0x8000) || U16(p, offset + 8) != 0 || offset + 10 != |p| {
      return None;
    }
    return question;
  }

  // ---- the record walk ----

  ghost function RecordAt(p: Packet, o: nat, section: Section): Option<Record> {
    match DecodeName(p, o)
    case None => None
    case Some(name) =>
      if name.next + 10 > |p| || name.next + 10 + U16(p, name.next + 8) > |p| then None
      else Some(Record(section, o, name.text, U16(p, name.next), U16(p, name.next + 2), U32(p, name.next + 4),
                       name.next + 10, name.next + 10 + U16(p, name.next + 8)))
  }

  function SectionOf(i: nat, answers: nat, authorities: nat): Section {
    if i < answers then AnswerSection else if i < answers + authorities then AuthoritySection else AdditionalSection
  }

  function EndOf(o: nat, records: seq<Record>): nat {
    if records == [] then o else records[|records| - 1].end
  }

  /** The first `k` records laid end to end from `o`. */
  ghost function RecordsTo(p: Packet, o: nat, k: nat, answers: nat, authorities: nat): Option<seq<Record>> {
    if k == 0 then Some([])
    else match RecordsTo(p, o, k - 1, answers, authorities)
      case None => None
      case Some(before) =>
        match RecordAt(p, EndOf(o, before), SectionOf(k - 1, answers, authorities))
        case None => None
        case Some(r) => Some(before + [r])
  }

  lemma {:induction false} RecordsPrefix(p: Packet, o: nat, j: nat, k: nat, answers: nat, authorities: nat)
    requires j <= k && RecordsTo(p, o, k, answers, authorities).Some?
    ensures RecordsTo(p, o, j, answers, authorities).Some?
  {
    hide RecordAt, EndOf;
    if j < k {
      RecordsPrefix(p, o, j, k - 1, answers, authorities);
    }
  }

  predicate InPacket(p: Packet, r: Record) { r.at + 10 < r.start <= r.end <= |p| }

  function Payload(p: Packet, r: Record): seq<Byte>
    requires InPacket(p, r)
  {
    p[r.start..r.end]
  }

  // ---- SVCB and HTTPS hints, RFC 9460 sections 2.2 and 7.3 ----

  function Chunks(s: seq<Byte>, width: nat): seq<Address>
    requires width > 0
  {
    if |s| < width then [] else [s[..width]] + Chunks(s[width..], width)
  }

  predicate AllPublic(addresses: seq<Address>, pub: Address -> bool) {
    forall i :: 0 <= i < |addresses| ==> pub(addresses[i])
  }

  /** `size` octets are a whole number of 4- or 16-octet addresses. */
  predicate Whole(size: nat, width: nat) { size % (if width == 4 then 4 else 16) == 0 }

  function AddressList(payload: seq<Byte>, width: nat, pub: Address -> bool): Option<seq<Address>>
    requires width == 4 || width == 16
  {
    if payload == [] || !Whole(|payload|, width) || !AllPublic(Chunks(payload, width), pub) then None
    else Some(Chunks(payload, width))
  }

  function ParamAddresses(key: nat, payload: seq<Byte>, pub: Address -> bool): Option<seq<Address>> {
    if key == IPV4HINT then AddressList(payload, 4, pub)
    else if key == IPV6HINT then AddressList(payload, 16, pub)
    else Some([])
  }

  function ParamHints(p: Packet, o: nat, end: nat, pub: Address -> bool): Option<seq<Address>>
    requires o <= end <= |p|
    decreases end - o
  {
    if o == end then Some([])
    else if o + 4 > end || o + 4 + U16(p, o + 2) > end then None
    else
      var next := o + 4 + U16(p, o + 2);
      match ParamAddresses(U16(p, o), p[o + 4..next], pub)
      case None => None
      case Some(here) =>
        match ParamHints(p, next, end, pub)
        case None => None
        case Some(rest) => Some(here + rest)
  }

  /** The address hints of an SVCB or HTTPS payload, when it is well formed and all are public. */
  ghost function SvcbHints(p: Packet, o: nat, end: nat, pub: Address -> bool): Option<seq<Address>>
    requires end <= |p|
  {
    if o + 3 > end then None
    else match DecodeName(p, o + 2)
      case None => None
      case Some(name) => if name.next > end then None else ParamHints(p, name.next, end, pub)
  }

  lemma ChunksCons(s: seq<Byte>, width: nat, item: nat)
    requires width > 0 && item + width <= |s|
    ensures Chunks(s[item..], width) == [s[item..item + width]] + Chunks(s[item + width..], width)
  {
    assert s[item..][..width] == s[item..item + width];
    assert s[item..][width..] == s[item + width..];
  }

  method ReadAddresses(payload: seq<Byte>, width: nat, pub: Address -> bool) returns (r: Option<seq<Address>>)
    requires width == 4 || width == 16
    ensures r == AddressList(payload, width, pub)
  {
    hide Whole;
    if payload == [] || !Whole(|payload|, width) {
      return None;
    }
    var addresses: seq<Address> := [];
    var item := 0;
    while item < |payload|
      invariant 0 <= item <= |payload| && Whole(|payload| - item, width)
      invariant Chunks(payload, width) == addresses + Chunks(payload[item..], width)
      invariant AllPublic(addresses, pub)
    {
      WholeChunk(|payload| - item, width);
      ChunksCons(payload, width, item);
      var address := payload[item..item + width];
      if !pub(address) {
        assert Chunks(payload, width)[|addresses|] == address;
        return None;
      }
      addresses := addresses + [address];
      item := item + width;
    }
    assert Chunks(payload, width) == addresses;
    return Some(addresses);
  }

  lemma WholeChunk(left: nat, width: nat)
    requires (width == 4 || width == 16) && left > 0 && Whole(left, width)
    ensures left >= width && Whole(left - width, width)
  {
  }

  method CheckedSvcbHints(p: Packet, start: nat, end: nat, pub: Address -> bool) returns (r: Option<seq<Address>>)
    requires end <= |p|
    ensures r == SvcbHints(p, start, end, pub)
  {
    hide DecodeName, AddressList, Text, U16;
    if start + 3 > end {
      return None;
    }
    var name := DecodedName(p, start + 2);
    if name.None? || name.value.next > end {
      return None;
    }
    var offset := name.value.next;
    var addresses: seq<Address> := [];
    ghost var all := ParamHints(p, offset, end, pub);
    assert all.Some? ==> addresses + all.value == all.value;
    while offset < end
      invariant offset <= end
      invariant all == match ParamHints(p, offset, end, pub)
                       case None => None
                       case Some(rest) => Some(addresses + rest)
    {
      if offset + 4 > end || offset + 4 + U16(p, offset + 2) > end {
        return None;
      }
      var key, next := U16(p, offset), offset + 4 + U16(p, offset + 2);
      var here: Option<seq<Address>> := Some([]);
      if key == IPV4HINT {
        here := ReadAddresses(p[offset + 4..next], 4, pub);
      } else if key == IPV6HINT {
        here := ReadAddresses(p[offset + 4..next], 16, pub);
      }
      if here.None? {
        return None;
      }
      assert ParamHints(p, next, end, pub).Some? ==>
          addresses + (here.value + ParamHints(p, next, end, pub).value)
          == (addresses + here.value) + ParamHints(p, next, end, pub).value;
      addresses := addresses + here.value;
      offset := next;
    }
    assert addresses + [] == addresses;
    return Some(addresses);
  }

  // ---- what the records say ----

  predicate IsSvcb(rtype: nat) { rtype == TYPE_SVCB || rtype == TYPE_HTTPS }

  /** Class-IN address, CNAME and service records are well formed and public. */
  ghost predicate WellFormed(p: Packet, r: Record, pub: Address -> bool) {
    InPacket(p, r) &&
    (r.rclass == CLASS_IN ==>
      && (r.rtype == TYPE_A ==> r.end - r.start == 4 && pub(Payload(p, r)))
      && (r.rtype == TYPE_AAAA ==> r.end - r.start == 16 && pub(Payload(p, r)))
      && (r.rtype == TYPE_CNAME ==> DecodeName(p, r.start).Some? && DecodeName(p, r.start).value.next == r.end)
      && (IsSvcb(r.rtype) ==> SvcbHints(p, r.start, r.end, pub).Some?))
  }

  ghost predicate AllWellFormed(p: Packet, records: seq<Record>, pub: Address -> bool) {
    forall i :: 0 <= i < |records| ==> WellFormed(p, records[i], pub)
  }

  /** An alias of the answer section. */
  predicate IsLink(r: Record) { r.section == AnswerSection && r.rclass == CLASS_IN && r.rtype == TYPE_CNAME }

  ghost function Target(p: Packet, r: Record): string {
    match DecodeName(p, r.start)
    case Some(name) => name.text
    case None => ""
  }

  function AddLink(links: map<string, Link>, owner: string, target: string, ttl: nat): Option<map<string, Link>> {
    if owner in links && links[owner].target != target then None
    else Some(links[owner := Link(target, if owner in links then Min(ttl, links[owner].ttl) else ttl)])
  }

  /** The alias map of the answer section, unless two targets compete for an owner. */
  ghost function LinksOf(p: Packet, records: seq<Record>): Option<map<string, Link>> {
    if records == [] then Some(map[])
    else
      var r := records[|records| - 1];
      match LinksOf(p, records[..|records| - 1])
      case None => None
      case Some(links) => if IsLink(r) then AddLink(links, r.owner, Target(p, r), r.ttl) else Some(links)
  }

  function Hop(links: map<string, Link>): string -> Option<string> {
    (x: string) => if x in links then Some(links[x].target) else None
  }

  /** The time-to-live values of the first `n` aliases from `name`. */
  ghost function AliasTtls(links: map<string, Link>, name: string, n: nat): seq<nat> {
    if n == 0 then []
    else
      AliasTtls(links, name, n - 1) +
      match Iter(Hop(links), name, n - 1)
      case Some(x) => if x in links then [links[x].ttl] else []
      case None => []
  }

  /** The addresses a record adds for a query of type `qtype` ending at `owner`. */
  ghost function Contribution(p: Packet, r: Record, qtype: nat, owner: string, pub: Address -> bool): seq<Address> {
    if !InPacket(p, r) || r.section != AnswerSection || r.rclass != CLASS_IN || r.owner != owner then []
    else if (qtype == TYPE_A || qtype == TYPE_AAAA) && r.rtype == qtype then [Payload(p, r)]
    else if IsSvcb(qtype) && IsSvcb(r.rtype) && SvcbHints(p, r.start, r.end, pub).Some? then
      SvcbHints(p, r.start, r.end, pub).value
    else []
  }

  ghost function Gather(p: Packet, records: seq<Record>, qtype: nat, owner: string, pub: Address -> bool): seq<Address> {
    if records == [] then []
    else
      var before := Gather(p, records[..|records| - 1], qtype, owner, pub);
      var more := Contribution(p, records[|records| - 1], qtype, owner, pub);
      if more == [] then before else before + more
  }

  function Repeat(v: nat, n: nat): seq<nat> { seq(n, _ => v) }

  ghost function GatherTtls(p: Packet, records: seq<Record>, qtype: nat, owner: string, pub: Address -> bool): seq<nat> {
    if records == [] then []
    else
      var r := records[|records| - 1];
      var before := GatherTtls(p, records[..|records| - 1], qtype, owner, pub);
      var more := Contribution(p, r, qtype, owner, pub);
      if more == [] then before else before + Repeat(r.ttl, |more|)
  }

  /** First occurrences, in order. */
  function Distinct(s: seq<Address>): seq<Address> {
    if s == [] then []
    else
      var before, last := Distinct(s[..|s| - 1]), s[|s| - 1];
      if last in before then before else before + [last]
  }

  function MinOf(s: seq<nat>): nat {
    if s == [] then 0
    else if |s| == 1 then s[0]
    else Min(MinOf(s[..|s| - 1]), s[|s| - 1])
  }

  /** What well-formed records grant to a query. */
  ghost function RecordsMeaning(p: Packet, records: seq<Record>, name: string, qtype: nat, pub: Address -> bool)
    : Option<Answer>
  {
    if !AllWellFormed(p, records, pub) || LinksOf(p, records).None? then None
    else
      var links := LinksOf(p, records).value;
      if n: nat :| Stops(Hop(links), name, n) then
        var owner := Iter(Hop(links), name, n).value;
        var addresses := Gather(p, records, qtype, owner, pub);
        var ttls := AliasTtls(links, name, n) + GatherTtls(p, records, qtype, owner, pub);
        Some(Answer(name, qtype, Distinct(addresses), if addresses == [] then 0 else MinOf(ttls)))
      else None
  }

  /** A response frame that answers the question `q` of `query`. */
  ghost predicate FrameMatches(query: Packet, q: Question, response: Packet) {
    && HEADER_SIZE <= |response| <= MAX_MESSAGE && |query| >= 2
    && response[..2] == query[..2]
    && IsResponse(U16(response, 2)) && Opcode(U16(response, 2)) == 0
    && !Truncated(U16(response, 2)) && !ReservedZ(U16(response, 2)) && Rcode(U16(response, 2)) == 0
    && QuestionAt(response).Some?
    && QuestionAt(response).value.name == q.name
    && QuestionAt(response).value.qtype == q.qtype
    && QuestionAt(response).value.qclass == q.qclass
  }

  /** Every record of a response, when they fill it exactly. */
  ghost function AllRecords(p: Packet): Option<seq<Record>>
    requires |p| >= HEADER_SIZE && QuestionAt(p).Some?
  {
    var o := QuestionAt(p).value.end;
    match RecordsTo(p, o, U16(p, 6) + U16(p, 8) + U16(p, 10), U16(p, 6), U16(p, 8))
    case None => None
    case Some(records) => if EndOf(o, records) == |p| then Some(records) else None
  }

  ghost function ResponseMeaning(query: Packet, response: Packet, pub: Address -> bool): Option<Answer> {
    match QueryMeaning(query)
    case None => None
    case Some(q) =>
      if !FrameMatches(query, q, response) || AllRecords(response).None? then None
      else RecordsMeaning(response, AllRecords(response).value, q.name, q.qtype, pub)
  }

  // ---- the validator ----

  /** The records with a payload of an address, with that address. */
  ghost function AddressPairs(p: Packet, records: seq<Record>): seq<(Record, Address)> {
    if records == [] then []
    else
      var r := records[|records| - 1];
      var before := AddressPairs(p, records[..|records| - 1]);
      if InPacket(p, r) && r.rclass == CLASS_IN && (r.rtype == TYPE_A || r.rtype == TYPE_AAAA)
      then before + [(r, Payload(p, r))] else before
  }

  /** The service records of the answer section, with their hints. */
  ghost function HintPairs(p: Packet, records: seq<Record>, pub: Address -> bool): seq<(Record, seq<Address>)> {
    if records == [] then []
    else
      var r := records[|records| - 1];
      var before := HintPairs(p, records[..|records| - 1], pub);
      if && InPacket(p, r) && r.rclass == CLASS_IN && IsSvcb(r.rtype) && r.section == AnswerSection
         && SvcbHints(p, r.start, r.end, pub).Some?
      then before + [(r, SvcbHints(p, r.start, r.end, pub).value)] else before
  }

  predicate Selected(r: Record, qtype: nat, owner: string) {
    r.section == AnswerSection && r.owner == owner && r.rtype == qtype
  }

  function SelectAddresses(pairs: seq<(Record, Address)>, qtype: nat, owner: string): (seq<Address>, seq<nat>) {
    if pairs == [] then ([], [])
    else
      var before, last := SelectAddresses(pairs[..|pairs| - 1], qtype, owner), pairs[|pairs| - 1];
      if Selected(last.0, qtype, owner) then (before.0 + [last.1], before.1 + [last.0.ttl]) else before
  }

  function SelectHints(pairs: seq<(Record, seq<Address>)>, owner: string): (seq<Address>, seq<nat>) {
    if pairs == [] then ([], [])
    else
      var before, last := SelectHints(pairs[..|pairs| - 1], owner), pairs[|pairs| - 1];
      if last.0.owner == owner then (before.0 + last.1, before.1 + Repeat(last.0.ttl, |last.1|)) else before
  }

  lemma SelectAddressesSnoc(pairs: seq<(Record, Address)>, r: Record, address: Address, qtype: nat, owner: string)
    ensures SelectAddresses(pairs + [(r, address)], qtype, owner) ==
            var before := SelectAddresses(pairs, qtype, owner);
            if Selected(r, qtype, owner) then (before.0 + [address], before.1 + [r.ttl]) else before
  {
    assert (pairs + [(r, address)])[..|pairs|] == pairs;
  }

  lemma SelectHintsSnoc(pairs: seq<(Record, seq<Address>)>, r: Record, hints: seq<Address>, owner: string)
    ensures SelectHints(pairs + [(r, hints)], owner) ==
            var before := SelectHints(pairs, owner);
            if r.owner == owner && hints != [] then (before.0 + hints, before.1 + Repeat(r.ttl, |hints|)) else before
  {
    assert (pairs + [(r, hints)])[..|pairs|] == pairs;
    var before := SelectHints(pairs, owner);
    assert before.0 + [] == before.0 && before.1 + Repeat(r.ttl, 0) == before.1;
  }

  lemma {:induction false} SelectAddressesGathers(p: Packet, records: seq<Record>, qtype: nat, owner: string, pub: Address -> bool)
    requires qtype == TYPE_A || qtype == TYPE_AAAA
    ensures SelectAddresses(AddressPairs(p, records), qtype, owner)
            == (Gather(p, records, qtype, owner, pub), GatherTtls(p, records, qtype, owner, pub))
  {
    hide SelectAddresses, SvcbHints;
    if records == [] {
      assert SelectAddresses([], qtype, owner) == ([], []) by { SelectNothing(qtype, owner); }
    } else {
      var front, r := records[..|records| - 1], records[|records| - 1];
      SelectAddressesGathers(p, front, qtype, owner, pub);
      if InPacket(p, r) {
        SelectAddressesSnoc(AddressPairs(p, front), r, Payload(p, r), qtype, owner);
        assert Repeat(r.ttl, 1) == [r.ttl];
      }
    }
  }

  lemma SelectNothing(qtype: nat, owner: string)
    ensures SelectAddresses([], qtype, owner) == ([], []) && SelectHints([], owner) == ([], [])
  {
  }

  lemma {:induction false} SelectHintsGathers(p: Packet, records: seq<Record>, qtype: nat, owner: string, pub: Address -> bool)
    requires IsSvcb(qtype)
    ensures SelectHints(HintPairs(p, records, pub), owner)
            == (Gather(p, records, qtype, owner, pub), GatherTtls(p, records, qtype, owner, pub))
  {
    hide SelectHints, SvcbHints, Repeat;
    if records == [] {
      assert SelectHints([], owner) == ([], []) by { SelectNothing(qtype, owner); }
    } else {
      var front, r := records[..|records| - 1], records[|records| - 1];
      SelectHintsGathers(p, front, qtype, owner, pub);
      if InPacket(p, r) && SvcbHints(p, r.start, r.end, pub).Some? {
        SelectHintsSnoc(HintPairs(p, front, pub), r, SvcbHints(p, r.start, r.end, pub).value, owner);
      }
    }
  }

  method ReadRecords(p: Packet, start: nat, answers: nat, authorities: nat, additional: nat)
    returns (r: Option<seq<Record>>, offset: nat)
    ensures r == RecordsTo(p, start, answers + authorities + additional, answers, authorities)
    ensures r.Some? ==> offset == EndOf(start, r.value)
  {
    hide RecordAt;
    var records: seq<Record> := [];
    offset := start;
    var sections := [(AnswerSection, answers), (AuthoritySection, authorities), (AdditionalSection, additional)];
    ghost var total := answers + authorities + additional;
    for s := 0 to 3
      invariant |records| == (if s == 0 then 0 else if s == 1 then answers else if s == 2 then answers + authorities else total)
      invariant RecordsTo(p, start, |records|, answers, authorities) == Some(records)
      invariant offset == EndOf(start, records)
    {
      var (section, count) := sections[s];
      ghost var base := |records|;
      for i := 0 to count
        invariant |records| == base + i
        invariant RecordsTo(p, start, |records|, answers, authorities) == Some(records)
        invariant offset == EndOf(start, records)
      {
        assert SectionOf(|records|, answers, authorities) == section;
        var record := ReadRecord(p, offset, section);
        if record.None? {
          assert RecordsTo(p, start, |records| + 1, answers, authorities).None?;
          if RecordsTo(p, start, total, answers, authorities).Some? {
            RecordsPrefix(p, start, |records| + 1, total, answers, authorities);
          }
          return None, offset;
        }
        records := records + [record.value];
        offset := record.value.end;
      }
    }
    return Some(records), offset;
  }

  method ReadRecord(p: Packet, o: nat, section: Section) returns (r: Option<Record>)
    ensures r == RecordAt(p, o, section)
  {
    var owner := DecodedName(p, o);
    if owner.None? {
      return None;
    }
    var offset := owner.value.next;
    if offset + 10 > |p| {
      return None;
    }
    var size := U16(p, offset + 8);
    var end := offset + 10 + size;
    if end > |p| {
      return None;
    }
    return Some(Record(section, o, owner.value.text, U16(p, offset), U16(p, offset + 2), U32(p, offset + 4), offset + 10, end));
  }

  /** Validates every record and sorts the class-IN ones by what they offer. */
  method SortRecords(p: Packet, records: seq<Record>, pub: Address -> bool)
    returns (ok: bool, links: map<string, Link>, addresses: seq<(Record, Address)>, hints: seq<(Record, seq<Address>)>)
    requires forall i :: 0 <= i < |records| ==> InPacket(p, records[i])
    ensures ok <==> AllWellFormed(p, records, pub) && LinksOf(p, records).Some?
    ensures ok ==> links == LinksOf(p, records).value
    ensures ok ==> addresses == AddressPairs(p, records) && hints == HintPairs(p, records, pub)
  {
    hide DecodeName, SvcbHints;
    ok, links, addresses, hints := true, map[], [], [];
    for i := 0 to |records|
      invariant ok && AllWellFormed(p, records[..i], pub)
      invariant LinksOf(p, records[..i]) == Some(links)
      invariant addresses == AddressPairs(p, records[..i]) && hints == HintPairs(p, records[..i], pub)
    {
      var r := records[i];
      assert records[..i + 1][..i] == records[..i] && records[..i + 1][i] == r;
      ghost var upto := records[..i + 1];
      if r.rclass == CLASS_IN {
        if r.rtype == TYPE_A || r.rtype == TYPE_AAAA {
          var width := if r.rtype == TYPE_A then 4 else 16;
          if r.end - r.start != width || !pub(Payload(p, r)) {
            assert !WellFormed(p, records[i], pub);
            ok := false;
            return;
          }
          addresses := addresses + [(r, Payload(p, r))];
        } else if r.rtype == TYPE_CNAME {
          var name := DecodedName(p, r.start);
          if name.None? || name.value.next != r.end {
            assert !WellFormed(p, records[i], pub);
            ok := false;
            return;
          }
          if r.section == AnswerSection {
            if r.owner in links && links[r.owner].target != name.value.text {
              NoLinksLater(p, records, i + 1);
              ok := false;
              return;
            }
            links := links[r.owner := Link(name.value.text, if r.owner in links then Min(r.ttl, links[r.owner].ttl) else r.ttl)];
          }
        } else if IsSvcb(r.rtype) {
          var found := CheckedSvcbHints(p, r.start, r.end, pub);
          if found.None? {
            assert !WellFormed(p, records[i], pub);
            ok := false;
            return;
          }
          if r.section == AnswerSection {
            hints := hints + [(r, found.value)];
          }
        }
      }
      assert forall j :: 0 <= j < i ==> upto[j] == records[..i][j];
    }
    assert records[..|records|] == records;
  }

  lemma {:induction false} NoLinksLater(p: Packet, records: seq<Record>, k: nat)
    requires k <= |records| && LinksOf(p, records[..k]).None?
    ensures LinksOf(p, records).None?
    decreases |records| - k
  {
    if k == |records| {
      assert records[..k] == records;
    } else {
      assert records[..k + 1][..k] == records[..k];
      NoLinksLater(p, records, k + 1);
    }
  }

  /** Follows aliases with a visited set; cycles are refused. */
  method ChaseAliases(links: map<string, Link>, name: string) returns (terminal: Option<string>, ttls: seq<nat>, ghost n: nat)
    ensures terminal.Some? ==> Stops(Hop(links), name, n) && terminal == Iter(Hop(links), name, n) && ttls == AliasTtls(links, name, n)
    ensures terminal.None? ==> forall m: nat :: !Stops(Hop(links), name, m)
  {
    var at := name;
    var visited: set<string> := {};
    ttls, n := [], 0;
    while at in links
      invariant Iter(Hop(links), name, n) == Some(at) && ttls == AliasTtls(links, name, n)
      invariant MetBefore(Hop(links), name, visited, n)
      invariant visited <= links.Keys
      decreases links.Keys - visited
    {
      if at in visited {
        ghost var j: nat :| j < n && Iter(Hop(links), name, j) == Some(at);
        forall m: nat ensures !Stops(Hop(links), name, m) {
          RevisitNeverStops(Hop(links), name, j, n, m);
        }
        return None, ttls, n;
      }
      MetBeforeGrows(Hop(links), name, visited, n, at);
      visited := visited + {at};
      ttls := ttls + [links[at].ttl];
      at := links[at].target;
      n := n + 1;
    }
    return Some(at), ttls, n;
  }

  method CollectAddresses(pairs: seq<(Record, Address)>, qtype: nat, owner: string) returns (addresses: seq<Address>, ttls: seq<nat>)
    ensures (addresses, ttls) == SelectAddresses(pairs, qtype, owner)
  {
    addresses, ttls := [], [];
    for i := 0 to |pairs|
      invariant (addresses, ttls) == SelectAddresses(pairs[..i], qtype, owner)
    {
      assert pairs[..i + 1][..i] == pairs[..i];
      if Selected(pairs[i].0, qtype, owner) {
        addresses, ttls := addresses + [pairs[i].1], ttls + [pairs[i].0.ttl];
      }
    }
    assert pairs[..|pairs|] == pairs;
  }

  method CollectHints(pairs: seq<(Record, seq<Address>)>, owner: string) returns (addresses: seq<Address>, ttls: seq<nat>)
    ensures (addresses, ttls) == SelectHints(pairs, owner)
  {
    addresses, ttls := [], [];
    for i := 0 to |pairs|
      invariant (addresses, ttls) == SelectHints(pairs[..i], owner)
    {
      assert pairs[..i + 1][..i] == pairs[..i];
      if pairs[i].0.owner == owner {
        addresses, ttls := addresses + pairs[i].1, ttls + Repeat(pairs[i].0.ttl, |pairs[i].1|);
      }
    }
    assert pairs[..|pairs|] == pairs;
  }

  method JudgeRecords(p: Packet, records: seq<Record>, name: string, qtype: nat, pub: Address -> bool) returns (r: Option<Answer>)
    requires AllowedType(qtype) && forall i :: 0 <= i < |records| ==> InPacket(p, records[i])
    ensures r == RecordsMeaning(p, records, name, qtype, pub)
  {
    hide AliasTtls, GatherTtls, Gather, LinksOf, AllWellFormed, MinOf, Distinct, SelectAddresses, SelectHints;
    var ok, links, addressPairs, hintPairs := SortRecords(p, records, pub);
    if !ok {
      return None;
    }
    var terminal, aliasTtls, n := ChaseAliases(links, name);
    if terminal.None? {
      return None;
    }
    var owner := terminal.value;
    var addresses, ttls;
    if qtype == TYPE_A || qtype == TYPE_AAAA {
      addresses, ttls := CollectAddresses(addressPairs, qtype, owner);
      SelectAddressesGathers(p, records, qtype, owner, pub);
    } else {
      addresses, ttls := CollectHints(hintPairs, owner);
      SelectHintsGathers(p, records, qtype, owner, pub);
    }
    forall m: nat | Stops(Hop(links), name, m) ensures m == n {
      StopsOnce(Hop(links), name, m, n);
    }
    return Some(Answer(name, qtype, Distinct(addresses), if addresses == [] then 0 else MinOf(aliasTtls + ttls)));
  }

  method CheckedResponse(query: Packet, response: Packet, pub: Address -> bool) returns (r: Option<Answer>)
    ensures r == ResponseMeaning(query, response, pub)
  {
    hide QueryMeaning, QuestionAt, RecordsTo, RecordsMeaning;
    var asked := CheckedQuery(query);
    if asked.None? || |response| < HEADER_SIZE || |response| > MAX_MESSAGE || |query| < 2 || response[..2] != query[..2] {
      return None;
    }
    var flags := U16(response, 2);
    if !IsResponse(flags) || Opcode(flags) != 0 || Truncated(flags) || ReservedZ(flags) || Rcode(flags) != 0 {
      return None;
    }
    var question := ReadQuestion(response);
    if question.None? {
      return None;
    }
    var q := question.value;
    if q.name != asked.value.name || q.qtype != asked.value.qtype || q.qclass != asked.value.qclass {
      return None;
    }
    var answers, authorities, additional := U16(response, 6), U16(response, 8), U16(response, 10);
    var records, offset := ReadRecords(response, q.end, answers, authorities, additional);
    if records.None? || offset != |response| {
      return None;
    }
    RecordsContiguous(response, q.end, answers + authorities + additional, answers, authorities);
    forall i | 0 <= i < |records.value| ensures InPacket(response, records.value[i]) {
      assert Placed(response, q.end, records.value, i);
    }
    assert AllowedType(asked.value.qtype) by { AcceptedType(query); }
    r := JudgeRecords(response, records.value, asked.value.name, asked.value.qtype, pub);
  }

  lemma AcceptedType(query: Packet)
    requires QueryMeaning(query).Some?
    ensures AllowedType(QueryMeaning(query).value.qtype) && QueryMeaning(query).value.qclass == CLASS_IN
    ensures QuestionAt(query) == QueryMeaning(query) && |query| >= HEADER_SIZE
  {
  }

  // ---- the layout of the records ----

  lemma RecordBounds(p: Packet, o: nat, section: Section)
    requires RecordAt(p, o, section).Some?
    ensures var r := RecordAt(p, o, section).value; InPacket(p, r) && r.at == o
  {
    hide DecodeName;
    NextInside(p, o);
  }

  /** Records follow one another from `o`: each starts where the one before ends. */
  ghost predicate Contiguous(p: Packet, o: nat, records: seq<Record>) {
    forall i :: 0 <= i < |records| ==> Placed(p, o, records, i)
  }

  predicate Placed(p: Packet, o: nat, records: seq<Record>, i: nat)
    requires i < |records|
  {
    InPacket(p, records[i]) && records[i].at == if i == 0 then o else records[i - 1].end
  }

  lemma {:induction false} RecordsContiguous(p: Packet, o: nat, k: nat, answers: nat, authorities: nat)
    requires RecordsTo(p, o, k, answers, authorities).Some?
    ensures var records := RecordsTo(p, o, k, answers, authorities).value;
            |records| == k && Contiguous(p, o, records)
  {
    hide RecordAt;
    if k > 0 {
      RecordsContiguous(p, o, k - 1, answers, authorities);
      var before := RecordsTo(p, o, k - 1, answers, authorities).value;
      var records := RecordsTo(p, o, k, answers, authorities).value;
      RecordBounds(p, EndOf(o, before), SectionOf(k - 1, answers, authorities));
      forall i | 0 <= i < k ensures Placed(p, o, records, i) {
        if i < k - 1 {
          assert Placed(p, o, before, i);
        }
      }
    }
  }

  lemma {:induction false} RecordsInOrder(p: Packet, o: nat, records: seq<Record>, i: nat, j: nat)
    requires Contiguous(p, o, records) && i <= j < |records|
    ensures InPacket(p, records[i]) && o <= records[i].at
    ensures i < j ==> records[i].end <= records[j].at
    decreases j
  {
    assert Placed(p, o, records, i) && Placed(p, o, records, j);
    if i < j {
      RecordsInOrder(p, o, records, i, j - 1);
      assert Placed(p, o, records, j - 1);
    } else if i > 0 {
      RecordsInOrder(p, o, records, i - 1, i - 1);
    }
  }
}
