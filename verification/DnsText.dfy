/** What decoded names look like: their text, the octets they stand for, and the
    meaning of each first octet. */
module DnsText {
  import opened Wire
  import opened DnsNames

  const DOT: Byte := 0x2E

  // ---- text ----

  /** One label reads octet by octet, with exactly 'A' to 'Z' lowered. */
  lemma OneLabelText(l: Label)
    ensures |Text([l])| == |l|
    ensures forall i :: 0 <= i < |l| ==> Text([l])[i] == if 65 <= l[i] <= 90 then (l[i] + 32) as char else l[i] as char
  {
  }

  /** Text joins with a dot, wherever the labels are split. */
  lemma {:induction false} TextConcat(a: seq<Label>, b: seq<Label>)
    requires a != [] && b != []
    ensures Text(a + b) == Text(a) + "." + Text(b)
  {
    hide Lower;
    if |a| == 1 {
      assert (a + b)[1..] == b;
    } else {
      assert (a + b)[1..] == a[1..] + b;
      TextConcat(a[1..], b);
    }
  }

  /** The same octet, or the same letter in the other case. */
  predicate SameLetter(b: Byte, c: Byte) {
    b == c || (65 <= b <= 90 && c as int == b + 32) || (65 <= c <= 90 && b as int == c + 32)
  }

  predicate SameLabel(l: Label, m: Label) {
    |l| == |m| && forall i :: 0 <= i < |l| ==> SameLetter(l[i], m[i])
  }

  predicate SameLabels(x: seq<Label>, y: seq<Label>) {
    |x| == |y| && forall i :: 0 <= i < |x| ==> SameLabel(x[i], y[i])
  }

  /** Labels a host name has: not empty and without a dot in them. */
  predicate Dotless(x: seq<Label>) { forall i :: 0 <= i < |x| ==> x[i] != [] && DOT !in x[i] }

  lemma LowerSame(l: Label, m: Label)
    ensures Lower(l) == Lower(m) <==> SameLabel(l, m)
  {
    if Lower(l) == Lower(m) {
      assert |Lower(l)| == |l| && |Lower(m)| == |m|;
      forall i | 0 <= i < |l| ensures SameLetter(l[i], m[i]) {
        assert Lower(l)[i] == Lower(m)[i];
      }
    }
    if SameLabel(l, m) {
      assert forall i :: 0 <= i < |l| ==> Lower(l)[i] == Lower(m)[i];
    }
  }

  lemma LowerDotless(l: Label)
    requires DOT !in l
    ensures '.' !in Lower(l)
  {
    forall i | 0 <= i < |l| ensures Lower(l)[i] != '.' {
      assert l[i] in l;
    }
  }

  /** The text up to the first dot is the first label. */
  lemma FirstDot(x: seq<Label>)
    requires x != [] && Dotless(x)
    ensures |Text(x)| >= |x[0]| >= 1 && Text(x)[..|x[0]|] == Lower(x[0]) && '.' !in Text(x)[..|x[0]|]
    ensures if |x| == 1 then |Text(x)| == |x[0]|
            else |Text(x)| > |x[0]| && Text(x)[|x[0]|] == '.' && Text(x)[|x[0]| + 1..] == Text(x[1..])
  {
    LowerDotless(x[0]);
  }

  /** For labels without dots in them, the text says exactly which labels they are, up to case. */
  lemma {:induction false} TextTellsLabels(x: seq<Label>, y: seq<Label>)
    requires Dotless(x) && Dotless(y)
    ensures Text(x) == Text(y) <==> SameLabels(x, y)
    decreases |x|
  {
    hide Text, Lower, SameLabel;
    if x == [] || y == [] {
      EmptyText();
      if x != [] {
        FirstDot(x);
      }
      if y != [] {
        FirstDot(y);
      }
    } else {
      FirstDot(x);
      FirstDot(y);
      LowerSame(x[0], y[0]);
      TextTellsLabels(x[1..], y[1..]);
      SameLabelsCons(x, y);
      EmptyText();
      if Text(x) == Text(y) {
        SameFirst(x, y);
      }
    }
  }

  lemma EmptyText()
    ensures Text([]) == ""
  {
  }

  lemma SameLabelsCons(x: seq<Label>, y: seq<Label>)
    requires x != [] && y != []
    ensures SameLabels(x, y) <==> SameLabel(x[0], y[0]) && SameLabels(x[1..], y[1..])
  {
    hide SameLabel;
    if SameLabel(x[0], y[0]) && SameLabels(x[1..], y[1..]) {
      forall i | 0 <= i < |x| ensures SameLabel(x[i], y[i]) {
        assert i > 0 ==> x[i] == x[1..][i - 1] && y[i] == y[1..][i - 1];
      }
    }
  }

  lemma SameFirst(x: seq<Label>, y: seq<Label>)
    requires x != [] && y != [] && Dotless(x) && Dotless(y) && Text(x) == Text(y)
    ensures |x[0]| == |y[0]|
  {
    hide Text, Lower;
    FirstDot(x);
    FirstDot(y);
    DotInside(Text(x));
  }

  lemma DotInside(s: string)
    ensures forall k, n :: 0 <= k < n <= |s| && s[k] == '.' ==> '.' in s[..n]
  {
    forall k, n | 0 <= k < n <= |s| && s[k] == '.' ensures '.' in s[..n] {
      assert s[..n][k] == '.';
    }
  }

  // ---- octets ----

  predicate GoodLabels(labels: seq<Label>) {
    forall i :: 0 <= i < |labels| ==> 1 <= |labels[i]| <= 63 && forall j :: 0 <= j < |labels[i]| ==> labels[i][j] < 128
  }

  /** A name written out: each label after its length, and a zero octet. */
  function Encode(labels: seq<Label>): seq<Byte>
    requires GoodLabels(labels)
  {
    if labels == [] then [0] else [|labels[0]|] + labels[0] + Encode(labels[1..])
  }

  lemma EncodedSplit(p: Packet, o: nat, l: Label, rest: seq<Byte>, next: nat)
    requires o <= next <= |p| && 1 <= |l| <= 63 && p[o..next] == [|l|] + l + rest
    ensures p[o] as int == |l| && o + 1 + |l| <= next && p[o + 1..o + 1 + |l|] == l && p[o + 1 + |l|..next] == rest
  {
    var s, n := p[o..next], |l|;
    assert s[0] == p[o] && s[1..1 + n] == l && s[1 + n..|s|] == rest;
    Slices(p, o, next, 1, 1 + n);
    Slices(p, o, next, 1 + n, |s|);
  }

  lemma EncodedLabel(p: Packet, o: nat, labels: seq<Label>, next: nat)
    requires GoodLabels(labels) && o <= next <= |p| && p[o..next] == Encode(labels) && labels != []
    ensures IsLabel(p, o) && LabelAt(p, o) == labels[0] && o + 1 + p[o] <= next
    ensures GoodLabels(labels[1..]) && p[o + 1 + p[o]..next] == Encode(labels[1..])
  {
    EncodedSplit(p, o, labels[0], Encode(labels[1..]), next);
  }

  lemma Slices(p: Packet, o: nat, next: nat, a: nat, b: nat)
    requires o <= next <= |p| && a <= b <= next - o
    ensures p[o..next][a..b] == p[o + a..o + b]
  {
    var s := p[o..next];
    assert forall i :: 0 <= i < b - a ==> s[a..b][i] == s[a + i] == p[o + a..o + b][i];
  }

  lemma EmptyEncodes()
    ensures Encode([]) == [0]
  {
  }

  lemma EncodedRoot(p: Packet, o: nat, next: nat)
    requires o <= next <= |p| && p[o..next] == [0]
    ensures IsRoot(p, o) && next == o + 1
  {
    assert p[o..next][0] == p[o];
  }

  /** Label by label, an uncompressed name is walked where its encoding stands. */
  lemma {:induction false} EncodedWalks(p: Packet, o: nat, labels: seq<Label>, next: nat)
    requires GoodLabels(labels) && o <= next <= |p| && p[o..next] == Encode(labels)
    ensures Walks(p, o, |labels|)
    ensures var t := Follow(p, o, |labels|).value; t.resume.None? && t.labels == labels && t.at + 1 == next
    decreases |labels|
  {
    hide Text, WireSize, IsLabel, IsPointer, LabelAt, Encode, GoodLabels, Advance, Step;
    if labels == [] {
      assert Encode(labels) == [0] by { EmptyEncodes(); }
      EncodedRoot(p, o, next);
      assert Follow(p, o, 0) == Some(Trail(o, [], None, {}));
    } else {
      EncodedLabel(p, o, labels, next);
      EncodedWalks(p, o + 1 + p[o], labels[1..], next);
      LabelLeads(p, o);
      FollowCons(p, o, |labels| - 1);
    }
  }

  lemma LabelLeads(p: Packet, o: nat)
    requires IsLabel(p, o)
    ensures Step(p, o) == Some(o + 1 + p[o]) && !IsPointer(p, o)
  {
  }

  lemma EncodeCons(p: Packet, o: nat, labels: seq<Label>, next: nat)
    requires IsLabel(p, o) && GoodLabels(labels) && o + 1 + p[o] <= next <= |p| && p[o + 1 + p[o]..next] == Encode(labels)
    ensures GoodLabels([LabelAt(p, o)] + labels) && p[o..next] == Encode([LabelAt(p, o)] + labels)
  {
    var all := [LabelAt(p, o)] + labels;
    assert all[1..] == labels;
    assert p[o..next] == [p[o]] + p[o + 1..o + 1 + p[o]] + p[o + 1 + p[o]..next];
  }

  lemma {:induction false} PlainEncodes(p: Packet, o: nat, k: nat)
    requires Walks(p, o, k) && Follow(p, o, k).value.resume.None?
    ensures var t := Follow(p, o, k).value;
            GoodLabels(t.labels) && o <= t.at < |p| && p[o..t.at + 1] == Encode(t.labels) && |t.labels| == k
    decreases k
  {
    hide Text, WireSize, IsLabel, IsPointer, LabelAt, GoodLabels, Encode;
    if k == 0 {
      assert Follow(p, o, 0) == Some(Trail(o, [], None, {}));
      RootEncodes(p, o);
    } else {
      FirstStep(p, o, k);
      FollowCons(p, o, k - 1);
      LabelOrPointer(p, o);
      LabelLeads(p, o);
      PlainEncodes(p, o + 1 + p[o], k - 1);
      var t := Follow(p, o, k).value;
      EncodeCons(p, o, t.labels[1..], t.at + 1);
      assert t.labels == [LabelAt(p, o)] + t.labels[1..];
    }
  }

  lemma LabelOrPointer(p: Packet, o: nat)
    requires Step(p, o).Some? && !IsPointer(p, o)
    ensures IsLabel(p, o)
  {
  }

  lemma RootEncodes(p: Packet, o: nat)
    requires IsRoot(p, o)
    ensures p[o..o + 1] == Encode([]) && GoodLabels([])
  {
  }

  /** The uncompressed reader returns exactly the labels whose encoding stands at the offset, at most 127 of them. */
  lemma PlainNameExact(p: Packet, o: nat, labels: seq<Label>, next: nat)
    ensures PlainNameAt(p, o) == Some(PlainName(labels, next)) <==>
            GoodLabels(labels) && |labels| <= 127 && o <= next <= |p| && p[o..next] == Encode(labels)
  {
    hide Follow, Text, WireSize, Encode;
    if PlainNameAt(p, o) == Some(PlainName(labels, next)) {
      var n: nat :| Walks(p, o, n) && Follow(p, o, n).value.resume.None? && n <= LABEL_COUNT_LIMIT;
      WalkMeaning(p, o, n);
      PlainEncodes(p, o, n);
    }
    if GoodLabels(labels) && |labels| <= 127 && o <= next <= |p| && p[o..next] == Encode(labels) {
      EncodedWalks(p, o, labels, next);
      WalkMeaning(p, o, |labels|);
    }
  }

  // ---- the meaning of each first octet ----

  lemma {:induction false} LabelsNotEmpty(p: Packet, o: nat, k: nat)
    requires Follow(p, o, k).Some?
    ensures forall i :: 0 <= i < |Follow(p, o, k).value.labels| ==> Follow(p, o, k).value.labels[i] != []
  {
    hide Text, WireSize;
    if k > 0 {
      LabelsNotEmpty(p, o, k - 1);
    }
  }

  /** The text of a name is two octets shorter than the name. */
  lemma {:induction false} TextLength(labels: seq<Label>)
    requires labels != []
    ensures |Text(labels)| + 2 == WireSize(labels)
  {
    assert labels == [labels[0]] + labels[1..];
    WireSizeCons(labels[0], labels[1..]);
    if |labels| == 1 {
      EmptyWireSize();
    } else {
      TextLength(labels[1..]);
    }
  }

  /** The text of a label followed by the rest of a name. */
  function Joined(first: string, rest: string): string { if rest == "" then first else first + "." + rest }

  lemma TextNotEmpty(labels: seq<Label>)
    requires labels != [] && labels[0] != []
    ensures Text(labels) != ""
  {
    assert |Lower(labels[0])| == |labels[0]|;
  }

  lemma TextCons(l: Label, rest: seq<Label>)
    requires l != [] && forall i :: 0 <= i < |rest| ==> rest[i] != []
    ensures Text([l] + rest) == Joined(Text([l]), Text(rest)) && WireSize([l] + rest) == |Text([l] + rest)| + 2
  {
    hide Lower, WireSize;
    TextLength([l] + rest);
    if rest == [] {
      assert [l] + rest == [l];
    } else {
      TextConcat([l], rest);
      TextNotEmpty(rest);
    }
  }

  lemma LabelWalks(p: Packet, o: nat, n: nat)
    requires IsLabel(p, o)
    ensures Walks(p, o, n) <==> n > 0 && Walks(p, o + 1 + p[o], n - 1)
    ensures Walks(p, o, n) ==>
              var t, s := Follow(p, o, n).value, Follow(p, o + 1 + p[o], n - 1).value;
              && t.labels == [LabelAt(p, o)] + s.labels && NameOf(t).next == NameOf(s).next
              && Text(t.labels) == Joined(Text([LabelAt(p, o)]), Text(s.labels)) && WireSize(t.labels) == |Text(t.labels)| + 2
  {
    hide Text, Ascii, LabelAt, WireSize, Joined;
    if n == 0 {
      assert Follow(p, o, 0) == Some(Trail(o, [], None, {}));
    } else {
      FollowCons(p, o, n - 1);
      if Walks(p, o, n) {
        LabelsNotEmpty(p, o + 1 + p[o], n - 1);
        TextCons(LabelAt(p, o), Follow(p, o + 1 + p[o], n - 1).value.labels);
      }
    }
  }

  lemma {:induction false} RestFits(p: Packet, o: nat, n: nat)
    requires IsLabel(p, o) && Walks(p, o, n)
    ensures n > 0 && Walks(p, o + 1 + p[o], n - 1)
    ensures WireSize(Follow(p, o, n).value.labels) > WireSize(Follow(p, o + 1 + p[o], n - 1).value.labels)
  {
    hide Text, Ascii, LabelAt, Joined, Follow, WireSize;
    LabelWalks(p, o, n);
    WireSizeCons(LabelAt(p, o), Follow(p, o + 1 + p[o], n - 1).value.labels);
  }

  lemma DecodeLabel(p: Packet, o: nat)
    requires IsLabel(p, o)
    ensures DecodeName(p, o) ==
            match DecodeName(p, o + 1 + p[o])
            case None => None
            case Some(rest) =>
              var text := Joined(Text([LabelAt(p, o)]), rest.text);
              if |text| <= 253 then Some(Name(text, rest.next)) else None
  {
    hide Text, WireSize, Follow, LabelAt, Joined;
    var next := o + 1 + p[o];
    if DecodeName(p, next).Some? {
      var n: nat :| Walks(p, next, n) && WireSize(Follow(p, next, n).value.labels) <= NAME_LIMIT;
      LabelWalks(p, o, n + 1);
      WalkMeaning(p, o, n + 1);
      WalkMeaning(p, next, n);
    } else {
      forall n: nat | Walks(p, o, n) ensures WireSize(Follow(p, o, n).value.labels) > NAME_LIMIT {
        LabelWalks(p, o, n);
        RestFits(p, o, n);
        WalkMeaning(p, next, n - 1);
      }
    }
  }

  lemma DecodeRoot(p: Packet, o: nat)
    requires IsRoot(p, o)
    ensures DecodeName(p, o) == Some(Name("", o + 1))
  {
    assert Follow(p, o, 0) == Some(Trail(o, [], None, {}));
    assert Walks(p, o, 0);
    WalkMeaning(p, o, 0);
  }

  lemma DecodeNothing(p: Packet, o: nat)
    requires Step(p, o).None? && !IsRoot(p, o)
    ensures DecodeName(p, o).None?
  {
    assert Follow(p, o, 0) == Some(Trail(o, [], None, {}));
    NoWalk(p, o, 0);
  }

  /** What every first octet means: the end, a label of up to 63 ASCII octets and
      the rest of the name, within 253 characters, a pointer, or an error. */
  lemma DecodeByFirstOctet(p: Packet, o: nat)
    ensures o >= |p| ==> DecodeName(p, o).None?
    ensures o < |p| && p[o] == 0 ==> DecodeName(p, o) == Some(Name("", o + 1))
    ensures o < |p| && 64 <= p[o] <= 191 ==> DecodeName(p, o).None?
    ensures o < |p| && p[o] >= 192 ==>
              DecodeName(p, o) ==
              if o + 1 == |p| || (p[o] as int - 192) * 256 + p[o + 1] as int >= |p| then None
              else match DecodeName(p, (p[o] as int - 192) * 256 + p[o + 1] as int)
                case None => None
                case Some(name) => Some(Name(name.text, o + 2))
    ensures o < |p| && 1 <= p[o] <= 63 ==>
              DecodeName(p, o) ==
              if o + 1 + p[o] > |p| || exists i :: o + 1 <= i < o + 1 + p[o] && p[i] >= 128 then None
              else match DecodeName(p, o + 1 + p[o])
                case None => None
                case Some(rest) =>
                  var text := Joined(Text([p[o + 1..o + 1 + p[o]]]), rest.text);
                  if |text| <= 253 then Some(Name(text, rest.next)) else None
  {
    hide DecodeName, Text, Joined;
    if IsRoot(p, o) {
      DecodeRoot(p, o);
    } else if IsLabel(p, o) {
      DecodeLabel(p, o);
    } else if IsPointer(p, o) {
      PointerReads(p, o);
    } else {
      DecodeNothing(p, o);
    }
    if o < |p| && 1 <= p[o] <= 63 && o + 1 + p[o] <= |p| {
      AsciiOctets(p, o);
    }
  }

  lemma AsciiOctets(p: Packet, o: nat)
    requires o < |p| && o + 1 + p[o] <= |p|
    ensures Ascii(LabelAt(p, o)) <==> forall i :: o + 1 <= i < o + 1 + p[o] ==> p[i] < 128
  {
    assert forall i :: o + 1 <= i < o + 1 + p[o] ==> p[i] == LabelAt(p, o)[i - o - 1];
  }
}
