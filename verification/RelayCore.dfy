/** Two sockets, two bounded buffers and half-close: what every relay loop moves. */
module RelayCore {
  import opened Wire

  type Clock = int

  datatype Side = Client | Parent

  function Other(s: Side): Side { if s == Client then Parent else Client }

  datatype Pair<T> = Pair(client: T, parent: T) {
    function At(s: Side): T { if s == Client then client else parent }
    function With(s: Side, v: T): Pair<T> { if s == Client then Pair(v, parent) else Pair(client, v) }
  }

  /** What one non-blocking call on a socket does. */
  datatype Io = WouldBlock | Ready(size: nat) | Broken

  datatype Attempt = Attempt(io: Io, at: Clock)

  datatype End = Eof | Timeout | Closed | AuditUnavailable | LeaseRevoked | GraceExpired | Raised

  /** Buffers are named by the side they are sent to.  `unread` is what a peer
      will still send, `received` and `sent` what has crossed each socket. */
  datatype Duplex = Duplex(buffers: Pair<seq<Byte>>, ended: set<Side>, closed: set<Side>, lastActivity: Clock,
                           unread: Pair<seq<Byte>>, received: Pair<seq<Byte>>, sent: Pair<seq<Byte>>)

  function Opened(input: Pair<seq<Byte>>, now: Clock): Duplex {
    Duplex(Pair([], []), {}, {}, now, input, Pair([], []), Pair([], []))
  }

  const SIDES: seq<Side> := [Client, Parent]

  function Drained(d: Duplex, dest: Side): bool { Other(dest) in d.ended && d.buffers.At(dest) == [] }

  /** Shuts the write side of every direction whose input ended and whose buffer is empty. */
  function CloseDrained(d: Duplex): Duplex {
    d.(closed := d.closed + (set s | s in {Client, Parent} && Drained(d, s)))
  }

  predicate Finished(d: Duplex) { |d.ended| == 2 && d.buffers.client == [] && d.buffers.parent == [] }

  function Only(sides: seq<Side>, ready: set<Side>): seq<Side> {
    if sides == [] then []
    else if sides[0] in ready then [sides[0]] + Only(sides[1..], ready)
    else Only(sides[1..], ready)
  }

  function Readers(d: Duplex, limit: nat): set<Side> {
    set s | s in {Client, Parent} && s !in d.ended && |d.buffers.At(Other(s))| < limit
  }

  function Writers(d: Duplex): set<Side> { set s | s in {Client, Parent} && d.buffers.At(s) != [] }

  function SendOne(d: Duplex, dest: Side, a: Attempt): (Duplex, Option<End>) {
    match a.io
    case WouldBlock => (d, None)
    case Broken => (d, Some(Raised))
    case Ready(size) =>
      var buffer := d.buffers.At(dest);
      var n := Min(size, |buffer|);
      if n == 0 then (d, Some(Closed))
      else (d.(buffers := d.buffers.With(dest, buffer[n..]), sent := d.sent.With(dest, d.sent.At(dest) + buffer[..n]),
               lastActivity := a.at), None)
  }

  /** A ready socket gives at least one octet unless its stream is over or none was asked for. */
  function RecvOne(d: Duplex, source: Side, a: Attempt, limit: nat): (Duplex, Option<End>) {
    match a.io
    case WouldBlock => (d, None)
    case Broken => (d, Some(Raised))
    case Ready(size) =>
      var dest, stream := Other(source), d.unread.At(source);
      var want := limit - |d.buffers.At(dest)|;
      var piece := stream[..Min(size + 1, Min(Max(want, 0), |stream|))];
      if piece == [] then (d.(ended := d.ended + {source}), None)
      else (d.(buffers := d.buffers.With(dest, d.buffers.At(dest) + piece),
               unread := d.unread.With(source, stream[|piece|..]),
               received := d.received.With(source, d.received.At(source) + piece),
               lastActivity := a.at), None)
  }

  function SendAll(d: Duplex, dests: seq<Side>, tries: Pair<Attempt>): (Duplex, Option<End>)
    decreases |dests|
  {
    if dests == [] then (d, None)
    else
      var (next, end) := SendOne(d, dests[0], tries.At(dests[0]));
      if end.Some? then (next, end) else SendAll(next, dests[1..], tries)
  }

  function RecvAll(d: Duplex, sources: seq<Side>, tries: Pair<Attempt>, limit: nat): (Duplex, Option<End>)
    decreases |sources|
  {
    if sources == [] then (d, None)
    else
      var (next, end) := RecvOne(d, sources[0], tries.At(sources[0]), limit);
      if end.Some? then (next, end) else RecvAll(next, sources[1..], tries, limit)
  }

  // ---- nothing is lost, duplicated or reordered ----

  ghost predicate SideOk(d: Duplex, input: Pair<seq<Byte>>, limit: nat, source: Side) {
    var dest := Other(source);
    && d.received.At(source) + d.unread.At(source) == input.At(source)
    && d.received.At(source) == d.sent.At(dest) + d.buffers.At(dest)
    && |d.buffers.At(dest)| <= limit
    && (source in d.ended ==> d.unread.At(source) == [])
    && (dest in d.closed ==> source in d.ended && d.buffers.At(dest) == [])
  }

  /** At every point what was read from each side is what was sent to the other
      followed by its buffer; an ended side was read in full; a write side is shut
      only after its whole stream was delivered. */
  ghost predicate DuplexOk(d: Duplex, input: Pair<seq<Byte>>, limit: nat) {
    SideOk(d, input, limit, Client) && SideOk(d, input, limit, Parent)
  }

  /** A shut write side has delivered its whole stream. */
  lemma ClosedIsDelivered(d: Duplex, input: Pair<seq<Byte>>, limit: nat, dest: Side)
    requires DuplexOk(d, input, limit) && dest in d.closed
    ensures d.sent.At(dest) == input.At(Other(dest))
  {
    assert SideOk(d, input, limit, Other(dest));
  }

  /** The end of both directions delivers both streams in full. */
  lemma FinishedIsDelivered(d: Duplex, input: Pair<seq<Byte>>, limit: nat)
    requires DuplexOk(d, input, limit) && Finished(d)
    ensures d.sent == Pair(input.parent, input.client)
  {
    assert d.ended == {Client, Parent} by { BothEnded(d.ended); }
    assert SideOk(d, input, limit, Client) && SideOk(d, input, limit, Parent);
    assert d.sent.parent == input.client && d.sent.client == input.parent;
  }

  lemma BothEnded(ended: set<Side>)
    requires |ended| == 2
    ensures ended == {Client, Parent}
  {
    if Client !in ended {
      assert forall s :: s in ended ==> s == Parent;
      SmallSet(ended, Parent);
    } else if Parent !in ended {
      assert forall s :: s in ended ==> s == Client;
      SmallSet(ended, Client);
    } else {
      forall s | s in ended ensures s in {Client, Parent} {
        assert s.Client? || s.Parent?;
      }
    }
  }

  lemma SmallSet(ended: set<Side>, s: Side)
    requires ended <= {s}
    ensures |ended| <= 1
  {
    if s in ended {
      assert ended == {s};
    } else {
      assert ended == {};
    }
  }

  lemma CloseKeepsOk(d: Duplex, input: Pair<seq<Byte>>, limit: nat)
    requires DuplexOk(d, input, limit)
    ensures DuplexOk(CloseDrained(d), input, limit)
  {
  }

  lemma SendKeepsOk(d: Duplex, dest: Side, a: Attempt, input: Pair<seq<Byte>>, limit: nat)
    requires DuplexOk(d, input, limit)
    ensures DuplexOk(SendOne(d, dest, a).0, input, limit)
  {
    var buffer := d.buffers.At(dest);
    if a.io.Ready? {
      var n := Min(a.io.size, |buffer|);
      assert buffer == buffer[..n] + buffer[n..];
      assert d.sent.At(dest) + buffer == (d.sent.At(dest) + buffer[..n]) + buffer[n..];
    }
  }

  /** Asking for at least one octet keeps the books: an empty read is then a real end of stream. */
  lemma RecvKeepsOk(d: Duplex, source: Side, a: Attempt, input: Pair<seq<Byte>>, limit: nat)
    requires DuplexOk(d, input, limit)
    requires source !in d.ended && |d.buffers.At(Other(source))| < limit
    ensures DuplexOk(RecvOne(d, source, a, limit).0, input, limit)
    ensures source in RecvOne(d, source, a, limit).0.ended ==> d.unread.At(source) == []
  {
    if a.io.Ready? {
      var dest, stream := Other(source), d.unread.At(source);
      var k := Min(a.io.size + 1, Min(limit - |d.buffers.At(dest)|, |stream|));
      var piece := stream[..k];
      assert piece == [] ==> stream == [];
      assert stream == piece + stream[k..];
      assert d.received.At(source) + stream == (d.received.At(source) + piece) + stream[k..];
      assert d.sent.At(dest) + d.buffers.At(dest) + piece == d.sent.At(dest) + (d.buffers.At(dest) + piece);
    }
  }

  predicate Distinctly(sides: seq<Side>) { forall i, j :: 0 <= i < j < |sides| ==> sides[i] != sides[j] }

  /** Sending only shrinks buffers, and reads nothing. */
  lemma {:induction false} SendAllKeeps(d: Duplex, dests: seq<Side>, tries: Pair<Attempt>, input: Pair<seq<Byte>>, limit: nat)
    requires DuplexOk(d, input, limit)
    ensures var e := SendAll(d, dests, tries).0;
            && DuplexOk(e, input, limit)
            && e.ended == d.ended && e.closed == d.closed && e.unread == d.unread && e.received == d.received
            && (forall s :: |e.buffers.At(s)| <= |d.buffers.At(s)|)
            && (forall s :: s !in dests ==> e.buffers.At(s) == d.buffers.At(s) && e.sent.At(s) == d.sent.At(s))
    decreases |dests|
  {
    if dests != [] {
      SendKeepsOk(d, dests[0], tries.At(dests[0]), input, limit);
      var (next, end) := SendOne(d, dests[0], tries.At(dests[0]));
      if end.None? {
        SendAllKeeps(next, dests[1..], tries, input, limit);
      }
    }
  }

  lemma {:induction false} RecvAllKeeps(d: Duplex, sources: seq<Side>, tries: Pair<Attempt>, input: Pair<seq<Byte>>, limit: nat)
    requires DuplexOk(d, input, limit) && Distinctly(sources)
    requires forall s :: s in sources ==> s !in d.ended && |d.buffers.At(Other(s))| < limit
    ensures var e := RecvAll(d, sources, tries, limit).0;
            && DuplexOk(e, input, limit)
            && e.sent == d.sent && e.closed == d.closed && d.ended <= e.ended
            && (forall s :: s !in sources ==> e.received.At(s) == d.received.At(s) && (s in e.ended ==> s in d.ended))
    decreases |sources|
  {
    if sources != [] {
      var source := sources[0];
      RecvKeepsOk(d, source, tries.At(source), input, limit);
      var (next, end) := RecvOne(d, source, tries.At(source), limit);
      if end.None? {
        forall s | s in sources[1..] ensures s !in next.ended && |next.buffers.At(Other(s))| < limit {
          var i :| 0 <= i < |sources[1..]| && sources[1..][i] == s;
          assert sources[i + 1] == s && s != source && s in sources;
        }
        assert Distinctly(sources[1..]) by {
          assert forall i :: 0 <= i < |sources[1..]| ==> sources[1..][i] == sources[i + 1];
        }
        RecvAllKeeps(next, sources[1..], tries, input, limit);
      }
    }
  }

  lemma {:induction false} OnlyExact(sides: seq<Side>, ready: set<Side>)
    ensures forall s :: s in Only(sides, ready) <==> s in sides && s in ready
    ensures Distinctly(sides) ==> Distinctly(Only(sides, ready))
  {
    if sides != [] {
      OnlyExact(sides[1..], ready);
      assert sides == [sides[0]] + sides[1..];
      if Distinctly(sides) {
        assert forall i :: 0 <= i < |sides[1..]| ==> sides[1..][i] == sides[i + 1];
        assert sides[0] !in sides[1..];
      }
    }
  }

  /** Moving what select reported, writes before reads. */
  function Transfer(d: Duplex, writers: seq<Side>, readers: seq<Side>, sends: Pair<Attempt>, receives: Pair<Attempt>, limit: nat)
    : (Duplex, Option<End>)
  {
    var (next, end) := SendAll(d, writers, sends);
    if end.Some? then (next, end) else RecvAll(next, readers, receives, limit)
  }

  /** Moving keeps the books, touches no shut side, and moves bytes only on the listed sides. */
  lemma TransferKeeps(d: Duplex, writers: seq<Side>, readers: seq<Side>, sends: Pair<Attempt>, receives: Pair<Attempt>,
                      input: Pair<seq<Byte>>, limit: nat)
    requires DuplexOk(d, input, limit) && Distinctly(readers)
    requires forall s :: s in readers ==> s in Readers(d, limit)
    ensures var e := Transfer(d, writers, readers, sends, receives, limit).0;
            && DuplexOk(e, input, limit) && e.closed == d.closed && d.ended <= e.ended
            && (forall s :: s in d.closed ==> e.sent.At(s) == d.sent.At(s))
            && (forall s :: s !in writers ==> e.sent.At(s) == d.sent.At(s))
            && (forall s :: s !in readers ==> e.received.At(s) == d.received.At(s) && (s in e.ended ==> s in d.ended))
  {
    hide SendAll, RecvAll, SideOk;
    SendAllKeeps(d, writers, sends, input, limit);
    var (next, end) := SendAll(d, writers, sends);
    if end.None? {
      RecvAllKeeps(next, readers, receives, input, limit);
    }
    forall s | s in d.closed ensures Transfer(d, writers, readers, sends, receives, limit).0.sent.At(s) == d.sent.At(s) {
      ClosedIsDelivered(d, input, limit, s);
      var e := Transfer(d, writers, readers, sends, receives, limit).0;
      ClosedIsDelivered(e, input, limit, s);
    }
  }

  // ---- progress ----

  /** Twice the unread octets, the buffered octets, and the open directions. */
  function Work(d: Duplex): nat {
    2 * (|d.unread.client| + |d.unread.parent|) + |d.buffers.client| + |d.buffers.parent|
    + (if Client in d.ended then 0 else 1) + (if Parent in d.ended then 0 else 1)
  }

  /** A pass that moved no octet and saw no end of stream. */
  predicate Idled(d: Duplex, e: Duplex) {
    e.sent == d.sent && e.received == d.received && e.ended == d.ended && e.lastActivity == d.lastActivity
  }

  lemma SendProgress(d: Duplex, dest: Side, a: Attempt)
    ensures var e := SendOne(d, dest, a).0; e == d || (Work(e) < Work(d) && e.lastActivity == a.at)
  {
  }

  lemma RecvProgress(d: Duplex, source: Side, a: Attempt, limit: nat)
    requires source !in d.ended
    ensures var e := RecvOne(d, source, a, limit).0;
            e == d || (Work(e) < Work(d) && (e.lastActivity == a.at || e.lastActivity == d.lastActivity))
  {
  }

  lemma {:induction false} SendAllProgress(d: Duplex, dests: seq<Side>, tries: Pair<Attempt>, until: Clock)
    requires d.lastActivity <= until && tries.client.at <= until && tries.parent.at <= until
    ensures var e := SendAll(d, dests, tries).0; (e == d || Work(e) < Work(d)) && e.lastActivity <= until
    decreases |dests|
  {
    hide SendOne, Work;
    if dests != [] {
      SendProgress(d, dests[0], tries.At(dests[0]));
      var (next, end) := SendOne(d, dests[0], tries.At(dests[0]));
      if end.None? {
        SendAllProgress(next, dests[1..], tries, until);
      }
    }
  }

  lemma {:induction false} RecvAllProgress(d: Duplex, sources: seq<Side>, tries: Pair<Attempt>, limit: nat, until: Clock)
    requires d.lastActivity <= until && tries.client.at <= until && tries.parent.at <= until
    requires Distinctly(sources) && forall s :: s in sources ==> s !in d.ended
    ensures var e := RecvAll(d, sources, tries, limit).0; (e == d || Work(e) < Work(d)) && e.lastActivity <= until
    decreases |sources|
  {
    hide Work;
    if sources != [] {
      RecvProgress(d, sources[0], tries.At(sources[0]), limit);
      var (next, end) := RecvOne(d, sources[0], tries.At(sources[0]), limit);
      if end.None? {
        forall s | s in sources[1..] ensures s !in next.ended {
          var i :| 0 <= i < |sources[1..]| && sources[1..][i] == s;
          assert sources[i + 1] == s && s != sources[0] && s in sources;
        }
        assert Distinctly(sources[1..]) by {
          assert forall i :: 0 <= i < |sources[1..]| ==> sources[1..][i] == sources[i + 1];
        }
        RecvAllProgress(next, sources[1..], tries, limit, until);
      }
    }
  }

  /** Every transfer that changes anything does work. */
  lemma TransferProgress(d: Duplex, writers: seq<Side>, readers: seq<Side>, sends: Pair<Attempt>, receives: Pair<Attempt>,
                         limit: nat, until: Clock)
    requires d.lastActivity <= until
    requires sends.client.at <= until && sends.parent.at <= until && receives.client.at <= until && receives.parent.at <= until
    requires Distinctly(readers) && forall s :: s in readers ==> s !in d.ended
    ensures var e := Transfer(d, writers, readers, sends, receives, limit).0;
            (e == d || Work(e) < Work(d)) && e.lastActivity <= until
  {
    hide SendAll, RecvAll, Work;
    SendAllProgress(d, writers, sends, until);
    var (next, end) := SendAll(d, writers, sends);
    SendAllEnded(d, writers, sends);
    if end.None? {
      RecvAllProgress(next, readers, receives, limit, until);
    }
  }

  lemma {:induction false} SendAllEnded(d: Duplex, dests: seq<Side>, tries: Pair<Attempt>)
    ensures SendAll(d, dests, tries).0.ended == d.ended
    decreases |dests|
  {
    if dests != [] {
      var (next, end) := SendOne(d, dests[0], tries.At(dests[0]));
      if end.None? {
        SendAllEnded(next, dests[1..], tries);
      }
    }
  }
}
