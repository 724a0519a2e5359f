/** What a relay pass moves when its sockets are ready, when it shuts a side, when
    it times out, and that a served relay delivers both streams. */
module RelayProgress {
  import opened Wire
  import opened RelayCore
  import opened ExitLease
  import opened RelayLoops
  import opened RelayProofs
  import opened RelayEnds

  // ---- one transfer ----

  /** The sides served, the client first. */
  predicate InOrder(sides: seq<Side>) { sides == [] || sides == [Client] || sides == [Parent] || sides == [Client, Parent] }

  lemma OnlyInOrder(ready: set<Side>)
    ensures InOrder(Only(SIDES, ready)) && forall s :: s in Only(SIDES, ready) <==> s in ready
  {
    OnlyBoth(ready);
    OnlyExact(SIDES, ready);
    assert Client == SIDES[0] && Parent == SIDES[1];
    forall s: Side ensures s in Only(SIDES, ready) <==> s in ready {
      match s {
        case Client =>
        case Parent =>
      }
    }
  }

  lemma SendAllLast(d: Duplex, dest: Side, tries: Pair<Attempt>)
    ensures SendAll(d, [dest], tries) == SendOne(d, dest, tries.At(dest))
  {
    hide SendOne;
    assert [dest][1..] == [];
  }

  lemma RecvAllLast(d: Duplex, source: Side, tries: Pair<Attempt>, limit: nat)
    ensures RecvAll(d, [source], tries, limit) == RecvOne(d, source, tries.At(source), limit)
  {
    hide RecvOne;
    assert [source][1..] == [];
  }

  lemma SendAllInOrder(d: Duplex, dests: seq<Side>, tries: Pair<Attempt>)
    requires InOrder(dests)
    ensures SendAll(d, dests, tries) ==
            var (e, end) := if Client in dests then SendOne(d, Client, tries.client) else (d, None);
            if end.Some? || Parent !in dests then (e, end) else SendOne(e, Parent, tries.parent)
  {
    hide SendOne;
    if |dests| == 1 {
      SendAllLast(d, dests[0], tries);
    } else if |dests| == 2 {
      assert dests[1..] == [Parent];
      SendAllLast(SendOne(d, Client, tries.client).0, Parent, tries);
    }
  }

  lemma RecvAllInOrder(d: Duplex, sources: seq<Side>, tries: Pair<Attempt>, limit: nat)
    requires InOrder(sources)
    ensures RecvAll(d, sources, tries, limit) ==
            var (e, end) := if Client in sources then RecvOne(d, Client, tries.client, limit) else (d, None);
            if end.Some? || Parent !in sources then (e, end) else RecvOne(e, Parent, tries.parent, limit)
  {
    hide RecvOne;
    if |sources| == 1 {
      RecvAllLast(d, sources[0], tries, limit);
    } else if |sources| == 2 {
      assert sources[1..] == [Parent];
      RecvAllLast(RecvOne(d, Client, tries.client, limit).0, Parent, tries, limit);
    }
  }

  /** A socket that can take `size` octets, at least one. */
  predicate Takes(a: Attempt, size: nat) { a.io == Ready(size) && size >= 1 }

  /** The first `size` octets of the buffer, or all of it, went out. */
  predicate SentFrom(d: Duplex, e: Duplex, dest: Side, size: nat) {
    var buffer := d.buffers.At(dest);
    e.sent.At(dest) == d.sent.At(dest) + if size < |buffer| then buffer[..size] else buffer
  }

  /** At least the next octet of the stream came in, or the stream was over and is marked so. */
  predicate ReadFrom(d: Duplex, e: Duplex, source: Side) {
    var stream := d.unread.At(source);
    if stream == [] then source in e.ended && e.received.At(source) == d.received.At(source)
    else exists k :: 1 <= k <= |stream| && e.received.At(source) == d.received.At(source) + stream[..k]
  }

  lemma SendAllSends(d: Duplex, dests: seq<Side>, tries: Pair<Attempt>, dest: Side, size: nat)
    requires InOrder(dests) && SendAll(d, dests, tries).1.None?
    requires dest in dests && Takes(tries.At(dest), size) && d.buffers.At(dest) != []
    ensures SentFrom(d, SendAll(d, dests, tries).0, dest, size)
  {
    SendAllInOrder(d, dests, tries);
    assert d.buffers.At(dest)[..|d.buffers.At(dest)|] == d.buffers.At(dest);
  }

  /** Sending leaves everything on the reading side alone and only makes room. */
  lemma SendAllFrame(d: Duplex, dests: seq<Side>, tries: Pair<Attempt>)
    requires InOrder(dests)
    ensures var e := SendAll(d, dests, tries).0;
            && e.ended == d.ended && e.closed == d.closed && e.unread == d.unread && e.received == d.received
            && forall s :: |e.buffers.At(s)| <= |d.buffers.At(s)|
  {
    SendAllInOrder(d, dests, tries);
  }

  lemma RecvAllFrame(d: Duplex, sources: seq<Side>, tries: Pair<Attempt>, limit: nat)
    requires InOrder(sources)
    ensures RecvAll(d, sources, tries, limit).0.closed == d.closed && RecvAll(d, sources, tries, limit).0.sent == d.sent
  {
    RecvAllInOrder(d, sources, tries, limit);
  }

  lemma RecvOneReads(d: Duplex, source: Side, a: Attempt, limit: nat)
    requires a.io.Ready? && |d.buffers.At(Other(source))| < limit
    ensures var (e, end) := RecvOne(d, source, a, limit);
            && end.None? && ReadFrom(d, e, source)
            && e.received.At(Other(source)) == d.received.At(Other(source)) && e.unread.At(Other(source)) == d.unread.At(Other(source))
            && e.buffers.At(source) == d.buffers.At(source) && d.ended <= e.ended
            && (Other(source) in e.ended <==> Other(source) in d.ended)
  {
    var stream := d.unread.At(source);
    var want := limit - |d.buffers.At(Other(source))|;
    var k := Min(a.io.size + 1, Min(Max(want, 0), |stream|));
    assert stream != [] ==> k >= 1 && stream[..k] != [];
    assert stream == [] ==> stream[..k] == [];
  }

  lemma RecvOneElsewhere(d: Duplex, source: Side, a: Attempt, limit: nat)
    ensures var e := RecvOne(d, source, a, limit).0;
            && e.received.At(Other(source)) == d.received.At(Other(source)) && e.unread.At(Other(source)) == d.unread.At(Other(source))
            && e.buffers.At(source) == d.buffers.At(source) && (Other(source) in e.ended <==> Other(source) in d.ended)
  {
  }

  lemma RecvAllReads(d: Duplex, sources: seq<Side>, tries: Pair<Attempt>, limit: nat, source: Side)
    requires InOrder(sources) && RecvAll(d, sources, tries, limit).1.None?
    requires source in sources && tries.At(source).io.Ready? && |d.buffers.At(Other(source))| < limit
    ensures ReadFrom(d, RecvAll(d, sources, tries, limit).0, source)
  {
    hide RecvOne;
    RecvAllInOrder(d, sources, tries, limit);
    var e := if Client in sources then RecvOne(d, Client, tries.client, limit).0 else d;
    RecvOneElsewhere(d, Client, tries.client, limit);
    RecvOneElsewhere(e, Parent, tries.parent, limit);
    if source == Client {
      RecvOneReads(d, Client, tries.client, limit);
    } else {
      RecvOneReads(e, Parent, tries.parent, limit);
    }
  }

  lemma TransferMoves(d: Duplex, writers: seq<Side>, readers: seq<Side>, sends: Pair<Attempt>, receives: Pair<Attempt>, limit: nat)
    requires InOrder(writers) && InOrder(readers) && Transfer(d, writers, readers, sends, receives, limit).1.None?
    ensures var e := Transfer(d, writers, readers, sends, receives, limit).0;
            && e.closed == d.closed
            && (forall dest, size :: dest in writers && Takes(sends.At(dest), size) && d.buffers.At(dest) != [] ==> SentFrom(d, e, dest, size))
            && (forall source :: source in readers && receives.At(source).io.Ready? && |d.buffers.At(Other(source))| < limit ==>
                  ReadFrom(d, e, source))
  {
    hide SendAll, RecvAll, ReadFrom;
    var m := SendAll(d, writers, sends).0;
    SendAllFrame(d, writers, sends);
    RecvAllFrame(m, readers, receives, limit);
    forall dest, size | dest in writers && Takes(sends.At(dest), size) && d.buffers.At(dest) != []
      ensures SentFrom(d, Transfer(d, writers, readers, sends, receives, limit).0, dest, size)
    {
      SendAllSends(d, writers, sends, dest, size);
    }
    forall source | source in readers && receives.At(source).io.Ready? && |d.buffers.At(Other(source))| < limit
      ensures ReadFrom(d, Transfer(d, writers, readers, sends, receives, limit).0, source)
    {
      RecvAllReads(m, readers, receives, limit, source);
      SameRead(d, m, Transfer(d, writers, readers, sends, receives, limit).0, source);
    }
  }

  lemma SameRead(d: Duplex, m: Duplex, e: Duplex, source: Side)
    requires m.unread == d.unread && m.received == d.received && ReadFrom(m, e, source)
    ensures ReadFrom(d, e, source)
  {
  }

  // ---- one pass of the ungated loop ----

  /** The relay has nothing left to do: both inputs ended and both buffers drained. */
  predicate AllDone(d: Duplex) {
    Client in d.ended && Parent in d.ended && d.buffers.client == [] && d.buffers.parent == []
  }

  lemma DoneIsFinished(d: Duplex)
    ensures Finished(CloseDrained(d)) <==> AllDone(d)
  {
    if |d.ended| == 2 {
      BothEnded(d.ended);
    }
    if AllDone(d) {
      forall s | s in d.ended ensures s in {Client, Parent} {
        match s {
          case Client =>
          case Parent =>
        }
      }
      assert d.ended == {Client, Parent};
    }
  }

  /** A pass ends in "eof" exactly when both inputs ended and both buffers drained, and
      otherwise in a timeout exactly when the idle allowance is used up. */
  lemma PlainEndExact(d: Duplex, idleTimeout: Clock, limit: nat, p: PlainPass)
    ensures PlainIterate(d, idleTimeout, limit, p).1 == Some(Eof) <==> AllDone(d)
    ensures PlainIterate(d, idleTimeout, limit, p).1 == Some(Timeout) <==> !AllDone(d) && p.now - d.lastActivity >= idleTimeout
  {
    hide Transfer, Finished;
    DoneIsFinished(d);
    var c := CloseDrained(d);
    TransferEnds(c, Only(SIDES, Writers(c) * p.writable), Only(SIDES, Readers(c, limit) * p.readable), p.sends, p.receives, limit);
    TransferNoTimeout(c, Only(SIDES, Writers(c) * p.writable), Only(SIDES, Readers(c, limit) * p.readable), p.sends, p.receives, limit);
  }

  lemma TransferNoTimeout(d: Duplex, writers: seq<Side>, readers: seq<Side>, sends: Pair<Attempt>, receives: Pair<Attempt>, limit: nat)
    ensures Transfer(d, writers, readers, sends, receives, limit).1 != Some(Timeout)
  {
    SendNoTimeout(d, writers, sends);
    RecvNoTimeout(SendAll(d, writers, sends).0, readers, receives, limit);
  }

  lemma {:induction false} SendNoTimeout(d: Duplex, dests: seq<Side>, tries: Pair<Attempt>)
    ensures SendAll(d, dests, tries).1 != Some(Timeout)
    decreases |dests|
  {
    if dests != [] {
      SendNoTimeout(SendOne(d, dests[0], tries.At(dests[0])).0, dests[1..], tries);
    }
  }

  lemma {:induction false} RecvNoTimeout(d: Duplex, sources: seq<Side>, tries: Pair<Attempt>, limit: nat)
    ensures RecvAll(d, sources, tries, limit).1 != Some(Timeout)
    decreases |sources|
  {
    if sources != [] {
      RecvNoTimeout(RecvOne(d, sources[0], tries.At(sources[0]), limit).0, sources[1..], tries, limit);
    }
  }

  /** A pass that goes on shuts every drained side; sends what each reported, ready
      side takes of its buffer; and reads from each reported, ready source with room. */
  ghost predicate Moves(d: Duplex, e: Duplex, limit: nat, readable: set<Side>, writable: set<Side>, sends: Pair<Attempt>, receives: Pair<Attempt>) {
    && (forall s :: s in e.closed <==> s in d.closed || (Other(s) in d.ended && d.buffers.At(s) == []))
    && (forall dest, size :: dest in writable && d.buffers.At(dest) != [] && Takes(sends.At(dest), size) ==> SentFrom(d, e, dest, size))
    && (forall source :: source in readable && source !in d.ended && |d.buffers.At(Other(source))| < limit && receives.At(source).io.Ready? ==>
          ReadFrom(d, e, source))
  }

  lemma PlainPassMoves(d: Duplex, idleTimeout: Clock, limit: nat, p: PlainPass)
    requires PlainIterate(d, idleTimeout, limit, p).1.None?
    ensures Moves(d, PlainIterate(d, idleTimeout, limit, p).0, limit, p.readable, p.writable, p.sends, p.receives)
    ensures Restarts(d, PlainIterate(d, idleTimeout, limit, p).0, p.sends, p.receives)
  {
    hide Transfer, ReadFrom, Takes;
    var c := CloseDrained(d);
    OnlyInOrder(Writers(c) * p.writable);
    OnlyInOrder(Readers(c, limit) * p.readable);
    TransferMoves(c, Only(SIDES, Writers(c) * p.writable), Only(SIDES, Readers(c, limit) * p.readable), p.sends, p.receives, limit);
    TransferRestarts(c, Only(SIDES, Writers(c) * p.writable), Only(SIDES, Readers(c, limit) * p.readable), p.sends, p.receives, limit);
    forall source | ReadFrom(c, PlainIterate(d, idleTimeout, limit, p).0, source)
      ensures ReadFrom(d, PlainIterate(d, idleTimeout, limit, p).0, source)
    {
      SameRead(d, c, PlainIterate(d, idleTimeout, limit, p).0, source);
    }
  }

  /** A served side whose socket takes nothing of its buffer, with no broken one before it. */
  predicate Refuses(writers: set<Side>, sends: Pair<Attempt>) {
    || (Client in writers && sends.client.io == Ready(0))
    || (Parent in writers && sends.parent.io == Ready(0) && !(Client in writers && sends.client.io.Broken?))
  }

  predicate AnyBroken(served: set<Side>, tries: Pair<Attempt>) {
    exists s :: s in served && tries.At(s).io.Broken?
  }

  lemma AnyBrokenIs(served: set<Side>, tries: Pair<Attempt>)
    ensures AnyBroken(served, tries) <==>
            (Client in served && tries.client.io.Broken?) || (Parent in served && tries.parent.io.Broken?)
  {
    if Client in served && tries.client.io.Broken? {
      assert tries.At(Client).io.Broken?;
    }
    if Parent in served && tries.parent.io.Broken? {
      assert tries.At(Parent).io.Broken?;
    }
  }

  lemma TransferEndExact(d: Duplex, writers: seq<Side>, readers: seq<Side>, canWrite: set<Side>, canRead: set<Side>,
                         sends: Pair<Attempt>, receives: Pair<Attempt>, limit: nat)
    requires InOrder(writers) && InOrder(readers)
    requires (forall s :: s in writers <==> s in canWrite) && (forall s :: s in readers <==> s in canRead)
    requires forall s :: s in canWrite ==> d.buffers.At(s) != []
    ensures Transfer(d, writers, readers, sends, receives, limit).1 ==
            if Refuses(canWrite, sends) then Some(Closed)
            else if AnyBroken(canWrite, sends) || AnyBroken(canRead, receives) then Some(Raised)
            else None
  {
    hide AnyBroken;
    AnyBrokenIs(canWrite, sends);
    AnyBrokenIs(canRead, receives);
    SendAllInOrder(d, writers, sends);
    RecvAllInOrder(SendAll(d, writers, sends).0, readers, receives, limit);
  }

  /** A pass that is neither done nor late ends as "closed" exactly when a served socket
      is broken or takes nothing of its buffer, and goes on otherwise. */
  lemma PlainFailsExactly(d: Duplex, idleTimeout: Clock, limit: nat, p: PlainPass)
    requires !AllDone(d) && p.now - d.lastActivity < idleTimeout
    ensures PlainIterate(d, idleTimeout, limit, p).1 ==
            var writers := set s | s in p.writable && d.buffers.At(s) != [];
            var readers := set s | s in p.readable && s !in d.ended && |d.buffers.At(Other(s))| < limit;
            if Refuses(writers, p.sends) || AnyBroken(writers, p.sends) || AnyBroken(readers, p.receives) then Some(Closed) else None
  {
    hide Transfer, AnyBroken, Refuses, Finished;
    DoneIsFinished(d);
    var c := CloseDrained(d);
    var writers := set s | s in p.writable && d.buffers.At(s) != [];
    var readers := set s | s in p.readable && s !in d.ended && |d.buffers.At(Other(s))| < limit;
    forall s: Side ensures s in Writers(c) * p.writable <==> s in writers {
      match s {
        case Client =>
        case Parent =>
      }
    }
    forall s: Side ensures s in Readers(c, limit) * p.readable <==> s in readers {
      match s {
        case Client =>
        case Parent =>
      }
    }
    OnlyInOrder(Writers(c) * p.writable);
    OnlyInOrder(Readers(c, limit) * p.readable);
    TransferEndExact(c, Only(SIDES, Writers(c) * p.writable), Only(SIDES, Readers(c, limit) * p.readable), writers, readers,
                     p.sends, p.receives, limit);
  }

  /** The idle clock restarts at the last octets moved: the parent's read, else the
      client's, else what went to the parent, else what went to the client. */
  predicate Restarts(d: Duplex, e: Duplex, sends: Pair<Attempt>, receives: Pair<Attempt>) {
    e.lastActivity ==
    if e.received.parent != d.received.parent then receives.parent.at
    else if e.received.client != d.received.client then receives.client.at
    else if e.sent.parent != d.sent.parent then sends.parent.at
    else if e.sent.client != d.sent.client then sends.client.at
    else d.lastActivity
  }

  lemma SendOneActivity(d: Duplex, dest: Side, a: Attempt)
    ensures var e := SendOne(d, dest, a).0;
            && e.lastActivity == (if e.sent.At(dest) != d.sent.At(dest) then a.at else d.lastActivity)
            && e.sent.At(Other(dest)) == d.sent.At(Other(dest)) && e.received == d.received
  {
    var e := SendOne(d, dest, a).0;
    assert e != d ==> |e.sent.At(dest)| > |d.sent.At(dest)|;
  }

  lemma RecvOneActivity(d: Duplex, source: Side, a: Attempt, limit: nat)
    ensures var e := RecvOne(d, source, a, limit).0;
            && e.lastActivity == (if e.received.At(source) != d.received.At(source) then a.at else d.lastActivity)
            && e.received.At(Other(source)) == d.received.At(Other(source)) && e.sent == d.sent
  {
    var e := RecvOne(d, source, a, limit).0;
    assert e != d && e.ended == d.ended ==> |e.received.At(source)| > |d.received.At(source)|;
  }

  lemma TransferRestarts(d: Duplex, writers: seq<Side>, readers: seq<Side>, sends: Pair<Attempt>, receives: Pair<Attempt>, limit: nat)
    requires InOrder(writers) && InOrder(readers)
    ensures Restarts(d, Transfer(d, writers, readers, sends, receives, limit).0, sends, receives)
  {
    hide SendOne, RecvOne, SendAll, RecvAll;
    var m := SendAll(d, writers, sends).0;
    SendAllInOrder(d, writers, sends);
    RecvAllInOrder(m, readers, receives, limit);
    SendOneActivity(d, Client, sends.client);
    SendOneActivity(if Client in writers then SendOne(d, Client, sends.client).0 else d, Parent, sends.parent);
    RecvOneActivity(m, Client, receives.client, limit);
    RecvOneActivity(if Client in readers then RecvOne(m, Client, receives.client, limit).0 else m, Parent, receives.parent, limit);
  }

  // ---- one pass of the gated loop ----

  /** The reported sides that may forward, and whose predecessor may if it is served before them. */
  predicate Passes(cfg: RelayConfig, g: Gate, looks: Pair<Look>, served: set<Side>, side: Side) {
    side in served && MayForward(cfg, g, looks.At(side)) && (side == Parent && Client in served ==> MayForward(cfg, g, looks.client))
  }

  lemma AllowedInOrder(cfg: RelayConfig, g: Gate, ready: set<Side>, looks: Pair<Look>)
    ensures InOrder(Allowed(cfg, g, Only(SIDES, ready), looks))
    ensures forall s :: s in Allowed(cfg, g, Only(SIDES, ready), looks) <==> Passes(cfg, g, looks, ready, s)
  {
    hide CanForward, MayForward;
    OnlyBoth(ready);
    ForwardExact(cfg, g, looks.client);
    ForwardExact(cfg, g, looks.parent);
    assert [Parent][1..] == [] && [Client, Parent][1..] == [Parent] && [Client][1..] == [];
    assert Allowed(cfg, g, [], looks) == [];
    assert Allowed(cfg, g, [Parent], looks) == if CanForward(cfg, g, looks.parent) then [Parent] else [];
  }

  /** The reported sides with something to send. */
  function CanWrite(d: Duplex, writable: set<Side>): set<Side> {
    set side | side in {Client, Parent} && d.buffers.At(side) != [] && side in writable
  }

  /** The reported sources that have not ended, with room for what they send. */
  function CanRead(d: Duplex, readable: set<Side>): set<Side> {
    set side | side in {Client, Parent} && side !in d.ended && |d.buffers.At(Other(side))| < MAX_BUFFER && side in readable
  }

  function Permitted(cfg: RelayConfig, g: Gate, looks: Pair<Look>, served: set<Side>): set<Side> {
    set side | side in served && Passes(cfg, g, looks, served, side)
  }

  /** A gated pass that goes on moves what an ungated one does on the sides that may forward. */
  lemma GatedPassMoves(cfg: RelayConfig, s: Relay, p: Pass)
    requires Iterate(cfg, s, p).1.None?
    ensures var next := Iterate(cfg, s, p).0;
            && Moves(s.d, next.d, MAX_BUFFER,
                  Permitted(cfg, next.gate, p.recvLooks, CanRead(s.d, p.readable)),
                  Permitted(cfg, next.gate, p.sendLooks, CanWrite(s.d, p.writable)), p.sends, p.receives)
            && Restarts(s.d, next.d, p.sends, p.receives)
  {
    hide Top, Transfer, ReadFrom, Takes, Passes, Allowed;
    var gate, c, next := Iterate(cfg, s, p).0.gate, CloseDrained(s.d), Iterate(cfg, s, p).0.d;
    var canWrite, canRead := CanWrite(s.d, p.writable), CanRead(s.d, p.readable);
    assert Writers(c) * p.writable == canWrite && Readers(c, MAX_BUFFER) * p.readable == canRead;
    AllowedInOrder(cfg, gate, canWrite, p.sendLooks);
    AllowedInOrder(cfg, gate, canRead, p.recvLooks);
    TransferMoves(c, Allowed(cfg, gate, Only(SIDES, canWrite), p.sendLooks), Allowed(cfg, gate, Only(SIDES, canRead), p.recvLooks),
                  p.sends, p.receives, MAX_BUFFER);
    TransferRestarts(c, Allowed(cfg, gate, Only(SIDES, canWrite), p.sendLooks), Allowed(cfg, gate, Only(SIDES, canRead), p.recvLooks),
                     p.sends, p.receives, MAX_BUFFER);
    forall source | ReadFrom(c, next, source) ensures ReadFrom(s.d, next, source) {
      SameRead(s.d, c, next, source);
    }
  }

  /** Past the check at the top, a pass ends in "eof" exactly when all is done, and
      otherwise in a timeout exactly when the idle or the session allowance is used up. */
  lemma GatedEndExact(cfg: RelayConfig, s: Relay, p: Pass)
    requires Top(cfg, s.gate, p).1.None?
    ensures Iterate(cfg, s, p).1 == Some(Eof) <==> AllDone(s.d)
    ensures Iterate(cfg, s, p).1 == Some(Timeout) <==>
            && !AllDone(s.d)
            && (p.now - s.d.lastActivity >= cfg.idleTimeout || (cfg.sessionTimeout.Some? && p.now - s.started >= cfg.sessionTimeout.value))
  {
    hide Top, Transfer, Finished, Allowed;
    DoneIsFinished(s.d);
    var gate, c := Top(cfg, s.gate, p).0, CloseDrained(s.d);
    var writers := Allowed(cfg, gate, Only(SIDES, Writers(c) * p.writable), p.sendLooks);
    var readers := Allowed(cfg, gate, Only(SIDES, Readers(c, MAX_BUFFER) * p.readable), p.recvLooks);
    TransferEnds(c, writers, readers, p.sends, p.receives, MAX_BUFFER);
    TransferNoTimeout(c, writers, readers, p.sends, p.receives, MAX_BUFFER);
  }

  /** Past the check at the top, a pass that is neither done nor late ends exactly when a
      served socket that may forward takes nothing of its buffer or is broken. */
  lemma GatedFailsExactly(cfg: RelayConfig, s: Relay, p: Pass)
    requires Top(cfg, s.gate, p).1.None? && !AllDone(s.d) && p.now - s.d.lastActivity < cfg.idleTimeout
    requires cfg.sessionTimeout.Some? ==> p.now - s.started < cfg.sessionTimeout.value
    ensures Iterate(cfg, s, p).1 ==
            var gate := Top(cfg, s.gate, p).0;
            var writers := Permitted(cfg, gate, p.sendLooks, CanWrite(s.d, p.writable));
            var readers := Permitted(cfg, gate, p.recvLooks, CanRead(s.d, p.readable));
            if Refuses(writers, p.sends) then Some(Closed)
            else if AnyBroken(writers, p.sends) || AnyBroken(readers, p.receives) then Some(Raised)
            else None
  {
    hide Top, Transfer, AnyBroken, Refuses, Finished, Allowed, Passes;
    DoneIsFinished(s.d);
    var gate, c := Top(cfg, s.gate, p).0, CloseDrained(s.d);
    var canWrite, canRead := CanWrite(s.d, p.writable), CanRead(s.d, p.readable);
    assert Writers(c) * p.writable == canWrite && Readers(c, MAX_BUFFER) * p.readable == canRead;
    AllowedInOrder(cfg, gate, canWrite, p.sendLooks);
    AllowedInOrder(cfg, gate, canRead, p.recvLooks);
    ServedOnly(cfg, gate, p.sendLooks, canWrite);
    ServedOnly(cfg, gate, p.recvLooks, canRead);
    TransferEndExact(c, Allowed(cfg, gate, Only(SIDES, canWrite), p.sendLooks), Allowed(cfg, gate, Only(SIDES, canRead), p.recvLooks),
                     Permitted(cfg, gate, p.sendLooks, canWrite), Permitted(cfg, gate, p.recvLooks, canRead), p.sends, p.receives, MAX_BUFFER);
  }

  lemma ServedOnly(cfg: RelayConfig, g: Gate, looks: Pair<Look>, served: set<Side>)
    ensures forall s :: s in Permitted(cfg, g, looks, served) <==> Passes(cfg, g, looks, served, s)
  {
  }

  /** The check at the top lets a pass go on exactly when the audit is not latched and
      either the lease reads valid, and since the failure if there was one, or it is
      not revoked and the grace is not used up; a change of mind must be audited.  Each
      refusal is named after its first cause. */
  lemma TopGoesOn(cfg: RelayConfig, g: Gate, p: Pass)
    ensures var seen := StateOf(cfg, p.top.file, g.leaseStarted, p.top.readAt);
            var sure := seen == Valid
                        && (g.unverified.Some? ==> StateOf(cfg, p.recheck.file, g.unverified.value, p.recheck.readAt) == Valid);
            Top(cfg, g, p).1.None? <==>
            && !p.top.auditFailed && seen != Revoked
            && (if sure then g.unverified.None? || p.auditOk
                else cfg.grace != 0 && p.top.now - g.lastVerified < cfg.grace && (g.unverified.Some? || p.auditOk))
    ensures Top(cfg, g, p).1 == Some(AuditUnavailable) <==> p.top.auditFailed
    ensures var seen := StateOf(cfg, p.top.file, g.leaseStarted, p.top.readAt);
            var sure := seen == Valid
                        && (g.unverified.Some? ==> StateOf(cfg, p.recheck.file, g.unverified.value, p.recheck.readAt) == Valid);
            var revoked := seen == Revoked || (!sure && cfg.grace == 0);
            && (Top(cfg, g, p).1 == Some(LeaseRevoked) <==> !p.top.auditFailed && revoked)
            && (Top(cfg, g, p).1 == Some(GraceExpired) <==>
                !p.top.auditFailed && !revoked && !sure && p.top.now - g.lastVerified >= cfg.grace)
  {
    hide StateOf;
  }

  /** When the check lets a pass go on, a sure lease restarts the grace clock and ends
      the uncertainty, from which on later leases must then be checked; otherwise the
      grace clock stands still and the uncertainty dates from its first pass. */
  lemma TopClocks(cfg: RelayConfig, g: Gate, p: Pass)
    requires Top(cfg, g, p).1.None?
    ensures var sure := StateOf(cfg, p.top.file, g.leaseStarted, p.top.readAt) == Valid
                        && (g.unverified.Some? ==> StateOf(cfg, p.recheck.file, g.unverified.value, p.recheck.readAt) == Valid);
            var h := Top(cfg, g, p).0;
            && (sure ==> h.lastVerified == p.top.now && h.unverified == None)
            && (!sure ==> h.lastVerified == g.lastVerified && h.leaseStarted == g.leaseStarted
                          && h.unverified == Some(if g.unverified.Some? then g.unverified.value else p.top.now))
            && (sure && g.unverified.None? ==> h.leaseStarted == g.leaseStarted)
            && (sure && g.unverified.Some? ==>
                  h.leaseStarted >= g.leaseStarted && h.leaseStarted >= g.unverified.value
                  && (h.leaseStarted == g.leaseStarted || h.leaseStarted == g.unverified.value))
  {
    hide StateOf;
  }

  // ---- a served relay delivers ----

  /** Both sides are reported and ready both ways. */
  predicate Served(readable: set<Side>, writable: set<Side>, sends: Pair<Attempt>, receives: Pair<Attempt>) {
    && Client in readable && Parent in readable && Client in writable && Parent in writable
    && sends.client.io.Ready? && sends.client.io.size >= 1 && sends.parent.io.Ready? && sends.parent.io.size >= 1
    && receives.client.io.Ready? && receives.parent.io.Ready?
  }

  lemma ServedNeverEnds(d: Duplex, writers: seq<Side>, readers: seq<Side>, sends: Pair<Attempt>, receives: Pair<Attempt>, limit: nat)
    requires InOrder(writers) && InOrder(readers) && forall s :: s in writers ==> d.buffers.At(s) != []
    requires sends.client.io.Ready? && sends.client.io.size >= 1 && sends.parent.io.Ready? && sends.parent.io.size >= 1
    requires receives.client.io.Ready? && receives.parent.io.Ready?
    ensures Transfer(d, writers, readers, sends, receives, limit).1.None?
  {
    SendAllInOrder(d, writers, sends);
    RecvAllInOrder(SendAll(d, writers, sends).0, readers, receives, limit);
  }

  /** Unless all is done, moving on all sides does some work. */
  lemma ServedMovesSomething(d: Duplex, e: Duplex, limit: nat, readable: set<Side>, writable: set<Side>, sends: Pair<Attempt>, receives: Pair<Attempt>)
    requires Moves(d, e, limit, readable, writable, sends, receives) && limit >= 1 && !AllDone(d)
    requires Served(readable, writable, sends, receives)
    ensures !Idled(d, e)
  {
    if d.buffers.client != [] {
      assert Takes(sends.At(Client), sends.client.io.size) && SentFrom(d, e, Client, sends.client.io.size);
    } else if d.buffers.parent != [] {
      assert Takes(sends.At(Parent), sends.parent.io.size) && SentFrom(d, e, Parent, sends.parent.io.size);
    } else if Client !in d.ended {
      assert receives.At(Client).io.Ready? && |d.buffers.At(Other(Client))| < limit;
      assert ReadFrom(d, e, Client);
    } else {
      assert receives.At(Parent).io.Ready? && |d.buffers.At(Other(Parent))| < limit;
      assert ReadFrom(d, e, Parent);
    }
  }

  lemma ServedPassWorks(d: Duplex, idleTimeout: Clock, limit: nat, p: PlainPass)
    requires limit >= 1 && Served(p.readable, p.writable, p.sends, p.receives)
    requires p.now - d.lastActivity < idleTimeout && !AllDone(d)
    ensures var (e, end) := PlainIterate(d, idleTimeout, limit, p); end.None? && Work(e) < Work(d)
  {
    hide Transfer, Moves, Work, Finished;
    var c := CloseDrained(d);
    var writers, readers := Only(SIDES, Writers(c) * p.writable), Only(SIDES, Readers(c, limit) * p.readable);
    DoneIsFinished(d);
    OnlyInOrder(Writers(c) * p.writable);
    OnlyInOrder(Readers(c, limit) * p.readable);
    ServedNeverEnds(c, writers, readers, p.sends, p.receives, limit);
    PlainPassMoves(d, idleTimeout, limit, p);
    var e := PlainIterate(d, idleTimeout, limit, p).0;
    ServedMovesSomething(d, e, limit, p.readable, p.writable, p.sends, p.receives);
    var until := Max(d.lastActivity, Max(Max(p.sends.client.at, p.sends.parent.at), Max(p.receives.client.at, p.receives.parent.at)));
    SidesDistinct(Readers(c, limit) * p.readable);
    TransferProgress(c, writers, readers, p.sends, p.receives, limit, until);
    CloseWork(d);
  }

  /** Every pass serves both sides before the idle allowance is used up. */
  ghost predicate PlainServed(d: Duplex, idleTimeout: Clock, limit: nat, passes: seq<PlainPass>) {
    forall i :: 0 <= i < |passes| ==>
      && Served(passes[i].readable, passes[i].writable, passes[i].sends, passes[i].receives)
      && passes[i].now - PlainRun(d, idleTimeout, limit, passes[..i]).0.lastActivity < idleTimeout
  }

  lemma {:induction false} PlainServedWorks(d: Duplex, idleTimeout: Clock, limit: nat, passes: seq<PlainPass>)
    requires limit >= 1 && PlainServed(d, idleTimeout, limit, passes)
    ensures var (e, end) := PlainRun(d, idleTimeout, limit, passes);
            end == Some(Eof) || (end.None? && Work(e) + |passes| <= Work(d))
  {
    hide PlainIterate, Work, Served, AllDone;
    if passes != [] {
      var n := |passes| - 1;
      assert forall i :: 0 <= i < n ==> passes[..n][i] == passes[i] && passes[..n][..i] == passes[..i];
      PlainServedWorks(d, idleTimeout, limit, passes[..n]);
      var (b, stopped) := PlainRun(d, idleTimeout, limit, passes[..n]);
      if stopped.None? {
        PlainEndExact(b, idleTimeout, limit, passes[n]);
        if !AllDone(b) {
          ServedPassWorks(b, idleTimeout, limit, passes[n]);
        }
      }
    }
  }

  /** A run of the ungated loop in which both sides are always served ends in "eof"
      with both streams delivered, within two passes per octet and three more. */
  lemma PlainServedDelivers(input: Pair<seq<Byte>>, now: Clock, idleTimeout: Clock, limit: nat, passes: seq<PlainPass>)
    requires limit >= 1 && PlainServed(Opened(input, now), idleTimeout, limit, passes)
    requires |passes| >= 2 * (|input.client| + |input.parent|) + 3
    ensures var (d, end) := PlainRun(Opened(input, now), idleTimeout, limit, passes);
            end == Some(Eof) && d.sent.parent == input.client && d.sent.client == input.parent
  {
    hide PlainRun, Work, PlainServed;
    PlainServedWorks(Opened(input, now), idleTimeout, limit, passes);
    OpenedWork(input, now);
    PlainRunDelivers(input, now, idleTimeout, limit, passes);
  }

  /** Every pass passes the top check, may forward on both sides, serves both, and is within its allowances. */
  ghost predicate GatedServed(cfg: RelayConfig, s: Relay, passes: seq<Pass>) {
    forall i :: 0 <= i < |passes| ==> PassServed(cfg, GatedRun(cfg, s, passes[..i]).0, passes[i])
  }

  ghost predicate PassServed(cfg: RelayConfig, s: Relay, p: Pass) {
    && Top(cfg, s.gate, p).1.None?
    && MayForward(cfg, Top(cfg, s.gate, p).0, p.sendLooks.client) && MayForward(cfg, Top(cfg, s.gate, p).0, p.sendLooks.parent)
    && MayForward(cfg, Top(cfg, s.gate, p).0, p.recvLooks.client) && MayForward(cfg, Top(cfg, s.gate, p).0, p.recvLooks.parent)
    && Served(p.readable, p.writable, p.sends, p.receives)
    && p.now - s.d.lastActivity < cfg.idleTimeout
    && (cfg.sessionTimeout.Some? ==> p.now - s.started < cfg.sessionTimeout.value)
  }

  lemma FullyAllowed(cfg: RelayConfig, g: Gate, ready: set<Side>, looks: Pair<Look>)
    requires MayForward(cfg, g, looks.client) && MayForward(cfg, g, looks.parent)
    ensures Allowed(cfg, g, Only(SIDES, ready), looks) == Only(SIDES, ready)
  {
    hide MayForward, CanForward;
    OnlyBoth(ready);
    ForwardExact(cfg, g, looks.client);
    ForwardExact(cfg, g, looks.parent);
    assert [Parent][1..] == [] && [Client, Parent][1..] == [Parent] && [Client][1..] == [];
    assert Allowed(cfg, g, [Parent], looks) == [Parent] && Allowed(cfg, g, [], looks) == [];
  }

  /** A served gated pass is the ungated pass with the same sockets. */
  lemma ServedPassIsPlain(cfg: RelayConfig, s: Relay, p: Pass)
    requires PassServed(cfg, s, p)
    ensures PlainIterate(s.d, cfg.idleTimeout, MAX_BUFFER, PlainPass(p.now, p.readable, p.writable, p.sends, p.receives))
            == (Iterate(cfg, s, p).0.d, AsClosed(Iterate(cfg, s, p).1))
  {
    hide Top, Transfer, Allowed, Served, MayForward;
    var gate, c := Top(cfg, s.gate, p).0, CloseDrained(s.d);
    FullyAllowed(cfg, gate, Writers(c) * p.writable, p.sendLooks);
    FullyAllowed(cfg, gate, Readers(c, MAX_BUFFER) * p.readable, p.recvLooks);
  }

  lemma {:induction false} GatedServedWorks(cfg: RelayConfig, s: Relay, passes: seq<Pass>)
    requires GatedServed(cfg, s, passes)
    ensures var (e, end) := GatedRun(cfg, s, passes);
            end == Some(Eof) || (end.None? && Work(e.d) + |passes| <= Work(s.d))
  {
    hide Iterate, Work, PassServed, AllDone, PlainIterate;
    if passes != [] {
      var n := |passes| - 1;
      assert forall i :: 0 <= i < n ==> passes[..n][i] == passes[i] && passes[..n][..i] == passes[..i];
      GatedServedWorks(cfg, s, passes[..n]);
      var (b, stopped) := GatedRun(cfg, s, passes[..n]);
      if stopped.None? {
        assert PassServed(cfg, GatedRun(cfg, s, passes[..n]).0, passes[n]);
        GatedServedStep(cfg, b, passes[n]);
      }
    }
  }

  lemma GatedServedStep(cfg: RelayConfig, s: Relay, p: Pass)
    requires PassServed(cfg, s, p)
    ensures var (e, end) := Iterate(cfg, s, p); end == Some(Eof) || (end.None? && Work(e.d) < Work(s.d))
  {
    hide Iterate, Work, Top, MayForward, AllDone, PlainIterate;
    var q := PlainPass(p.now, p.readable, p.writable, p.sends, p.receives);
    ServedPassIsPlain(cfg, s, p);
    PlainEndExact(s.d, cfg.idleTimeout, MAX_BUFFER, q);
    if !AllDone(s.d) {
      ServedPassWorks(s.d, cfg.idleTimeout, MAX_BUFFER, q);
    }
  }

  /** So does a run of the gated loop whose lease and audit let every pass through. */
  lemma GatedServedDelivers(cfg: RelayConfig, input: Pair<seq<Byte>>, leaseStarted: Clock, now: Clock, passes: seq<Pass>)
    requires GatedServed(cfg, Begin(input, leaseStarted, now), passes)
    requires |passes| >= 2 * (|input.client| + |input.parent|) + 3
    ensures var (s, end) := GatedRun(cfg, Begin(input, leaseStarted, now), passes);
            end == Some(Eof) && s.d.sent.parent == input.client && s.d.sent.client == input.parent
  {
    hide GatedRun, Work, GatedServed;
    GatedServedWorks(cfg, Begin(input, leaseStarted, now), passes);
    OpenedWork(input, now);
    GatedRunDelivers(cfg, input, leaseStarted, now, passes);
  }
}
