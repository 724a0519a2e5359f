/** The ungated relay loop, the lease-gated one, and what the gate guarantees. */
module RelayLoops {
  import opened Wire
  import opened RelayCore
  import opened ExitLease

  const MAX_BUFFER: nat := 65536

  // ---- the ungated loop ----

  /** What one pass of the ungated loop meets. */
  datatype PlainPass = PlainPass(now: Clock, readable: set<Side>, writable: set<Side>, sends: Pair<Attempt>, receives: Pair<Attempt>)

  /** A broken socket closes the ungated relay. */
  function AsClosed(end: Option<End>): Option<End> { if end == Some(Raised) then Some(Closed) else end }

  function PlainIterate(d: Duplex, idleTimeout: Clock, limit: nat, p: PlainPass): (Duplex, Option<End>) {
    var c := CloseDrained(d);
    if Finished(c) then (c, Some(Eof))
    else if idleTimeout - (p.now - c.lastActivity) <= 0 then (c, Some(Timeout))
    else
      var (next, end) := Transfer(c, Only(SIDES, Writers(c) * p.writable), Only(SIDES, Readers(c, limit) * p.readable),
                                  p.sends, p.receives, limit);
      (next, AsClosed(end))
  }

  function PlainRun(d: Duplex, idleTimeout: Clock, limit: nat, passes: seq<PlainPass>): (Duplex, Option<End>) {
    if passes == [] then (d, None)
    else
      var (before, end) := PlainRun(d, idleTimeout, limit, passes[..|passes| - 1]);
      if end.Some? then (before, end) else PlainIterate(before, idleTimeout, limit, passes[|passes| - 1])
  }

  /** The fields a relay loop updates, with what crosses its two sockets. */
  class DuplexRelay {
    var buffers: Pair<seq<Byte>>
    var ended: set<Side>
    var closedWrites: set<Side>
    var lastActivity: Clock
    var unread: Pair<seq<Byte>>
    var received: Pair<seq<Byte>>
    var sent: Pair<seq<Byte>>

    function State(): Duplex
      reads this
    {
      Duplex(buffers, ended, closedWrites, lastActivity, unread, received, sent)
    }

    constructor (input: Pair<seq<Byte>>, now: Clock)
      ensures State() == Opened(input, now)
    {
      buffers, ended, closedWrites, lastActivity := Pair([], []), {}, {}, now;
      unread, received, sent := input, Pair([], []), Pair([], []);
    }

    method ShutDrained()
      modifies this
      ensures State() == CloseDrained(old(State()))
    {
      var todo := ended;
      ghost var before := closedWrites;
      while todo != {}
        invariant todo <= ended && State().(closed := before) == old(State())
        invariant closedWrites == before + (set s | s in {Client, Parent} && Other(s) in ended - todo && buffers.At(s) == [])
        decreases todo
      {
        var source :| source in todo;
        todo := todo - {source};
        var destination := Other(source);
        if buffers.At(destination) == [] && destination !in closedWrites {
          closedWrites := closedWrites + {destination};
        }
      }
    }

    /** One send on a writable socket. */
    method SendTo(destination: Side, a: Attempt) returns (end: Option<End>)
      modifies this
      ensures (State(), end) == SendOne(old(State()), destination, a)
    {
      if a.io.WouldBlock? {
        return None;
      }
      if a.io.Broken? {
        return Some(Raised);
      }
      var buffer := buffers.At(destination);
      var n := Min(a.io.size, |buffer|);
      if n == 0 {
        return Some(Closed);
      }
      sent := sent.With(destination, sent.At(destination) + buffer[..n]);
      buffers := buffers.With(destination, buffer[n..]);
      lastActivity := a.at;
      return None;
    }

    /** One read from a readable socket, of at most the room left in the other side's buffer. */
    method ReceiveFrom(source: Side, a: Attempt, limit: nat) returns (end: Option<End>)
      modifies this
      ensures (State(), end) == RecvOne(old(State()), source, a, limit)
    {
      if a.io.WouldBlock? {
        return None;
      }
      if a.io.Broken? {
        return Some(Raised);
      }
      var destination, stream := Other(source), unread.At(source);
      var piece := stream[..Min(a.io.size + 1, Min(Max(limit - |buffers.At(destination)|, 0), |stream|))];
      if piece == [] {
        ended := ended + {source};
      } else {
        buffers := buffers.With(destination, buffers.At(destination) + piece);
        unread := unread.With(source, stream[|piece|..]);
        received := received.With(source, received.At(source) + piece);
        lastActivity := a.at;
      }
      return None;
    }

    method SendReady(dests: seq<Side>, tries: Pair<Attempt>) returns (end: Option<End>)
      modifies this
      ensures (State(), end) == SendAll(old(State()), dests, tries)
    {
      for i := 0 to |dests|
        invariant SendAll(State(), dests[i..], tries) == SendAll(old(State()), dests, tries)
      {
        assert dests[i..][0] == dests[i] && dests[i..][1..] == dests[i + 1..];
        end := SendTo(dests[i], tries.At(dests[i]));
        if end.Some? {
          return;
        }
      }
      return None;
    }

    method ReceiveReady(sources: seq<Side>, tries: Pair<Attempt>, limit: nat) returns (end: Option<End>)
      modifies this
      ensures (State(), end) == RecvAll(old(State()), sources, tries, limit)
    {
      for i := 0 to |sources|
        invariant RecvAll(State(), sources[i..], tries, limit) == RecvAll(old(State()), sources, tries, limit)
      {
        assert sources[i..][0] == sources[i] && sources[i..][1..] == sources[i + 1..];
        end := ReceiveFrom(sources[i], tries.At(sources[i]), limit);
        if end.Some? {
          return;
        }
      }
      return None;
    }

    /** The ungated loop over a run of passes. */
    method RelaySockets(idleTimeout: Clock, limit: nat, passes: seq<PlainPass>) returns (end: Option<End>)
      requires idleTimeout > 0 && 1 <= limit <= 1048576
      modifies this
      ensures (State(), end) == PlainRun(old(State()), idleTimeout, limit, passes)
    {
      end := None;
      var i := 0;
      while i < |passes|
        invariant 0 <= i <= |passes|
        invariant (State(), None) == PlainRun(old(State()), idleTimeout, limit, passes[..i])
      {
        var p := passes[i];
        assert passes[..i + 1][..i] == passes[..i] && passes[..i + 1][i] == p;
        ghost var before := State();
        ShutDrained();
        if Finished(State()) {
          PlainStays(old(State()), idleTimeout, limit, passes, i + 1);
          return Some(Eof);
        }
        var remaining := idleTimeout - (p.now - lastActivity);
        if remaining <= 0 {
          PlainStays(old(State()), idleTimeout, limit, passes, i + 1);
          return Some(Timeout);
        }
        var readers := Only(SIDES, Readers(State(), limit) * p.readable);
        end := SendReady(Only(SIDES, Writers(State()) * p.writable), p.sends);
        if end.None? {
          end := ReceiveReady(readers, p.receives, limit);
        }
        assert (State(), AsClosed(end)) == PlainIterate(before, idleTimeout, limit, p);
        if end.Some? {
          end := AsClosed(end);
          PlainStays(old(State()), idleTimeout, limit, passes, i + 1);
          return;
        }
        i := i + 1;
      }
      end := None;
      assert passes[..i] == passes;
    }
  }

  lemma {:induction false} PlainStays(d: Duplex, idleTimeout: Clock, limit: nat, passes: seq<PlainPass>, i: nat)
    requires i <= |passes| && PlainRun(d, idleTimeout, limit, passes[..i]).1.Some?
    ensures PlainRun(d, idleTimeout, limit, passes) == PlainRun(d, idleTimeout, limit, passes[..i])
    decreases |passes| - i
  {
    if i == |passes| {
      assert passes[..i] == passes;
    } else {
      assert passes[..i + 1][..i] == passes[..i];
      PlainStays(d, idleTimeout, limit, passes, i + 1);
    }
  }

  // ---- the lease gate ----

  /** When the relay was last sure of its exit, since when it has not been, and
      the oldest check it still accepts. */
  datatype Gate = Gate(leaseStarted: Clock, lastVerified: Clock, unverified: Option<Clock>)

  /** One look at the world: the audit latch, the lease file with the clock read
      beside it, and a later clock reading. */
  datatype Look = Look(auditFailed: bool, file: LeaseFile, readAt: Clock, now: Clock)

  /** What one pass of the gated loop meets. */
  datatype Pass = Pass(top: Look, recheck: Look, auditOk: bool, now: Clock, readable: set<Side>, writable: set<Side>,
                       sendLooks: Pair<Look>, sends: Pair<Attempt>, recvLooks: Pair<Look>, receives: Pair<Attempt>)

  function Seen(cfg: RelayConfig, g: Gate, look: Look): LeaseState { StateOf(cfg, look.file, g.leaseStarted, look.readAt) }

  /** The lease is valid now, and since the failure if there was one. */
  predicate Verified(cfg: RelayConfig, g: Gate, p: Pass) {
    && Seen(cfg, g, p.top) == Valid
    && (g.unverified.Some? ==> StateOf(cfg, p.recheck.file, g.unverified.value, p.recheck.readAt) == Valid)
  }

  /** The check at the top of a pass. */
  function Top(cfg: RelayConfig, g: Gate, p: Pass): (Gate, Option<End>) {
    if p.top.auditFailed then (g, Some(AuditUnavailable))
    else if Seen(cfg, g, p.top) == Revoked || (!Verified(cfg, g, p) && cfg.grace == 0) then (g, Some(LeaseRevoked))
    else if Verified(cfg, g, p) then
      match g.unverified
      case None => (g.(lastVerified := p.top.now), None)
      case Some(since) =>
        if !p.auditOk then (g.(lastVerified := p.top.now), Some(Raised))
        else (Gate(Max(g.leaseStarted, since), p.top.now, None), None)
    else if p.top.now - g.lastVerified >= cfg.grace then (g, Some(GraceExpired))
    else if g.unverified.Some? then (g, None)
    else (g.(unverified := Some(p.top.now)), if p.auditOk then None else Some(Raised))
  }

  /** The check before each call on a socket. */
  predicate CanForward(cfg: RelayConfig, g: Gate, look: Look) {
    && !look.auditFailed
    && Seen(cfg, g, look) != Revoked
    && (Seen(cfg, g, look) == Valid || look.now - g.lastVerified < cfg.grace)
  }

  /** The sides served before the first refusal. */
  function Allowed(cfg: RelayConfig, g: Gate, sides: seq<Side>, looks: Pair<Look>): seq<Side> {
    if sides == [] || !CanForward(cfg, g, looks.At(sides[0])) then []
    else [sides[0]] + Allowed(cfg, g, sides[1..], looks)
  }

  datatype Relay = Relay(d: Duplex, gate: Gate, started: Clock)

  function TimeLeft(cfg: RelayConfig, d: Duplex, started: Clock, now: Clock): Clock {
    var idle := cfg.idleTimeout - (now - d.lastActivity);
    if cfg.sessionTimeout.Some? then Min(idle, cfg.sessionTimeout.value - (now - started)) else idle
  }

  function Iterate(cfg: RelayConfig, s: Relay, p: Pass): (Relay, Option<End>) {
    var (gate, stop) := Top(cfg, s.gate, p);
    if stop.Some? then (s.(gate := gate), stop)
    else
      var c := CloseDrained(s.d);
      if Finished(c) then (s.(d := c, gate := gate), Some(Eof))
      else if TimeLeft(cfg, c, s.started, p.now) <= 0 then (s.(d := c, gate := gate), Some(Timeout))
      else
        var writers := Allowed(cfg, gate, Only(SIDES, Writers(c) * p.writable), p.sendLooks);
        var readers := Allowed(cfg, gate, Only(SIDES, Readers(c, MAX_BUFFER) * p.readable), p.recvLooks);
        var (next, end) := Transfer(c, writers, readers, p.sends, p.receives, MAX_BUFFER);
        (s.(d := next, gate := gate), end)
  }

  function GatedRun(cfg: RelayConfig, s: Relay, passes: seq<Pass>): (Relay, Option<End>) {
    if passes == [] then (s, None)
    else
      var (before, end) := GatedRun(cfg, s, passes[..|passes| - 1]);
      if end.Some? then (before, end) else Iterate(cfg, before, passes[|passes| - 1])
  }

  /** The gated loop's own fields; the sockets and buffers are a DuplexRelay. */
  class GatedRelay {
    const cfg: RelayConfig
    const started: Clock
    const duplex: DuplexRelay
    var leaseStarted: Clock
    var lastVerifiedAt: Clock
    var unverifiedAt: Option<Clock>

    function State(): Relay
      reads this, duplex
    {
      Relay(duplex.State(), Gate(leaseStarted, lastVerifiedAt, unverifiedAt), started)
    }

    constructor (cfg: RelayConfig, input: Pair<seq<Byte>>, leaseStarted: Clock, started: Clock)
      requires ValidConfig(cfg)
      ensures State() == Relay(Opened(input, started), Gate(leaseStarted, started, None), started)
      ensures this.cfg == cfg && fresh(duplex)
    {
      this.cfg, this.started := cfg, started;
      this.leaseStarted, this.lastVerifiedAt, this.unverifiedAt := leaseStarted, started, None;
      this.duplex := new DuplexRelay(input, started);
    }

    method CheckLease(p: Pass) returns (end: Option<End>)
      modifies this
      ensures duplex.State() == old(duplex.State())
      ensures (State().gate, end) == Top(cfg, old(State().gate), p)
    {
      if p.top.auditFailed {
        return Some(AuditUnavailable);
      }
      var state := StateOf(cfg, p.top.file, leaseStarted, p.top.readAt);
      var now := p.top.now;
      var valid := state == Valid;
      if valid && unverifiedAt.Some? && StateOf(cfg, p.recheck.file, unverifiedAt.value, p.recheck.readAt) != Valid {
        valid := false;
      }
      if state == Revoked || (!valid && cfg.grace == 0) {
        return Some(LeaseRevoked);
      }
      if valid {
        lastVerifiedAt := now;
        if unverifiedAt.Some? {
          if !p.auditOk {
            return Some(Raised);
          }
          leaseStarted := Max(leaseStarted, unverifiedAt.value);
          unverifiedAt := None;
        }
      } else {
        if now - lastVerifiedAt >= cfg.grace {
          return Some(GraceExpired);
        }
        if unverifiedAt.None? {
          unverifiedAt := Some(now);
          if !p.auditOk {
            return Some(Raised);
          }
        }
      }
      return None;
    }

    /** Whether an established session may go on, asked before each call on a socket. */
    method CanForwardExisting(look: Look) returns (b: bool)
      ensures b == CanForward(cfg, State().gate, look)
    {
      if look.auditFailed {
        return false;
      }
      var value := StateOf(cfg, look.file, leaseStarted, look.readAt);
      return value != Revoked && (value == Valid || look.now - lastVerifiedAt < cfg.grace);
    }

    method SendChecked(dests: seq<Side>, looks: Pair<Look>, tries: Pair<Attempt>) returns (end: Option<End>)
      modifies duplex
      ensures (duplex.State(), end) == SendAll(old(duplex.State()), Allowed(cfg, State().gate, dests, looks), tries)
    {
      hide CanForward, SendOne;
      ghost var gate := State().gate;
      for i := 0 to |dests|
        invariant SendAll(duplex.State(), Allowed(cfg, gate, dests[i..], looks), tries)
                  == SendAll(old(duplex.State()), Allowed(cfg, gate, dests, looks), tries)
      {
        assert dests[i..][0] == dests[i] && dests[i..][1..] == dests[i + 1..];
        var forward := CanForwardExisting(looks.At(dests[i]));
        if !forward {
          return None;
        }
        assert Allowed(cfg, gate, dests[i..], looks)[1..] == Allowed(cfg, gate, dests[i + 1..], looks);
        end := duplex.SendTo(dests[i], tries.At(dests[i]));
        if end.Some? {
          return;
        }
      }
      return None;
    }

    method ReceiveChecked(sources: seq<Side>, looks: Pair<Look>, tries: Pair<Attempt>) returns (end: Option<End>)
      modifies duplex
      ensures (duplex.State(), end) == RecvAll(old(duplex.State()), Allowed(cfg, State().gate, sources, looks), tries, MAX_BUFFER)
    {
      hide CanForward, RecvOne;
      ghost var gate := State().gate;
      for i := 0 to |sources|
        invariant RecvAll(duplex.State(), Allowed(cfg, gate, sources[i..], looks), tries, MAX_BUFFER)
                  == RecvAll(old(duplex.State()), Allowed(cfg, gate, sources, looks), tries, MAX_BUFFER)
      {
        assert sources[i..][0] == sources[i] && sources[i..][1..] == sources[i + 1..];
        var forward := CanForwardExisting(looks.At(sources[i]));
        if !forward {
          return None;
        }
        assert Allowed(cfg, gate, sources[i..], looks)[1..] == Allowed(cfg, gate, sources[i + 1..], looks);
        end := duplex.ReceiveFrom(sources[i], tries.At(sources[i]), MAX_BUFFER);
        if end.Some? {
          return;
        }
      }
      return None;
    }

    /** The gated loop over a run of passes. */
    method RelayBytes(passes: seq<Pass>) returns (end: Option<End>)
      modifies this, duplex
      ensures (State(), end) == GatedRun(cfg, old(State()), passes)
    {
      end := None;
      var i := 0;
      while i < |passes|
        invariant 0 <= i <= |passes|
        invariant (State(), None) == GatedRun(cfg, old(State()), passes[..i])
      {
        var p := passes[i];
        assert passes[..i + 1][..i] == passes[..i] && passes[..i + 1][i] == p;
        end := OnePass(p);
        if end.Some? {
          GatedStays(cfg, old(State()), passes, i + 1);
          return;
        }
        i := i + 1;
      }
      end := None;
      assert passes[..i] == passes;
    }

    method OnePass(p: Pass) returns (end: Option<End>)
      modifies this, duplex
      ensures (State(), end) == Iterate(cfg, old(State()), p)
    {
      hide Top, SendAll, RecvAll, CloseDrained, Allowed;
      end := CheckLease(p);
      if end.Some? {
        return;
      }
      duplex.ShutDrained();
      if Finished(duplex.State()) {
        return Some(Eof);
      }
      var remaining := cfg.idleTimeout - (p.now - duplex.lastActivity);
      if cfg.sessionTimeout.Some? {
        remaining := Min(remaining, cfg.sessionTimeout.value - (p.now - started));
      }
      if remaining <= 0 {
        return Some(Timeout);
      }
      var readers := Only(SIDES, Readers(duplex.State(), MAX_BUFFER) * p.readable);
      var writers := Only(SIDES, Writers(duplex.State()) * p.writable);
      end := SendChecked(writers, p.sendLooks, p.sends);
      if end.None? {
        end := ReceiveChecked(readers, p.recvLooks, p.receives);
      }
    }
  }

  lemma {:induction false} GatedStays(cfg: RelayConfig, s: Relay, passes: seq<Pass>, i: nat)
    requires i <= |passes| && GatedRun(cfg, s, passes[..i]).1.Some?
    ensures GatedRun(cfg, s, passes) == GatedRun(cfg, s, passes[..i])
    decreases |passes| - i
  {
    hide Iterate;
    if i == |passes| {
      assert passes[..i] == passes;
    } else {
      assert passes[..i + 1][..i] == passes[..i];
      GatedStays(cfg, s, passes, i + 1);
    }
  }
}
