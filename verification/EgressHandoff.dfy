/** Moving new connections to versioned relays, with a failure possible at every step. */
module EgressHandoff {
  import opened Wire

  datatype Role = DnsRole | GatewayRole

  /** An external effect succeeds, fails without effect, or fails after taking effect. */
  datatype Effect = Succeeds | FailsBefore | FailsAfter

  /** A clean-up call works, is refused without effect (and ignored), or raises
      and ends the rollback, without effect or after taking effect.  A failure
      status that is ignored after the call took effect is no different from success. */
  datatype Cleanup = Works | Refused | RaisesBefore | RaisesAfter {
    predicate Takes() { Works? || RaisesAfter? }
    predicate Ends() { RaisesBefore? || RaisesAfter? }
  }

  datatype Report = Report(applied: bool, routeActive: bool, failed: bool, containers: set<string>, switched: seq<Role>)

  const WEB: string := "web"
  const DNS: string := "dns"
  const NO_REPORT: Report := Report(false, false, false, {}, [])

  function NewNames(): set<string> { {WEB, DNS} }

  function Redirected(switched: seq<Role>): set<Role> { set r | r in switched }

  /** Effects of one handoff, by step. */
  datatype Script = Script(firstWrite: Effect, config: string -> bool, create: string -> Effect, connect: string -> bool,
                           start: string -> bool, inspectNew: bool, listWrite: Effect, checks: bool, preparedWrite: Effect,
                           intact: Role -> bool, preflight: Role -> bool, apply: Role -> Effect, switchWrite: Role -> Effect,
                           finalCheck: bool, finalWrite: Effect, delete: Role -> Cleanup, remove: string -> Cleanup,
                           rollbackWrite: Effect)
  {
    predicate Starts(name: string) { config(name) && create(name).Succeeds? && connect(name) && start(name) }

    /** Every step before the first routing step succeeds. */
    predicate Prepares() {
      && Starts(WEB) && Starts(DNS) && inspectNew
      && listWrite.Succeeds? && checks && preparedWrite.Succeeds?
    }

    predicate Reaches(role: Role) { intact(role) && preflight(role) }

    predicate Routes(role: Role) { Reaches(role) && apply(role).Succeeds? && switchWrite(role).Succeeds? }

    predicate Completes() {
      && firstWrite.Succeeds? && Prepares() && Routes(DnsRole) && Routes(GatewayRole)
      && finalCheck && finalWrite.Succeeds?
    }

    /** The first ruleset commit reports failure although it took effect. */
    predicate TearsFirstCommit() { firstWrite.Succeeds? && Prepares() && Reaches(DnsRole) && apply(DnsRole).FailsAfter? }

    /** A rollback with nothing registered as switched neither removes a relay nor disowns it. */
    predicate RollbackSparesRelays() {
      && !remove(WEB).Takes()
      && (remove(WEB).Refused? ==> !remove(DNS).Takes())
      && (remove(WEB).Refused? && remove(DNS).Refused? ==> rollbackWrite.FailsBefore?)
    }
  }

  predicate Built(s: Script, name: string) {
    s.config(name) && s.create(name) == Succeeds && s.connect(name) && s.start(name)
  }

  /** A handoff completes exactly when all of its steps succeed; its first commit is torn
      exactly when that commit alone fails, after taking effect, with everything before it done. */
  lemma StepsExact(s: Script)
    ensures var ready := && s.firstWrite == Succeeds && Built(s, "web") && Built(s, "dns") && s.inspectNew
                         && s.listWrite == Succeeds && s.checks && s.preparedWrite == Succeeds;
            && (s.Completes() <==>
                && ready && s.finalCheck && s.finalWrite == Succeeds
                && forall r: Role :: s.intact(r) && s.preflight(r) && s.apply(r) == Succeeds && s.switchWrite(r) == Succeeds)
            && (s.TearsFirstCommit() <==> ready && s.intact(DnsRole) && s.preflight(DnsRole) && s.apply(DnsRole) == FailsAfter)
  {
    if s.Completes() {
      forall r: Role ensures s.intact(r) && s.preflight(r) && s.apply(r) == Succeeds && s.switchWrite(r) == Succeeds {
        match r {
          case DnsRole => assert s.Routes(DnsRole);
          case GatewayRole => assert s.Routes(GatewayRole);
        }
      }
    }
  }

  /** What the handoff touches: containers, the redirect tables of the two
      namespaces, and the stored manifest. */
  class Host {
    const guarded: set<string>
    var containers: set<string>
    var tables: set<Role>
    var stored: Option<Report>

    /** The stored manifest says applied, lists both new containers, and both are present. */
    ghost predicate Owned()
      reads this
    {
      stored.Some? && stored.value.applied && stored.value.containers == NewNames() && NewNames() <= containers
    }

    /** Protected containers stay; and while a namespace redirects, its relays are owned. */
    ghost predicate Safe()
      reads this
    {
      guarded !! NewNames() && guarded <= containers && (tables != {} ==> Owned())
    }

    constructor (guarded: set<string>)
      requires guarded !! NewNames()
      ensures Safe() && containers == guarded && tables == {} && stored == None && this.guarded == guarded
    {
      this.guarded, containers, tables, stored := guarded, guarded, {}, None;
    }

    /** Replaces the manifest atomically. */
    method WriteManifest(report: Report, e: Effect) returns (ok: bool)
      modifies this`stored
      ensures ok == e.Succeeds?
      ensures stored == if e.FailsBefore? then old(stored) else Some(report)
    {
      if !e.FailsBefore? {
        stored := Some(report);
      }
      return e.Succeeds?;
    }

    method CreateContainer(name: string, e: Effect) returns (ok: bool)
      requires Safe()
      modifies this`containers
      ensures Safe() && ok == e.Succeeds?
      ensures containers == if e.FailsBefore? then old(containers) else old(containers) + {name}
    {
      if !e.FailsBefore? {
        containers := containers + {name};
      }
      return e.Succeeds?;
    }

    /** Removes a container; never a protected one. */
    method RemoveContainer(name: string, c: Cleanup)
      requires name !in guarded
      modifies this`containers
      ensures containers == if c.Takes() then old(containers) - {name} else old(containers)
    {
      if c.Takes() {
        containers := containers - {name};
      }
    }

    /** Installs the redirect table; the manifest must own the new containers first. */
    method AddTable(role: Role, e: Effect) returns (ok: bool)
      requires Safe() && Owned()
      modifies this`tables
      ensures Safe() && ok == e.Succeeds?
      ensures tables == if e.FailsBefore? then old(tables) else old(tables) + {role}
    {
      if !e.FailsBefore? {
        tables := tables + {role};
      }
      return e.Succeeds?;
    }

    method DeleteTable(role: Role, c: Cleanup)
      modifies this`tables
      ensures tables == if c.Takes() then old(tables) - {role} else old(tables)
    {
      if c.Takes() {
        tables := tables - {role};
      }
    }
  }

  class Handoff {
    const host: Host
    var created: seq<string>
    var switched: seq<Role>
    var report: Report

    constructor (host: Host)
      ensures this.host == host && created == [] && switched == [] && report == NO_REPORT
    {
      this.host, created, switched, report := host, [], [], NO_REPORT;
    }

    /** Before any routing: nothing redirects and created containers are new ones. */
    ghost predicate Preparing()
      reads this, host
    {
      && host.Safe() && host.tables == {} && switched == []
      && (forall i :: 0 <= i < |created| ==> created[i] in NewNames())
    }

    /** While switching: the manifest on disk and in memory owns both relays, and
        every namespace registered as switched redirects. */
    ghost predicate Switching()
      reads this, host
    {
      && host.Safe() && host.Owned() && Redirected(switched) <= host.tables
      && report.applied && report.containers == NewNames() && created == [WEB, DNS]
    }

    /** Creates and starts the relays in order, remembering each one created. */
    method StartRelays(s: Script) returns (ok: bool)
      requires Preparing() && created == []
      modifies this`created, host`containers
      ensures Preparing() && ok == (s.Starts(WEB) && s.Starts(DNS))
      ensures ok ==> NewNames() <= host.containers && created == [WEB, DNS]
      ensures old(host.containers) <= host.containers
    {
      var names := [WEB, DNS];
      for i := 0 to 2
        invariant Preparing() && created == names[..i] && old(host.containers) <= host.containers
        invariant forall j :: 0 <= j < i ==> names[j] in host.containers && s.Starts(names[j])
      {
        if !s.config(names[i]) {
          return false;
        }
        ok := host.CreateContainer(names[i], s.create(names[i]));
        if !ok {
          return false;
        }
        created := created + [names[i]];
        if !s.connect(names[i]) || !s.start(names[i]) {
          return false;
        }
      }
      assert names[0] in host.containers && names[1] in host.containers;
      return true;
    }

    /** Creates and checks the relays and records that the manifest owns them. */
    method Prepare(s: Script) returns (ok: bool)
      requires Preparing() && created == []
      modifies this`created, this`report, host`containers, host`stored
      ensures Preparing() && ok == s.Prepares() && (ok ==> Switching())
      ensures old(host.containers) <= host.containers
    {
      ok := StartRelays(s);
      if !ok || !s.inspectNew {
        return false;
      }
      report := report.(containers := NewNames());
      ok := host.WriteManifest(report, s.listWrite);
      if !ok || !s.checks {
        return false;
      }
      report := report.(applied := true, routeActive := false);
      ok := host.WriteManifest(report, s.preparedWrite);
    }

    /** Switches the DNS and then the gateway namespace, registering each. */
    method Switch(s: Script) returns (ok: bool)
      requires Switching() && switched == [] && host.tables == {}
      modifies this`switched, this`report, host`tables, host`stored
      ensures Switching()
      ensures ok <==> s.Routes(DnsRole) && s.Routes(GatewayRole) && s.finalCheck && s.finalWrite.Succeeds?
      ensures ok ==> host.tables == {DnsRole, GatewayRole} && host.stored.value.routeActive
      ensures switched == [] && host.tables != {} <==> s.Reaches(DnsRole) && s.apply(DnsRole).FailsAfter?
    {
      var roles := [DnsRole, GatewayRole];
      for i := 0 to 2
        invariant Switching() && switched == roles[..i] && (i == 0 ==> host.tables == {})
        invariant forall j :: 0 <= j < i ==> s.Routes(roles[j])
        invariant i > 0 ==> s.Routes(DnsRole)
      {
        var role := roles[i];
        if !s.intact(role) || !s.preflight(role) {
          return false;
        }
        ok := host.AddTable(role, s.apply(role));
        if !ok {
          return false;
        }
        switched := switched + [role];
        report := report.(switched := switched);
        ok := host.WriteManifest(report, s.switchWrite(role));
        if !ok {
          return false;
        }
      }
      assert s.Routes(roles[0]) && s.Routes(roles[1]);
      report := report.(applied := true, routeActive := true);
      if !s.finalCheck {
        return false;
      }
      ok := host.WriteManifest(report, s.finalWrite);
      assert roles[0] in switched && roles[1] in switched;
      assert forall r :: r in host.tables ==> r == DnsRole || r == GatewayRole;
    }

    /** Undoes routing; removes the new containers only when nothing was switched. */
    method RollBack(s: Script)
      requires switched == [] ==> Preparing() || Switching()
      requires switched != [] ==> Switching()
      modifies this`report, host`tables, host`containers, host`stored
      ensures switched == [] && old(host.tables) != {} ==> (host.Safe() <==> s.RollbackSparesRelays())
      ensures switched != [] || old(host.tables) == {} ==> host.Safe()
      ensures switched != [] ==> host.Owned() && host.containers == old(host.containers)
      ensures switched == [] ==> host.tables == old(host.tables)
      ensures host.tables <= old(host.tables) && old(host.containers) - host.containers <= NewNames()
    {
      for i := |switched| downto 0
        invariant host.tables <= old(host.tables) && (switched == [] ==> host.tables == old(host.tables))
        invariant host.containers == old(host.containers) && host.stored == old(host.stored) && report == old(report)
      {
        host.DeleteTable(switched[i], s.delete(switched[i]));
        if s.delete(switched[i]).Ends() {
          return;
        }
      }
      if switched == [] {
        for i := 0 to |created|
          invariant host.tables == old(host.tables) && host.stored == old(host.stored) && report == old(report)
          invariant old(host.containers) - host.containers <= NewNames()
          invariant forall j :: 0 <= j < i ==> !s.remove(created[j]).Ends()
          invariant forall j :: 0 <= j < i && s.remove(created[j]).Takes() ==> created[j] !in host.containers
          invariant (forall j :: 0 <= j < i ==> !s.remove(created[j]).Takes()) ==> host.containers == old(host.containers)
        {
          assert created[i] in NewNames();
          host.RemoveContainer(created[i], s.remove(created[i]));
          if s.remove(created[i]).Ends() {
            assert i > 0 ==> !s.remove(created[0]).Ends();
            return;
          }
        }
        assert old(host.tables) != {} ==> !s.remove(created[0]).Ends() && !s.remove(created[1]).Ends();
      }
      report := report.(applied := switched != [], routeActive := false, failed := true);
      var _ := host.WriteManifest(report, s.rollbackWrite);
    }

    /** The handoff from the first manifest on, whatever each step does.  It ends
        with redirects only towards owned relays, except when the very first
        ruleset commit takes effect yet reports failure and the rollback then
        takes a relay away. */
    method Run(s: Script) returns (ok: bool)
      requires Preparing() && created == [] && report == NO_REPORT
      modifies this, host
      ensures ok <==> s.Completes()
      ensures ok ==> host.tables == {DnsRole, GatewayRole} && host.Owned() && host.stored.value.routeActive
      ensures host.Safe() <==> !s.TearsFirstCommit() || s.RollbackSparesRelays()
      ensures switched != [] ==> host.Owned() && old(host.containers) <= host.containers
      ensures switched == [] && !s.TearsFirstCommit() ==> host.tables == {}
      ensures host.guarded <= host.containers && old(host.containers) - host.containers <= NewNames()
    {
      ok := host.WriteManifest(report, s.firstWrite);
      if !ok {
        return false;
      }
      ok := Prepare(s);
      if ok {
        ok := Switch(s);
      }
      if !ok {
        RollBack(s);
      }
    }
  }
}
