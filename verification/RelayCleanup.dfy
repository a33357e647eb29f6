/**
 * What one cleanup pass does, in terms of the state before the pass: which roles it
 * empties, which mappings, spectators and sessions survive.
 */
module RelayCleanup {
  import opened RelayTypes
  import opened RelaySpec
  import opened SpectatorGrouping

  type Table = map<Address, Mapping>
  type Sessions = map<Sid, Session>

  /** The role has peers, the session no recent announcement, and none of the peers a recent mapping. */
  ghost predicate Idle(table: Table, s: Session, role: Role, now: Time, timeout: Time) {
    && PortsOf(s, role) != map[]
    && now - s.lastAnnouncementAt > timeout
    && forall p | p in PortsOf(s, role) && PortsOf(s, role)[p].addr in table ::
         now - table[PortsOf(s, role)[p].addr].timestamp >= timeout
  }

  ghost function Remaining(table: Table, s: Session, role: Role, now: Time, timeout: Time): Ports {
    if Idle(table, s, role, now, timeout) then map[] else PortsOf(s, role)
  }

  /** `a` belongs to a role that times out. */
  ghost predicate Expires(table: Table, sessions: Sessions, a: Address, now: Time, timeout: Time) {
    exists sid, role :: sid in sessions && Idle(table, sessions[sid], role, now,
        timeout) && a in AddrsOf(PortsOf(sessions[sid], role))
  }

  /** Some role of the session is left. */
  ghost predicate Survives(table: Table, s: Session, now: Time, timeout: Time) {
    Remaining(table, s, Streamer, now, timeout) != map[] || Remaining(table, s, Viewer, now, timeout) != map[]
  }

  /** The entry has been silent for more than half a minute and has no live TCP connection. */
  ghost predicate Silent(tcp: map<Address, nat>, e: Entry, now: Time, alive: set<nat>) {
    && now - e.lastAnnouncementAt > 30.0
    && forall a | a in e.Addresses() && a in tcp :: tcp[a] !in alive
  }

  /** The addresses of the silent entries of a session. */
  ghost function SilentAddresses(tcp: map<Address, nat>, s: Session, now: Time, alive: set<nat>): set<Address> {
    set e, b | e in s.spectators && Silent(tcp, e, now, alive) && b in e.Addresses() :: b
  }

  /** `b` is dropped from the targets of `a`: a silent spectator of a surviving session whose streamer is at `a`. */
  ghost predicate Dropped(st: Relay, a: Address, b: Address, now: Time, timeout: Time, alive: set<nat>) {
    exists sid :: sid in st.sessions && Survives(st.mappings, st.sessions[sid], now, timeout)
      && a in AddrsOf(Remaining(st.mappings, st.sessions[sid], Streamer, now, timeout))
      && b in SilentAddresses(st.tcp, st.sessions[sid], now, alive)
  }

  /** Silent entries go; an old entry kept by its connection counts as just seen. */
  ghost function FilterOne(tcp: map<Address, nat>, e: Entry, now: Time, alive: set<nat>): seq<Entry> {
    if Silent(tcp, e, now, alive) then []
    else if now - e.lastAnnouncementAt > 30.0 then [e.(lastAnnouncementAt := now)]
    else [e]
  }

  /** The entries that stay, in their order; going from the last to the first, as the program does. */
  ghost function Filtered(tcp: map<Address, nat>, spectators: seq<Entry>, now: Time, alive: set<nat>): seq<Entry> {
    if spectators == [] then []
    else
      var n := |spectators| - 1;
      Filtered(tcp, spectators[..n], now, alive) + FilterOne(tcp, spectators[n], now, alive)
  }

  // ---------------------------------------------------------------- the phases

  lemma NonEmptyAddrs(ports: Ports)
    ensures AddrsOf(ports) == {} <==> ports == map[]
  {
    if ports != map[] {
      var p :| p in ports;
      assert ports[p].addr in AddrsOf(ports);
    }
  }

  lemma IdleIsExpired(table: Table, s: Session, role: Role, now: Time, timeout: Time)
    ensures ExpiredPorts(table, s, PortsOf(s, role), now, timeout) ==
            if Idle(table, s, role, now, timeout) then AddrsOf(PortsOf(s, role)) else {}
  {
    var ports := PortsOf(s, role);
    forall p | p in ports ensures ports[p].addr in AddrsOf(ports) {}
  }

  lemma ExpiredSession(table: Table, s: Session, now: Time, timeout: Time)
    ensures var s' := ExpireSession(table, s, now, timeout);
            && s'.streamer == Remaining(table, s, Streamer, now, timeout)
            && s'.viewer == Remaining(table, s, Viewer, now, timeout)
            && s'.spectators == s.spectators
            && s'.AllRolesEmpty() == !Survives(table, s, now, timeout)
  {
    IdleIsExpired(table, s, Streamer, now, timeout);
    IdleIsExpired(table, s, Viewer, now, timeout);
    NonEmptyAddrs(s.streamer);
    NonEmptyAddrs(s.viewer);
  }

  lemma ExpiredMappings(st: Relay, now: Time, timeout: Time, a: Address)
    ensures a in ExpireRoles(st, now, timeout).mappings <==>
              a in st.mappings && !Expires(st.mappings, st.sessions, a, now, timeout)
    ensures a in ExpireRoles(st, now, timeout).mappings ==> ExpireRoles(st, now, timeout).mappings[a] == st.mappings[a]
  {
    var gone := set sid, x | sid in st.sessions
        && x in ExpiredAddresses(st.mappings, st.sessions[sid], now, timeout) :: x;
    assert ExpireRoles(st, now, timeout).mappings == st.mappings - gone by { hide ExpireSession, ExpiredAddresses; }
    assert a in gone <==> Expires(st.mappings, st.sessions, a, now, timeout) by {
      hide ExpireRoles;
      forall sid | sid in st.sessions
        ensures a in ExpiredAddresses(st.mappings, st.sessions[sid], now, timeout) <==>
                  exists role :: Idle(st.mappings, st.sessions[sid], role, now,
                      timeout) && a in AddrsOf(PortsOf(st.sessions[sid], role))
      {
        ExpiredAddress(st.mappings, st.sessions[sid], now, timeout, a);
      }
      hide Idle, ExpiredAddresses, AddrsOf;
      if a in gone {
        var sid :| sid in st.sessions && a in ExpiredAddresses(st.mappings, st.sessions[sid], now, timeout);
        var role :| Idle(st.mappings, st.sessions[sid], role, now, timeout)
            && a in AddrsOf(PortsOf(st.sessions[sid], role));
      }
    }
  }

  lemma ExpiredAddress(table: Table, s: Session, now: Time, timeout: Time, a: Address)
    ensures a in ExpiredAddresses(table, s, now, timeout) <==>
              exists role :: Idle(table, s, role, now, timeout) && a in AddrsOf(PortsOf(s, role))
  {
    IdleIsExpired(table, s, Streamer, now, timeout);
    IdleIsExpired(table, s, Viewer, now, timeout);
    hide Idle, ExpiredPorts;
    assert AddrsOf(PortsOf(s, Spectator)) == {};
    if role :| Idle(table, s, role, now, timeout) && a in AddrsOf(PortsOf(s, role)) {
      assert role == Streamer || role == Viewer;
    }
  }

  lemma SilentIsInactive(st: Relay, e: Entry, now: Time, alive: set<nat>)
    ensures IsInactive(st, e, now, alive) == Silent(st.tcp, e, now, alive)
  {
  }

  lemma {:induction false} KeepAppend(st: Relay, spectators: seq<Entry>, e: Entry, now: Time, alive: set<nat>)
    ensures KeepActive(st, spectators + [e], now, alive) ==
              KeepActive(st, spectators, now, alive) + FilterOne(st.tcp, e, now, alive)
  {
    SilentIsInactive(st, e, now, alive);
    hide IsInactive, Silent;
    if spectators == [] {
      assert [] + [e] == [e] && [e][1..] == [];
    } else {
      KeepAppend(st, spectators[1..], e, now, alive);
      assert (spectators + [e])[1..] == spectators[1..] + [e] && (spectators + [e])[0] == spectators[0];
    }
  }

  /** Going forward and going backward through the list keeps the same entries. */
  lemma {:induction false} KeepIsFilter(st: Relay, spectators: seq<Entry>, now: Time, alive: set<nat>)
    ensures KeepActive(st, spectators, now, alive) == Filtered(st.tcp, spectators, now, alive)
  {
    if spectators != [] {
      var n := |spectators| - 1;
      KeepIsFilter(st, spectators[..n], now, alive);
      KeepAppend(st, spectators[..n], spectators[n], now, alive);
      assert spectators[..n] + [spectators[n]] == spectators;
    }
  }

  lemma InactiveIsSilent(st: Relay, s: Session, now: Time, alive: set<nat>)
    ensures InactiveAddresses(st, s, now, alive) == if s.AllRolesEmpty() then {}
              else SilentAddresses(st.tcp, s, now, alive)
  {
    forall e ensures IsInactive(st, e, now, alive) == Silent(st.tcp, e, now, alive) {
      SilentIsInactive(st, e, now, alive);
    }
    hide IsInactive, Silent;
  }

  lemma DroppedTargets(st: Relay, a: Address, b: Address, now: Time, timeout: Time, alive: set<nat>)
    requires a in ExpireRoles(st, now, timeout).mappings
    ensures var expired := ExpireRoles(st, now, timeout);
            b in DropInactive(expired, now, alive).mappings[a].targets <==>
              b in expired.mappings[a].targets && !Dropped(st, a, b, now, timeout, alive)
  {
    hide InactiveAddresses, ExpireRoles, Survives, Remaining, AddrsOf, SilentAddresses;
    var expired := ExpireRoles(st, now, timeout);
    assert expired.sessions.Keys == st.sessions.Keys by { SameSids(st, now, timeout); }
    forall sid | sid in st.sessions
      ensures a in AddrsOf(expired.sessions[sid].streamer)
                && b in InactiveAddresses(expired, expired.sessions[sid], now, alive) <==>
                Survives(st.mappings, st.sessions[sid], now, timeout)
                && a in AddrsOf(Remaining(st.mappings, st.sessions[sid], Streamer, now, timeout))
                && b in SilentAddresses(st.tcp, st.sessions[sid], now, alive)
    {
      InactiveAfterExpiry(st, sid, now, timeout, alive);
    }
    var gone := set sid, x | sid in expired.sessions && a in AddrsOf(expired.sessions[sid].streamer)
                          && x in InactiveAddresses(expired, expired.sessions[sid], now, alive) :: x;
    assert DropInactive(expired, now, alive).mappings[a].targets == expired.mappings[a].targets - gone;
  }

  lemma SameSids(st: Relay, now: Time, timeout: Time)
    ensures ExpireRoles(st, now, timeout).sessions.Keys == st.sessions.Keys
  {
    hide ExpireSession, ExpiredAddresses;
  }

  /** Which addresses of a session are inactive once idle roles have been emptied */
  lemma InactiveAfterExpiry(st: Relay, sid: Sid, now: Time, timeout: Time, alive: set<nat>)
    requires sid in st.sessions
    ensures var expired := ExpireRoles(st, now, timeout);
            && sid in expired.sessions
            && expired.sessions[sid].streamer == Remaining(st.mappings, st.sessions[sid], Streamer, now, timeout)
            && InactiveAddresses(expired, expired.sessions[sid], now, alive) ==
               if Survives(st.mappings, st.sessions[sid], now, timeout)
                   then SilentAddresses(st.tcp, st.sessions[sid], now, alive) else {}
  {
    var expired := ExpireRoles(st, now, timeout);
    ExpiredSession(st.mappings, st.sessions[sid], now, timeout);
    InactiveIsSilent(expired, expired.sessions[sid], now, alive);
    hide InactiveAddresses, ExpireSession, Survives, Remaining;
  }

  // ---------------------------------------------------------------- the whole pass

  /**
   * One pass, in terms of the state before it (with the dead TCP targets already dropped).
   * The survivors are exactly the sessions with a role that is not idle; roles are emptied
   * exactly when idle; a mapping goes exactly when it belongs to an idle role; spectators
   * are filtered in place, and leave exactly the targets of their own streamer.
   */
  ghost predicate ExactlyCleaned(st: Relay, after: Relay, now: Time, timeout: Time, alive: set<nat>) {
    && (forall sid :: sid in after.sessions <==>
        sid in st.sessions && Survives(st.mappings, st.sessions[sid], now, timeout))
    && (forall sid | sid in after.sessions ::
        SessionCleaned(st, st.sessions[sid], after.sessions[sid], now, timeout, alive))
    && (forall a :: MappingCleaned(st, after.mappings, a, now, timeout, alive))
  }

  ghost predicate MappingCleaned(st: Relay, after: Table, a: Address, now: Time, timeout: Time, alive: set<nat>) {
    && (a in after <==> a in st.mappings && !Expires(st.mappings, st.sessions, a, now, timeout))
    && (a in after ==> after[a].timestamp == st.mappings[a].timestamp)
    && (a in after ==> forall b :: b in after[a].targets <==>
          b in st.mappings[a].targets && !Dropped(st, a, b, now, timeout, alive))
  }

  ghost predicate SessionCleaned(st: Relay, s: Session, s': Session, now: Time, timeout: Time, alive: set<nat>) {
    && s'.streamer == Remaining(st.mappings, s, Streamer, now, timeout)
    && s'.viewer == Remaining(st.mappings, s, Viewer, now, timeout)
    && s'.spectators == Filtered(st.tcp, s.spectators, now, alive)
  }

  /** The state just before the sessions without roles are dropped. */
  ghost predicate AlmostCleaned(st: Relay, dropped: Relay, now: Time, timeout: Time, alive: set<nat>) {
    && dropped.sessions.Keys == st.sessions.Keys
    && (forall sid | sid in st.sessions ::
          dropped.sessions[sid].AllRolesEmpty() == !Survives(st.mappings, st.sessions[sid], now, timeout))
    && (forall sid | sid in st.sessions && Survives(st.mappings, st.sessions[sid], now, timeout) ::
          SessionCleaned(st, st.sessions[sid], dropped.sessions[sid], now, timeout, alive))
    && (forall a :: MappingCleaned(st, dropped.mappings, a, now, timeout, alive))
  }

  lemma SessionsSoFar(st: Relay, now: Time, timeout: Time, alive: set<nat>)
    ensures DropInactive(ExpireRoles(st, now, timeout), now, alive).sessions.Keys == st.sessions.Keys
  {
    hide KeepActive, InactiveAddresses, ExpireSession, ExpiredAddresses;
  }

  lemma AllButEmptySessions(st: Relay, now: Time, timeout: Time, alive: set<nat>)
    ensures AlmostCleaned(st, DropInactive(ExpireRoles(st, now, timeout), now, alive), now, timeout, alive)
  {
    hide ExpireRoles, DropInactive, Survives, SessionCleaned, MappingCleaned;
    var dropped := DropInactive(ExpireRoles(st, now, timeout), now, alive);
    SessionsSoFar(st, now, timeout, alive);
    forall sid | sid in st.sessions
      ensures dropped.sessions[sid].AllRolesEmpty() == !Survives(st.mappings, st.sessions[sid], now, timeout)
      ensures Survives(st.mappings, st.sessions[sid], now, timeout) ==>
                SessionCleaned(st, st.sessions[sid], dropped.sessions[sid], now, timeout, alive)
    {
      CleanedSession(st, sid, now, timeout, alive);
    }
    forall a ensures MappingCleaned(st, dropped.mappings, a, now, timeout, alive) {
      CleanedMapping(st, a, now, timeout, alive);
    }
  }

  lemma CleanupExactly(st: Relay, now: Time, timeout: Time, alive: set<nat>)
    ensures ExactlyCleaned(DropDeadTargets(st, alive), Cleanup(st, now, timeout, alive), now, timeout, alive)
  {
    var tcp := DropDeadTargets(st, alive);
    AllButEmptySessions(tcp, now, timeout, alive);
    hide DropDeadTargets, DropInactive, ExpireRoles, Survives, SessionCleaned, MappingCleaned, Without;
  }

  lemma CleanedSession(st: Relay, sid: Sid, now: Time, timeout: Time, alive: set<nat>)
    requires sid in st.sessions
    ensures var dropped := DropInactive(ExpireRoles(st, now, timeout), now, alive);
            && sid in dropped.sessions
            && dropped.sessions[sid].AllRolesEmpty() == !Survives(st.mappings, st.sessions[sid], now, timeout)
            && (Survives(st.mappings, st.sessions[sid], now, timeout) ==>
                  SessionCleaned(st, st.sessions[sid], dropped.sessions[sid], now, timeout, alive))
  {
    var expired := ExpireRoles(st, now, timeout);
    ExpiredSession(st.mappings, st.sessions[sid], now, timeout);
    KeepIsFilter(expired, st.sessions[sid].spectators, now, alive);
    hide Survives, Remaining, Filtered, KeepActive, InactiveAddresses, ExpireSession;
  }

  lemma CleanedMapping(st: Relay, a: Address, now: Time, timeout: Time, alive: set<nat>)
    ensures MappingCleaned(st, DropInactive(ExpireRoles(st, now, timeout), now, alive).mappings, a, now, timeout, alive)
  {
    var expired := ExpireRoles(st, now, timeout);
    var dropped := DropInactive(expired, now, alive);
    ExpiredMappings(st, now, timeout, a);
    assert dropped.mappings.Keys == expired.mappings.Keys;
    assert a in expired.mappings ==> dropped.mappings[a].timestamp == expired.mappings[a].timestamp;
    hide ExpireRoles, Expires, DropInactive, Dropped;
    if a in dropped.mappings {
      forall b ensures b in dropped.mappings[a].targets <==>
          b in st.mappings[a].targets && !Dropped(st, a, b, now, timeout, alive) {
        DroppedTargets(st, a, b, now, timeout, alive);
      }
    }
  }

  /** A mapping that was touched within the timeout is never dropped. */
  lemma RecentTrafficIsKept(st: Relay, a: Address, now: Time, timeout: Time, alive: set<nat>)
    requires a in st.mappings && now - st.mappings[a].timestamp < timeout
    ensures a in Cleanup(st, now, timeout, alive).mappings
    ensures Cleanup(st, now, timeout, alive).mappings[a].timestamp == st.mappings[a].timestamp
  {
    CleanupExactly(st, now, timeout, alive);
    hide Cleanup, Survives, SessionCleaned, Dropped;
    assert MappingCleaned(DropDeadTargets(st, alive), Cleanup(st, now, timeout, alive).mappings, a, now, timeout,
        alive);
  }

  /** No session without roles is left; a session with roles and a recent announcement keeps them. */
  lemma NoEmptySessionIsLeft(st: Relay, sid: Sid, now: Time, timeout: Time, alive: set<nat>)
    ensures sid in Cleanup(st, now, timeout, alive).sessions ==>
              !Cleanup(st, now, timeout, alive).sessions[sid].AllRolesEmpty()
    ensures sid in st.sessions && now - st.sessions[sid].lastAnnouncementAt <= timeout
              && !st.sessions[sid].AllRolesEmpty() ==>
              sid in Cleanup(st, now, timeout, alive).sessions
              && Cleanup(st, now, timeout, alive).sessions[sid].streamer == st.sessions[sid].streamer
              && Cleanup(st, now, timeout, alive).sessions[sid].viewer == st.sessions[sid].viewer
  {
    CleanupExactly(st, now, timeout, alive);
    hide Cleanup, MappingCleaned, Filtered;
  }

  // ---------------------------------------------------------------- the index and the recorded addresses

  /** `a` is an address of a spectator that is silent, or whose session loses its last role. */
  ghost predicate LeavesIndex(st: Relay, a: Address, now: Time, timeout: Time, alive: set<nat>) {
    exists sid, e :: sid in st.sessions && e in st.sessions[sid].spectators && a in e.Addresses()
      && (Silent(st.tcp, e, now, alive) || !Survives(st.mappings, st.sessions[sid], now, timeout))
  }

  /** Exactly the addresses of removed spectators leave the index. */
  lemma IndexAfterCleanup(st: Relay, a: Address, now: Time, timeout: Time, alive: set<nat>)
    ensures a in Cleanup(st, now, timeout, alive).index <==>
              a in st.index && !LeavesIndex(DropDeadTargets(st, alive), a, now, timeout, alive)
    ensures a in Cleanup(st, now, timeout, alive).index ==> Cleanup(st, now, timeout, alive).index[a] == st.index[a]
  {
    hide Silent, Survives, ExpireRoles, DropInactive, DropEmpty, LeavesIndex;
    var tcp := DropDeadTargets(st, alive);
    var expired := ExpireRoles(tcp, now, timeout);
    var dropped := DropInactive(expired, now, alive);
    IndexWithoutInactive(tcp, a, now, timeout, alive);
    IndexWithoutEmpty(dropped, a);
    LeavingInTwoWays(tcp, a, now, timeout, alive);
  }

  ghost predicate InactiveIn(st: Relay, a: Address, now: Time, timeout: Time, alive: set<nat>) {
    exists sid :: sid in st.sessions && Survives(st.mappings, st.sessions[sid], now, timeout)
      && a in SilentAddresses(st.tcp, st.sessions[sid], now, alive)
  }

  ghost predicate InEmptySession(st: Relay, a: Address) {
    exists sid, e :: sid in st.sessions && st.sessions[sid].AllRolesEmpty() && e in st.sessions[sid].spectators
        && a in e.Addresses()
  }

  lemma IndexWithoutInactive(st: Relay, a: Address, now: Time, timeout: Time, alive: set<nat>)
    ensures var dropped := DropInactive(ExpireRoles(st, now, timeout), now, alive);
            && (a in dropped.index <==> a in st.index && !InactiveIn(st, a, now, timeout, alive))
            && (a in dropped.index ==> dropped.index[a] == st.index[a])
  {
    var expired := ExpireRoles(st, now, timeout);
    assert expired.index == st.index;
    SameSids(st, now, timeout);
    hide InactiveAddresses, ExpireRoles, Survives, SilentAddresses, Remaining;
    forall sid | sid in st.sessions
      ensures a in InactiveAddresses(expired, expired.sessions[sid], now, alive) <==>
                Survives(st.mappings, st.sessions[sid], now, timeout)
                    && a in SilentAddresses(st.tcp, st.sessions[sid], now, alive)
    {
      InactiveAfterExpiry(st, sid, now, timeout, alive);
    }
    var gone := set sid, x | sid in expired.sessions
        && x in InactiveAddresses(expired, expired.sessions[sid], now, alive) :: x;
    assert DropInactive(expired, now, alive).index == expired.index - gone;
  }

  lemma IndexWithoutEmpty(st: Relay, a: Address)
    ensures a in DropEmpty(st).index <==> a in st.index && !InEmptySession(st, a)
    ensures a in DropEmpty(st).index ==> DropEmpty(st).index[a] == st.index[a]
  {
    var empty := set sid | sid in st.sessions && st.sessions[sid].AllRolesEmpty();
    var gone := set sid, e, x | sid in empty && e in st.sessions[sid].spectators && x in e.Addresses() :: x;
    assert DropEmpty(st).index == st.index - gone;
  }

  /** A session that has lost its last role keeps its spectators until it is dropped. */
  lemma SpectatorsOfEmpty(st: Relay, sid: Sid, now: Time, timeout: Time, alive: set<nat>)
    requires sid in st.sessions
    ensures var dropped := DropInactive(ExpireRoles(st, now, timeout), now, alive);
            && sid in dropped.sessions
            && dropped.sessions[sid].AllRolesEmpty() == !Survives(st.mappings, st.sessions[sid], now, timeout)
            && (dropped.sessions[sid].AllRolesEmpty() ==>
                dropped.sessions[sid].spectators == st.sessions[sid].spectators)
  {
    CleanedSession(st, sid, now, timeout, alive);
    ExpiredSession(st.mappings, st.sessions[sid], now, timeout);
    hide Survives, Remaining, KeepActive, InactiveAddresses, ExpireSession;
  }

  lemma LeavingInTwoWays(st: Relay, a: Address, now: Time, timeout: Time, alive: set<nat>)
    ensures var dropped := DropInactive(ExpireRoles(st, now, timeout), now, alive);
            LeavesIndex(st, a, now, timeout, alive) <==>
                InactiveIn(st, a, now, timeout, alive) || InEmptySession(dropped, a)
  {
    hide Silent, Survives, ExpireRoles, DropInactive;
    var dropped := DropInactive(ExpireRoles(st, now, timeout), now, alive);
    SessionsSoFar(st, now, timeout, alive);
    forall sid | sid in st.sessions
      ensures dropped.sessions[sid].AllRolesEmpty() == !Survives(st.mappings, st.sessions[sid], now, timeout)
      ensures dropped.sessions[sid].AllRolesEmpty() ==> dropped.sessions[sid].spectators == st.sessions[sid].spectators
    {
      SpectatorsOfEmpty(st, sid, now, timeout, alive);
    }
    if LeavesIndex(st, a, now, timeout, alive) {
      var sid, e :| sid in st.sessions && e in st.sessions[sid].spectators && a in e.Addresses()
        && (Silent(st.tcp, e, now, alive) || !Survives(st.mappings, st.sessions[sid], now, timeout));
      assert Survives(st.mappings, st.sessions[sid], now, timeout) ==>
          a in SilentAddresses(st.tcp, st.sessions[sid], now, alive);
      assert sid in dropped.sessions;
    }
  }

  ghost function RoleAddresses(table: Table, s: Session, role: Role, now: Time, timeout: Time): set<Address> {
    if Idle(table, s, role, now, timeout) then AddrsOf(PortsOf(s, role)) else {}
  }

  /** A surviving session forgets exactly the addresses of its emptied roles and removed spectators. */
  lemma AddressesAfterCleanup(st: Relay, sid: Sid, now: Time, timeout: Time, alive: set<nat>)
    requires sid in st.sessions
    ensures var s := st.sessions[sid];
            var after := Cleanup(st, now, timeout, alive);
            sid in after.sessions ==>
              after.sessions[sid].addresses ==
              s.addresses
              - RoleAddresses(st.mappings, s, Streamer, now, timeout)
              - RoleAddresses(st.mappings, s, Viewer, now, timeout)
              - SilentAddresses(DropDeadTargets(st, alive).tcp, s, now, alive)
  {
    hide *;
    var tcp := DropDeadTargets(st, alive);
    OnlyTargetsDropped(st, alive);
    SurvivorsOf(st, sid, now, timeout, alive);
    if sid in Cleanup(st, now, timeout, alive).sessions {
      AddressesStepByStep(tcp, sid, now, timeout, alive);
    }
  }

  lemma OnlyTargetsDropped(st: Relay, alive: set<nat>)
    ensures DropDeadTargets(st, alive) == st.(tcp := DropDeadTargets(st, alive).tcp)
    ensures DropDeadTargets(st, alive).sessions == st.sessions && DropDeadTargets(st, alive).mappings == st.mappings
  {
  }

  lemma SurvivorsOf(st: Relay, sid: Sid, now: Time, timeout: Time, alive: set<nat>)
    ensures var tcp := DropDeadTargets(st, alive);
            var dropped := DropInactive(ExpireRoles(tcp, now, timeout), now, alive);
            sid in Cleanup(st, now, timeout, alive).sessions ==>
              && sid in tcp.sessions && Survives(tcp.mappings, tcp.sessions[sid], now, timeout)
              && sid in dropped.sessions && Cleanup(st, now, timeout, alive).sessions[sid] == dropped.sessions[sid]
  {
    CleanupExactly(st, now, timeout, alive);
    hide DropDeadTargets, Survives, SessionCleaned, MappingCleaned, ExpireRoles, DropInactive;
  }

  lemma AddressesStepByStep(st: Relay, sid: Sid, now: Time, timeout: Time, alive: set<nat>)
    requires sid in st.sessions && Survives(st.mappings, st.sessions[sid], now, timeout)
    ensures var dropped := DropInactive(ExpireRoles(st, now, timeout), now, alive);
            var s := st.sessions[sid];
            && sid in dropped.sessions
            && dropped.sessions[sid].addresses ==
               s.addresses
               - RoleAddresses(st.mappings, s, Streamer, now, timeout)
               - RoleAddresses(st.mappings, s, Viewer, now, timeout)
               - SilentAddresses(st.tcp, s, now, alive)
  {
    var s := st.sessions[sid];
    var expired := ExpireRoles(st, now, timeout);
    IdleIsExpired(st.mappings, s, Streamer, now, timeout);
    IdleIsExpired(st.mappings, s, Viewer, now, timeout);
    ExpiredSession(st.mappings, s, now, timeout);
    InactiveIsSilent(expired, expired.sessions[sid], now, alive);
    hide Idle, ExpiredPorts, InactiveAddresses, Survives, Remaining, KeepActive;
    var inactive := InactiveAddresses(expired, expired.sessions[sid], now, alive);
    assert DropInactive(expired, now, alive).sessions[sid].addresses == expired.sessions[sid].addresses - inactive;
  }
}
