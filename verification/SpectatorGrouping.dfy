/**
 * Spectators are grouped by source IP. In every reachable state the entries of a
 * session are non-empty, use one IP each, and no two entries share an IP, so a
 * lookup by address is unambiguous.
 */
module SpectatorGrouping {
  import opened RelayTypes
  import opened RelaySpec

  /** No entry is empty, and two addresses have the same IP exactly when they belong to the same entry. */
  ghost predicate Grouped(spectators: seq<Entry>) {
    && (forall i | 0 <= i < |spectators| :: spectators[i].ports != map[])
    && (forall i, j, a, b | 0 <= i < |spectators| && 0 <= j < |spectators|
                         && a in spectators[i].Addresses() && b in spectators[j].Addresses()
          :: a.ip == b.ip <==> i == j)
  }

  ghost predicate AllGrouped(sessions: map<Sid, Session>) {
    forall sid | sid in sessions :: sessions[sid].id == sid && Grouped(sessions[sid].spectators)
  }

  /** The dictionary order lists exactly the sessions there are. */
  ghost predicate OrderMatches(st: Relay) {
    forall sid :: sid in st.order <==> sid in st.sessions
  }

  ghost predicate Inv(st: Relay) {
    AllGrouped(st.sessions) && OrderMatches(st)
  }

  /** A port that is present has its address among the entry's addresses. */
  lemma HasAddress(e: Entry)
    requires e.ports != map[]
    ensures exists a :: a in e.Addresses()
  {
    var p :| p in e.ports;
    assert e.ports[p].addr in e.Addresses();
  }

  /** The lookup by address finds the only entry that uses the address; entries share no address. */
  lemma LookupIsUnambiguous(spectators: seq<Entry>, i: nat, addr: Address)
    requires Grouped(spectators) && i < |spectators| && addr in spectators[i].Addresses()
    ensures FindByAddress(spectators, addr) == Some(i)
    ensures forall j | 0 <= j < |spectators| && j != i :: spectators[j].Addresses() !! spectators[i].Addresses()
  {
    var found := FindByAddress(spectators, addr);
    assert found.Some?;
    assert addr in spectators[found.value].Addresses();
    forall j | 0 <= j < |spectators| && j != i
      ensures spectators[j].Addresses() !! spectators[i].Addresses()
    {
      forall a | a in spectators[j].Addresses() ensures a !in spectators[i].Addresses() {
        assert a.ip == addr.ip ==> i == j;
      }
    }
  }

  /** Registering a port keeps the grouping: the entry is the one of the same IP, or a new one. */
  lemma RegisterKeepsGrouped(s: Session, port: PortType, peer: PeerEntry, uid: nat)
    requires Grouped(s.spectators)
    ensures Grouped(RegisterSpectatorPort(s, port, peer, uid).0.spectators)
    ensures RegisterSpectatorPort(s, port, peer, uid).0.id == s.id
  {
    var ip := peer.addr.ip;
    var (i, entry) := SpectatorSlot(s, ip, uid);
    var after := RegisterSpectatorPort(s, port, peer, uid).0.spectators;
    hide SpectatorSlot;
    assert forall k | 0 <= k < |after| && k != i :: after[k] == s.spectators[k];
    assert port in after[i].ports;
    // the entry's addresses all have the announced IP ...
    forall a | a in after[i].Addresses() ensures a.ip == ip {
      var p :| p in after[i].ports && after[i].ports[p].addr == a;
      assert p != port ==> a in entry.Addresses();
    }
    // ... and nobody else's has
    forall k, a | 0 <= k < |after| && k != i && a in after[k].Addresses() ensures a.ip != ip {
      var other := s.spectators[k];
      assert a.ip == ip ==> UsesIp(other, ip);
    }
  }

  lemma RemoveKeepsGrouped(s: Session, i: nat)
    requires Grouped(s.spectators) && i < |s.spectators|
    ensures Grouped(RemoveSpectatorAt(s, i).spectators)
  {
    var before, after := s.spectators, RemoveSpectatorAt(s, i).spectators;
    forall j, k, a, b | 0 <= j < |after| && 0 <= k < |after| && a in after[j].Addresses() && b in after[k].Addresses()
      ensures a.ip == b.ip <==> j == k
    {
      var j', k' := if j < i then j else j + 1, if k < i then k else k + 1;
      assert after[j] == before[j'] && after[k] == before[k'];
    }
  }

  /** Every entry that is kept has the ports of an entry from before. */
  lemma {:induction false} KeptFrom(st: Relay, spectators: seq<Entry>, now: Time, alive: set<nat>, k: nat)
    returns (j: nat)
    requires k < |KeepActive(st, spectators, now, alive)|
    ensures j < |spectators| && KeepActive(st, spectators, now, alive)[k].ports == spectators[j].ports
    ensures KeepActive(st, spectators, now, alive)[k].uid == spectators[j].uid
    ensures !IsInactive(st, spectators[j], now, alive)
  {
    if IsInactive(st, spectators[0], now, alive) {
      var i := KeptFrom(st, spectators[1..], now, alive, k);
      j := i + 1;
    } else if k == 0 {
      j := 0;
    } else {
      var i := KeptFrom(st, spectators[1..], now, alive, k - 1);
      j := i + 1;
    }
  }

  lemma TailGrouped(spectators: seq<Entry>)
    requires spectators != [] && Grouped(spectators)
    ensures Grouped(spectators[1..])
  {
    var tail := spectators[1..];
    forall i, j, a, b | 0 <= i < |tail| && 0 <= j < |tail| && a in tail[i].Addresses() && b in tail[j].Addresses()
      ensures a.ip == b.ip <==> i == j
    {
      assert a in spectators[i + 1].Addresses() && b in spectators[j + 1].Addresses();
    }
  }

  lemma {:induction false} KeepActiveKeepsGrouped(st: Relay, spectators: seq<Entry>, now: Time, alive: set<nat>)
    requires Grouped(spectators)
    ensures Grouped(KeepActive(st, spectators, now, alive))
  {
    if spectators != [] {
      TailGrouped(spectators);
      var tail := spectators[1..];
      KeepActiveKeepsGrouped(st, tail, now, alive);
      var rest := KeepActive(st, tail, now, alive);
      var all := KeepActive(st, spectators, now, alive);
      if all != rest {
        assert all[1..] == rest && all[0].Addresses() == spectators[0].Addresses();
        forall k, a, b | 0 <= k < |rest| && a in all[0].Addresses() && b in rest[k].Addresses()
          ensures a.ip != b.ip
        {
          var j := KeptFrom(st, tail, now, alive, k);
          assert b in spectators[j + 1].Addresses() && a in spectators[0].Addresses();
        }
        forall i, j, a, b | 0 <= i < |all| && 0 <= j < |all| && a in all[i].Addresses() && b in all[j].Addresses()
          ensures a.ip == b.ip <==> i == j
        {
          assert i > 0 ==> all[i] == rest[i - 1];
          assert j > 0 ==> all[j] == rest[j - 1];
        }
      }
    }
  }

  lemma SamePortsKeepGrouped(before: seq<Entry>, after: seq<Entry>)
    requires Grouped(before) && |after| == |before|
    requires forall i | 0 <= i < |before| :: after[i].ports == before[i].ports
    ensures Grouped(after)
  {
    assert forall i | 0 <= i < |before| :: after[i].Addresses() == before[i].Addresses();
  }

  // ---------------------------------------------------------------- every step

  lemma RemoveSpectatorKeeps(st: Relay, addr: Address)
    requires Inv(st)
    ensures Inv(RemoveSpectator(st, addr))
  {
    var found := FirstSpectated(st.sessions, st.order, addr);
    if found.Some? {
      var s := st.sessions[found.value];
      RemoveKeepsGrouped(s, FindByAddress(s.spectators, addr).value);
    }
  }

  lemma SetDefaultKeeps(st: Relay, sid: Sid, now: Time)
    requires Inv(st)
    ensures Inv(SetDefault(st, sid, now))
  {
    var s := EmptySession(sid, now);
    assert Grouped(s.spectators);
    hide Grouped;
    assert forall t :: t in st.order + [sid] <==> t in st.order || t == sid;
  }

  lemma RegisterPeerKeeps(st: Relay, sid: Sid, role: Role, port: PortType, addr: Address, now: Time)
    requires Inv(st) && role != Spectator
    ensures Inv(RegisterPeer(st, sid, role, port, addr, now))
  {
    hide AttachSpectators, NewMappings, KeepTimestamps, Overwritten, Grouped, CompleteAddresses, Without;
    SetDefaultKeeps(st, sid, now);
  }

  lemma JoiningKeepsGrouped(st: Relay, sid: Sid, port: PortType, addr: Address, now: Time)
    requires Inv(st)
    ensures var s := SpectatorJoins(st, sid, port, addr, now).0; s.id == sid && Grouped(s.spectators)
  {
    hide Grouped, RegisterSpectatorPort;
    SetDefaultKeeps(st, sid, now);
    var s := SetDefault(st, sid, now).sessions[sid];
    RegisterKeepsGrouped(s, port, PeerEntry(addr, if addr in st.tcp then Tcp else Udp, now), st.nextUid);
  }

  lemma RegisterSpectatorKeeps(st: Relay, sid: Sid, port: PortType, addr: Address, now: Time)
    requires Inv(st)
    ensures Inv(RegisterSpectator(st, sid, port, addr, now))
  {
    hide AttachSpectators, RemoveTargets, SpectatorJoins, IndexEntry, Grouped;
    SetDefaultKeeps(st, sid, now);
    JoiningKeepsGrouped(st, sid, port, addr, now);
  }

  lemma ExpireKeepsInv(st: Relay, now: Time, timeout: Time)
    requires Inv(st)
    ensures Inv(ExpireRoles(st, now, timeout))
  {
    hide Grouped, ExpiredPorts;
  }

  lemma DropInactiveKeepsInv(st: Relay, now: Time, alive: set<nat>)
    requires Inv(st)
    ensures Inv(DropInactive(st, now, alive))
  {
    var after := DropInactive(st, now, alive);
    forall sid | sid in after.sessions ensures after.sessions[sid].id == sid
        && Grouped(after.sessions[sid].spectators) {
      KeepActiveKeepsGrouped(st, st.sessions[sid].spectators, now, alive);
    }
  }

  lemma CleanupKeeps(st: Relay, now: Time, timeout: Time, alive: set<nat>)
    requires Inv(st)
    ensures Inv(Cleanup(st, now, timeout, alive))
  {
    hide Grouped;
    var st1 := DropDeadTargets(st, alive);
    ExpireKeepsInv(st1, now, timeout);
    DropInactiveKeepsInv(ExpireRoles(st1, now, timeout), now, alive);
  }

  lemma StepKeeps(st: Relay, ev: Event)
    requires Inv(st)
    ensures Inv(Step(st, ev))
  {
    hide Inv, Announce, Heartbeat, Cleanup, Accepts;
    match ev
    case Announced(role, port, sid, addr, store, now) => AnnounceKeeps(st, role, port, sid, addr, store, now);
    case StrayPacket(addr, now) => HeartbeatKeeps(st, addr, now);
    case CleanupPass(now, timeout, alive) => CleanupKeeps(st, now, timeout, alive);
    case _ => SameSessionsKeep(st, Step(st, ev));
  }

  lemma SameSessionsKeep(st: Relay, after: Relay)
    requires Inv(st) && after.sessions == st.sessions && after.order == st.order
    ensures Inv(after)
  {
  }

  lemma AnnounceKeeps(st: Relay, role: string, port: string, sid: Sid, addr: Address, store: StoreAnswer, now: Time)
    requires Inv(st)
    ensures Inv(Announce(st, role, port, sid, addr, store, now))
  {
    hide Inv, RegisterPeer, RegisterSpectator, RemoveSpectator;
    RemoveSpectatorKeeps(st, addr);
    var removed := RemoveSpectator(st, addr);
    match Accepts(role, port, sid, store) {
      case None =>
      case Some(Target(actual, Spectator, p)) => RegisterSpectatorKeeps(st, actual, p, addr, now);
      case Some(Target(actual, r, p)) => RegisterPeerKeeps(removed, actual, r, p, addr, now);
    }
  }

  lemma HeartbeatKeeps(st: Relay, addr: Address, now: Time)
    requires Inv(st)
    ensures Inv(Heartbeat(st, addr, now))
  {
    hide Grouped;
    var after := Heartbeat(st, addr, now);
    forall sid | sid in after.sessions ensures after.sessions[sid].id == sid
        && Grouped(after.sessions[sid].spectators) {
      SamePortsKeepGrouped(st.sessions[sid].spectators, after.sessions[sid].spectators);
    }
  }

  /** In every reachable state the spectators of every session are grouped by IP. */
  lemma {:induction false} AlwaysGrouped(events: seq<Event>)
    ensures Inv(Run(events))
  {
    if events != [] {
      AlwaysGrouped(events[..|events| - 1]);
      StepKeeps(Run(events[..|events| - 1]), events[|events| - 1]);
    }
  }
}
