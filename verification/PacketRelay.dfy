/**
 * The relay object: four dictionaries updated in place, over session and spectator
 * objects that the reverse index shares. Each method is proved to do to the whole state
 * what RelaySpec says.
 */
module PacketRelayObjects {
  import opened RelayTypes
  import opened RelaySpec
  import opened TableLoops
  import opened CleanupLoops
  import S = SessionObjects

  /** The addresses of packets handed to TCP connections */
  function Receivers(deferred: seq<(Address, nat)>): seq<Address> {
    seq(|deferred|, i requires 0 <= i < |deferred| => deferred[i].0)
  }

  /** Each target without a TCP connection once */
  ghost predicate SentAtOnce(targets: set<Address>, tcp: map<Address, nat>, sent: seq<Address>) {
    multiset(sent) == multiset(set a | a in targets && a !in tcp)
  }

  /** Each target with a live TCP connection once, together with that connection */
  ghost predicate HandedOn(targets: set<Address>, tcp: map<Address, nat>, alive: set<nat>,
      deferred: seq<(Address, nat)>)
  {
    && multiset(Receivers(deferred)) == multiset(set a | a in targets && a in tcp && tcp[a] in alive)
    && forall d | d in deferred :: d.0 in tcp && tcp[d.0] == d.1
  }

  ghost predicate SentExactly(targets: set<Address>, tcp: map<Address, nat>, alive: set<nat>, sent: seq<Address>,
      deferred: seq<(Address, nat)>)
  {
    SentAtOnce(targets, tcp, sent) && HandedOn(targets, tcp, alive, deferred)
  }

  lemma OneMoreAtOnce(done: set<Address>, target: Address, tcp: map<Address, nat>, sent: seq<Address>)
    requires target !in done && SentAtOnce(done, tcp, sent)
    ensures SentAtOnce(done + {target}, tcp, if target in tcp then sent else sent + [target])
  {
    var plain := set a | a in done && a !in tcp;
    assert (set a | a in done + {target} && a !in tcp) == if target in tcp then plain else plain + {target};
  }

  lemma OneMoreHandedOn(done: set<Address>, target: Address, tcp: map<Address, nat>, alive: set<nat>,
      deferred: seq<(Address, nat)>)
    requires target !in done && HandedOn(done, tcp, alive, deferred)
    ensures HandedOn(done + {target}, tcp, alive,
              if target in tcp && tcp[target] in alive then deferred + [(target, tcp[target])] else deferred)
  {
    var live := set a | a in done && a in tcp && tcp[a] in alive;
    assert (set a | a in done + {target} && a in tcp && tcp[a] in alive) ==
           if target in tcp && tcp[target] in alive then live + {target} else live;
    if target in tcp {
      assert Receivers(deferred + [(target, tcp[target])]) == Receivers(deferred) + [target];
    }
  }

  lemma OneMoreSent(done: set<Address>, target: Address, tcp: map<Address, nat>, alive: set<nat>, sent: seq<Address>,
      deferred: seq<(Address, nat)>)
    requires target !in done && SentExactly(done, tcp, alive, sent, deferred)
    ensures SentExactly(done + {target}, tcp, alive,
              if target in tcp then sent else sent + [target],
              if target in tcp && tcp[target] in alive then deferred + [(target, tcp[target])] else deferred)
  {
    hide SentAtOnce, HandedOn;
    OneMoreAtOnce(done, target, tcp, sent);
    OneMoreHandedOn(done, target, tcp, alive, deferred);
  }

  lemma NothingSent(tcp: map<Address, nat>, alive: set<nat>)
    ensures SentExactly({}, tcp, alive, [], [])
  {
  }

  /** The loop of `forward_packet` over the targets, in any order */
  method SplitTargets(targets: set<Address>, tcp: map<Address, nat>, alive: set<nat>)
    returns (sent: seq<Address>, deferred: seq<(Address, nat)>)
    ensures SentExactly(targets, tcp, alive, sent, deferred)
  {
    hide SentExactly;
    sent, deferred := [], [];
    ghost var done: set<Address> := {};
    var todo := targets;
    NothingSent(tcp, alive);
    while todo != {}
      invariant done + todo == targets && done !! todo
      invariant SentExactly(done, tcp, alive, sent, deferred)
      decreases todo
    {
      var target :| target in todo;
      OneMoreSent(done, target, tcp, alive, sent, deferred);
      todo := todo - {target};
      done := done + {target};
      if target !in tcp {
        sent := sent + [target];
      } else if tcp[target] in alive {
        deferred := deferred + [(target, tcp[target])];
      }
    }
  }

  class PacketRelay {
    var mappings: map<Address, Mapping>
    var tcpTargets: map<Address, nat>
    var sessions: map<Sid, S.Session>
    var order: seq<Sid>
    var spectatorByAddress: map<Address, S.SpectatorEntry>

    /** All spectator entries ever made, with the number of the next one. */
    ghost var known: set<S.SpectatorEntry>
    ghost var nextUid: nat

    ghost predicate Valid()
      reads this`sessions, this`order, this`spectatorByAddress, this`known, this`nextUid
      reads sessions.Values
    {
      && (forall sid :: sid in order <==> sid in sessions)
      && Distinct(order)
      && (forall a | a in spectatorByAddress :: spectatorByAddress[a] in known)
      && SessionsValid()
      && Separate()
      && UidsUnique()
    }

    ghost predicate SessionsValid()
      reads this`sessions, this`known, sessions.Values
    {
      && (forall sid | sid in sessions :: sessions[sid].Valid() && sessions[sid].id == sid)
      && (forall sid, e | sid in sessions && e in sessions[sid].spectators :: e in known)
    }

    /** Different sessions are different objects with different spectator entries. */
    ghost predicate Separate()
      reads this`sessions, sessions.Values
    {
      forall s, t | s in sessions && t in sessions && s != t ::
        sessions[s] != sessions[t] && forall e | e in sessions[s].spectators :: e !in sessions[t].spectators
    }

    ghost predicate UidsUnique()
      reads this`known, this`nextUid
    {
      && (forall e | e in known :: e.uid < nextUid)
      && (forall e, f | e in known && f in known && e.uid == f.uid :: e == f)
    }

    ghost function SessionViews(): map<Sid, Session>
      reads this`sessions, this`known, sessions.Values, known
      requires SessionsValid()
    {
      map sid | sid in sessions :: sessions[sid].View()
    }

    ghost function IndexView(): map<Address, nat>
      reads this`spectatorByAddress
    {
      map a | a in spectatorByAddress :: spectatorByAddress[a].uid
    }

    /** The state of the relay as a value. */
    ghost function State(): Relay
      reads this, sessions.Values, known
      requires Valid()
    {
      Relay(mappings, SessionViews(), order, IndexView(), tcpTargets, nextUid)
    }

    lemma StateFields()
      requires Valid()
      ensures State().order == order && State().mappings == mappings && State().sessions == SessionViews()
    {
    }

    /** The sessions in the dictionary's order, with their values. */
    lemma Listed(k: nat)
      requires Valid() && k < |order|
      ensures order[k] in sessions && order[k] in State().sessions
      ensures State().sessions[order[k]] == sessions[order[k]].View()
    {
      hide S.AllDifferent, S.Session.View, UidsUnique, Separate;
      assert order[k] in order;
    }

    /** What validity says about one session. */
    lemma About(sid: Sid)
      requires Valid() && (sid in order || sid in sessions)
      ensures sid in sessions
      ensures sessions[sid].Valid() && sid in SessionViews() && SessionViews()[sid] == sessions[sid].View()
      ensures State().sessions == SessionViews() && State().order == order
      ensures sessions[sid].id == sid
      ensures forall t | t in sessions && t != sid :: sessions[t] != sessions[sid]
      ensures forall a | a in spectatorByAddress :: spectatorByAddress[a] in known
      ensures forall e | e in sessions[sid].spectators :: e in known
    {
      hide S.AllDifferent;
    }

    /** When one session object changes and no entry does, only that session's value changes. */
    twostate lemma OneSessionChanged(sid: Sid)
      requires old(Valid()) && sid in old(sessions)
      requires sessions == old(sessions) && order == old(order) && known == old(known) && nextUid == old(nextUid)
      requires forall t | t in sessions && t != sid :: unchanged(sessions[t])
      requires forall e | e in known :: unchanged(e)
      requires sessions[sid].Valid() && forall e | e in sessions[sid].spectators :: e in old(sessions[sid].spectators)
      requires forall a | a in spectatorByAddress :: spectatorByAddress[a] in known
      ensures Valid() && SessionViews() == old(SessionViews())[sid := sessions[sid].View()]
    {
      forall t | t in sessions && t != sid ensures Kept(sessions[t]) {
        SessionKept(t);
      }
      ValidAgain();
      hide Valid, S.Session.View;
    }

    /** Validity carries over to fewer sessions with no more spectators than before. */
    twostate lemma ValidAgain()
      requires old(Valid()) && known == old(known) && nextUid == old(nextUid)
      requires Distinct(order) && forall sid :: sid in order <==> sid in sessions
      requires forall t | t in sessions :: t in old(sessions) && sessions[t] == old(sessions[t]) && sessions[t].Valid()
      requires forall t, e | t in sessions && e in sessions[t].spectators :: e in old(sessions[t].spectators)
      requires forall a | a in spectatorByAddress :: spectatorByAddress[a] in known
      ensures Valid()
    {
      hide S.AllDifferent, UidsUnique, Distinct;
      assert Separate();
    }

    /** The session object is as it was. */
    twostate predicate Kept(s: S.Session)
      reads s, s.spectators
    {
      s.spectators == old(s.spectators) && s.View() == old(s.View()) && s.Valid() == old(s.Valid())
    }

    twostate lemma SessionKept(t: Sid)
      requires old(Valid()) && t in old(sessions) && unchanged(old(sessions[t]))
      requires forall e | e in old(known) :: unchanged(e)
      ensures Kept(old(sessions[t]))
    {
      hide S.AllDifferent, UidsUnique, Separate;
      var s := old(sessions[t]);
      assert forall e | e in s.spectators :: e in old(known);
      forall k | 0 <= k < |s.spectators| ensures s.spectators[k].View() == old(s.spectators[k].View()) {
        var e := s.spectators[k];
        assert e in old(known) && unchanged(e);
      }
      assert S.Views(s.spectators) == old(S.Views(s.spectators));
    }

    constructor ()
      ensures Valid() && State() == START
    {
      mappings, tcpTargets, sessions, order, spectatorByAddress := map[], map[], map[], [], map[];
      known, nextUid := {}, 0;
    }

    // -------------------------------------------------------------- the table

    method RemoveAddressFromMappings(x: Address, streamer: Ports)
      modifies this`mappings
      ensures mappings == RemoveTargets(old(mappings), streamer, {x})
    {
      var todo := streamer.Keys;
      RemoveNothing(mappings, streamer, {x});
      assert Only(streamer, {}) == map[];
      while todo != {}
        invariant todo <= streamer.Keys
        invariant mappings == RemoveTargets(old(mappings), Only(streamer, streamer.Keys - todo), {x})
      {
        var p :| p in todo;
        ghost var visited := streamer.Keys - todo;
        todo := todo - {p};
        assert streamer.Keys - todo == visited + {p};
        RemoveAtPort(old(mappings), streamer, visited, p, x);
        hide RemoveTargets, Only;
        var a := streamer[p].addr;
        if a in mappings && x in mappings[a].targets {
          mappings := mappings[a := mappings[a].(targets := mappings[a].targets - {x})];
        } else if a in mappings {
          assert mappings[a].targets - {x} == mappings[a].targets;
        }
      }
      assert Only(streamer, streamer.Keys - {}) == streamer;
    }

    method RemoveSpectatorFromMappings(gone: set<Address>, streamer: Ports)
      modifies this`mappings
      ensures mappings == RemoveTargets(old(mappings), streamer, gone)
    {
      var todo := gone;
      RemoveNothing(mappings, streamer, {});
      assert gone - todo == {};
      while todo != {}
        invariant todo <= gone
        invariant mappings == RemoveTargets(old(mappings), streamer, gone - todo)
      {
        var x :| x in todo;
        RemoveMore(old(mappings), streamer, gone - todo, {x});
        assert gone - (todo - {x}) == gone - todo + {x};
        RemoveAddressFromMappings(x, streamer);
        todo := todo - {x};
      }
      assert gone - {} == gone;
    }

    /** `forward_packet` under the lock: note the time, hand out the targets. */
    method Forward(addr: Address, now: Time) returns (targets: Option<set<Address>>)
      requires Valid()
      modifies this`mappings
      ensures Valid() && State() == RelaySpec.Forward(old(State()), addr, now)
      ensures targets == if addr in old(mappings) then Some(old(mappings)[addr].targets) else None
      ensures mappings == if addr in old(mappings) then
                  old(mappings)[addr := Mapping(old(mappings)[addr].targets, now)]
                else old(mappings)
    {
      if addr !in mappings {
        return None;
      }
      mappings := mappings[addr := mappings[addr].(timestamp := now)];
      return Some(mappings[addr].targets);
    }

    /**
     * The rest of `forward_packet`: every target gets the packet at once over UDP, or its live
     * TCP connection is handed back for sending later, or its connection is dead and it gets nothing.
     */
    method ForwardPacket(addr: Address, now: Time, alive: set<nat>)
      returns (found: bool, sent: seq<Address>, deferred: seq<(Address, nat)>)
      requires Valid()
      modifies this`mappings
      ensures Valid() && State() == RelaySpec.Forward(old(State()), addr, now)
      ensures found == (addr in old(mappings))
      ensures found ==> mappings == old(mappings)[addr := Mapping(old(mappings)[addr].targets, now)]
      ensures !found ==> mappings == old(mappings)
      ensures found ==> SentExactly(old(mappings)[addr].targets, tcpTargets, alive, sent, deferred)
      ensures !found ==> sent == [] && deferred == []
    {
      hide SentExactly;
      var targets := Forward(addr, now);
      found := targets.Some?;
      if found {
        sent, deferred := SplitTargets(targets.value, tcpTargets, alive);
      } else {
        sent, deferred := [], [];
      }
    }

    // -------------------------------------------------------------- spectators

    /** `update_spectator_heartbeat` */
    method UpdateSpectatorHeartbeat(addr: Address, now: Time)
      requires Valid()
      modifies known
      ensures Valid() && State() == Heartbeat(old(State()), addr, now)
    {
      if addr in spectatorByAddress {
        var entry := spectatorByAddress[addr];
        entry.lastAnnouncementAt := now;
        EntryTouched(entry, now);
      }
    }

    /** When one entry gets a new time, the sessions' values change as if every entry with its number did. */
    twostate lemma EntryTouched(new entry: S.SpectatorEntry, now: Time)
      requires old(Valid()) && entry in old(known) && entry in known && entry.ports == old(entry.ports)
                 && entry.lastAnnouncementAt == now
      requires sessions == old(sessions) && order == old(order) && known == old(known) && nextUid == old(nextUid)
                 && spectatorByAddress == old(spectatorByAddress)
      requires forall s | s in sessions.Values :: unchanged(s)
      requires forall e | e in known && e != entry :: unchanged(e)
      ensures Valid() && SessionViews() == TouchSessions(old(SessionViews()), entry.uid, now)
    {
      assert forall e | e in known && e.uid == entry.uid :: e == entry;
      forall t | t in sessions
        ensures sessions[t].Valid() && unchanged(sessions[t]) && sessions[t].spectators == old(sessions[t].spectators)
        ensures S.Views(sessions[t].spectators) == TouchEntries(old(S.Views(sessions[t].spectators)), entry.uid, now)
      {
        hide S.AllDifferent, Separate, UidsUnique;
        assert sessions[t] in sessions.Values;
        var entries := old(sessions[t].spectators);
        assert forall e | e in entries :: e in old(known);
        forall k | 0 <= k < |entries|
          ensures entries[k] in old(known)
          ensures entries[k].View() == if entries[k].uid == entry.uid
                    then old(entries[k].View()).(lastAnnouncementAt := now) else old(entries[k].View())
        {
          assert entries[k] in entries;
        }
      }
      hide S.AllDifferent, UidsUnique, S.Views, TouchEntries;
    }

    /** `_remove_spectator_from_all_sessions`: the first session in which the address spectates loses the entry. */
    method RemoveSpectatorFromAllSessions(addr: Address)
      requires Valid()
      modifies this`mappings, this`spectatorByAddress, sessions.Values
      ensures Valid() && State() == RemoveSpectator(old(State()), addr)
    {
      ghost var before := State();
      StateFields();
      hide *;
      assert NotAmong(before, order[..0], addr) by { NotAmongNone(before, addr); }
      for k := 0 to |order|
        invariant Valid() && State() == before && order == before.order
        invariant NotAmong(before, order[..k], addr)
      {
        Listed(k);
        var gone := RemoveFrom(order[k], addr);
        SearchStep(before, order, k, addr);
        if gone {
          return;
        }
      }
      NothingFound(before, order, addr);
    }

    /** One round of the search: drop the address's entry from one session, the index and the mappings. */
    method RemoveFrom(sid: Sid, addr: Address) returns (removed: bool)
      requires Valid() && sid in sessions
      modifies this`mappings, this`spectatorByAddress, sessions.Values
      ensures Valid()
      ensures removed <==> Spectates(old(sessions[sid].View()), addr)
      ensures !removed ==> State() == old(State())
      ensures removed ==> State() == RemoveEntry(old(State()), sid, addr)
    {
      hide Valid, SessionViews, RemoveTargets, FindByAddress, Spectates, RemoveSpectatorAt, AddrsOf;
      hide S.AllDifferent, S.Session.View, S.Session.Valid;
      About(sid);
      ghost var before := State();
      var session := sessions[sid];
      session.Fields();
      assert before.sessions[sid].streamer == session.streamer;
      var gone := session.RemoveSpectatorByAddress(addr);
      if gone.None? {
        return false;
      }
      spectatorByAddress := spectatorByAddress - gone.value;
      OneSessionChanged(sid);
      RemoveSpectatorFromMappings(gone.value, session.streamer);
      assert IndexView() == before.index - gone.value;
      return true;
    }

    // -------------------------------------------------------------- building the table of a ready session

    /** The new mappings, with the time stamps of those whose targets do not change. */
    method PreserveTimestamps(latest: map<Address, Mapping>) returns (kept: map<Address, Mapping>)
      ensures kept == KeepTimestamps(mappings, latest)
    {
      kept := latest;
      var todo := latest.Keys;
      while todo != {}
        invariant todo <= latest.Keys && kept.Keys == latest.Keys
        invariant forall a | a in todo :: kept[a] == latest[a]
        invariant forall a | a in latest && a !in todo :: kept[a] == KeepTimestamps(mappings, latest)[a]
      {
        var a :| a in todo;
        todo := todo - {a};
        if a in mappings && mappings[a].targets == kept[a].targets {
          kept := kept[a := kept[a].(timestamp := mappings[a].timestamp)];
        }
      }
    }

    /** `_get_sids_for_address_unlocked` */
    method SidsForAddress(addr: Address) returns (sids: set<Sid>)
      requires Valid()
      ensures sids == set t | t in sessions && addr in sessions[t].addresses
    {
      sids := {};
      hide S.AllDifferent;
      for k := 0 to |order|
        invariant sids == set t | t in order[..k] && t in sessions && addr in sessions[t].addresses
      {
        var sid := order[k];
        assert order[..k + 1] == order[..k] + [sid];
        if addr in sessions[sid].addresses {
          sids := sids + {sid};
        }
      }
      assert order[..|order|] == order;
    }

    /** The sessions that have one of the addresses on record */
    ghost function Holders(addrs: set<Address>): (sids: set<Sid>)
      reads this`sessions, sessions.Values
      ensures sids <= sessions.Keys
    {
      set t | t in sessions && sessions[t].addresses * addrs != {}
    }

    lemma HoldersOfMore(addrs: set<Address>, addr: Address)
      ensures Holders({}) == {}
      ensures Holders(addrs + {addr}) == Holders(addrs) + set t | t in sessions && addr in sessions[t].addresses
    {
      var more := set t | t in sessions && addr in sessions[t].addresses;
      forall t ensures t in Holders(addrs + {addr}) <==> t in Holders(addrs) + more {
        if t in sessions {
          assert sessions[t].addresses * (addrs + {addr}) ==
                 sessions[t].addresses * addrs + (if addr in sessions[t].addresses then {addr} else {});
        }
      }
    }

    /** Forget the mappings of the addresses, and find the sessions that have one of them. */
    method PopAddresses(addrs: set<Address>) returns (overwritten: set<Sid>)
      requires Valid()
      modifies this`mappings
      ensures mappings == old(mappings) - addrs
      ensures overwritten == Holders(addrs)
    {
      hide Valid, Holders;
      overwritten := {};
      ghost var done: set<Address> := {};
      var todo := addrs;
      HoldersOfMore({}, Address("", 0));
      while todo != {}
        invariant done + todo == addrs && done !! todo
        invariant mappings == old(mappings) - done
        invariant overwritten == Holders(done)
        decreases todo
      {
        var addr :| addr in todo;
        HoldersOfMore(done, addr);
        var sids := SidsForAddress(addr);
        overwritten := overwritten + sids;
        mappings := mappings - {addr};
        done := done + {addr};
        todo := todo - {addr};
      }
    }

    /** `del self.sessions[sid]` for each of them. */
    method DeleteSessions(gone: set<Sid>)
      requires Valid() && gone <= sessions.Keys
      modifies this`sessions, this`order
      ensures Valid() && sessions == old(sessions) - gone && order == Without(old(order), gone)
      ensures SessionViews() == old(SessionViews()) - gone
    {
      hide Valid, SessionViews, Without;
      var todo := gone;
      WithoutNothing(order);
      assert gone - todo == {};
      while todo != {}
        invariant todo <= gone
        invariant sessions == old(sessions) - (gone - todo) && order == Without(old(order), gone - todo)
      {
        var sid :| sid in todo;
        WithoutMore(old(order), gone - todo, {sid});
        assert gone - (todo - {sid}) == gone - todo + {sid};
        sessions := sessions - {sid};
        order := Without(order, {sid});
        todo := todo - {sid};
      }
      assert gone - {} == gone;
      SessionsDropped(gone);
    }

    twostate lemma SessionsDropped(gone: set<Sid>)
      requires old(Valid()) && sessions == old(sessions) - gone && order == Without(old(order), gone)
      requires spectatorByAddress == old(spectatorByAddress) && known == old(known) && nextUid == old(nextUid)
      requires forall s | s in old(sessions.Values) :: unchanged(s)
      requires forall e | e in known :: unchanged(e)
      ensures Valid() && SessionViews() == old(SessionViews()) - gone
    {
      hide S.Session.View, Without, Distinct, UidsUnique, Separate;
      forall t | t in sessions
        ensures t in old(sessions) && sessions[t] == old(sessions[t]) && Kept(sessions[t])
        ensures old(sessions[t].Valid())
      {
        assert old(sessions)[t] in old(sessions.Values);
        SessionKept(t);
      }
      WithoutDistinct(old(order), gone);
      hide Valid;
      ValidAgain();
    }

    /** The mappings of a session's four ports, all stamped `now` */
    method LatestMappings(session: S.Session, now: Time) returns (latest: map<Address, Mapping>)
      requires session.View().IsReady()
      ensures latest == NewMappings(session.View(), now)
    {
      hide S.Session.View;
      session.Fields();
      var streamerPeers, viewerPeers := session.streamer, session.viewer;
      latest := map[];
      latest := Connect(latest, streamerPeers[Video].addr, viewerPeers[Video].addr, now);
      latest := Connect(latest, streamerPeers[Control].addr, viewerPeers[Control].addr, now);
    }

    /** `_update_mappings` for a session that is ready. */
    method UpdateMappings(sid: Sid, now: Time)
      requires Valid() && sid in sessions && sessions[sid].View().IsReady()
      modifies this`mappings, this`sessions, this`order
      ensures Valid() && State() == RelaySpec.UpdateMappings(old(State()), sid, now)
    {
      hide Valid, SessionViews, S.Session.View, Without, KeepTimestamps, NewMappings, Overwritten, IndexView, Holders;
      About(sid);
      var session := sessions[sid];
      session.Fields();
      var latest := LatestMappings(session, now);
      latest := PreserveTimestamps(latest);
      OverwrittenSessions(sid);
      var overwritten := PopAddresses(session.addresses);
      mappings := mappings + latest;
      DeleteSessions(overwritten - {sid});
    }

    /** The sessions that are overwritten, computed from the objects. */
    lemma OverwrittenSessions(sid: Sid)
      requires Valid() && sid in sessions
      ensures sid in State().sessions && Holders(sessions[sid].addresses) - {sid} == Overwritten(State(), sid)
    {
      SameAddresses();
      hide Valid, S.Session.View, SessionViews;
      forall t ensures t in Holders(sessions[sid].addresses) - {sid} <==> t in Overwritten(State(), sid) {
      }
    }

    /** The recorded addresses of each session are those of its value. */
    lemma SameAddresses()
      requires Valid()
      ensures SessionViews().Keys == sessions.Keys
      ensures forall t | t in sessions :: SessionViews()[t].addresses == sessions[t].addresses
    {
    }

    /** `_setup_spectator_mappings` */
    method SetupSpectatorMappings(session: S.Session, addr: Address, now: Time)
      modifies this`mappings
      ensures mappings == AttachSpectators(old(mappings), session.View(), {addr}, now)
    {
      AttachOne(mappings, session.View(), addr, now);
      hide AttachSpectators;
      var found := session.FindSpectator(addr);
      if found.None? {
        return;
      }
      var entry := session.spectators[found.value];
      var complete := entry.IsComplete();
      FullByCounting(session.streamer);
      if !complete || |session.streamer| != 2 {
        return;
      }
      mappings := AddTarget(mappings, session.streamer[Video].addr, entry.ports[Video].addr, now);
      mappings := AddTarget(mappings, session.streamer[Control].addr, entry.ports[Control].addr, now);
    }

    /** The addresses of one spectator, in any order. */
    method SetupAddresses(session: S.Session, addrs: set<Address>, now: Time)
      modifies this`mappings
      ensures mappings == AttachSpectators(old(mappings), session.View(), addrs, now)
    {
      var todo := addrs;
      AttachNothing(mappings, session.View(), now);
      assert addrs - todo == {};
      hide AttachSpectators, S.Session.View;
      while todo != {}
        invariant todo <= addrs
        invariant mappings == AttachSpectators(old(mappings), session.View(), addrs - todo, now)
      {
        var addr :| addr in todo;
        AttachMore(old(mappings), session.View(), addrs - todo, {addr}, now);
        assert addrs - (todo - {addr}) == addrs - todo + {addr};
        SetupSpectatorMappings(session, addr, now);
        todo := todo - {addr};
      }
      assert addrs - {} == addrs;
    }

    /** `_setup_all_spectator_mappings` */
    method SetupAllSpectatorMappings(session: S.Session, now: Time)
      modifies this`mappings
      ensures mappings == AttachSpectators(old(mappings), session.View(), CompleteAddresses(session.View()), now)
    {
      hide AttachSpectators, S.Session.View, S.SpectatorEntry.View, CompleteUpTo, CompleteAddresses;
      session.Fields();
      AttachNothing(mappings, session.View(), now);
      CompleteUpToNone(session.View());
      for k := 0 to |session.spectators|
        invariant mappings == AttachSpectators(old(mappings), session.View(), CompleteUpTo(session.View(), k), now)
      {
        var spectator := session.spectators[k];
        var complete := spectator.IsComplete();
        CompleteUpToNext(session.View(), k);
        if complete {
          var addrs := spectator.GetAddresses();
          AttachMore(old(mappings), session.View(), CompleteUpTo(session.View(), k), addrs, now);
          SetupAddresses(session, addrs, now);
        }
      }
    }

    // -------------------------------------------------------------- registration

    /** `self.sessions.setdefault(sid, Session(sid))` */
    method SetDefault(sid: Sid, now: Time)
      requires Valid()
      modifies this`sessions, this`order
      ensures Valid() && State() == RelaySpec.SetDefault(old(State()), sid, now)
      ensures sid in sessions && (forall t | t in old(sessions) :: t in sessions && sessions[t] == old(sessions)[t])
      ensures forall s | s in sessions.Values :: s in old(sessions.Values) || fresh(s)
    {
      SameAddresses();
      hide Valid, SessionViews, S.Session.View, S.Session.Valid;
      if sid !in sessions {
        var session := new S.Session(sid, now);
        sessions := sessions[sid := session];
        order := order + [sid];
        SessionAdded(sid, now);
      }
    }

    twostate lemma SessionAdded(sid: Sid, new now: Time)
      requires old(Valid()) && sid !in old(sessions) && sessions.Keys == old(sessions).Keys + {sid}
                 && order == old(order) + [sid]
      requires forall t | t in old(sessions) :: sessions[t] == old(sessions)[t] && unchanged(old(sessions[t]))
      requires fresh(sessions[sid]) && sessions[sid].Valid() && sessions[sid].spectators == []
      requires sessions[sid].View() == EmptySession(sid, now) && sessions[sid].id == sid
      requires known == old(known) && nextUid == old(nextUid) && spectatorByAddress == old(spectatorByAddress)
      requires forall e | e in known :: unchanged(e)
      ensures Valid() && SessionViews() == old(SessionViews())[sid := EmptySession(sid, now)]
    {
      hide Valid, S.Session.View, S.Session.Valid;
      ValidWithNew(sid);
      forall t | t in old(sessions) ensures Kept(sessions[t]) {
        SessionKept(t);
      }
    }

    twostate lemma ValidWithNew(sid: Sid)
      requires old(Valid()) && sid !in old(sessions) && sessions.Keys == old(sessions).Keys + {sid}
                 && order == old(order) + [sid]
      requires forall t | t in old(sessions) :: sessions[t] == old(sessions)[t] && unchanged(old(sessions[t]))
      requires fresh(sessions[sid]) && sessions[sid].Valid() && sessions[sid].spectators == []
                 && sessions[sid].id == sid
      requires known == old(known) && nextUid == old(nextUid) && spectatorByAddress == old(spectatorByAddress)
      ensures Valid()
    {
      hide S.AllDifferent, UidsUnique, S.Session.View;
      assert forall t :: t in order <==> t in old(order) || t == sid;
      forall t | t in sessions
        ensures sessions[t].Valid() && sessions[t].id == t && forall e | e in sessions[t].spectators :: e in known
      {
        if t != sid {
          assert old(sessions[t].Valid()) && unchanged(sessions[t]);
        }
      }
      SeparateWithNew(sid);
    }

    twostate lemma SeparateWithNew(sid: Sid)
      requires old(Separate()) && sid !in old(sessions) && sessions.Keys == old(sessions).Keys + {sid}
      requires forall t | t in old(sessions) :: sessions[t] == old(sessions)[t] && unchanged(old(sessions[t]))
      requires fresh(sessions[sid]) && sessions[sid].spectators == []
      ensures Separate()
    {
    }

    /** Put a streamer or viewer on record. */
    method RecordPeer(sid: Sid, role: Role, port: PortType, addr: Address, now: Time) returns (session: S.Session)
      requires Valid() && role != Spectator
      modifies this`sessions, this`order, sessions.Values
      ensures Valid() && State() == RelaySpec.RecordPeer(old(State()), sid, role, port, addr, now)
      ensures sid in sessions && session == sessions[sid]
      ensures mappings == old(mappings)
    {
      hide Valid, SessionViews, S.Session.View, S.Session.Valid, RelaySpec.SetDefault, RegisterPeerPort;
      SetDefault(sid, now);
      About(sid);
      session := sessions[sid];
      label registered:
      var newPeer := session.RegisterPeer(role, port, PeerEntry(addr, if addr in tcpTargets then Tcp else Udp, now));
      OneSessionChanged@registered(sid);
    }

    /** A streamer or viewer of a known session. */
    method RegisterPeer(sid: Sid, role: Role, port: PortType, addr: Address, now: Time)
      requires Valid() && role != Spectator
      modifies this`mappings, this`sessions, this`order, sessions.Values
      ensures Valid() && State() == RelaySpec.RegisterPeer(old(State()), sid, role, port, addr, now)
    {
      hide Valid, SessionViews, S.Session.View, S.Session.Valid, RelaySpec.UpdateMappings, AttachSpectators,
          CompleteAddresses, RelaySpec.RecordPeer;
      var session := RecordPeer(sid, role, port, addr, now);
      About(sid);
      var ready := session.IsReady();
      if ready {
        UpdateMappings(sid, now);
        SetupAllSpectatorMappings(session, now);
      }
    }

    /** How a session's list of spectators may grow: not at all, or by one new entry with the next number. */
    twostate predicate GrewByOne(session: S.Session)
      reads session, this`nextUid
    {
      var before := old(session.spectators);
      session.spectators == before ||
      (|session.spectators| == |before| + 1 && session.spectators[..|before|] == before
       && fresh(session.spectators[|before|]) && session.spectators[|before|].uid == old(nextUid))
    }

    twostate lemma SessionJoined(sid: Sid)
      requires old(Valid()) && sid in old(sessions) && sessions == old(sessions) && order == old(order)
      requires spectatorByAddress == old(spectatorByAddress) && nextUid == old(nextUid) + 1
      requires known == old(known) + (set e | e in sessions[sid].spectators)
      requires forall t | t in sessions && t != sid :: unchanged(sessions[t])
      requires forall e | e in old(known) && e !in old(sessions[sid].spectators) :: unchanged(e)
      requires sessions[sid].Valid() && GrewByOne(sessions[sid])
      ensures Valid() && SessionViews() == old(SessionViews())[sid := sessions[sid].View()]
    {
      hide Valid, S.Session.View, S.Session.Valid, GrewByOne;
      forall t | t in sessions && t != sid ensures Kept(sessions[t]) && sessions[t].Valid() {
        OtherSessionKept(sid, t);
      }
      ValidWithOneMore(sid);
    }

    twostate lemma OtherSessionKept(sid: Sid, new t: Sid)
      requires old(Valid()) && sid in old(sessions) && t in old(sessions) && t != sid && unchanged(old(sessions[t]))
      requires forall e | e in old(known) && e !in old(sessions[sid].spectators) :: unchanged(e)
      ensures Kept(old(sessions[t])) && old(sessions[t]).Valid()
    {
      hide S.AllDifferent, UidsUnique;
      var s := old(sessions[t]);
      forall k | 0 <= k < |s.spectators| ensures s.spectators[k].View() == old(s.spectators[k].View()) {
        var e := s.spectators[k];
        assert e in old(s.spectators) && e in old(known) && e !in old(sessions[sid].spectators) && unchanged(e);
      }
      assert S.Views(s.spectators) == old(S.Views(s.spectators));
    }

    twostate lemma ValidWithOneMore(sid: Sid)
      requires old(Valid()) && sid in old(sessions) && sessions == old(sessions) && order == old(order)
      requires spectatorByAddress == old(spectatorByAddress) && nextUid == old(nextUid) + 1
      requires known == old(known) + (set e | e in sessions[sid].spectators)
      requires forall t | t in sessions && t != sid :: unchanged(sessions[t]) && sessions[t].Valid()
      requires sessions[sid].Valid() && GrewByOne(sessions[sid])
      ensures Valid()
    {
      hide S.AllDifferent, S.Session.View;
      var before := old(sessions[sid].spectators);
      forall e | e in sessions[sid].spectators ensures e in before || (fresh(e) && e.uid == old(nextUid)) {
        var k :| 0 <= k < |sessions[sid].spectators| && sessions[sid].spectators[k] == e;
        if k < |before| {
          assert sessions[sid].spectators[..|before|][k] == e;
        }
      }
      assert UidsUnique() by {
        assert forall e, f | e in sessions[sid].spectators && f in sessions[sid].spectators && fresh(e) && fresh(f) ::
            e == f by {
          OnlyOneNew(sessions[sid]);
        }
      }
      assert Separate() by {
        hide UidsUnique;
        assert forall t, e | t in sessions && t != sid && e in sessions[t].spectators :: e in old(known);
      }
    }

    twostate lemma OnlyOneNew(session: S.Session)
      requires GrewByOne(session)
      ensures forall e, f | e in session.spectators && f in session.spectators && fresh(e) && fresh(f) :: e == f
    {
      var before := old(session.spectators);
      forall e | e in session.spectators ensures e in before
          || (|session.spectators| > |before| && e == session.spectators[|before|]) {
        var k :| 0 <= k < |session.spectators| && session.spectators[k] == e;
        assert k < |before| ==> session.spectators[..|before|][k] == before[k];
      }
    }

    /** A spectator joins: its session's list, and the numbering of the entries. */
    method JoinSession(sid: Sid, port: PortType, addr: Address, now: Time)
      returns (session: S.Session, replaced: Option<Address>)
      requires Valid()
      modifies this`sessions, this`order, this`known, this`nextUid, sessions.Values, known
      ensures Valid() && sid in sessions && session == sessions[sid]
      ensures var st1 := RelaySpec.SetDefault(old(State()), sid, now);
              var (s, gone) := SpectatorJoins(old(State()), sid, port, addr, now);
              && session.View() == s
              && gone == (if replaced.Some? then {replaced.value} else {})
              && State() == st1.(sessions := st1.sessions[sid := s], nextUid := old(State()).nextUid + 1)
    {
      hide Valid, SessionViews, RelaySpec.SetDefault, SpectatorJoins, RegisterSpectatorPort, IndexView;
      SetDefault(sid, now);
      About(sid);
      assert sessions[sid] in sessions.Values && forall e | e in sessions[sid].spectators :: e in old(known);
      var peer := PeerEntry(addr, if addr in tcpTargets then Tcp else Udp, now);
      JoinIs(State(), old(State()), sid, port, addr, now);
      session, replaced := JoinKnown(sid, port, peer);
    }

    /** The new entry of the specification, for a session that is there already. */
    lemma JoinIs(st1: Relay, st: Relay, sid: Sid, port: PortType, addr: Address, now: Time)
      requires st1 == RelaySpec.SetDefault(st, sid, now)
      ensures sid in st1.sessions && st1.tcp == st.tcp && st1.nextUid == st.nextUid
      ensures var peer := PeerEntry(addr, if addr in st.tcp then Tcp else Udp, now);
              var (s, replaced) := RegisterSpectatorPort(st1.sessions[sid], port, peer, st1.nextUid);
              SpectatorJoins(st, sid, port, addr, now) == (s, if replaced.Some? then {replaced.value} else {})
    {
      hide RegisterSpectatorPort;
    }

    method JoinKnown(sid: Sid, port: PortType, peer: PeerEntry) returns (session: S.Session, replaced: Option<Address>)
      requires Valid() && sid in sessions
      modifies this`known, this`nextUid, sessions[sid], sessions[sid].spectators
      ensures Valid() && sid in sessions && session == sessions[sid]
      ensures sid in old(State()).sessions
      ensures (session.View(), replaced) == RegisterSpectatorPort(old(State()).sessions[sid], port, peer,
                old(State()).nextUid)
      ensures State() ==
              old(State()).(sessions := old(State()).sessions[sid := session.View()],
                  nextUid := old(State()).nextUid + 1)
    {
      hide Valid, SessionViews, S.Session.View, S.Session.Valid, RegisterSpectatorPort, IndexView;
      About(sid);
      session := sessions[sid];
      var newPort;
      newPort, replaced := session.RegisterSpectator(port, peer, nextUid);
      known := known + (set e | e in session.spectators);
      nextUid := nextUid + 1;
      SessionJoined(sid);
    }

    /** A spectator of a known session. */
    method RegisterSpectator(sid: Sid, port: PortType, addr: Address, now: Time)
      requires Valid()
      modifies this`mappings, this`sessions, this`order, this`spectatorByAddress, this`known, this`nextUid,
          sessions.Values, known
      ensures Valid() && State() == RelaySpec.RegisterSpectator(old(State()), sid, port, addr, now)
    {
      hide Valid, SessionViews, S.Session.View, S.Session.Valid, RelaySpec.SetDefault, SpectatorJoins, RemoveTargets,
          AttachSpectators, FindByAddress;
      var session, replaced := JoinSession(sid, port, addr, now);
      IndexSpectator(session, addr, replaced);
      SpectatorTable(session, addr, replaced, now);
    }

    /** The replaced address leaves the streamer's targets; a complete spectator of a ready session gets its streams. */
    method SpectatorTable(session: S.Session, addr: Address, replaced: Option<Address>, now: Time)
      modifies this`mappings
      ensures var s := session.View();
              var removed := RemoveTargets(old(mappings), s.streamer, if replaced.Some? then {replaced.value} else {});
              mappings == if s.IsReady() then AttachSpectators(removed, s, {addr}, now) else removed
    {
      session.Fields();
      if replaced.Some? {
        RemoveAddressFromMappings(replaced.value, session.streamer);
      } else {
        RemoveNothing(mappings, session.streamer, {});
      }
      hide RemoveTargets, AttachSpectators;
      var ready := session.IsReady();
      if ready {
        SetupSpectatorMappings(session, addr, now);
      }
    }

    /** The replaced address leaves the index, the announced one now stands for the entry. */
    method IndexSpectator(session: S.Session, addr: Address, replaced: Option<Address>)
      requires Valid() && session in sessions.Values
      modifies this`spectatorByAddress
      ensures Valid() && SessionViews() == old(SessionViews())
      ensures IndexView() == IndexEntry(old(IndexView()) - (if replaced.Some? then {replaced.value} else {}),
                session.View(), addr)
    {
      hide *;
      KnownSpectators(session);
      UpdateIndex(session, addr, replaced);
      ValidWithIndex();
    }

    twostate lemma ValidWithIndex()
      requires old(Valid()) && sessions == old(sessions) && order == old(order) && known == old(known)
                 && nextUid == old(nextUid)
      requires forall s | s in sessions.Values :: unchanged(s)
      requires forall a | a in spectatorByAddress :: spectatorByAddress[a] in known
      ensures Valid()
    {
      hide S.Session.Valid, UidsUnique, Separate;
      forall t | t in sessions ensures unchanged(sessions[t]) {
        assert sessions[t] in sessions.Values;
      }
    }

    method UpdateIndex(session: S.Session, addr: Address, replaced: Option<Address>)
      requires forall a | a in spectatorByAddress :: spectatorByAddress[a] in known
      requires forall e | e in session.spectators :: e in known
      modifies this`spectatorByAddress
      ensures forall a | a in spectatorByAddress :: spectatorByAddress[a] in known
      ensures IndexView() == IndexEntry(old(IndexView()) - (if replaced.Some? then {replaced.value} else {}),
                session.View(), addr)
    {
      hide FindByAddress, S.Session.View;
      session.Fields();
      if replaced.Some? {
        spectatorByAddress := spectatorByAddress - {replaced.value};
      }
      assert IndexView() == old(IndexView()) - (if replaced.Some? then {replaced.value} else {});
      var found := session.FindSpectator(addr);
      if found.Some? {
        spectatorByAddress := spectatorByAddress[addr := session.spectators[found.value]];
      }
    }

    lemma KnownSpectators(session: S.Session)
      requires Valid() && session in sessions.Values
      ensures forall e | e in session.spectators :: e in known
      ensures forall a | a in spectatorByAddress :: spectatorByAddress[a] in known
    {
    }

    /** `register_peer`: what the store answers about the announced id is an input. */
    method Announce(role: string, port: string, sid: Sid, addr: Address, store: StoreAnswer, now: Time)
      requires Valid()
      modifies this`mappings, this`sessions, this`order, this`spectatorByAddress, this`known, this`nextUid,
          sessions.Values, known
      ensures Valid() && State() == RelaySpec.Announce(old(State()), role, port, sid, addr, store, now)
    {
      hide Valid, SessionViews, State, RelaySpec.RegisterPeer, RelaySpec.RegisterSpectator, RemoveSpectator;
      var parsedRole, parsedPort := ParseRole(role), ParsePort(port);
      if parsedRole.None? || parsedPort.None? {
        return;
      }
      if parsedRole.value == Spectator {
        if store.spectated.None? || store.spectated.value == "" {
          return;
        }
        RegisterSpectator(store.spectated.value, parsedPort.value, addr, now);
      } else {
        RemoveSpectatorFromAllSessions(addr);
        if !store.exists_ {
          return;
        }
        RegisterPeer(sid, parsedRole.value, parsedPort.value, addr, now);
      }
    }

    // -------------------------------------------------------------- cleanup

    /** `_cleanup_dead_tcp_targets`: `alive` are the connections that are alive at this moment. */
    method CleanupDeadTcpTargets(alive: set<nat>)
      requires Valid()
      modifies this`tcpTargets
      ensures Valid() && State() == DropDeadTargets(old(State()), alive)
      ensures forall a :: a in tcpTargets <==>
                a in old(tcpTargets) && (old(tcpTargets)[a] in alive || a in mappings)
      ensures forall a | a in tcpTargets :: tcpTargets[a] == old(tcpTargets)[a]
    {
      hide Valid, SessionViews;
      var todo := tcpTargets.Keys;
      while todo != {}
        invariant todo <= old(tcpTargets).Keys
        invariant tcpTargets == map a | a in old(tcpTargets) &&
                    (a in todo || old(tcpTargets)[a] in alive || a in mappings) :: old(tcpTargets)[a]
      {
        var a :| a in todo;
        todo := todo - {a};
        if tcpTargets[a] !in alive && a !in mappings {
          tcpTargets := tcpTargets - {a};
        }
      }
    }

    /** Whether all mappings of a role's peers have expired. */
    method AllExpired(ports: Ports, now: Time, timeout: Time) returns (expired: bool)
      ensures expired <==> forall a | a in AddrsOf(ports) :: a in mappings ==> now - mappings[a].timestamp >= timeout
    {
      var todo := ports.Keys;
      while todo != {}
        invariant todo <= ports.Keys
        invariant forall p | p in ports && p !in todo :: ports[p].addr in mappings ==>
                    now - mappings[ports[p].addr].timestamp >= timeout
      {
        var p :| p in todo;
        todo := todo - {p};
        if ports[p].addr in mappings && now - mappings[ports[p].addr].timestamp < timeout {
          assert ports[p].addr in AddrsOf(ports);
          return false;
        }
      }
      return true;
    }

    method RoleExpired(session: S.Session, role: Role, now: Time, timeout: Time) returns (expired: bool)
      requires role != Spectator
      ensures expired <==> ExpiredPorts(mappings, session.View(), PortsOf(session.View(), role), now, timeout) != {}
    {
      hide S.Session.View;
      session.Fields();
      var ports := if role == Streamer then session.streamer else session.viewer;
      FullByCounting(ports);
      if ports != map[] {
        var p :| p in ports;
        assert ports[p].addr in AddrsOf(ports);
      }
      if now - session.lastAnnouncementAt <= timeout || |ports| == 0 {
        return false;
      }
      expired := AllExpired(ports, now, timeout);
    }

    /** The roles to remove, session by session. */
    method FindExpiredRoles(now: Time, timeout: Time) returns (expired: set<(Sid, Role)>)
      requires Valid()
      ensures expired == ExpiredRoles(State(), now, timeout)
    {
      hide Valid, SessionViews, S.Session.View, ExpiredPorts;
      StateFields();
      SameAddresses();
      expired := {};
      for k := 0 to |order|
        invariant expired == set x | x in ExpiredRoles(State(), now, timeout) && x.0 in order[..k]
      {
        var sid := order[k];
        Listed(k);
        ExpiredIn(State(), sid, now, timeout);
        NextInOrder(k);
        var streamer := RoleExpired(sessions[sid], Streamer, now, timeout);
        var viewer := RoleExpired(sessions[sid], Viewer, now, timeout);
        var found := (if streamer then {(sid, Streamer)} else {}) + (if viewer then {(sid, Viewer)} else {});
        assert found == set x | x in ExpiredRoles(State(), now, timeout) && x.0 == sid;
        expired := expired + found;
      }
      AllInOrder();
    }

    lemma ListedOnce(k: nat)
      requires Valid() && k < |order|
      ensures order[k] !in order[..k]
    {
    }

    lemma NextInOrder(k: nat)
      requires k < |order|
      ensures forall t :: t in order[..k + 1] <==> t in order[..k] || t == order[k]
    {
      assert order[..k + 1] == order[..k] + [order[k]];
    }

    lemma AllInOrder()
      requires Valid()
      ensures order[..|order|] == order && forall t :: t in State().sessions <==> t in order
    {
    }

    /** Forget one expired role: its addresses, its mappings, its peers. */
    method RemoveRole(sid: Sid, role: Role)
      requires Valid() && sid in sessions && role != Spectator
      modifies this`mappings, sessions.Values
      ensures Valid() && State() == ExpireOne(old(State()), sid, role)
    {
      hide Valid, SessionViews, S.Session.View, S.Session.Valid, CleanupLoops.EmptyRole, AddrsOf;
      About(sid);
      var session := sessions[sid];
      session.Fields();
      var ports := if role == Streamer then session.streamer else session.viewer;
      var gone := PopPorts(ports);
      label popped:
      session.EmptyRole(role, gone);
      OneSessionChanged@popped(sid);
    }

    method PopPorts(ports: Ports) returns (gone: set<Address>)
      modifies this`mappings
      ensures gone == AddrsOf(ports) && mappings == old(mappings) - gone
    {
      gone := {};
      var todo := ports.Keys;
      while todo != {}
        invariant todo <= ports.Keys
        invariant gone == set p | p in ports && p !in todo :: ports[p].addr
        invariant mappings == old(mappings) - gone
      {
        var p :| p in todo;
        todo := todo - {p};
        gone := gone + {ports[p].addr};
        mappings := mappings - {ports[p].addr};
      }
    }

    /** `_cleanup_expired_roles` */
    method CleanupExpiredRoles(now: Time, timeout: Time)
      requires Valid()
      modifies this`mappings, sessions.Values
      ensures Valid() && State() == ExpireRoles(old(State()), now, timeout)
    {
      hide Valid, SessionViews, State, ExpireListed, ExpiredRoles, ExpireRoles, ExpireOne;
      ghost var before := State();
      var expired := FindExpiredRoles(now, timeout);
      ListedRoles(expired, now, timeout);
      ExpireNone(before);
      ExpireAll(before, now, timeout);
      var todo := expired;
      assert expired - todo == {};
      while todo != {}
        invariant todo <= expired && Valid()
        invariant State() == ExpireListed(before, expired - todo)
      {
        var x :| x in todo;
        ExpireOneMore(before, expired - todo, x.0, x.1);
        assert expired - (todo - {x}) == expired - todo + {(x.0, x.1)};
        RemoveRole(x.0, x.1);
        todo := todo - {x};
      }
      assert expired - {} == expired;
    }

    lemma ListedRoles(expired: set<(Sid, Role)>, now: Time, timeout: Time)
      requires Valid() && expired == ExpiredRoles(State(), now, timeout)
      ensures forall x | x in expired :: x.0 in sessions && x.0 in State().sessions && x.1 != Spectator
    {
      hide ExpiredPorts;
    }

    /** `_spectator_has_active_tcp` */
    method SpectatorHasActiveTcp(entry: S.SpectatorEntry, alive: set<nat>) returns (active: bool)
      requires Valid()
      ensures active <==> HasActiveTcp(State(), entry.View(), alive)
    {
      StateFields();
      hide Valid, SessionViews, State;
      var addrs := entry.GetAddresses();
      var todo := addrs;
      while todo != {}
        invariant todo <= addrs
        invariant forall a | a in addrs && a !in todo && a in tcpTargets :: tcpTargets[a] !in alive
      {
        var a :| a in todo;
        todo := todo - {a};
        if a in tcpTargets && tcpTargets[a] in alive {
          return true;
        }
      }
      return false;
    }

    /** When one entry of one session gets a new time, only that entry's value changes. */
    twostate lemma OneEntryTouched(sid: Sid, new i: nat, new now: Time)
      requires old(Valid()) && sid in sessions && i < |sessions[sid].spectators|
      requires sid in old(SessionViews()) && i < |old(SessionViews())[sid].spectators|
      requires sessions == old(sessions) && order == old(order) && known == old(known) && nextUid == old(nextUid)
                 && spectatorByAddress == old(spectatorByAddress)
      requires forall s | s in sessions.Values :: unchanged(s)
      requires var entry := sessions[sid].spectators[i];
               entry in old(known) && entry.ports == old(entry.ports) && entry.lastAnnouncementAt == now
               && forall e | e in known && e != entry :: unchanged(e)
      ensures Valid() && SessionViews() == old(SessionViews())[sid := TouchAt(old(SessionViews())[sid], i, now)]
    {
      hide Separate, UidsUnique, Distinct, SessionsValid, S.Session.View, SessionViews, TouchAt, TouchSessions,
          MarksOnly;
      var entry := sessions[sid].spectators[i];
      EntryTouched(entry, now);
      OnlyHere(sid, i);
      MarksBefore(old(SessionViews()), entry.uid, sid, i, now);
      TouchOnlyHere(old(SessionViews()), entry.uid, sid, i, now);
    }

    /** The number of an entry occurs only at its own place. */
    lemma OnlyHere(sid: Sid, i: nat)
      requires Valid() && sid in sessions && i < |sessions[sid].spectators|
      ensures sid in SessionViews() && i < |SessionViews()[sid].spectators|
      ensures MarksOnly(SessionViews(), sessions[sid].spectators[i].uid, sid, i)
    {
      var entry := sessions[sid].spectators[i];
      forall t, k | t in sessions && 0 <= k < |sessions[t].spectators| && sessions[t].spectators[k].uid == entry.uid
        ensures t == sid && k == i
      {
        assert sessions[t].spectators[k] in known && entry in known;
        assert sessions[t].spectators[k] == entry;
        assert entry in sessions[t].spectators && entry in sessions[sid].spectators;
      }
    }

    /** One step of the reversed loop over a session's spectators. */
    method VisitSpectator(sid: Sid, i: nat, now: Time, alive: set<nat>)
      requires Valid() && sid in sessions && i < |sessions[sid].spectators|
      modifies this`mappings, this`spectatorByAddress, sessions.Values, known
      ensures Valid() && State() == VisitOne(old(State()), sid, i, now, alive)
      ensures |sessions[sid].spectators| >= i
    {
      hide Valid, SessionViews, S.Session.View, S.Session.Valid, HasActiveTcp, RemoveTargets, RemoveSpectatorAt,
          TouchAt, AddrsOf, S.Views;
      About(sid);
      ghost var before := State();
      var session := sessions[sid];
      session.Fields();
      var spectator := session.spectators[i];
      assert spectator in known;
      if now - spectator.lastAnnouncementAt <= SPECTATOR_TIMEOUT {
        return;
      }
      var active := SpectatorHasActiveTcp(spectator, alive);
      label visiting:
      if active {
        spectator.lastAnnouncementAt := now;
        OneEntryTouched@visiting(sid, i, now);
        return;
      }
      var gone := spectator.GetAddresses();
      spectatorByAddress := spectatorByAddress - gone;
      assert IndexView() == before.index - gone;
      session.DropSpectator(i, gone);
      OneSessionChanged@visiting(sid);
      RemoveSpectatorFromMappings(gone, session.streamer);
    }

    /** The spectators of one session, from the last to the first. */
    method VisitSpectators(sid: Sid, now: Time, alive: set<nat>)
      requires Valid() && sid in sessions && !sessions[sid].View().AllRolesEmpty()
      modifies this`mappings, this`spectatorByAddress, sessions.Values, known
      ensures Valid() && State() == DropFrom(old(State()), sid, now, alive)
    {
      hide Valid, SessionViews, State, S.Session.View, S.Session.Valid, VisitedFrom, DropFrom, VisitOne;
      ghost var before := State();
      SpectatorCount(sid);
      VisitedNone(before, sid, now, alive);
      VisitedAll(before, sid, now, alive);
      var i := |sessions[sid].spectators|;
      while i > 0
        invariant 0 <= i <= |before.sessions[sid].spectators| && Valid()
        invariant State() == VisitedFrom(before, sid, i, now, alive)
      {
        i := i - 1;
        VisitOneMore(before, sid, i, now, alive);
        SpectatorCount(sid);
        VisitSpectator(sid, i, now, alive);
      }
    }

    lemma SpectatorCount(sid: Sid)
      requires Valid() && sid in sessions
      ensures sid in State().sessions && |State().sessions[sid].spectators| == |sessions[sid].spectators|
      ensures State().sessions[sid] == sessions[sid].View()
    {
      hide S.AllDifferent, UidsUnique, Separate;
      sessions[sid].Fields();
    }

    /** `_cleanup_inactive_spectators`: only in sessions that still have a role. */
    method CleanupInactiveSpectators(now: Time, alive: set<nat>)
      requires Valid()
      modifies this`mappings, this`spectatorByAddress, sessions.Values, known
      ensures Valid() && State() == DropInactive(old(State()), now, alive)
    {
      hide Valid, SessionViews, State, S.Session.View, DropListed, DropFrom, DropInactive;
      ghost var before := State();
      StateFields();
      DropNone(before, now, alive);
      ghost var visited: set<Sid> := {};
      for k := 0 to |order|
        invariant Valid() && State() == DropListed(before, visited, now, alive)
        invariant visited == set t | t in order[..k]
      {
        DropListedKeys(before, visited, now, alive);
        Listed(k);
        NextInOrder(k);
        ListedOnce(k);
        DropOneMore(before, visited, order[k], now, alive);
        visited := visited + {order[k]};
        var empty := sessions[order[k]].AllRolesEmpty();
        if empty {
          NothingToDrop(State(), order[k], now, alive);
        } else {
          VisitSpectators(order[k], now, alive);
        }
      }
      AllInOrder();
      DropListedKeys(before, visited, now, alive);
      DropAll(before, now, alive, visited);
    }

    /** Drop one session without roles, after its spectators have left the index. */
    method DropEmptySession(sid: Sid)
      requires Valid() && sid in sessions && sessions[sid].View().AllRolesEmpty()
      modifies this`mappings, this`sessions, this`order, this`spectatorByAddress
      ensures Valid() && State() == DropEmptyOne(old(State()), sid)
    {
      hide Valid, SessionViews, S.Session.View, S.Session.Valid, S.SpectatorEntry.View;
      ghost var before := State();
      var session := sessions[sid];
      SpectatorCount(sid);
      session.Fields();
      UnindexSpectators(session);
      DeleteSessions({sid});
    }

    /** All addresses of the session's spectators leave the index; a session without streamer has no targets to lose. */
    method UnindexSpectators(session: S.Session)
      requires Valid() && session in sessions.Values && session.streamer == map[]
      modifies this`mappings, this`spectatorByAddress
      ensures Valid() && SessionViews() == old(SessionViews()) && mappings == old(mappings)
      ensures IndexView() == old(IndexView()) - AllAddresses(session.View())
    {
      hide *;
      KnownSpectators(session);
      session.Fields();
      AddressesUpToNone(session.View());
      MinusNothing(IndexView());
      for k := 0 to |session.spectators|
        invariant mappings == old(mappings)
        invariant IndexView() == old(IndexView()) - AddressesUpTo(session.View(), k)
        invariant forall a | a in spectatorByAddress :: spectatorByAddress[a] in known
      {
        AddressesUpToNext(session.View(), k);
        var addrs := UnindexOne(session.spectators[k]);
        MinusMore(old(IndexView()), AddressesUpTo(session.View(), k), addrs);
        RemoveNothing(mappings, map[], addrs);
        RemoveSpectatorFromMappings(addrs, session.streamer);
      }
      ValidWithIndex();
    }

    method UnindexOne(spectator: S.SpectatorEntry) returns (addrs: set<Address>)
      modifies this`spectatorByAddress
      ensures addrs == spectator.View().Addresses() && IndexView() == old(IndexView()) - addrs
      ensures forall a | a in spectatorByAddress ::
                a in old(spectatorByAddress) && spectatorByAddress[a] == old(spectatorByAddress)[a]
    {
      addrs := spectator.GetAddresses();
      spectatorByAddress := spectatorByAddress - addrs;
    }

    /** `_cleanup_empty_sessions` */
    method CleanupEmptySessions()
      requires Valid()
      modifies this`mappings, this`sessions, this`order, this`spectatorByAddress
      ensures Valid() && State() == DropEmpty(old(State()))
    {
      hide Valid, SessionViews, State, S.Session.View, DropEmptyListed, DropEmptyOne, DropEmpty;
      ghost var before := State();
      var expired := FindEmptySessions();
      DropEmptyNone(before);
      DropEmptyAll(before, expired);
      var todo := expired;
      assert expired - todo == {};
      while todo != {}
        invariant todo <= expired && Valid()
        invariant State() == DropEmptyListed(before, expired - todo)
      {
        var sid :| sid in todo;
        StillEmpty(before, expired - todo, sid);
        DropEmptyMore(before, expired - todo, sid);
        assert expired - (todo - {sid}) == expired - todo + {sid};
        SessionOf(sid);
        DropEmptySession(sid);
        todo := todo - {sid};
      }
      assert expired - {} == expired;
    }

    lemma SessionOf(sid: Sid)
      requires Valid() && sid in State().sessions
      ensures sid in sessions && State().sessions[sid] == sessions[sid].View()
    {
      hide S.AllDifferent, UidsUnique, Separate;
    }

    method FindEmptySessions() returns (expired: set<Sid>)
      requires Valid()
      ensures expired == set sid | sid in State().sessions && State().sessions[sid].AllRolesEmpty()
    {
      hide Valid, SessionViews, State, S.Session.View;
      StateFields();
      expired := {};
      for k := 0 to |order|
        invariant expired == set sid | sid in order[..k] && sid in State().sessions
                    && State().sessions[sid].AllRolesEmpty()
      {
        Listed(k);
        NextInOrder(k);
        var empty := sessions[order[k]].AllRolesEmpty();
        if empty {
          expired := expired + {order[k]};
        }
      }
      AllInOrder();
    }

    /** `cleanup_expired_mappings`: one pass, with the connections that are alive while it runs. */
    method CleanupExpiredMappings(now: Time, timeout: Time, alive: set<nat>)
      requires Valid()
      modifies this`mappings, this`tcpTargets, this`sessions, this`order, this`spectatorByAddress, sessions.Values,
          known
      ensures Valid() && State() == Cleanup(old(State()), now, timeout, alive)
    {
      hide Valid, SessionViews, State, DropDeadTargets, ExpireRoles, DropInactive, DropEmpty;
      CleanupDeadTcpTargets(alive);
      CleanupExpiredRoles(now, timeout);
      CleanupInactiveSpectators(now, alive);
      CleanupEmptySessions();
    }

    /** `register_tcp_peer` first notes the connection, then registers the peer. */
    method NoteTcpTarget(addr: Address, target: nat)
      requires Valid()
      modifies this`tcpTargets
      ensures Valid() && State() == Step(old(State()), TcpConnected(addr, target))
      ensures tcpTargets == old(tcpTargets)[addr := target]
    {
      hide Valid, SessionViews;
      tcpTargets := tcpTargets[addr := target];
    }
  }

  /** The addresses of the complete ones among the first `k` spectators. */
  ghost function CompleteUpTo(s: Session, k: nat): set<Address> {
    set i, a | 0 <= i < k && i < |s.spectators| && s.spectators[i].IsComplete() && a in s.spectators[i].Addresses() :: a
  }

  lemma CompleteUpToNone(s: Session)
    ensures CompleteUpTo(s, 0) == {} && CompleteUpTo(s, |s.spectators|) == CompleteAddresses(s)
  {
  }

  lemma CompleteUpToNext(s: Session, k: nat)
    requires k < |s.spectators|
    ensures s.spectators[k].IsComplete() ==> CompleteUpTo(s, k + 1) == CompleteUpTo(s, k) + s.spectators[k].Addresses()
    ensures !s.spectators[k].IsComplete() ==> CompleteUpTo(s, k + 1) == CompleteUpTo(s, k)
  {
  }

  lemma ExpiredIn(st: Relay, sid: Sid, now: Time, timeout: Time)
    requires sid in st.sessions
    ensures forall role | role != Spectator :: (sid, role) in ExpiredRoles(st, now, timeout) <==>
              ExpiredPorts(st.mappings, st.sessions[sid], PortsOf(st.sessions[sid], role), now, timeout) != {}
    ensures (sid, Spectator) !in ExpiredRoles(st, now, timeout)
  {
    hide ExpiredPorts;
  }

  /** `uid` is the number of the entry at `sid`, `i` and of no other. */
  ghost predicate MarksOnly(sessions: map<Sid, Session>, uid: nat, sid: Sid, i: nat) {
    forall t, k | t in sessions && 0 <= k < |sessions[t].spectators| :: sessions[t].spectators[k].uid == uid <==>
        t == sid && k == i
  }

  lemma MarksBefore(sessions: map<Sid, Session>, uid: nat, sid: Sid, i: nat, now: Time)
    requires MarksOnly(TouchSessions(sessions, uid, now), uid, sid, i)
    ensures MarksOnly(sessions, uid, sid, i)
  {
    forall t, k | t in sessions && 0 <= k < |sessions[t].spectators|
      ensures sessions[t].spectators[k].uid == uid <==> t == sid && k == i
    {
      assert TouchSessions(sessions, uid, now)[t].spectators[k].uid == sessions[t].spectators[k].uid;
    }
  }

  lemma TouchOnlyHere(sessions: map<Sid, Session>, uid: nat, sid: Sid, i: nat, now: Time)
    requires sid in sessions && i < |sessions[sid].spectators| && MarksOnly(sessions, uid, sid, i)
    ensures TouchSessions(sessions, uid, now) == sessions[sid := TouchAt(sessions[sid], i, now)]
  {
    forall t | t in sessions
      ensures TouchEntries(sessions[t].spectators, uid, now) ==
              if t == sid then TouchAt(sessions[sid], i, now).spectators else sessions[t].spectators
    {
      var entries := sessions[t].spectators;
      assert TouchEntries(entries, uid, now) == if t == sid then entries[i := entries[i].(lastAnnouncementAt := now)]
          else entries;
    }
  }

  lemma NothingToDrop(st: Relay, sid: Sid, now: Time, alive: set<nat>)
    requires sid in st.sessions && st.sessions[sid].AllRolesEmpty()
    ensures DropFrom(st, sid, now, alive) == st
  {
  }

  /** The addresses of the first `k` spectators. */
  ghost function AddressesUpTo(s: Session, k: nat): set<Address> {
    set i, a | 0 <= i < k && i < |s.spectators| && a in s.spectators[i].Addresses() :: a
  }

  lemma AddressesUpToNone(s: Session)
    ensures AddressesUpTo(s, 0) == {} && AddressesUpTo(s, |s.spectators|) == AllAddresses(s)
  {
    forall e | e in s.spectators ensures exists i :: 0 <= i < |s.spectators| && s.spectators[i] == e {}
  }

  lemma AddressesUpToNext(s: Session, k: nat)
    requires k < |s.spectators|
    ensures AddressesUpTo(s, k + 1) == AddressesUpTo(s, k) + s.spectators[k].Addresses()
  {
  }

  lemma MinusNothing(index: map<Address, nat>)
    ensures index - {} == index
  {
  }

  lemma MinusMore(index: map<Address, nat>, first: set<Address>, second: set<Address>)
    ensures index - first - second == index - (first + second)
  {
  }

  lemma StillEmpty(st: Relay, gone: set<Sid>, sid: Sid)
    requires sid in st.sessions && sid !in gone && st.sessions[sid].AllRolesEmpty()
    ensures sid in DropEmptyListed(st, gone).sessions && DropEmptyListed(st, gone).sessions[sid] == st.sessions[sid]
  {
    hide Without, EmptyAddresses;
  }

  ghost predicate NotAmong(st: Relay, visited: seq<Sid>, addr: Address) {
    forall sid | sid in visited && sid in st.sessions :: !Spectates(st.sessions[sid], addr)
  }

  lemma {:induction false} FirstIs(sessions: map<Sid, Session>, order: seq<Sid>, k: nat, addr: Address)
    requires k < |order| && order[k] in sessions && Spectates(sessions[order[k]], addr)
    requires forall sid | sid in order[..k] && sid in sessions :: !Spectates(sessions[sid], addr)
    ensures FirstSpectated(sessions, order, addr) == Some(order[k])
  {
    if k > 0 {
      assert order[0] in order[..k];
      assert order[1..][..k - 1] == order[1..k];
      FirstIs(sessions, order[1..], k - 1, addr);
    }
  }

  lemma SearchStep(st: Relay, order: seq<Sid>, k: nat, addr: Address)
    requires k < |order| && order[k] in st.sessions && order == st.order && NotAmong(st, order[..k], addr)
    ensures Spectates(st.sessions[order[k]], addr) ==> RemoveSpectator(st, addr) == RemoveEntry(st, order[k], addr)
    ensures !Spectates(st.sessions[order[k]], addr) ==> NotAmong(st, order[..k + 1], addr)
  {
    if Spectates(st.sessions[order[k]], addr) {
      FirstIs(st.sessions, order, k, addr);
    }
    assert order[..k + 1] == order[..k] + [order[k]];
  }

  /** One more port connected in both directions, as the loop over the port types does it. */
  function Connect(m: map<Address, Mapping>, a: Address, b: Address, now: Time): map<Address, Mapping> {
    m[a := Mapping({b}, now)][b := Mapping({a}, now)]
  }

  lemma NotAmongNone(st: Relay, addr: Address)
    ensures NotAmong(st, [], addr)
  {
  }

  lemma NothingFound(st: Relay, order: seq<Sid>, addr: Address)
    requires order == st.order && NotAmong(st, order[..|order|], addr)
    ensures RemoveSpectator(st, addr) == st
  {
    assert order[..|order|] == order;
  }

  /** Dropping the entry that `addr` has in session `sid`. */
  ghost function RemoveEntry(st: Relay, sid: Sid, addr: Address): Relay
    requires sid in st.sessions && Spectates(st.sessions[sid], addr)
  {
    var s := st.sessions[sid];
    var i := FindByAddress(s.spectators, addr).value;
    var gone := s.spectators[i].Addresses();
    st.(sessions := st.sessions[sid := RemoveSpectatorAt(s, i)],
        index := st.index - gone,
        mappings := RemoveTargets(st.mappings, s.streamer, gone))
  }
}
