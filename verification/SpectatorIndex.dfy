/**
 * Heartbeats are looked up in a reverse index instead of scanning all sessions. As long
 * as an address announces itself under one port type and spectates at most one live
 * session at a time, the index finds exactly what the scan would find, even though
 * overwritten sessions leave their index entries behind.
 */
module SpectatorIndex {
  import opened RelayTypes
  import opened RelaySpec
  import opened SpectatorGrouping
  import opened RelaySafety

  // ---------------------------------------------------------------- the reference: a scan

  function TouchEntry(s: Session, i: nat, now: Time): Session
    requires i < |s.spectators|
  {
    s.(spectators := s.spectators[i := s.spectators[i].(lastAnnouncementAt := now)])
  }

  /** Go through all sessions and refresh the entry that uses `addr`. */
  function ScanHeartbeat(st: Relay, addr: Address, now: Time): Relay {
    match FirstSpectated(st.sessions, st.order, addr)
    case None => st
    case Some(sid) =>
      var s := st.sessions[sid];
      st.(sessions := st.sessions[sid := TouchEntry(s, FindByAddress(s.spectators, addr).value, now)])
  }

  // ---------------------------------------------------------------- live entries

  predicate Live(st: Relay, sid: Sid, i: nat) {
    sid in st.sessions && i < |st.sessions[sid].spectators|
  }

  function At(st: Relay, sid: Sid, i: nat): Entry
    requires Live(st, sid, i)
  {
    st.sessions[sid].spectators[i]
  }

  /** No address spectates two live sessions. */
  ghost predicate OneSessionEach(st: Relay) {
    forall s, i, t, j, a | Live(st, s, i) && Live(st, t, j) && a in At(st, s, i).Addresses()
        && a in At(st, t, j).Addresses()
      :: s == t
  }

  /** No entry uses one address for two ports. */
  ghost predicate OnePortEach(st: Relay) {
    forall s, i | Live(st, s, i) && At(st, s, i).IsComplete() ::
      At(st, s, i).PortAddr(Video) != At(st, s, i).PortAddr(Control)
  }

  /** The index holds every address of every live entry, and is wrong about no live entry. */
  ghost predicate IndexOk(st: Relay) {
    && (forall a | a in st.index :: st.index[a] < st.nextUid)
    && (forall s, i | Live(st, s, i) :: At(st, s, i).uid < st.nextUid)
    && UidsUnique(st)
    && (forall s, i | Live(st, s, i) :: IndexedAs(st.index, At(st, s, i)))
  }

  ghost predicate UidsUnique(st: Relay) {
    forall s, i, t, j | Live(st, s, i) && Live(st, t, j) && At(st, s, i).uid == At(st, t, j).uid
      :: s == t && At(st, s, i).ports == At(st, t, j).ports
  }

  /** The index maps exactly the addresses of `e` to `e`. */
  ghost predicate IndexedAs(index: map<Address, nat>, e: Entry) {
    forall a :: a in index && index[a] == e.uid <==> a in e.Addresses()
  }

  lemma TouchOne(entries: seq<Entry>, uid: nat, i: nat, now: Time)
    requires forall j | 0 <= j < |entries| :: entries[j].uid == uid <==> i == j
    ensures TouchEntries(entries, uid, now) ==
            if i < |entries| then entries[i := entries[i].(lastAnnouncementAt := now)] else entries
  {
  }

  /** In the live entries, the identity the index holds for `addr` marks exactly the entry that uses it. */
  lemma IndexMarksUser(st: Relay, addr: Address, s: Sid, j: nat)
    requires Inv(st) && IndexOk(st) && Live(st, s, j) && addr in st.index
    ensures At(st, s, j).uid == st.index[addr] ==>
              FindByAddress(st.sessions[s].spectators, addr) == Some(j)
              && forall t, k | Live(st, t, k) && addr in At(st, t, k).Addresses() :: t == s && k == j
  {
    assert IndexedAs(st.index, At(st, s, j));
    if At(st, s, j).uid == st.index[addr] {
      LookupIsUnambiguous(st.sessions[s].spectators, j, addr);
      forall t, k | Live(st, t, k) && addr in At(st, t, k).Addresses() ensures t == s && k == j {
        assert IndexedAs(st.index, At(st, t, k));
        assert t == s;
        LookupIsUnambiguous(st.sessions[s].spectators, k, addr);
      }
    }
  }

  /** The entry that the index marks is the entry that the scan finds. */
  lemma MarkedIsFound(st: Relay, addr: Address, s: Sid, j: nat)
    requires Inv(st) && IndexOk(st) && Live(st, s, j) && addr in st.index
    ensures At(st, s, j).uid == st.index[addr] <==>
              FirstSpectated(st.sessions, st.order, addr) == Some(s)
                  && FindByAddress(st.sessions[s].spectators, addr) == Some(j)
  {
    IndexMarksUser(st, addr, s, j);
    assert IndexedAs(st.index, At(st, s, j));
    var found := FirstSpectated(st.sessions, st.order, addr);
    if At(st, s, j).uid == st.index[addr] {
      assert Spectates(st.sessions[s], addr);
      var t := found.value;
      var k := FindByAddress(st.sessions[t].spectators, addr).value;
      assert Live(st, t, k) && addr in At(st, t, k).Addresses();
    }
  }

  lemma TouchedAsFound(st: Relay, addr: Address, s: Sid, now: Time)
    requires Inv(st) && IndexOk(st) && addr in st.index && s in st.sessions
    ensures TouchEntries(st.sessions[s].spectators, st.index[addr], now) ==
            if FirstSpectated(st.sessions, st.order, addr) == Some(s)
              then TouchEntry(st.sessions[s], FindByAddress(st.sessions[s].spectators, addr).value, now).spectators
              else st.sessions[s].spectators
  {
    var found := FirstSpectated(st.sessions, st.order, addr);
    var entries := st.sessions[s].spectators;
    var i := if found == Some(s) then FindByAddress(entries, addr).value else |entries|;
    hide IndexOk, Inv, FirstSpectated, TouchEntries;
    forall j: nat | j < |entries| ensures entries[j].uid == st.index[addr] <==> i == j {
      MarkedIsFound(st, addr, s, j);
    }
    TouchOne(entries, st.index[addr], i, now);
  }

  /** An address that no live entry uses may be absent from the index; a used one never is. */
  lemma UsedIsIndexed(st: Relay, addr: Address)
    requires IndexOk(st) && FirstSpectated(st.sessions, st.order, addr).Some?
    ensures addr in st.index
  {
    var sid := FirstSpectated(st.sessions, st.order, addr).value;
    var i := FindByAddress(st.sessions[sid].spectators, addr).value;
    assert Live(st, sid, i) && addr in At(st, sid, i).Addresses();
    assert IndexedAs(st.index, At(st, sid, i));
  }

  /** The index lookup refreshes exactly the entry the scan refreshes, and nothing else. */
  lemma LookupEqualsScan(st: Relay, addr: Address, now: Time)
    requires Inv(st) && IndexOk(st)
    ensures Heartbeat(st, addr, now) == ScanHeartbeat(st, addr, now)
  {
    if FirstSpectated(st.sessions, st.order, addr).Some? {
      UsedIsIndexed(st, addr);
    }
    hide IndexOk, Inv, TouchEntries, FindByAddress;
    if addr in st.index {
      forall s | s in st.sessions
        ensures TouchSessions(st.sessions, st.index[addr], now)[s] ==
                if FirstSpectated(st.sessions, st.order, addr) == Some(s)
                  then TouchEntry(st.sessions[s], FindByAddress(st.sessions[s].spectators, addr).value, now)
                  else st.sessions[s]
      {
        TouchedAsFound(st, addr, s, now);
      }
      assert Heartbeat(st, addr, now).sessions == ScanHeartbeat(st, addr, now).sessions;
    }
  }

  // ---------------------------------------------------------------- steps that only remove

  ghost predicate ComesFrom(st: Relay, sid: Sid, e: Entry) {
    exists j :: Live(st, sid, j) && At(st, sid, j).uid == e.uid && At(st, sid, j).ports == e.ports
  }

  /** Entries may disappear if their addresses leave the index only together with them. */
  lemma RemovalKeepsIndex(before: Relay, after: Relay, gone: set<Address>)
    requires IndexOk(before) && after.index == before.index - gone && before.nextUid <= after.nextUid
    requires forall s, i | Live(after, s, i) :: ComesFrom(before, s, At(after, s, i))
    requires forall s, i | Live(after, s, i) :: At(after, s, i).Addresses() !! gone
    ensures IndexOk(after)
  {
    forall s, i, t, j | Live(after, s, i) && Live(after, t, j) && At(after, s, i).uid == At(after, t, j).uid
      ensures s == t && At(after, s, i).ports == At(after, t, j).ports
    {
      assert ComesFrom(before, s, At(after, s, i)) && ComesFrom(before, t, At(after, t, j));
    }
    forall s, i | Live(after, s, i)
      ensures At(after, s, i).uid < after.nextUid && IndexedAs(after.index, At(after, s, i))
    {
      var j :| Live(before, s, j) && At(before, s, j).uid == At(after, s, i).uid
          && At(before, s, j).ports == At(after, s, i).ports;
    }
  }

  lemma RemovalKeepsOneSession(before: Relay, after: Relay)
    requires OneSessionEach(before)
    requires forall s, i | Live(after, s, i) :: ComesFrom(before, s, At(after, s, i))
    ensures OneSessionEach(after)
  {
    forall s, i, t, j, a | Live(after, s, i) && Live(after, t, j) && a in At(after, s, i).Addresses()
        && a in At(after, t, j).Addresses()
      ensures s == t
    {
      assert ComesFrom(before, s, At(after, s, i)) && ComesFrom(before, t, At(after, t, j));
      var i' :| Live(before, s, i') && At(before, s, i').ports == At(after, s, i).ports;
      var j' :| Live(before, t, j') && At(before, t, j').ports == At(after, t, j).ports;
      assert a in At(before, s, i').Addresses() && a in At(before, t, j').Addresses();
    }
  }

  lemma RemoveSpectatorKeepsIndex(st: Relay, addr: Address)
    requires Inv(st) && IndexOk(st) && OneSessionEach(st)
    ensures IndexOk(RemoveSpectator(st, addr)) && OneSessionEach(RemoveSpectator(st, addr))
  {
    hide IndexOk, OneSessionEach, RemoveTargets;
    var after := RemoveSpectator(st, addr);
    var found := FirstSpectated(st.sessions, st.order, addr);
    if found.Some? {
      var sid := found.value;
      var k := FindByAddress(st.sessions[sid].spectators, addr).value;
      var gone := At(st, sid, k).Addresses();
      forall s, i | Live(after, s, i)
        ensures ComesFrom(st, s, At(after, s, i)) && At(after, s, i).Addresses() !! gone
      {
        var j := if s == sid && i >= k then i + 1 else i;
        assert Live(st, s, j) && At(st, s, j) == At(after, s, i);
        SharedMeansSame(st, s, j, sid, k);
      }
      RemovalKeepsIndex(st, after, gone);
      RemovalKeepsOneSession(st, after);
    }
  }

  /** Two live entries that share an address are the same entry. */
  lemma SharedMeansSame(st: Relay, s: Sid, i: nat, t: Sid, j: nat)
    requires Inv(st) && OneSessionEach(st) && Live(st, s, i) && Live(st, t, j)
    ensures At(st, s, i).Addresses() !! At(st, t, j).Addresses() || (s == t && i == j)
  {
    if a :| a in At(st, s, i).Addresses() && a in At(st, t, j).Addresses() {
      assert s == t;
      LookupIsUnambiguous(st.sessions[s].spectators, i, a);
    }
  }

  lemma DropInactiveKeepsIndex(st: Relay, now: Time, alive: set<nat>)
    requires Inv(st) && IndexOk(st) && OneSessionEach(st)
    ensures IndexOk(DropInactive(st, now, alive)) && OneSessionEach(DropInactive(st, now, alive))
  {
    hide IndexOk, OneSessionEach, IsInactive;
    var after := DropInactive(st, now, alive);
    var gone := set sid, a | sid in st.sessions && a in InactiveAddresses(st, st.sessions[sid], now, alive) :: a;
    forall s, i | Live(after, s, i)
      ensures ComesFrom(st, s, At(after, s, i)) && At(after, s, i).Addresses() !! gone
    {
      var old_ := st.sessions[s];
      var j := i;
      if !old_.AllRolesEmpty() {
        j := KeptFrom(st, old_.spectators, now, alive, i);
      }
      assert Live(st, s, j) && At(st, s, j).uid == At(after, s, i).uid && At(st, s, j).ports == At(after, s, i).ports;
      forall t, a | t in st.sessions && a in InactiveAddresses(st, st.sessions[t], now, alive)
          ensures a !in At(st, s, j).Addresses() {
        var e :| e in st.sessions[t].spectators && IsInactive(st, e, now, alive) && a in e.Addresses();
        var k :| 0 <= k < |st.sessions[t].spectators| && st.sessions[t].spectators[k] == e;
        SharedMeansSame(st, s, j, t, k);
        assert s == t ==> !st.sessions[t].AllRolesEmpty();
      }
      assert At(after, s, i).Addresses() == At(st, s, j).Addresses();
    }
    RemovalKeepsIndex(st, after, gone);
    RemovalKeepsOneSession(st, after);
  }

  lemma DropEmptyKeepsIndex(st: Relay)
    requires Inv(st) && IndexOk(st) && OneSessionEach(st)
    ensures IndexOk(DropEmpty(st)) && OneSessionEach(DropEmpty(st))
  {
    hide IndexOk, OneSessionEach;
    var after := DropEmpty(st);
    var empty := set sid | sid in st.sessions && st.sessions[sid].AllRolesEmpty();
    var gone := set sid, e, a | sid in empty && e in st.sessions[sid].spectators && a in e.Addresses() :: a;
    forall s, i | Live(after, s, i)
      ensures ComesFrom(st, s, At(after, s, i)) && At(after, s, i).Addresses() !! gone
    {
      assert Live(st, s, i) && At(st, s, i) == At(after, s, i);
      forall t, e, a | t in empty && e in st.sessions[t].spectators && a in e.Addresses()
          ensures a !in At(st, s, i).Addresses() {
        var k :| 0 <= k < |st.sessions[t].spectators| && st.sessions[t].spectators[k] == e;
        SharedMeansSame(st, s, i, t, k);
      }
    }
    RemovalKeepsIndex(st, after, gone);
    RemovalKeepsOneSession(st, after);
  }

  lemma CleanupKeepsIndex(st: Relay, now: Time, timeout: Time, alive: set<nat>)
    requires Inv(st) && IndexOk(st) && OneSessionEach(st)
    ensures IndexOk(Cleanup(st, now, timeout, alive))
  {
    var st1 := DropDeadTargets(st, alive);
    var st2 := ExpireRoles(st1, now, timeout);
    assert Inv(st2) by { ExpireKeepsInv(st1, now, timeout); }
    hide IndexOk, OneSessionEach, Inv;
    forall s, i | Live(st2, s, i) ensures ComesFrom(st, s, At(st2, s, i)) && At(st2, s, i).Addresses() !! {} {
      assert Live(st, s, i) && At(st, s, i) == At(st2, s, i);
    }
    RemovalKeepsIndex(st, st2, {});
    RemovalKeepsOneSession(st, st2);
    DropInactiveKeepsIndex(st2, now, alive);
    DropInactiveKeepsInv(st2, now, alive);
    DropEmptyKeepsIndex(DropInactive(st2, now, alive));
  }

  // ---------------------------------------------------------------- registration

  /** What a spectator's announcement changes in the list: one entry, or a new one at the end. */
  ghost predicate JoinShape(before: seq<Entry>, after: seq<Entry>, i: nat, gone: set<Address>, addr: Address,
      uid: nat)
  {
    && i < |after|
    && (forall k | 0 <= k < |after| && k != i :: k < |before| && after[k] == before[k])
    && addr in after[i].Addresses()
    && (i < |before| ==> |after| == |before|)
    && (i < |before| ==> after[i].uid == before[i].uid && gone <= before[i].Addresses())
    && (i < |before| ==> after[i].Addresses() == before[i].Addresses() - gone + {addr})
    && (i >= |before| ==> after[i].uid == uid && gone == {} && after[i].Addresses() == {addr})
  }

  lemma JoiningShape(s: Session, port: PortType, peer: PeerEntry, uid: nat) returns (i: nat)
    requires forall k | 0 <= k < |s.spectators| && s.spectators[k].IsComplete() ::
               s.spectators[k].PortAddr(Video) != s.spectators[k].PortAddr(Control)
    ensures var (after, replaced) := RegisterSpectatorPort(s, port, peer, uid);
            JoinShape(s.spectators, after.spectators, i, if replaced.Some? then {replaced.value}
                else {}, peer.addr, uid)
  {
    var slot := SpectatorSlot(s, peer.addr.ip, uid);
    hide SpectatorSlot, Replaced;
    i := slot.0;
    var after := RegisterSpectatorPort(s, port, peer, uid).0.spectators;
    assert after[i].ports == slot.1.ports[port := peer];
    OtherPortStays(slot.1.ports, port, peer);
  }

  lemma JoiningEntry(st: Relay, sid: Sid, port: PortType, addr: Address, now: Time) returns (i: nat)
    requires Inv(st) && OnePortEach(st)
    ensures var (s, gone) := SpectatorJoins(st, sid, port, addr, now);
            && JoinShape(SetDefault(st, sid, now).sessions[sid].spectators, s.spectators, i, gone, addr, st.nextUid)
            && FindByAddress(s.spectators, addr) == Some(i)
  {
    var s := SetDefault(st, sid, now).sessions[sid];
    forall k | 0 <= k < |s.spectators| && s.spectators[k].IsComplete()
      ensures s.spectators[k].PortAddr(Video) != s.spectators[k].PortAddr(Control)
    {
      assert Live(st, sid, k) && At(st, sid, k) == s.spectators[k];
    }
    hide RegisterSpectatorPort, Grouped, OnePortEach;
    i := JoiningShape(s, port, PeerEntry(addr, if addr in st.tcp then Tcp else Udp, now), st.nextUid);
    JoiningKeepsGrouped(st, sid, port, addr, now);
    LookupIsUnambiguous(SpectatorJoins(st, sid, port, addr, now).0.spectators, i, addr);
  }

  lemma OtherPortStays(ports: Ports, port: PortType, peer: PeerEntry)
    requires Full(ports) ==> ports[Video].addr != ports[Control].addr
    ensures var replaced := Replaced(ports, port, peer.addr);
            AddrsOf(ports[port := peer]) == AddrsOf(ports) - (if replaced.Some? then {replaced.value}
                else {}) + {peer.addr}
    ensures Replaced(ports, port, peer.addr).Some? ==> Replaced(ports, port, peer.addr).value in AddrsOf(ports)
  {
    var other := if port == Video then Control else Video;
    assert forall p | p in ports :: p == port || p == other;
    var after := ports[port := peer];
    assert port in after && after[port].addr == peer.addr;
    assert forall p | p in ports && p != port :: p in after && after[p] == ports[p];
  }

  /** How a spectator's announcement changes the index and the live entries of the whole relay. */
  ghost predicate Joined(st: Relay, after: Relay, sid: Sid, i: nat, gone: set<Address>, addr: Address) {
    && Live(after, sid, i)
    && after.nextUid == st.nextUid + 1
    && after.index == (st.index - gone)[addr := At(after, sid, i).uid]
    && (forall s, k: nat | Live(after, s, k) && !(s == sid && k == i) ::
        Live(st, s, k) && At(after, s, k) == At(st, s, k))
    && (Live(st, sid, i) ==> At(after, sid, i).uid == At(st, sid, i).uid && gone <= At(st, sid, i).Addresses())
    && (Live(st, sid, i) ==> At(after, sid, i).Addresses() == At(st, sid, i).Addresses() - gone + {addr})
    && (!Live(st, sid, i) ==>
          At(after, sid, i).uid == st.nextUid && gone == {} && At(after, sid, i).Addresses() == {addr})
  }

  lemma OthersInShape(before: seq<Entry>, after: seq<Entry>, i: nat, gone: set<Address>, addr: Address, uid: nat,
      k: nat)
    requires JoinShape(before, after, i, gone, addr, uid) && k < |after| && k != i
    ensures k < |before| && after[k] == before[k]
  {
  }

  lemma JoiningFrame(st: Relay, sid: Sid, port: PortType, addr: Address, now: Time) returns (i: nat, gone: set<Address>)
    requires Inv(st) && OnePortEach(st)
    ensures Joined(st, RegisterSpectator(st, sid, port, addr, now), sid, i, gone, addr)
  {
    hide AttachSpectators, SpectatorJoins, Inv, OnePortEach;
    i := JoiningEntry(st, sid, port, addr, now);
    gone := SpectatorJoins(st, sid, port, addr, now).1;
    var after := RegisterSpectator(st, sid, port, addr, now);
    assert after.sessions[sid] == SpectatorJoins(st, sid, port, addr, now).0;
    assert Live(after, sid, i);
    forall s, k: nat | Live(after, s, k) && !(s == sid && k == i) ensures Live(st, s, k)
        && At(after, s, k) == At(st, s, k) {
      if s == sid {
        var before, joined := SetDefault(st, sid, now).sessions[sid].spectators, after.sessions[sid].spectators;
        assert JoinShape(before, joined, i, gone, addr, st.nextUid);
        OthersInShape(before, joined, i, gone, addr, st.nextUid, k);
      }
    }
  }

  lemma JoiningKeepsIndex(st: Relay, after: Relay, sid: Sid, i: nat, gone: set<Address>, addr: Address)
    requires Inv(st) && IndexOk(st) && OneSessionEach(st)
    requires Inv(after) && OneSessionEach(after) && Joined(st, after, sid, i, gone, addr)
    ensures IndexOk(after)
  {
    hide Inv, OneSessionEach;
    var uid := At(after, sid, i).uid;
    forall s, k: nat | Live(after, s, k) && !(s == sid && k == i)
      ensures At(after, s, k).uid != uid && At(after, s, k).uid < st.nextUid && IndexedAs(after.index, At(after, s, k))
    {
      OthersKeepIndex(st, after, sid, i, gone, addr, s, k);
    }
    assert IndexedAs(after.index, At(after, sid, i)) by {
      if Live(st, sid, i) {
        assert IndexedAs(st.index, At(st, sid, i));
      }
    }
    assert UidsUnique(after) by {
      hide IndexedAs, IndexOk;
      forall s, k: nat, t, j: nat | Live(after, s, k) && Live(after, t, j) && At(after, s, k).uid == At(after, t, j).uid
        ensures s == t && At(after, s, k).ports == At(after, t, j).ports
      {
        if !(s == sid && k == i) && !(t == sid && j == i) {
          assert At(after, s, k) == At(st, s, k) && At(after, t, j) == At(st, t, j);
          UniqueIn(st, s, k, t, j);
        }
      }
    }
  }

  lemma UniqueIn(st: Relay, s: Sid, k: nat, t: Sid, j: nat)
    requires IndexOk(st) && Live(st, s, k) && Live(st, t, j) && At(st, s, k).uid == At(st, t, j).uid
    ensures s == t && At(st, s, k).ports == At(st, t, j).ports
  {
  }

  /** The entries of other spectators keep their place in the index. */
  lemma OthersKeepIndex(st: Relay, after: Relay, sid: Sid, i: nat, gone: set<Address>, addr: Address, s: Sid, k: nat)
    requires Inv(st) && IndexOk(st) && OneSessionEach(st)
    requires Inv(after) && OneSessionEach(after) && Joined(st, after, sid, i, gone, addr)
    requires Live(after, s, k) && !(s == sid && k == i)
    ensures At(after, s, k).uid != At(after, sid, i).uid && At(after, s, k).uid < st.nextUid
    ensures IndexedAs(after.index, At(after, s, k))
  {
    hide Inv, OneSessionEach;
    SharedMeansSame(after, s, k, sid, i);
    assert At(after, s, k) == At(st, s, k) && IndexedAs(st.index, At(st, s, k));
    if Live(st, sid, i) {
      SharedMeansSame(st, s, k, sid, i);
      if At(st, s, k).uid == At(st, sid, i).uid {
        UniqueIn(st, s, k, sid, i);
        EntryNotEmpty(st, s, k);
      }
    }
  }

  lemma RegisterSpectatorKeepsIndex(st: Relay, sid: Sid, port: PortType, addr: Address, now: Time)
    requires Inv(st) && IndexOk(st) && OneSessionEach(st) && OnePortEach(st)
    requires OneSessionEach(RegisterSpectator(st, sid, port, addr, now))
    ensures IndexOk(RegisterSpectator(st, sid, port, addr, now))
  {
    hide *;
    RegisterSpectatorKeeps(st, sid, port, addr, now);
    var i, gone := JoiningFrame(st, sid, port, addr, now);
    JoiningKeepsIndex(st, RegisterSpectator(st, sid, port, addr, now), sid, i, gone, addr);
  }

  lemma EntryNotEmpty(st: Relay, s: Sid, i: nat)
    requires Inv(st) && Live(st, s, i)
    ensures At(st, s, i).Addresses() != {}
  {
    HasAddress(At(st, s, i));
  }

  lemma RegisterPeerKeepsIndex(st: Relay, sid: Sid, role: Role, port: PortType, addr: Address, now: Time)
    requires IndexOk(st) && role != Spectator
    ensures IndexOk(RegisterPeer(st, sid, role, port, addr, now))
  {
    hide IndexOk, AttachSpectators, KeepTimestamps, NewMappings, Overwritten, Without;
    var after := RegisterPeer(st, sid, role, port, addr, now);
    forall s, i | Live(after, s, i) ensures ComesFrom(st, s, At(after, s, i)) && At(after, s, i).Addresses() !! {} {
      assert Live(st, s, i) && At(st, s, i) == At(after, s, i);
    }
    RemovalKeepsIndex(st, after, {});
  }

  lemma HeartbeatKeepsIndex(st: Relay, addr: Address, now: Time)
    requires IndexOk(st)
    ensures IndexOk(Heartbeat(st, addr, now))
  {
    hide IndexOk;
    var after := Heartbeat(st, addr, now);
    forall s, i | Live(after, s, i) ensures ComesFrom(st, s, At(after, s, i)) && At(after, s, i).Addresses() !! {} {
      assert Live(st, s, i) && At(st, s, i).ports == At(after, s, i).ports && At(st, s, i).uid == At(after, s, i).uid;
    }
    RemovalKeepsIndex(st, after, {});
  }

  lemma StepKeepsIndex(st: Relay, ev: Event)
    requires Inv(st) && IndexOk(st) && OneSessionEach(st) && OnePortEach(st) && OneSessionEach(Step(st, ev))
    ensures IndexOk(Step(st, ev))
  {
    hide IndexOk, OneSessionEach, OnePortEach, Inv;
    match ev
    case Announced(role, port, sid, addr, store, now) =>
      var removed := RemoveSpectator(st, addr);
      RemoveSpectatorKeepsIndex(st, addr);
      match Accepts(role, port, sid, store) {
        case None =>
        case Some(Target(actual, Spectator, p)) =>
          RegisterSpectatorKeepsIndex(st, actual, p, addr, now);
        case Some(Target(actual, r, p)) => RegisterPeerKeepsIndex(removed, actual, r, p, addr, now);
      }
    case StrayPacket(addr, now) => HeartbeatKeepsIndex(st, addr, now);
    case CleanupPass(now, timeout, alive) => CleanupKeepsIndex(st, now, timeout, alive);
    case _ => SameEntriesKeepIndex(st, Step(st, ev));
  }

  lemma SameEntriesKeepIndex(st: Relay, after: Relay)
    requires IndexOk(st) && after.sessions == st.sessions && after.index == st.index && after.nextUid == st.nextUid
    ensures IndexOk(after)
  {
    forall s, i | Live(after, s, i) ensures ComesFrom(st, s, At(after, s, i)) {
      assert Live(st, s, i) && At(st, s, i) == At(after, s, i);
    }
    hide IndexOk;
    RemovalKeepsIndex(st, after, {});
  }

  // ---------------------------------------------------------------- runs

  /** No session accepted one address as a spectator under both port types. */
  ghost predicate OnePortType(log: set<Accepted>) {
    forall sid, a :: !(Accepted(sid, Spectator, Video, a) in log && Accepted(sid, Spectator, Control, a) in log)
  }

  lemma OnePortFromLog(st: Relay, log: set<Accepted>)
    requires Safe(st, log) && OnePortType(log)
    ensures OnePortEach(st)
  {
    forall s, i | Live(st, s, i) && At(st, s, i).IsComplete()
      ensures At(st, s, i).PortAddr(Video) != At(st, s, i).PortAddr(Control)
    {
      assert SessionLogged(st.sessions[s], s, log);
      assert Accepted(s, Spectator, Video, At(st, s, i).PortAddr(Video)) in log;
      assert Accepted(s, Spectator, Control, At(st, s, i).PortAddr(Control)) in log;
    }
  }

  lemma {:induction false} IndexStaysOk(events: seq<Event>)
    requires OnePortType(Log(events))
    requires forall k | 0 <= k <= |events| :: OneSessionEach(Run(events[..k]))
    ensures IndexOk(Run(events))
  {
    if events != [] {
      var n := |events| - 1;
      var earlier := events[..n];
      assert forall k | 0 <= k <= n :: earlier[..k] == events[..k];
      assert OnePortType(Log(earlier));
      IndexStaysOk(earlier);
      AlwaysSafe(earlier);
      AlwaysGrouped(earlier);
      OnePortFromLog(Run(earlier), Log(earlier));
      assert events[..n] == earlier && events[..|events|] == events;
      assert OneSessionEach(Run(events[..n])) && OneSessionEach(Run(events[..|events|]));
      StepKeepsIndex(Run(earlier), events[n]);
    }
  }

  /**
   * For every run in which an address announces one port type and spectates at most one
   * live session at a time, a heartbeat does exactly what a scan of all sessions would do.
   */
  lemma HeartbeatRefinesScan(events: seq<Event>, addr: Address, now: Time)
    requires OnePortType(Log(events))
    requires forall k | 0 <= k <= |events| :: OneSessionEach(Run(events[..k]))
    ensures Heartbeat(Run(events), addr, now) == ScanHeartbeat(Run(events), addr, now)
  {
    IndexStaysOk(events);
    AlwaysGrouped(events);
    LookupEqualsScan(Run(events), addr, now);
  }
}
