/**
 * The session and spectator objects, updated in place and with the loops the program
 * uses. Each method is proved to do what RelaySpec says on the object's value.
 */
module SessionObjects {
  import opened RelayTypes
  import opened RelaySpec
  import opened CleanupLoops

  class SpectatorEntry {
    /** Tells this object from all others; the program compares references. */
    ghost const uid: nat
    var ports: Ports
    var lastAnnouncementAt: Time

    ghost function View(): Entry
      reads this
    {
      Entry(uid, ports, lastAnnouncementAt)
    }

    constructor (ghost uid: nat)
      ensures View() == Entry(uid, map[], 0.0)
    {
      this.uid := uid;
      ports := map[];
      lastAnnouncementAt := 0.0;
    }

    method RegisterPort(port: PortType, peer: PeerEntry) returns (newPort: bool, replaced: Option<Address>)
      modifies this
      ensures View() == old(View()).(ports := old(ports)[port := peer], lastAnnouncementAt := peer.ts)
      ensures newPort <==> port !in old(ports)
      ensures replaced == Replaced(old(ports), port, peer.addr)
      ensures replaced == if port in old(ports) && old(ports)[port].addr != peer.addr then Some(old(ports)[port].addr)
                else None
    {
      replaced := None;
      newPort := port !in ports;
      if port in ports && ports[port].addr != peer.addr {
        replaced := Some(ports[port].addr);
      }
      ports := ports[port := peer];
      lastAnnouncementAt := peer.ts;
    }

    method IsComplete() returns (complete: bool)
      ensures complete <==> View().IsComplete()
    {
      FullByCounting(ports);
      complete := |ports| == 2;
    }

    method GetAddresses() returns (addresses: set<Address>)
      ensures addresses == View().Addresses()
    {
      addresses := {};
      var todo := ports.Keys;
      while todo != {}
        invariant todo <= ports.Keys
        invariant addresses == set p | p in ports && p !in todo :: ports[p].addr
      {
        var p :| p in todo;
        todo := todo - {p};
        addresses := addresses + {ports[p].addr};
      }
    }

    /** The inner loop of the search by IP. */
    method HasIp(ip: string) returns (found: bool)
      ensures found <==> UsesIp(View(), ip)
    {
      var todo := ports.Keys;
      while todo != {}
        invariant todo <= ports.Keys
        invariant forall p | p in ports && p !in todo :: ports[p].addr.ip != ip
      {
        var p :| p in todo;
        todo := todo - {p};
        if ports[p].addr.ip == ip {
          assert ports[p].addr in View().Addresses();
          return true;
        }
      }
      return false;
    }
  }

  /** The values of the entries, in order. */
  ghost function Views(entries: seq<SpectatorEntry>): (views: seq<Entry>)
    reads entries
    ensures |views| == |entries|
    ensures forall i | 0 <= i < |entries| :: views[i] == entries[i].View()
  {
    seq(|entries|, i requires 0 <= i < |entries| reads entries => entries[i].View())
  }

  ghost predicate AllDifferent(entries: seq<SpectatorEntry>) {
    forall i, j | 0 <= i < j < |entries| :: entries[i] != entries[j]
  }

  /** The spectator's announcement, described by what happens to the entry at `k`. */
  lemma JoinedAt(s: RelayTypes.Session, s': RelayTypes.Session, port: PortType, peer: PeerEntry, uid: nat, k: nat,
      replaced: Option<Address>)
    requires FindByIp(s.spectators, peer.addr.ip) == (if k < |s.spectators| then Some(k) else None)
               && k <= |s.spectators|
    requires k < |s'.spectators| && |s'.spectators| == (if k < |s.spectators| then |s.spectators| else k + 1)
    requires forall j | 0 <= j < |s.spectators| && j != k :: s'.spectators[j] == s.spectators[j]
    requires var old_ := if k < |s.spectators| then s.spectators[k] else Entry(uid, map[], 0.0);
             && s'.spectators[k] == old_.(ports := old_.ports[port := peer], lastAnnouncementAt := peer.ts)
             && replaced == Replaced(old_.ports, port, peer.addr)
    requires s' == s.(spectators := s'.spectators, addresses := s'.addresses)
    requires s'.addresses == s.addresses + {peer.addr} - (if replaced.Some? then {replaced.value} else {})
    ensures (s', replaced) == RegisterSpectatorPort(s, port, peer, uid)
  {
    assert s'.spectators == RegisterSpectatorPort(s, port, peer, uid).0.spectators;
  }

  lemma DropOne(entries: seq<SpectatorEntry>, i: nat)
    requires i < |entries|
    ensures Views(entries[..i] + entries[i + 1..]) == Views(entries)[..i] + Views(entries)[i + 1..]
    ensures AllDifferent(entries) ==> AllDifferent(entries[..i] + entries[i + 1..])
  {
    var rest := entries[..i] + entries[i + 1..];
    assert forall k | 0 <= k < |rest| :: rest[k] == entries[if k < i then k else k + 1];
  }

  class Session {
    const id: Sid
    var streamer: Ports
    var viewer: Ports
    var spectators: seq<SpectatorEntry>
    var addresses: set<Address>
    var lastAnnouncementAt: Time

    ghost predicate Valid()
      reads this
    {
      AllDifferent(spectators)
    }

    ghost function View(): RelayTypes.Session
      reads this, spectators
    {
      RelayTypes.Session(id, streamer, viewer, Views(spectators), addresses, lastAnnouncementAt)
    }

    /** The plain fields of the value. */
    lemma Fields()
      ensures View().id == id && View().streamer == streamer && View().viewer == viewer
      ensures View().addresses == addresses && View().lastAnnouncementAt == lastAnnouncementAt
      ensures |View().spectators| == |spectators|
      ensures forall k | 0 <= k < |spectators| :: View().spectators[k] == spectators[k].View()
    {
    }

    constructor (id: Sid, now: Time)
      ensures Valid() && this.id == id && spectators == [] && View() == EmptySession(id, now)
    {
      this.id := id;
      streamer, viewer := map[], map[];
      spectators := [];
      addresses := {};
      lastAnnouncementAt := now;
    }

    method RegisterPeer(role: Role, port: PortType, peer: PeerEntry) returns (newPeer: bool)
      requires role != Spectator
      modifies this
      ensures View() == RegisterPeerPort(old(View()), role, port, peer)
      ensures spectators == old(spectators) && Valid() == old(Valid())
      ensures newPeer <==> port !in old(if role == Streamer then streamer else viewer)
    {
      if role == Streamer {
        newPeer := port !in streamer;
        streamer := streamer[port := peer];
      } else {
        newPeer := port !in viewer;
        viewer := viewer[port := peer];
      }
      addresses := addresses + {peer.addr};
      lastAnnouncementAt := peer.ts;
    }

    method RegisterSpectator(port: PortType, peer: PeerEntry, ghost uid: nat)
      returns (newPort: bool, replaced: Option<Address>)
      requires Valid()
      modifies this, spectators
      ensures Valid()
      ensures (View(), replaced) == RegisterSpectatorPort(old(View()), port, peer, uid)
      ensures spectators == old(spectators) ||
              (|spectators| == |old(spectators)| + 1 && spectators[..|old(spectators)|] == old(spectators)
               && fresh(spectators[|old(spectators)|]) && spectators[|old(spectators)|].uid == uid)
      ensures streamer == old(streamer) && viewer == old(viewer)
    {
      hide AllDifferent, FindByIp, RegisterSpectatorPort, Replaced;
      ghost var before := View();
      var k := SlotFor(peer.addr.ip, uid);
      addresses := addresses + {peer.addr};
      newPort, replaced := spectators[k].RegisterPort(port, peer);
      if replaced.Some? {
        addresses := addresses - {replaced.value};
      }
      assert forall j | 0 <= j < |before.spectators| && j != k :: spectators[j].View() == before.spectators[j];
      JoinedAt(before, View(), port, peer, uid, k, replaced);
    }

    /** The position of the entry for an IP; a new entry is added if there is none. */
    method SlotFor(ip: string, ghost uid: nat) returns (k: nat)
      requires Valid()
      modifies this`spectators
      ensures Valid() && k < |spectators|
      ensures FindByIp(old(View()).spectators, ip) == if k < |old(spectators)| then Some(k) else None
      ensures k < |old(spectators)| ==> spectators == old(spectators)
      ensures k >= |old(spectators)| ==>
                k == |old(spectators)| && |spectators| == k + 1 && spectators[..k] == old(spectators)
                && fresh(spectators[k]) && spectators[k].View() == Entry(uid, map[], 0.0)
      ensures forall j | 0 <= j < |spectators| && j != k :: spectators[j] != spectators[k]
    {
      hide UsesIp, FindByIp;
      var found := FindByIpOf(ip);
      if found.Some? {
        return found.value;
      }
      k := |spectators|;
      var entry := new SpectatorEntry(uid);
      spectators := spectators + [entry];
    }

    /** The search by IP, over all ports of all spectators. */
    method FindByIpOf(ip: string) returns (found: Option<nat>)
      ensures found == FindByIp(View().spectators, ip)
    {
      for k := 0 to |spectators|
        invariant forall j | 0 <= j < k :: !UsesIp(spectators[j].View(), ip)
      {
        var uses := spectators[k].HasIp(ip);
        if uses {
          return Some(k);
        }
      }
      return None;
    }

    /** Search by address, as `find_spectator_by_address` does. */
    method FindSpectator(addr: Address) returns (found: Option<nat>)
      ensures found == FindByAddress(View().spectators, addr)
    {
      for k := 0 to |spectators|
        invariant forall j | 0 <= j < k :: addr !in spectators[j].View().Addresses()
      {
        var used := spectators[k].GetAddresses();
        if addr in used {
          return Some(k);
        }
      }
      return None;
    }

    method RemoveSpectatorByAddress(addr: Address) returns (gone: Option<set<Address>>)
      requires Valid()
      modifies this
      ensures Valid()
      ensures gone.Some? <==> Spectates(old(View()), addr)
      ensures gone.None? ==> unchanged(this)
      ensures streamer == old(streamer)
      ensures gone.Some? ==>
                var i := FindByAddress(old(View()).spectators, addr).value;
                gone.value == old(View()).spectators[i].Addresses() && View() == RemoveSpectatorAt(old(View()), i)
      ensures forall e | e in spectators :: e in old(spectators)
    {
      var found := FindSpectator(addr);
      if found.None? {
        return None;
      }
      var i := found.value;
      var used := spectators[i].GetAddresses();
      ghost var before := View();
      addresses := addresses - used;
      DropOne(spectators, i);
      hide AllDifferent, FindByAddress;
      spectators := spectators[..i] + spectators[i + 1..];
      return Some(used);
    }

    /** Forget the peers of one role. */
    method EmptyRole(role: Role, gone: set<Address>)
      requires role != Spectator && gone == AddrsOf(PortsOf(View(), role))
      modifies this
      ensures View() == CleanupLoops.EmptyRole(old(View()), role)
      ensures spectators == old(spectators) && Valid() == old(Valid())
    {
      addresses := addresses - gone;
      if role == Streamer {
        streamer := map[];
      } else {
        viewer := map[];
      }
    }

    /** Forget the spectator at position `i`, and its addresses. */
    method DropSpectator(i: nat, gone: set<Address>)
      requires Valid() && i < |spectators| && gone == spectators[i].View().Addresses()
      modifies this
      ensures Valid() && View() == RemoveSpectatorAt(old(View()), i)
      ensures spectators == old(spectators[..i] + spectators[i + 1..]) && streamer == old(streamer)
    {
      addresses := addresses - gone;
      DropOne(spectators, i);
      hide AllDifferent;
      spectators := spectators[..i] + spectators[i + 1..];
    }

    method AllRolesEmpty() returns (empty: bool)
      ensures empty <==> View().AllRolesEmpty()
    {
      FullByCounting(streamer);
      FullByCounting(viewer);
      empty := |streamer| == 0 && |viewer| == 0;
    }

    method IsReady() returns (ready: bool)
      ensures ready <==> View().IsReady()
    {
      ready := Video in streamer && Control in streamer && Video in viewer && Control in viewer;
    }
  }
}
