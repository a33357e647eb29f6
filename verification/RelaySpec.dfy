/**
 * What each method of the relay does to the whole state, written without loops.
 * The classes in SessionObjects.dfy and PacketRelay.dfy compute the same results step by
 * step; the theorems about runs are proved about these functions.
 */
module RelaySpec {
  import opened RelayTypes

  const SPECTATOR_TIMEOUT: Time := 30.0

  // ---------------------------------------------------------------- one session

  /** The first entry that uses `addr`. */
  function FindByAddress(spectators: seq<Entry>, addr: Address): (found: Option<nat>)
    ensures found.Some? ==>
              && found.value < |spectators|
              && addr in spectators[found.value].Addresses()
              && forall j | 0 <= j < found.value :: addr !in spectators[j].Addresses()
    ensures found.None? ==> forall j | 0 <= j < |spectators| :: addr !in spectators[j].Addresses()
  {
    if spectators == [] then None
    else if addr in spectators[0].Addresses() then Some(0)
    else match FindByAddress(spectators[1..], addr)
      case None => None
      case Some(k) => Some(k + 1)
  }

  predicate UsesIp(entry: Entry, ip: string) {
    exists a | a in entry.Addresses() :: a.ip == ip
  }

  /** The first entry that has a port from `ip`: spectators are grouped by source IP. */
  function FindByIp(spectators: seq<Entry>, ip: string): (found: Option<nat>)
    ensures found.Some? ==>
              && found.value < |spectators|
              && UsesIp(spectators[found.value], ip)
              && forall j | 0 <= j < found.value :: !UsesIp(spectators[j], ip)
    ensures found.None? ==> forall j | 0 <= j < |spectators| :: !UsesIp(spectators[j], ip)
  {
    if spectators == [] then None
    else if UsesIp(spectators[0], ip) then Some(0)
    else match FindByIp(spectators[1..], ip)
      case None => None
      case Some(k) => Some(k + 1)
  }

  /** The address that `addr` pushes out of the port, if any. */
  function Replaced(ports: Ports, port: PortType, addr: Address): Option<Address> {
    if port in ports && ports[port].addr != addr then Some(ports[port].addr) else None
  }

  function PortsOf(s: Session, role: Role): Ports {
    match role case Streamer => s.streamer case Viewer => s.viewer case Spectator => map[]
  }

  function RegisterPeerPort(s: Session, role: Role, port: PortType, peer: PeerEntry): Session
    requires role != Spectator
  {
    var s' := s.(addresses := s.addresses + {peer.addr}, lastAnnouncementAt := peer.ts);
    if role == Streamer then s'.(streamer := s.streamer[port := peer]) else s'.(viewer := s.viewer[port := peer])
  }

  /** The entry a spectator announcement goes to: the one of its IP, or a new one. */
  function SpectatorSlot(s: Session, ip: string, uid: nat): (slot: (nat, Entry))
    ensures slot.0 <= |s.spectators|
    ensures slot.0 < |s.spectators| ==> slot.1 == s.spectators[slot.0] && UsesIp(slot.1, ip)
    ensures slot.0 == |s.spectators| ==>
              slot.1.ports == map[] && slot.1.uid == uid && forall j | 0 <= j < |s.spectators| ::
                  !UsesIp(s.spectators[j], ip)
  {
    match FindByIp(s.spectators, ip)
    case Some(i) => (i, s.spectators[i])
    case None => (|s.spectators|, Entry(uid, map[], 0.0))
  }

  function RegisterSpectatorPort(s: Session, port: PortType, peer: PeerEntry, uid: nat): (Session, Option<Address>) {
    var (i, entry) := SpectatorSlot(s, peer.addr.ip, uid);
    var replaced := Replaced(entry.ports, port, peer.addr);
    var entry' := entry.(ports := entry.ports[port := peer], lastAnnouncementAt := peer.ts);
    var spectators := if i < |s.spectators| then s.spectators[i := entry'] else s.spectators + [entry'];
    var gone := if replaced.Some? then {replaced.value} else {};
    (s.(spectators := spectators, addresses := (s.addresses + {peer.addr}) - gone), replaced)
  }

  function RemoveSpectatorAt(s: Session, i: nat): Session
    requires i < |s.spectators|
  {
    s.(spectators := s.spectators[..i] + s.spectators[i + 1..],
       addresses := s.addresses - s.spectators[i].Addresses())
  }

  // ---------------------------------------------------------------- the forwarding table

  /** Take `gone` out of the targets of the given streamer ports. */
  function RemoveTargets(mappings: map<Address, Mapping>, streamer: Ports, gone: set<Address>): map<Address, Mapping> {
    map a | a in mappings ::
      if a in AddrsOf(streamer) then mappings[a].(targets := mappings[a].targets - gone) else mappings[a]
  }

  function NewMappings(s: Session, now: Time): map<Address, Mapping>
    requires s.IsReady()
  {
    map[][s.streamer[Video].addr := Mapping({s.viewer[Video].addr}, now)]
         [s.viewer[Video].addr := Mapping({s.streamer[Video].addr}, now)]
         [s.streamer[Control].addr := Mapping({s.viewer[Control].addr}, now)]
         [s.viewer[Control].addr := Mapping({s.streamer[Control].addr}, now)]
  }

  /** A mapping whose targets do not change keeps its time stamp. */
  function KeepTimestamps(before: map<Address, Mapping>, latest: map<Address, Mapping>): map<Address, Mapping> {
    map a | a in latest ::
      if a in before && before[a].targets == latest[a].targets then before[a] else latest[a]
  }

  function Without(order: seq<Sid>, gone: set<Sid>): (kept: seq<Sid>)
    ensures forall x :: x in kept <==> x in order && x !in gone
  {
    if order == [] then []
    else (if order[0] in gone then [] else [order[0]]) + Without(order[1..], gone)
  }

  /** The sessions that lose their place because `sid` uses one of their addresses. */
  function Overwritten(st: Relay, sid: Sid): (gone: set<Sid>)
    requires sid in st.sessions
    ensures sid !in gone && gone <= st.sessions.Keys
  {
    set t | t in st.sessions && t != sid && st.sessions[t].addresses * st.sessions[sid].addresses != {}
  }

  function UpdateMappings(st: Relay, sid: Sid, now: Time): Relay
    requires sid in st.sessions && st.sessions[sid].IsReady()
  {
    var s := st.sessions[sid];
    var gone := Overwritten(st, sid);
    st.(mappings := (st.mappings - s.addresses) + KeepTimestamps(st.mappings, NewMappings(s, now)),
        sessions := st.sessions - gone,
        order := Without(st.order, gone))
  }

  /** The spectator addresses for port `p` of the complete entries that a lookup of `addrs` finds. */
  function FoundTargets(s: Session, p: PortType, addrs: set<Address>): set<Address> {
    set a | a in addrs && FindByAddress(s.spectators, a).Some?
         && s.spectators[FindByAddress(s.spectators, a).value].IsComplete()
      :: s.spectators[FindByAddress(s.spectators, a).value].PortAddr(p)
  }

  /** What the lookups of `addrs` add to the targets of `key`. */
  function AddedTargets(s: Session, key: Address, addrs: set<Address>): set<Address>
    requires Full(s.streamer)
  {
    (if key == s.streamer[Video].addr then FoundTargets(s, Video, addrs) else {}) +
    (if key == s.streamer[Control].addr then FoundTargets(s, Control, addrs) else {})
  }

  /** Let the streamer of `s` also send to the spectators found under `addrs`. */
  function AttachSpectators(mappings: map<Address, Mapping>, s: Session, addrs: set<Address>, now: Time): map<Address,
      Mapping> {
    if !Full(s.streamer) then mappings
    else
      map key | key in mappings.Keys + {s.streamer[Video].addr, s.streamer[Control].addr}
             && (key in mappings || AddedTargets(s, key, addrs) != {}) ::
        var added := AddedTargets(s, key, addrs);
        if added == {} then mappings[key]
        else Mapping((if key in mappings then mappings[key].targets else {}) + added, now)
  }

  /** All addresses of complete spectators. */
  function CompleteAddresses(s: Session): set<Address> {
    set i, a | 0 <= i < |s.spectators| && s.spectators[i].IsComplete() && a in s.spectators[i].Addresses() :: a
  }

  // ---------------------------------------------------------------- registration

  predicate Spectates(s: Session, addr: Address) {
    FindByAddress(s.spectators, addr).Some?
  }

  /** The first session, in dictionary order, in which `addr` spectates. */
  function FirstSpectated(sessions: map<Sid, Session>, order: seq<Sid>, addr: Address): (found: Option<Sid>)
    ensures found.Some? ==> found.value in sessions && found.value in order && Spectates(sessions[found.value], addr)
    ensures found.None? ==> forall sid | sid in order && sid in sessions :: !Spectates(sessions[sid], addr)
  {
    if order == [] then None
    else if order[0] in sessions && Spectates(sessions[order[0]], addr) then Some(order[0])
    else FirstSpectated(sessions, order[1..], addr)
  }

  /** An address that announces itself as streamer or viewer stops being a spectator. */
  function RemoveSpectator(st: Relay, addr: Address): Relay {
    match FirstSpectated(st.sessions, st.order, addr)
    case None => st
    case Some(sid) =>
      var s := st.sessions[sid];
      var i := FindByAddress(s.spectators, addr).value;
      var gone := s.spectators[i].Addresses();
      st.(sessions := st.sessions[sid := RemoveSpectatorAt(s, i)],
          index := st.index - gone,
          mappings := RemoveTargets(st.mappings, s.streamer, gone))
  }

  function EmptySession(sid: Sid, now: Time): Session {
    Session(sid, map[], map[], [], {}, now)
  }

  function SetDefault(st: Relay, sid: Sid, now: Time): Relay {
    if sid in st.sessions then st
    else st.(sessions := st.sessions[sid := EmptySession(sid, now)], order := st.order + [sid])
  }

  /** The peer is on record, the table not yet updated. */
  function RecordPeer(st: Relay, sid: Sid, role: Role, port: PortType, addr: Address, now: Time): Relay
    requires role != Spectator
  {
    var st1 := SetDefault(st, sid, now);
    var peer := PeerEntry(addr, if addr in st.tcp then Tcp else Udp, now);
    st1.(sessions := st1.sessions[sid := RegisterPeerPort(st1.sessions[sid], role, port, peer)])
  }

  /** Streamer or viewer: register, and build the table once all four ports are known. */
  function RegisterPeer(st: Relay, sid: Sid, role: Role, port: PortType, addr: Address, now: Time): Relay
    requires role != Spectator
  {
    var st2 := RecordPeer(st, sid, role, port, addr, now);
    var s := st2.sessions[sid];
    if s.IsReady() then
      var st3 := UpdateMappings(st2, sid, now);
      st3.(mappings := AttachSpectators(st3.mappings, s, CompleteAddresses(s), now))
    else st2
  }

  /** The session after a spectator's announcement, and the addresses it gives up (at most one). */
  function SpectatorJoins(st: Relay, sid: Sid, port: PortType, addr: Address, now: Time): (Session, set<Address>) {
    var peer := PeerEntry(addr, if addr in st.tcp then Tcp else Udp, now);
    var (s, replaced) := RegisterSpectatorPort(SetDefault(st, sid, now).sessions[sid], port, peer, st.nextUid);
    (s, if replaced.Some? then {replaced.value} else {})
  }

  function IndexEntry(index: map<Address, nat>, s: Session, addr: Address): map<Address, nat> {
    var found := FindByAddress(s.spectators, addr);
    if found.Some? then index[addr := s.spectators[found.value].uid] else index
  }

  function RegisterSpectator(st: Relay, sid: Sid, port: PortType, addr: Address, now: Time): Relay {
    var st1 := SetDefault(st, sid, now);
    var (s, gone) := SpectatorJoins(st, sid, port, addr, now);
    var mappings := RemoveTargets(st1.mappings, s.streamer, gone);
    st1.(sessions := st1.sessions[sid := s],
         index := IndexEntry(st1.index - gone, s, addr),
         mappings := if s.IsReady() then AttachSpectators(mappings, s, {addr}, now) else mappings,
         nextUid := st.nextUid + 1)
  }

  /** What the session store answers for one announcement. */
  datatype StoreAnswer = StoreAnswer(exists_: bool, spectated: Option<Sid>)

  /** The session an announcement is accepted into, with its parsed role and port type. */
  datatype Target = Target(sid: Sid, role: Role, port: PortType)

  function Accepts(role: string, port: string, sid: Sid, store: StoreAnswer): Option<Target> {
    match (ParseRole(role), ParsePort(port))
    case (Some(Spectator), Some(p)) =>
      if store.spectated.Some? && store.spectated.value != "" then Some(Target(store.spectated.value, Spectator, p))
          else None
    case (Some(r), Some(p)) =>
      if store.exists_ then Some(Target(sid, r, p)) else None
    case _ => None
  }

  /** `register_peer`. A refused streamer or viewer has already lost its spectator entry. */
  function Announce(st: Relay, role: string, port: string, sid: Sid, addr: Address, store: StoreAnswer,
      now: Time): Relay
  {
    var peerRole := ParseRole(role).Some? && ParsePort(port).Some? && ParseRole(role).value != Spectator;
    var st1 := if peerRole then RemoveSpectator(st, addr) else st;
    match Accepts(role, port, sid, store)
    case None => st1
    case Some(Target(actual, Spectator, p)) => RegisterSpectator(st1, actual, p, addr, now)
    case Some(Target(actual, r, p)) => RegisterPeer(st1, actual, r, p, addr, now)
  }

  // ---------------------------------------------------------------- heartbeats and forwarding

  function TouchEntries(spectators: seq<Entry>, uid: nat, now: Time): seq<Entry> {
    seq(|spectators|, i requires 0 <= i < |spectators| =>
      if spectators[i].uid == uid then spectators[i].(lastAnnouncementAt := now) else spectators[i])
  }

  function TouchSessions(sessions: map<Sid, Session>, uid: nat, now: Time): map<Sid, Session> {
    map sid | sid in sessions :: sessions[sid].(spectators := TouchEntries(sessions[sid].spectators, uid, now))
  }

  /** `update_spectator_heartbeat`: one lookup in the index, no scan. */
  function Heartbeat(st: Relay, addr: Address, now: Time): Relay {
    if addr in st.index then st.(sessions := TouchSessions(st.sessions, st.index[addr], now)) else st
  }

  function Forward(st: Relay, addr: Address, now: Time): Relay {
    if addr in st.mappings then st.(mappings := st.mappings[addr := st.mappings[addr].(timestamp := now)]) else st
  }

  // ---------------------------------------------------------------- cleanup

  function DropDeadTargets(st: Relay, alive: set<nat>): Relay {
    st.(tcp := map a | a in st.tcp && (st.tcp[a] in alive || a in st.mappings) :: st.tcp[a])
  }

  predicate PortsExpired(mappings: map<Address, Mapping>, ports: Ports, now: Time, timeout: Time) {
    ports != map[] &&
    forall a | a in AddrsOf(ports) :: a in mappings ==> now - mappings[a].timestamp >= timeout
  }

  function ExpiredPorts(mappings: map<Address, Mapping>, s: Session, ports: Ports, now: Time,
      timeout: Time): set<Address>
  {
    if now - s.lastAnnouncementAt > timeout && PortsExpired(mappings, ports, now, timeout) then AddrsOf(ports) else {}
  }

  /** The role addresses of `s` that time out. */
  function ExpiredAddresses(mappings: map<Address, Mapping>, s: Session, now: Time, timeout: Time): set<Address> {
    ExpiredPorts(mappings, s, s.streamer, now, timeout) + ExpiredPorts(mappings, s, s.viewer, now, timeout)
  }

  function ExpireSession(mappings: map<Address, Mapping>, s: Session, now: Time, timeout: Time): Session {
    s.(streamer := if ExpiredPorts(mappings, s, s.streamer, now, timeout) != {} then map[] else s.streamer,
       viewer := if ExpiredPorts(mappings, s, s.viewer, now, timeout) != {} then map[] else s.viewer,
       addresses := s.addresses - ExpiredAddresses(mappings, s, now, timeout))
  }

  function ExpireRoles(st: Relay, now: Time, timeout: Time): Relay {
    var gone := set sid, a | sid in st.sessions
        && a in ExpiredAddresses(st.mappings, st.sessions[sid], now, timeout) :: a;
    st.(sessions := map sid | sid in st.sessions :: ExpireSession(st.mappings, st.sessions[sid], now, timeout),
        mappings := st.mappings - gone)
  }

  predicate HasActiveTcp(st: Relay, e: Entry, alive: set<nat>) {
    exists a | a in e.Addresses() :: a in st.tcp && st.tcp[a] in alive
  }

  predicate IsInactive(st: Relay, e: Entry, now: Time, alive: set<nat>) {
    now - e.lastAnnouncementAt > SPECTATOR_TIMEOUT && !HasActiveTcp(st, e, alive)
  }

  /** Inactive entries go; entries kept alive only by TCP count as just seen. */
  function KeepActive(st: Relay, spectators: seq<Entry>, now: Time, alive: set<nat>): seq<Entry> {
    if spectators == [] then []
    else
      var e := spectators[0];
      var rest := KeepActive(st, spectators[1..], now, alive);
      if IsInactive(st, e, now, alive) then rest
      else if now - e.lastAnnouncementAt > SPECTATOR_TIMEOUT then [e.(lastAnnouncementAt := now)] + rest
      else [e] + rest
  }

  function InactiveAddresses(st: Relay, s: Session, now: Time, alive: set<nat>): set<Address> {
    if s.AllRolesEmpty() then {}
    else set e, a | e in s.spectators && IsInactive(st, e, now, alive) && a in e.Addresses() :: a
  }

  function DropInactive(st: Relay, now: Time, alive: set<nat>): Relay {
    st.(sessions := map sid | sid in st.sessions ::
          (var s := st.sessions[sid];
           if s.AllRolesEmpty() then s
           else s.(spectators := KeepActive(st, s.spectators, now, alive),
                   addresses := s.addresses - InactiveAddresses(st, s, now, alive))),
        index := st.index - (set sid, a | sid in st.sessions
            && a in InactiveAddresses(st, st.sessions[sid], now, alive) :: a),
        mappings := map key | key in st.mappings ::
          st.mappings[key].(targets := st.mappings[key].targets -
            (set sid, a | sid in st.sessions && key in AddrsOf(st.sessions[sid].streamer)
                       && a in InactiveAddresses(st, st.sessions[sid], now, alive) :: a)))
  }

  function DropEmpty(st: Relay): Relay {
    var empty := set sid | sid in st.sessions && st.sessions[sid].AllRolesEmpty();
    st.(sessions := st.sessions - empty,
        order := Without(st.order, empty),
        index := st.index - (set sid, e, a | sid in empty && e in st.sessions[sid].spectators && a in e.Addresses() ::
            a))
  }

  /** One `cleanup_expired_mappings` pass, taken as atomic. */
  function Cleanup(st: Relay, now: Time, timeout: Time, alive: set<nat>): Relay {
    DropEmpty(DropInactive(ExpireRoles(DropDeadTargets(st, alive), now, timeout), now, alive))
  }

  // ---------------------------------------------------------------- runs

  datatype Event =
    | Announced(role: string, port: string, sid: Sid, addr: Address, store: StoreAnswer, now: Time)
    | TcpConnected(addr: Address, target: nat)
    | DataPacket(addr: Address, now: Time)
    | StrayPacket(addr: Address, now: Time)
    | CleanupPass(now: Time, timeout: Time, alive: set<nat>)

  const START := Relay(map[], map[], [], map[], map[], 0)

  function Step(st: Relay, ev: Event): Relay {
    match ev
    case Announced(role, port, sid, addr, store, now) => Announce(st, role, port, sid, addr, store, now)
    case TcpConnected(addr, target) => st.(tcp := st.tcp[addr := target])
    case DataPacket(addr, now) => Forward(st, addr, now)
    case StrayPacket(addr, now) => Heartbeat(st, addr, now)
    case CleanupPass(now, timeout, alive) => Cleanup(st, now, timeout, alive)
  }

  function Run(events: seq<Event>): Relay {
    if events == [] then START else Step(Run(events[..|events| - 1]), events[|events| - 1])
  }

  // ---------------------------------------------------------------- the log of accepted announcements

  datatype Accepted = Accepted(sid: Sid, role: Role, port: PortType, addr: Address)

  function LogOf(ev: Event): set<Accepted> {
    if ev.Announced? && Accepts(ev.role, ev.port, ev.sid, ev.store).Some? then
      var t := Accepts(ev.role, ev.port, ev.sid, ev.store).value;
      {Accepted(t.sid, t.role, t.port, ev.addr)}
    else {}
  }

  function Log(events: seq<Event>): set<Accepted> {
    if events == [] then {} else Log(events[..|events| - 1]) + LogOf(events[|events| - 1])
  }
}
