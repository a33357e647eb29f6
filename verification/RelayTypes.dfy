/** The values the relay stores: addresses, peers, spectator entries and sessions. */
module RelayTypes {

  datatype Option<+T> = None | Some(value: T)

  type Sid = string
  type Time = real
  datatype Address = Address(ip: string, port: nat)
  datatype Transport = Tcp | Udp
  datatype Role = Streamer | Viewer | Spectator
  datatype PortType = Video | Control
  datatype PeerEntry = PeerEntry(addr: Address, transport: Transport, ts: Time)
  type Ports = map<PortType, PeerEntry>

  /** `Role(text)`: None stands for the ValueError of an unknown name. */
  function ParseRole(text: string): Option<Role> {
    if text == "streamer" then Some(Streamer)
    else if text == "viewer" then Some(Viewer)
    else if text == "spectator" then Some(Spectator)
    else None
  }

  function ParsePort(text: string): Option<PortType> {
    if text == "video" then Some(Video) else if text == "control" then Some(Control) else None
  }

  function AddrsOf(ports: Ports): set<Address> {
    set p | p in ports :: ports[p].addr
  }

  /** All port types are present. */
  predicate Full(ports: Ports) {
    Video in ports && Control in ports
  }

  /** The program tests completeness by counting (`len(ports) == len(PortType)`). */
  lemma FullByCounting(ports: Ports)
    ensures |ports| == 2 <==> Full(ports)
    ensures |ports| == 0 <==> ports == map[]
  {
    assert ports.Keys <= {Video, Control} by {
      forall p | p in ports.Keys ensures p in {Video, Control} {
        match p case Video => case Control =>
      }
    }
    if Full(ports) {
      assert ports.Keys == {Video, Control};
    } else {
      var missing := if Video in ports then Control else Video;
      assert ports.Keys <= {Video, Control} - {missing};
      SubsetSize(ports.Keys, {Video, Control} - {missing});
    }
  }

  lemma SubsetSize<T>(a: set<T>, b: set<T>)
    requires a <= b
    ensures |a| <= |b|
  {
    assert b == a + (b - a);
  }

  /**
   * A spectator. `uid` stands for the identity of the object, which the relay's
   * reverse index shares with the session's list.
   */
  datatype Entry = Entry(uid: nat, ports: Ports, lastAnnouncementAt: Time) {
    function Addresses(): set<Address> { AddrsOf(ports) }
    predicate IsComplete() { Full(ports) }
    function PortAddr(p: PortType): Address
      requires IsComplete()
    {
      match p case Video => ports[Video].addr case Control => ports[Control].addr
    }
  }

  datatype Session = Session(
    id: Sid,
    streamer: Ports,
    viewer: Ports,
    spectators: seq<Entry>,
    addresses: set<Address>,
    lastAnnouncementAt: Time)
  {
    predicate IsReady() { Full(streamer) && Full(viewer) }
    predicate AllRolesEmpty() { streamer == map[] && viewer == map[] }
  }

  datatype Mapping = Mapping(targets: set<Address>, timestamp: Time)

  /** The whole state of the relay. `order` is the insertion order of the session dictionary. */
  datatype Relay = Relay(
    mappings: map<Address, Mapping>,
    sessions: map<Sid, Session>,
    order: seq<Sid>,
    index: map<Address, nat>,
    tcp: map<Address, nat>,
    nextUid: nat)
}
