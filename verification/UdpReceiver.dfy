/**
 * The receiving side of the UDP link: which datagrams are accepted, and what the handlers get
 * to see of them. The receive thread and the worker thread take turns in any way.
 */
module UdpReceiver {
  import opened RelayTypes

  datatype Kind = Syn | Ack | Command | CommandAck | Latency | PeerInfo | Other

  datatype Message = Message(kind: Kind, timestamp: real)

  datatype Packet = Packet(message: Message, addr: Address)

  const QUEUE_SIZE := 100

  /** Messages whose order matters: telemetry, control and the rest. */
  predicate IsOrdered(kind: Kind) {
    kind == Other || kind == PeerInfo
  }

  /** What happened, oldest first. */
  datatype Entry = Accepted(packet: Packet) | WasReset

  // ---------------------------------------------------------------- logs

  /** An accepted message directly before an ordered one is not newer than it. */
  ghost predicate StepInOrder(log: seq<Entry>, i: nat)
    requires i + 1 < |log|
  {
    log[i].Accepted? && log[i + 1].Accepted? && IsOrdered(log[i + 1].packet.message.kind) ==>
      log[i].packet.message.timestamp <= log[i + 1].packet.message.timestamp
  }

  ghost predicate InOrder(log: seq<Entry>) {
    forall i: nat | i + 1 < |log| :: StepInOrder(log, i)
  }

  /** After entry `i` up to entry `j` only ordered messages were accepted. */
  ghost predicate Stretch(log: seq<Entry>, i: nat, j: nat) {
    i <= j < |log| && log[i].Accepted? && forall k | i < k <= j ::
        log[k].Accepted? && IsOrdered(log[k].packet.message.kind)
  }

  lemma {:induction false} StretchAscends(log: seq<Entry>, i: nat, j: nat)
    requires InOrder(log) && Stretch(log, i, j)
    ensures log[i].packet.message.timestamp <= log[j].packet.message.timestamp
  {
    if i < j {
      assert Stretch(log, i, j - 1);
      StretchAscends(log, i, j - 1);
      assert StepInOrder(log, j - 1);
    }
  }

  lemma InOrderOfMore(log: seq<Entry>, e: Entry)
    requires InOrder(log)
    requires e.Accepted? && IsOrdered(e.packet.message.kind) && log != [] && log[|log| - 1].Accepted? ==>
               log[|log| - 1].packet.message.timestamp <= e.packet.message.timestamp
    ensures InOrder(log + [e])
  {
    forall i: nat | i + 1 < |log + [e]| ensures StepInOrder(log + [e], i) {
      if i + 1 < |log| {
        assert StepInOrder(log, i);
      }
    }
  }

  // ---------------------------------------------------------------- the newest message

  /** The largest timestamp accepted since the last reset, Syn or Ack */
  function Newest(log: seq<Entry>): Option<real> {
    if log == [] then None
    else
      var last := log[|log| - 1];
      if last == WasReset then None
      else
        var timestamp := last.packet.message.timestamp;
        match Newest(log[..|log| - 1])
        case None => Some(timestamp)
        case Some(m) =>
          if last.packet.message.kind in {Syn, Ack} then Some(timestamp) else if timestamp > m then Some(timestamp)
              else Some(m)
  }

  /** Accepted, and since then only messages that do not start again were */
  ghost predicate Recent(log: seq<Entry>, k: int) {
    0 <= k < |log| && log[k].Accepted? && forall j | k < j < |log| ::
        log[j].Accepted? && log[j].packet.message.kind !in {Syn, Ack}
  }

  lemma RecentOfMore(log: seq<Entry>, e: Entry, k: int)
    ensures Recent(log + [e], k) <==>
              e.Accepted? && (k == |log| || (Recent(log, k) && e.packet.message.kind !in {Syn, Ack}))
  {
    var longer := log + [e];
    assert longer[|log|] == e;
    if Recent(longer, k) && k < |log| {
      assert forall j | k < j < |log| :: longer[j] == log[j];
    }
  }

  /** The newest message is the largest timestamp since the last reset, Syn or Ack. */
  lemma {:induction false} NewestIsLargest(log: seq<Entry>)
    ensures Newest(log) == None <==> forall k :: !Recent(log, k)
    ensures forall k | Recent(log, k) :: Newest(log).Some? && log[k].packet.message.timestamp <= Newest(log).value
    ensures Newest(log).Some? ==> exists k :: Recent(log, k) && log[k].packet.message.timestamp == Newest(log).value
  {
    if log != [] {
      var n := |log| - 1;
      NewestIsLargest(log[..n]);
      assert log[..n] + [log[n]] == log;
      hide Recent;
      forall k ensures Recent(log, k) <==>
          log[n].Accepted? && (k == n || (Recent(log[..n], k) && log[n].packet.message.kind !in {Syn, Ack})) {
        RecentOfMore(log[..n], log[n], k);
      }
      RecentIsAccepted(log);
      RecentIsAccepted(log[..n]);
    }
  }

  lemma RecentIsAccepted(log: seq<Entry>)
    ensures forall k | Recent(log, k) :: 0 <= k < |log| && log[k].Accepted?
    ensures log != [] && log[|log| - 1].Accepted? ==> Recent(log, |log| - 1)
  {
  }

  predicate NotOlder(timestamp: real, newest: Option<real>) {
    newest.Some? ==> timestamp >= newest.value
  }

  /** The timestamp to beat after this log */
  function ToBeat(log: seq<Entry>): real {
    if log != [] && log[|log| - 1].Accepted? then log[|log| - 1].packet.message.timestamp else 0.0
  }

  /** The newest message is the one to beat. */
  predicate NewestIsToBeat(log: seq<Entry>) {
    NotOlder(ToBeat(log), Newest(log))
  }

  predicate IsExempt(kind: Kind) {
    kind in {Command, CommandAck, Latency}
  }

  /** At place `k` an exempt message was accepted that is older than an earlier one. */
  ghost predicate LateExempt(log: seq<Entry>, k: nat) {
    && k < |log| && log[k].Accepted? && IsExempt(log[k].packet.message.kind)
    && !NotOlder(log[k].packet.message.timestamp, Newest(log[..k]))
  }

  /** At place `k` a message was accepted although its order matters and an earlier one is newer. */
  ghost predicate Overtaken(log: seq<Entry>, k: nat) {
    && k < |log| && log[k].Accepted? && IsOrdered(log[k].packet.message.kind)
    && !NotOlder(log[k].packet.message.timestamp, Newest(log[..k]))
  }

  lemma NewestOfMore(log: seq<Entry>, e: Entry)
    requires e.Accepted? && IsOrdered(e.packet.message.kind) ==>
               log != [] && log[|log| - 1].Accepted? ==>
                   log[|log| - 1].packet.message.timestamp <= e.packet.message.timestamp
    requires NewestIsToBeat(log)
    ensures NewestIsToBeat(log + [e]) <==> !LateExempt(log + [e], |log|)
    ensures !Overtaken(log + [e], |log|)
  {
    var longer := log + [e];
    assert longer[..|log|] == log;
    if log == [] || log[|log| - 1] == WasReset {
      assert Newest(log) == None;
    }
  }

  /**
   * In every log that keeps the order step by step: the newest message stays the one to beat all
   * the time if and only if no exempt message was late. Then no overtaken message was accepted.
   */
  lemma {:induction false} NewestToBeatIff(log: seq<Entry>)
    requires InOrder(log)
    ensures (forall n: nat | n <= |log| :: NewestIsToBeat(log[..n])) <==> (forall k: nat :: !LateExempt(log, k))
    ensures (forall k: nat :: !LateExempt(log, k)) ==> forall k: nat :: !Overtaken(log, k)
  {
    if log == [] {
      assert log[..0] == [];
    } else {
      var n := |log| - 1;
      var before, e := log[..n], log[n];
      assert before + [e] == log;
      ShorterInOrder(log);
      NewestToBeatIff(before);
      assert n > 0 ==> StepInOrder(log, n - 1);
      forall k: nat | k <= n ensures before[..k] == log[..k] {
      }
      forall k: nat | k < n ensures (LateExempt(before, k) <==> LateExempt(log, k)) && (Overtaken(before, k) <==>
          Overtaken(log, k)) {
        assert before[..k] == log[..k];
      }
      assert log[..n] == before && log[..|log|] == log;
      hide Newest;
      if NewestIsToBeat(before) {
        NewestOfMore(before, e);
      }
    }
  }

  lemma ShorterInOrder(log: seq<Entry>)
    requires InOrder(log) && log != []
    ensures InOrder(log[..|log| - 1])
  {
    var before := log[..|log| - 1];
    forall i: nat | i + 1 < |before| ensures StepInOrder(before, i) {
      assert StepInOrder(log, i);
    }
  }

  // ---------------------------------------------------------------- what handlers see

  /** `places` picks out entries of the log in order: the packets of `taken`. */
  ghost predicate IsSubsequence(taken: seq<Packet>, places: seq<nat>, log: seq<Entry>) {
    && |places| == |taken|
    && (forall a, b | 0 <= a < b < |places| :: places[a] < places[b])
    && (forall a | 0 <= a < |places| :: places[a] < |log| && log[places[a]] == Accepted(taken[a]))
  }

  lemma SubsequenceOfMore(taken: seq<Packet>, places: seq<nat>, log: seq<Entry>, e: Entry)
    requires IsSubsequence(taken, places, log)
    ensures IsSubsequence(taken, places, log + [e])
    ensures e.Accepted? ==> IsSubsequence(taken + [e.packet], places + [|log|], log + [e])
  {
  }

  class UDPReceiver {
    const window: real
    const shouldValidateTimestamp: bool
    var expectedHost: Option<string>
    var lastValidTimestamp: real
    var lastValidNow: Option<Time>
    var queue: seq<Packet>

    /** How long the log was when the expected host was set last */
    ghost var since: nat
    ghost var log: seq<Entry>
    ghost var handled: seq<Packet>
    ghost var places: seq<nat>

    /**
     * The timestamp to beat is that of the last accepted message; handled and queued packets
     * are accepted ones in order.
     */
    ghost predicate Valid()
      reads this
    {
      && |queue| <= QUEUE_SIZE
      && InOrder(log)
      && lastValidTimestamp == (if log != [] && log[|log| - 1].Accepted? then log[|log| - 1].packet.message.timestamp
          else 0.0)
      && (lastValidNow.Some? <==> log != [] && log[|log| - 1].Accepted?)
      && IsSubsequence(handled + queue, places, log)
      && (forall e | e in log && e.Accepted? :: e.packet.message.kind != PeerInfo)
      && since <= |log|
      && (expectedHost.Some? ==>
            forall i | since <= i < |log| && log[i].Accepted? :: log[i].packet.addr.ip == expectedHost.value)
    }

    constructor (window: real, validateTimestamp: bool)
      ensures Valid() && log == [] && handled == [] && queue == [] && expectedHost == None
      ensures this.window == window && shouldValidateTimestamp == validateTimestamp
    {
      this.window, shouldValidateTimestamp, expectedHost := window, validateTimestamp, None;
      lastValidTimestamp, lastValidNow, queue, log, handled, places, since := 0.0, None, [], [], [], [], 0;
    }

    /** From now on, until the next call, only packets from `ip` enter the log. */
    method ValidateHost(ip: string)
      requires Valid()
      modifies this`expectedHost, this`since
      ensures Valid() && expectedHost == Some(ip) && since == |log|
    {
      expectedHost := Some(ip);
      since := |log|;
    }

    /** May be called from any thread. */
    method Reset()
      requires Valid()
      modifies this
      ensures Valid() && log == old(log) + [WasReset] && handled == old(handled) && queue == old(queue)
      ensures expectedHost == old(expectedHost) && since == old(since)
      ensures lastValidTimestamp == 0.0 && lastValidNow == None
    {
      hide InOrder, IsSubsequence;
      InOrderOfMore(log, WasReset);
      SubsequenceOfMore(handled + queue, places, log, WasReset);
      lastValidTimestamp, lastValidNow := 0.0, None;
      log := log + [WasReset];
    }

    /** The time by which a message may lag behind when the link has stalled */
    predicate TooOld(timestamp: real, now: Time)
      reads this
    {
      shouldValidateTimestamp && lastValidNow.Some?
          && timestamp < lastValidTimestamp + (now - lastValidNow.value) - window
    }

    /** From the right host, not a PeerInfo and, where order matters, neither overtaken nor stale. */
    predicate Acceptable(packet: Packet, now: Time)
      reads this
    {
      && packet.message.kind != PeerInfo
      && (expectedHost.Some? ==> packet.addr.ip == expectedHost.value)
      && (IsOrdered(packet.message.kind) ==>
            packet.message.timestamp >= lastValidTimestamp && !TooOld(packet.message.timestamp, now))
    }

    /** `is_valid_message`; a Syn or Ack resets the timestamps on the way. */
    method IsValidMessage(packet: Packet, now: Time) returns (valid: bool)
      modifies this`lastValidTimestamp, this`lastValidNow
      ensures valid == old(Acceptable(packet, now))
      ensures packet.message.kind == PeerInfo ==> !valid
      ensures expectedHost.Some? && packet.addr.ip != expectedHost.value ==> !valid
      ensures (expectedHost.Some? ==> packet.addr.ip == expectedHost.value) ==>
                && (packet.message.kind in {Command, CommandAck, Latency, Syn, Ack} ==> valid)
                && (packet.message.kind == Other ==>
                      (valid <==>
                       && packet.message.timestamp >= old(lastValidTimestamp)
                       && (shouldValidateTimestamp && old(lastValidNow).Some? ==>
                             packet.message.timestamp >=
                             old(lastValidTimestamp) + (now - old(lastValidNow).value) - window)))
      ensures valid && packet.message.kind in {Syn, Ack} ==> lastValidTimestamp == 0.0 && lastValidNow == None
      ensures !(valid && packet.message.kind in {Syn, Ack}) ==>
                lastValidTimestamp == old(lastValidTimestamp) && lastValidNow == old(lastValidNow)
      ensures !valid ==> lastValidTimestamp == old(lastValidTimestamp) && lastValidNow == old(lastValidNow)
    {
      if packet.message.kind == PeerInfo {
        return false;
      }
      if expectedHost.Some? && packet.addr.ip != expectedHost.value {
        return false;
      }
      if packet.message.kind in {Command, CommandAck, Latency} {
        return true;
      }
      if packet.message.kind in {Syn, Ack} {
        lastValidTimestamp, lastValidNow := 0.0, None;
        return true;
      }
      if packet.message.timestamp < lastValidTimestamp {
        return false;
      }
      if lastValidNow.Some? && shouldValidateTimestamp {
        var delta := now - lastValidNow.value;
        if packet.message.timestamp < lastValidTimestamp + delta - window {
          return false;
        }
      }
      return true;
    }

    /**
     * A decoded datagram: accept it, and queue it if there is room. Nothing is taken from a wrong
     * host, and no PeerInfo. Commands, their acknowledgements, Latency, Syn and Ack are taken in any
     * case; telemetry and control only if they are not older than the message accepted last, and,
     * if that is validated, not further behind than the window allows.
     */
    method Receive(packet: Packet, checkedAt: Time, acceptedAt: Time) returns (accepted: bool)
      requires Valid()
      modifies this
      ensures Valid() && handled == old(handled) && expectedHost == old(expectedHost) && since == old(since)
      ensures packet.message.kind == PeerInfo ==> !accepted
      ensures expectedHost.Some? && packet.addr.ip != expectedHost.value ==> !accepted
      ensures (expectedHost.Some? ==> packet.addr.ip == expectedHost.value) ==>
                && (packet.message.kind in {Command, CommandAck, Latency, Syn, Ack} ==> accepted)
                && (packet.message.kind == Other ==>
                      (accepted <==>
                       && packet.message.timestamp >= ToBeat(old(log))
                       && (shouldValidateTimestamp && old(lastValidNow).Some? ==>
                             packet.message.timestamp >=
                             ToBeat(old(log)) + (checkedAt - old(lastValidNow).value) - window)))
      ensures lastValidNow == if accepted then Some(acceptedAt) else old(lastValidNow)
      ensures log == old(log) + if accepted then [Accepted(packet)] else []
      ensures queue == old(queue) + if accepted && |old(queue)| < 100 then [packet] else []
      ensures accepted == old(Acceptable(packet, checkedAt))
    {
      hide InOrder, IsSubsequence;
      accepted := IsValidMessage(packet, checkedAt);
      if accepted {
        InOrderOfMore(log, Accepted(packet));
        SubsequenceOfMore(handled + queue, places, log, Accepted(packet));
        lastValidTimestamp, lastValidNow := packet.message.timestamp, Some(acceptedAt);
        if |queue| < QUEUE_SIZE {
          assert handled + queue + [packet] == handled + (queue + [packet]);
          queue := queue + [packet];
          places := places + [|log|];
        }
        log := log + [Accepted(packet)];
      }
    }

    /** The worker takes the oldest packet; its handler may raise, which changes nothing here. */
    method HandleNext()
      requires Valid() && queue != []
      modifies this
      ensures Valid() && log == old(log) && handled == old(handled) + [old(queue)[0]] && queue == old(queue)[1..]
      ensures expectedHost == old(expectedHost) && since == old(since)
      ensures lastValidNow == old(lastValidNow)
    {
      assert handled + queue == handled + [queue[0]] + queue[1..];
      hide IsSubsequence, InOrder;
      handled := handled + [queue[0]];
      queue := queue[1..];
    }

    /**
     * Every acceptable message whose order matters is at least as new as all accepted since the
     * last reset, Syn or Ack, if and only if the timestamp to beat is the newest of them.
     */
    lemma NothingOvertakenIff()
      requires Valid() && (shouldValidateTimestamp ==> window >= 0.0)
      ensures (forall packet: Packet, now: Time | IsOrdered(packet.message.kind) && Acceptable(packet, now) ::
                 NotOlder(packet.message.timestamp, Newest(log)))
              <==> NotOlder(lastValidTimestamp, Newest(log))
    {
      hide InOrder, IsSubsequence, Newest;
      var ip := if expectedHost.Some? then expectedHost.value else "";
      var now := if lastValidNow.Some? then lastValidNow.value else 0.0;
      var packet := Packet(Message(Other, lastValidTimestamp), Address(ip, 0));
      assert Acceptable(packet, now);
    }

    /** The handlers see accepted messages, in the order of acceptance, each at most once. */
    lemma HandledInOrderOfAcceptance()
      requires Valid()
      ensures |handled| <= |places| && IsSubsequence(handled, places[..|handled|], log)
    {
      assert handled == (handled + queue)[..|handled|];
      forall a | 0 <= a < |handled| ensures log[places[a]] == Accepted(handled[a]) {
        assert handled[a] == (handled + queue)[a];
      }
    }

    /**
     * Between two handled messages whose stretch of the log holds only ordered messages, time
     * does not run backwards. The first of them may be of any kind.
     */
    lemma HandledTimesAscend(a: nat, b: nat)
      requires Valid() && a <= b < |handled|
      requires Stretch(log, places[a], places[b])
      ensures handled[a].message.timestamp <= handled[b].message.timestamp
    {
      HandledInOrderOfAcceptance();
      StretchAscends(log, places[a], places[b]);
    }
  }

  /** What the two threads do next: take a datagram, let a handler run, or reset from elsewhere. */
  datatype Turn = Datagram(packet: Packet, checkedAt: Time, acceptedAt: Time) | Work | ResetCall | HostCall(ip: string)

  /** The host check of turn `k` is still the last one before turn `j`. */
  predicate HostFor(turns: seq<Turn>, k: nat, j: nat) {
    k < j <= |turns| && turns[k].HostCall? && forall i | k < i < j :: !turns[i].HostCall?
  }

  /** Every packet accepted in this part of the log came from `ip`. */
  predicate AllFrom(part: seq<Entry>, ip: string) {
    forall e | e in part && e.Accepted? :: e.packet.addr.ip == ip
  }

  /** `marks` are the lengths of the log before each of the first `i` turns, and now. */
  ghost predicate Marked(turns: seq<Turn>, i: nat, marks: seq<nat>, log: seq<Entry>, host: Option<string>, since: nat) {
    && i <= |turns| && Lengths(marks, i, |log|)
    && (forall k | 0 <= k < i && HostFor(turns, k, i) :: host == Some(turns[k].ip) && since == marks[k])
    && (forall k, j | 0 <= k < j <= i && HostFor(turns, k, j) :: AllFrom(log[marks[k]..marks[j]], turns[k].ip))
  }

  predicate Lengths(marks: seq<nat>, i: nat, length: nat) {
    |marks| == i + 1 && marks[i] == length && forall k, j | 0 <= k < j <= i :: marks[k] <= marks[j] <= length
  }

  lemma LengthsOn(marks: seq<nat>, i: nat, length: nat, longer: nat)
    requires Lengths(marks, i, length) && length <= longer
    ensures Lengths(marks + [longer], i + 1, longer)
  {
  }

  lemma SamePart(before: seq<Entry>, log: seq<Entry>, a: nat, b: nat)
    requires before <= log && a <= b <= |before|
    ensures log[a..b] == before[a..b]
  {
  }

  lemma HostStillFor(turns: seq<Turn>, k: nat, i: nat)
    requires k <= i < |turns|
    ensures HostFor(turns, k, i + 1) <==>
              if k == i then turns[i].HostCall? else HostFor(turns, k, i) && !turns[i].HostCall?
  {
  }

  lemma MarkedOn(
      turns: seq<Turn>, i: nat, marks: seq<nat>, before: seq<Entry>, host: Option<string>, since: nat,
      log: seq<Entry>, host': Option<string>, since': nat)
    requires i < |turns| && Marked(turns, i, marks, before, host, since)
    requires before <= log && since' <= |log|
    requires if turns[i].HostCall? then host' == Some(turns[i].ip) && since' == |before| && log == before
             else host' == host && since' == since
    requires host'.Some? ==> AllFrom(log[since'..], host'.value)
    ensures Marked(turns, i + 1, marks + [|log|], log, host', since')
  {
    OnlyHostCalls(turns);
    hide AllFrom, HostFor, Lengths;
    var more := marks + [|log|];
    LengthsOn(marks, i, |before|, |log|);
    MarksOf(marks, i, |before|);
    MarksOf(more, i + 1, |log|);
    forall k: nat | k < i + 1 && turns[k].HostCall? && HostFor(turns, k, i + 1)
      ensures host' == Some(turns[k].ip) && since' == more[k]
    {
      HostStillFor(turns, k, i);
    }
    assert log[..|log|] == log;
    forall k: nat, j: nat | k < j <= i + 1 && turns[k].HostCall? && HostFor(turns, k, j)
      ensures AllFrom(log[more[k]..more[j]], turns[k].ip)
    {
      if j <= i {
        SamePart(before, log, marks[k], marks[j]);
      } else {
        assert log[since'..] == log[since'..|log|];
      }
    }
  }

  lemma OnlyHostCalls(turns: seq<Turn>)
    ensures forall k, j | 0 <= k < |turns| && HostFor(turns, k, j) :: turns[k].HostCall?
  {
  }

  lemma MarksOf(marks: seq<nat>, i: nat, length: nat)
    requires Lengths(marks, i, length)
    ensures |marks| == i + 1 && marks[i] == length && forall k, j | 0 <= k < j <= i :: marks[k] <= marks[j] <= length
  {
  }

  /** What the valid receiver has in its log since the host was set */
  lemma LogSinceHost(receiver: UDPReceiver)
    requires receiver.Valid()
    ensures receiver.since <= |receiver.log|
    ensures receiver.expectedHost.Some? ==> AllFrom(receiver.log[receiver.since..], receiver.expectedHost.value)
  {
    hide InOrder, IsSubsequence;
  }

  method TakeTurn(receiver: UDPReceiver, turn: Turn)
    requires receiver.Valid()
    modifies receiver
    ensures receiver.Valid() && old(receiver.log) <= receiver.log
    ensures if turn.HostCall? then
              && receiver.expectedHost == Some(turn.ip) && receiver.since == |old(receiver.log)|
              && receiver.log == old(receiver.log)
            else receiver.expectedHost == old(receiver.expectedHost) && receiver.since == old(receiver.since)
  {
    hide InOrder, IsSubsequence;
    match turn {
      case Datagram(packet, checkedAt, acceptedAt) => var _ := receiver.Receive(packet, checkedAt, acceptedAt);
      case Work =>
        if receiver.queue != [] {
          receiver.HandleNext();
        }
      case ResetCall => receiver.Reset();
      case HostCall(ip) => receiver.ValidateHost(ip);
    }
  }

  /**
   * Any packets, any turns of the two threads. Handlers see accepted messages in order, and times
   * ascend in every stretch. The newest message stays the one to beat exactly as long as no
   * exempt message is late, and then no overtaken message is accepted. `marks` says how long the
   * log was before each turn: between a host check and the next one, all come from that host.
   */
  method Run(receiver: UDPReceiver, turns: seq<Turn>) returns (ghost marks: seq<nat>)
    requires receiver.Valid() && receiver.log == [] && receiver.handled == [] && receiver.queue == []
    modifies receiver
    ensures receiver.Valid()
    ensures |receiver.handled| <= |receiver.places|
              && IsSubsequence(receiver.handled, receiver.places[..|receiver.handled|], receiver.log)
    ensures forall a, b | 0 <= a <= b < |receiver.handled|
              && Stretch(receiver.log, receiver.places[a], receiver.places[b]) ::
              receiver.handled[a].message.timestamp <= receiver.handled[b].message.timestamp
    ensures (forall n: nat | n <= |receiver.log| :: NewestIsToBeat(receiver.log[..n])) <==>
              (forall k: nat :: !LateExempt(receiver.log, k))
    ensures (forall k: nat :: !LateExempt(receiver.log, k)) ==> forall k: nat :: !Overtaken(receiver.log, k)
    ensures receiver.lastValidTimestamp == ToBeat(receiver.log)
    ensures |marks| == |turns| + 1 && marks[|turns|] == |receiver.log|
    ensures forall i, j | 0 <= i < j <= |turns| :: marks[i] <= marks[j] <= |receiver.log|
    ensures forall k, j | 0 <= k < j <= |turns| && HostFor(turns, k, j) ::
              AllFrom(receiver.log[marks[k]..marks[j]], turns[k].ip)
  {
    marks := [|receiver.log|];
    for i := 0 to |turns|
      invariant receiver.Valid()
      invariant Marked(turns, i, marks, receiver.log, receiver.expectedHost, receiver.since)
    {
      hide Marked, InOrder, IsSubsequence;
      ghost var before, host, since := receiver.log, receiver.expectedHost, receiver.since;
      TakeTurn(receiver, turns[i]);
      LogSinceHost(receiver);
      MarkedOn(turns, i, marks, before, host, since, receiver.log, receiver.expectedHost, receiver.since);
      marks := marks + [|receiver.log|];
    }
    receiver.HandledInOrderOfAcceptance();
    NewestToBeatIff(receiver.log);
    forall a, b | 0 <= a <= b < |receiver.handled| && Stretch(receiver.log, receiver.places[a], receiver.places[b])
      ensures receiver.handled[a].message.timestamp <= receiver.handled[b].message.timestamp
    {
      receiver.HandledTimesAscend(a, b);
    }
  }

  /** An unordered message that is late moves the timestamp to beat back: order is lost across it. */
  method LateCommandAdmitsLateControl(addr: Address) returns (receiver: UDPReceiver)
    ensures receiver.log == [Accepted(Packet(Message(Other, 2.0), addr)),
                             Accepted(Packet(Message(Command, 1.0), addr)),
                             Accepted(Packet(Message(Other, 1.5), addr))]
  {
    receiver := new UDPReceiver(0.5, false);
    hide InOrder, IsSubsequence;
    var one := receiver.Receive(Packet(Message(Other, 2.0), addr), 0.0, 0.0);
    var two := receiver.Receive(Packet(Message(Command, 1.0), addr), 0.0, 0.0);
    var three := receiver.Receive(Packet(Message(Other, 1.5), addr), 0.0, 0.0);
  }
}
