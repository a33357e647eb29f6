/**
 * Length-prefixed messages on a TCP stream. The stream delivers its bytes in chunks of any
 * size; a sender that fails once never writes again.
 */
module Framing {
  import opened RelayTypes
  import opened Bytes

  const HEADER_SIZE := 2
  const MAX_PAYLOAD_SIZE := 0xFFFF

  type Data = seq<byte>

  predicate Sendable(data: Data) {
    |data| <= MAX_PAYLOAD_SIZE
  }

  function Frame(data: Data): (frame: Data)
    requires Sendable(data)
    ensures |frame| == HEADER_SIZE + |data|
  {
    PowerOfTwo();
    Encode(|data|, HEADER_SIZE) + data
  }

  function Frames(messages: seq<Data>): Data
    requires forall m | m in messages :: Sendable(m)
  {
    if messages == [] then [] else Frame(messages[0]) + Frames(messages[1..])
  }

  /** What one `recv_message` makes of the bytes still to come: a message, or the end. */
  function First(stream: Data): (result: (Option<Data>, Data))
    ensures result.0.Some? ==> |result.1| < |stream|
  {
    if |stream| < HEADER_SIZE then (None, [])
    else
      var length := Decode(stream[..HEADER_SIZE]);
      var rest := stream[HEADER_SIZE..];
      if length == 0 then (Some([]), rest)
      else if |rest| < length then (None, [])
      else (Some(rest[..length]), rest[length..])
  }

  /** What repeated `recv_message` yields until it reports the end. */
  function Messages(stream: Data): seq<Data>
    decreases |stream|
  {
    match First(stream)
    case (None, _) => []
    case (Some(m), rest) => [m] + Messages(rest)
  }

  // ---------------------------------------------------------------- round trip

  lemma FirstOfFrame(data: Data, rest: Data)
    requires Sendable(data)
    ensures First(Frame(data) + rest) == (Some(data), rest)
  {
    PowerOfTwo();
    DecodeEncode(|data|, HEADER_SIZE);
    var stream := Frame(data) + rest;
    assert stream[..HEADER_SIZE] == Encode(|data|, HEADER_SIZE);
    assert stream[HEADER_SIZE..] == data + rest;
    assert (data + rest)[..|data|] == data && (data + rest)[|data|..] == rest;
  }

  /** On the wire: the length in two bytes, the higher one first, and then the message, at most 65535 bytes. */
  lemma FrameBytes(data: Data)
    ensures Sendable(data) <==> |data| < 65536
    ensures Sendable(data) ==>
              var frame := Frame(data);
              && frame[0] as nat == |data| / 256 && frame[1] as nat == |data| % 256 && frame[2..] == data
  {
    if Sendable(data) {
      PowerOfTwo();
      EncodeAt(|data|, 2, 0);
      EncodeAt(|data|, 2, 1);
      assert Power(0) == 1 && Power(1) == 256 * Power(0);
    }
  }

  /** An incomplete frame is not taken for a message. */
  lemma FirstOfPartialFrame(data: Data, part: Data)
    requires Sendable(data) && part <= Frame(data) && part != Frame(data)
    ensures First(part).0 == None
  {
    PowerOfTwo();
    DecodeEncode(|data|, HEADER_SIZE);
    if |part| >= HEADER_SIZE {
      assert part[..HEADER_SIZE] == Frame(data)[..HEADER_SIZE] == Encode(|data|, HEADER_SIZE);
    }
  }

  /** What a reader gets from any prefix of a well-formed stream is a prefix of what was sent. */
  lemma {:induction false} PrefixOfFrames(messages: seq<Data>, part: Data)
    requires forall m | m in messages :: Sendable(m)
    requires part <= Frames(messages)
    ensures Messages(part) <= messages
    ensures part == Frames(messages) ==> Messages(part) == messages
  {
    hide First, Frame;
    if messages != [] {
      var frame, later := Frame(messages[0]), Frames(messages[1..]);
      if |part| < |frame| {
        assert part <= frame;
        FirstOfPartialFrame(messages[0], part);
      } else {
        assert part == frame + part[|frame|..];
        assert part[|frame|..] <= later;
        FirstOfFrame(messages[0], part[|frame|..]);
        PrefixOfFrames(messages[1..], part[|frame|..]);
        assert messages == [messages[0]] + messages[1..];
      }
    }
  }

  /** Whole frames followed by an unfinished one yield exactly the whole messages. */
  lemma {:induction false} WholeThenPartial(messages: seq<Data>, last: Data, part: Data)
    requires (forall m | m in messages :: Sendable(m)) && Sendable(last)
    requires part <= Frame(last) && part != Frame(last)
    ensures Messages(Frames(messages) + part) == messages
  {
    hide First, Frame;
    if messages == [] {
      assert Frames(messages) + part == part;
      FirstOfPartialFrame(last, part);
    } else {
      var rest := Frames(messages[1..]) + part;
      assert Frames(messages) + part == Frame(messages[0]) + rest;
      FirstOfFrame(messages[0], rest);
      WholeThenPartial(messages[1..], last, part);
      assert messages == [messages[0]] + messages[1..];
    }
  }

  lemma {:induction false} FramesOfMore(messages: seq<Data>, m: Data)
    requires forall x | x in messages + [m] :: Sendable(x)
    ensures (forall x | x in messages :: Sendable(x)) && Frames(messages + [m]) == Frames(messages) + Frame(m)
  {
    assert forall x | x in messages :: x in messages + [m];
    if messages == [] {
      assert [m][1..] == [] && messages + [m] == [m];
      assert m in messages + [m];
    } else {
      assert (messages + [m])[1..] == messages[1..] + [m];
      assert forall x | x in messages[1..] + [m] :: x in messages + [m];
      FramesOfMore(messages[1..], m);
    }
  }

  // ---------------------------------------------------------------- receiving

  /** A connected socket, seen from the reader: the bytes the peer has sent and will send. */
  class Inbound {
    var incoming: Data

    constructor (stream: Data)
      ensures incoming == stream
    {
      incoming := stream;
    }

    /** `recv(limit)`: some non-empty chunk of at most `limit` bytes, or nothing at the end. */
    method Recv(limit: nat) returns (chunk: Data)
      requires limit > 0
      modifies this
      ensures |chunk| <= limit && chunk + incoming == old(incoming)
      ensures chunk == [] <==> old(incoming) == []
    {
      if incoming == [] {
        return [];
      }
      var k: nat :| 1 <= k <= limit && k <= |incoming|;
      chunk := incoming[..k];
      incoming := incoming[k..];
    }
  }

  /** `_recv_exact`: however the bytes are chunked, exactly `n` of them, or None at the end. */
  method RecvExact(sock: Inbound, n: nat) returns (data: Option<Data>)
    modifies sock
    ensures |old(sock.incoming)| >= n ==>
              data == Some(old(sock.incoming)[..n]) && sock.incoming == old(sock.incoming)[n..]
    ensures |old(sock.incoming)| < n ==> data == None && sock.incoming == []
  {
    var buf: Data := [];
    while |buf| < n
      invariant |buf| <= n && buf + sock.incoming == old(sock.incoming)
    {
      var chunk := sock.Recv(n - |buf|);
      if chunk == [] {
        return None;
      }
      buf := buf + chunk;
    }
    return Some(buf);
  }

  /** `recv_message` */
  method RecvMessage(sock: Inbound) returns (data: Option<Data>)
    modifies sock
    ensures (data, sock.incoming) == First(old(sock.incoming))
  {
    var header := RecvExact(sock, HEADER_SIZE);
    if header == None {
      return None;
    }
    var length := Decode(header.value);
    if length == 0 {
      return Some([]);
    }
    data := RecvExact(sock, length);
  }

  /** Receive until the end of the stream. */
  method RecvAll(sock: Inbound) returns (messages: seq<Data>)
    modifies sock
    ensures messages == Messages(old(sock.incoming))
  {
    messages := [];
    var data := RecvMessage(sock);
    while data.Some?
      invariant Messages(old(sock.incoming)) == if data.Some? then messages + [data.value] + Messages(sock.incoming)
                  else messages
      decreases |sock.incoming|, data.Some?
    {
      messages := messages + [data.value];
      ghost var before := messages;
      data := RecvMessage(sock);
      if data.Some? {
        ghost var later := Messages(sock.incoming);
        assert before + ([data.value] + later) == before + [data.value] + later;
      }
    }
  }

  // ---------------------------------------------------------------- sending

  /** The target of forwarded packets: `written` is everything the connection ever accepted. */
  class TcpTarget {
    var alive: bool
    var written: Data
    /** The messages that `send` tried to put on the stream, in order. */
    ghost var attempted: seq<Data>

    /** Whole frames, then at most one unfinished frame if the target is dead. */
    ghost predicate Valid()
      reads this
    {
      && (forall m | m in attempted :: Sendable(m))
      && (written == Frames(attempted) || (!alive && EndsUnfinished(written, attempted)))
    }

    static ghost predicate EndsUnfinished(written: Data, attempted: seq<Data>)
      requires forall m | m in attempted :: Sendable(m)
    {
      attempted != [] && CutInside(written, attempted[..|attempted| - 1], attempted[|attempted| - 1])
    }

    static ghost predicate CutInside(written: Data, whole: seq<Data>, last: Data)
      requires (forall m | m in whole :: Sendable(m)) && Sendable(last)
    {
      exists part :: Splits(written, whole, last, part)
    }

    /** All of `whole`, then a part of `last` that is not all of it. */
    static ghost predicate Splits(written: Data, whole: seq<Data>, last: Data, part: Data)
      requires (forall m | m in whole :: Sendable(m)) && Sendable(last)
    {
      written == Frames(whole) + part && part <= Frame(last) && part != Frame(last)
    }

    constructor ()
      ensures Valid() && alive && attempted == [] && written == []
    {
      alive, written, attempted := true, [], [];
    }

    /**
     * `send`. The connection accepts `accepted` bytes before it fails; None means that it does
     * not fail. Meanwhile another thread may close the target.
     */
    method Send(data: Data, accepted: Option<nat>, closedMeanwhile: bool) returns (ok: bool)
      requires Valid()
      modifies this
      ensures Valid()
      ensures !old(alive) ==> !ok && !alive && written == old(written) && attempted == old(attempted)
      ensures old(alive) && !Sendable(data) ==> !ok && !alive && written == old(written) && attempted == old(attempted)
      ensures old(alive) && Sendable(data) ==> attempted == old(attempted) + [data]
      ensures ok == (old(alive) && Sendable(data) && (accepted.Some? ==> accepted.value >= |Frame(data)|))
      ensures ok ==> written == old(written) + Frame(data) && alive == !closedMeanwhile
      ensures !ok ==> !alive
    {
      if !alive {
        return false;
      }
      if |data| > MAX_PAYLOAD_SIZE {
        alive := false;
        return false;
      }
      var frame := Frame(data);
      FramesOfMore(attempted, data);
      ghost var before := attempted;
      attempted := attempted + [data];
      assert attempted[..|attempted| - 1] == before;
      if accepted.Some? && accepted.value < |frame| {
        assert written == Frames(before) ==> Splits(written + frame[..accepted.value], before, data,
            frame[..accepted.value]);
        written := written + frame[..accepted.value];
        alive := false;
        return false;
      }
      written := written + frame;
      alive := !closedMeanwhile;
      return true;
    }

    /** `close` may come from any thread, also while no send is under way. */
    method Close()
      requires Valid()
      modifies this
      ensures Valid() && !alive && written == old(written) && attempted == old(attempted)
    {
      alive := false;
    }

    /**
     * Whatever failed, and wherever the connection broke off: the reader gets a prefix of the
     * messages that were sent, all but the last one at least if everything written arrives.
     */
    lemma ReaderGetsPrefix(arrived: Data)
      requires Valid() && arrived <= written
      ensures Messages(arrived) <= attempted
      ensures alive && arrived == written ==> Messages(arrived) == attempted
      ensures arrived == written ==> |Messages(arrived)| >= |attempted| - 1
    {
      if written == Frames(attempted) {
        PrefixOfFrames(attempted, arrived);
      } else {
        var last := attempted[|attempted| - 1];
        var whole := attempted[..|attempted| - 1];
        var part :| Splits(written, whole, last, part);
        assert attempted == whole + [last];
        FramesOfMore(whole, last);
        PrefixOfFrames(attempted, arrived);
        WholeThenPartial(whole, last, part);
      }
    }
  }

  /** Every message fits a frame, and no send fails. */
  predicate AllGoesWell(messages: seq<Data>, faults: seq<Option<nat>>)
    requires |faults| == |messages|
  {
    forall i | 0 <= i < |messages| :: Sendable(messages[i]) && faults[i] == None
  }

  /**
   * One connection from end to end. `faults[i]` says after how many bytes the i-th send fails, if
   * it does; `cut` after how many bytes the connection breaks off, if it does. The bytes arrive in
   * chunks of any size.
   */
  method Transfer(messages: seq<Data>, faults: seq<Option<nat>>, cut: Option<nat>) returns (received: seq<Data>)
    requires |faults| == |messages|
    ensures received <= messages
    ensures AllGoesWell(messages, faults) && cut == None ==> received == messages
  {
    var target := new TcpTarget();
    for i := 0 to |messages|
      invariant fresh(target) && target.Valid()
      invariant if target.alive then target.attempted == messages[..i] else target.attempted <= messages
      invariant AllGoesWell(messages, faults) ==> target.alive
    {
      hide TcpTarget.Valid, Frame;
      assert messages[..i + 1] == messages[..i] + [messages[i]];
      var _ := target.Send(messages[i], faults[i], false);
    }
    assert messages[..|messages|] == messages;
    var data := target.written;
    if cut.Some? && cut.value < |data| {
      data := data[..cut.value];
    }
    target.ReaderGetsPrefix(data);
    hide TcpTarget.Valid, Messages;
    var sock := new Inbound(data);
    received := RecvAll(sock);
  }
}
