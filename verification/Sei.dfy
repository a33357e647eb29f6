/**
 * Capture timestamps in H.264 streams: a user-data-unregistered SEI message (Annex D of ITU-T
 * H.264) in a NAL unit of its own, found again behind a start code (Annex B) or in a stream of
 * length-prefixed units.
 */
module Sei {
  import opened RelayTypes
  import opened Bytes

  type Data = seq<byte>

  const SEI_UUID: Data := [
    0xef, 0x84, 0x0f, 0xbc, 0x7f, 0x77, 0x40, 0x18,
    0x86, 0xad, 0x83, 0xd7, 0x13, 0xd2, 0x75, 0x92]
  const START_CODE: Data := [0, 0, 0, 1]
  const NAL_HEADER_SEI: byte := 0x06
  const SEI_TYPE_USER_DATA_UNREGISTERED: byte := 0x05
  const SEI_PAYLOAD_SIZE: byte := 24
  const TRAILING: byte := 0x80

  // ---------------------------------------------------------------- signed 64-bit integers

  const HALF := 0x8000_0000_0000_0000

  lemma PowerOfEight()
    ensures Power(8) == 2 * HALF && Power(4) == 0x1_0000_0000
  {
    assert Power(1) == 256 && Power(2) == 256 * 256 && Power(3) == 256 * 256 * 256;
    assert Power(5) == 256 * Power(4) && Power(6) == 256 * Power(5) && Power(7) == 256 * Power(6);
  }

  predicate IsInt64(t: int) {
    -HALF <= t < HALF
  }

  /** `struct.pack(">q", t)`: two's complement */
  function PackQ(t: int): (bytes: Data)
    requires IsInt64(t)
    ensures |bytes| == 8
  {
    PowerOfEight();
    Encode(if t < 0 then t + 2 * HALF else t, 8)
  }

  function UnpackQ(bytes: Data): (t: int)
    requires |bytes| == 8
    ensures IsInt64(t)
  {
    PowerOfEight();
    var n := Decode(bytes);
    if n < HALF then n else n - 2 * HALF
  }

  lemma UnpackPack(t: int)
    requires IsInt64(t)
    ensures UnpackQ(PackQ(t)) == t
  {
    PowerOfEight();
    DecodeEncode(if t < 0 then t + 2 * HALF else t, 8);
  }

  lemma PackUnpack(bytes: Data)
    requires |bytes| == 8
    ensures PackQ(UnpackQ(bytes)) == bytes
  {
    PowerOfEight();
    EncodeDecode(bytes);
  }

  // ---------------------------------------------------------------- writing

  /** `build_sei_nal`; None stands for the struct.error of a number that is too large. */
  function Build(timestamp: int): Option<Data> {
    if IsInt64(timestamp) then
      Some(START_CODE + [NAL_HEADER_SEI, SEI_TYPE_USER_DATA_UNREGISTERED, SEI_PAYLOAD_SIZE] + SEI_UUID
          + PackQ(timestamp) + [TRAILING])
    else None
  }

  /**
   * The stamp, byte by byte: start code, SEI header, type 5, 24 bytes, the UUID, the timestamp in
   * two's complement with the highest byte first, and the trailing bit.
   */
  lemma StampBytes(t: int)
    ensures Build(t).Some? <==> -0x8000_0000_0000_0000 <= t < 0x8000_0000_0000_0000
    ensures Build(t).Some? ==>
              var stamp := Build(t).value;
              && |stamp| == 32
              && stamp[..23] == [0, 0, 0, 1, 0x06, 0x05, 24,
                                 0xef, 0x84, 0x0f, 0xbc, 0x7f, 0x77, 0x40, 0x18,
                                 0x86, 0xad, 0x83, 0xd7, 0x13, 0xd2, 0x75, 0x92]
              && (forall i | 0 <= i < 8 :: stamp[23..31][i] as nat ==
                    (if t < 0 then t + 0x1_0000_0000_0000_0000 else t) / Power(7 - i) % 256)
              && stamp[31] == 0x80
  {
    if IsInt64(t) {
      StampParts(t);
      hide PackQ, Power;
      forall i | 0 <= i < 8 ensures PackQ(t)[i] as nat == Bits(t) / Power(7 - i) % 256 {
        PackedAt(t, i);
      }
    }
  }

  lemma StampParts(t: int)
    requires IsInt64(t)
    ensures var stamp := Build(t).value;
            && |stamp| == 32 && stamp[31] == TRAILING && stamp[23..31] == PackQ(t)
            && stamp[..23] ==
               START_CODE + [NAL_HEADER_SEI, SEI_TYPE_USER_DATA_UNREGISTERED, SEI_PAYLOAD_SIZE] + SEI_UUID
  {
    hide PackQ;
    var head := START_CODE + [NAL_HEADER_SEI, SEI_TYPE_USER_DATA_UNREGISTERED, SEI_PAYLOAD_SIZE] + SEI_UUID;
    assert |head| == 23 && Build(t).value == head + PackQ(t) + [TRAILING];
  }

  // ---------------------------------------------------------------- emulation of start codes

  /** Bytes that section 7.4.1 of ITU-T H.264 keeps out of a NAL unit: 00 00 followed by 00, 01, 02 or 03 */
  predicate Emulates(data: Data, k: nat) {
    k + 3 <= |data| && data[k] == 0 && data[k + 1] == 0 && data[k + 2] <= 3
  }

  /** The 64 bits of a timestamp as a number */
  function Bits(t: int): nat
    requires IsInt64(t)
  {
    if t < 0 then t + 2 * HALF else t
  }

  /** Three bytes of the timestamp, from byte `k` on, as a number */
  function ThreeBytes(t: int, k: nat): nat
    requires IsInt64(t) && k < 6
  {
    Bits(t) / Power(5 - k) % 0x100_0000
  }

  lemma PackedAt(t: int, i: nat)
    requires IsInt64(t) && i < 8
    ensures PackQ(t)[i] as nat == Bits(t) / Power(7 - i) % 256
  {
    PowerOfEight();
    EncodeAt(Bits(t), 8, i);
  }

  /** Three bytes of the timestamp are 00 00 and at most 03. */
  lemma EmulatedInTimestamp(t: int, k: nat)
    requires IsInt64(t) && k < 6
    ensures Emulates(PackQ(t), k) <==> ThreeBytes(t, k) < 4
  {
    hide *;
    ThreePacked(t, k);
    EmulatesAt(PackQ(t), k);
    var a, b, c := PackQ(t)[k] as nat, PackQ(t)[k + 1] as nat, PackQ(t)[k + 2] as nat;
    SmallNumber(a, b, c);
  }

  lemma EmulatesAt(data: Data, k: nat)
    requires k + 3 <= |data|
    ensures Emulates(data, k) <==> data[k] == 0 && data[k + 1] == 0 && data[k + 2] <= 3
  {
  }

  lemma ThreePacked(t: int, k: nat)
    requires IsInt64(t) && k < 6
    ensures ThreeBytes(t, k) == PackQ(t)[k] as nat * 0x1_0000 + PackQ(t)[k + 1] as nat * 0x100 + PackQ(t)[k + 2] as nat
  {
    hide PackQ, Power, Bits;
    PackedAt(t, k);
    PackedAt(t, k + 1);
    PackedAt(t, k + 2);
    TwoBytesUp(Bits(t), 5 - k);
    ThreeDigits(Bits(t) / Power(5 - k));
  }

  lemma TwoBytesUp(bits: nat, n: nat)
    ensures bits / Power(n + 1) == bits / Power(n) / 256
    ensures bits / Power(n + 2) == bits / Power(n) / 256 / 256
  {
    DivideTwice(bits, n);
    DivideTwice(bits, n + 1);
  }

  lemma ThreeDigits(x: nat)
    ensures x % 0x100_0000 == x / 256 / 256 % 256 * 0x1_0000 + x / 256 % 256 * 0x100 + x % 256
  {
    var y := x / 256;
    var z := y / 256;
    var a, b, c, q := z % 256, y % 256, x % 256, z / 256;
    TwoDigits(x, y, c);
    TwoDigits(y, z, b);
    TwoDigits(z, q, a);
    Remainder(x, q, a * 0x1_0000 + b * 0x100 + c);
  }

  lemma Remainder(x: nat, q: nat, r: nat)
    requires x == q * 0x100_0000 + r && r < 0x100_0000
    ensures x % 0x100_0000 == r
  {
  }

  lemma SmallNumber(a: nat, b: nat, c: nat)
    ensures a * 0x1_0000 + b * 0x100 + c < 4 <==> a == 0 && b == 0 && c <= 3
  {
  }

  /**
   * The program writes no emulation prevention bytes. The bytes behind the start code contain a
   * forbidden sequence exactly when three consecutive bytes of the timestamp form a number below 4.
   */
  lemma EmulationIff(t: int)
    requires IsInt64(t)
    ensures var unit := Build(t).value[4..];
            (exists k :: Emulates(unit, k)) <==> exists k | 0 <= k < 6 :: ThreeBytes(t, k) < 4
  {
    var unit := Build(t).value[4..];
    var packed := PackQ(t);
    assert unit == [NAL_HEADER_SEI, SEI_TYPE_USER_DATA_UNREGISTERED, SEI_PAYLOAD_SIZE] + SEI_UUID + packed + [TRAILING];
    hide PackQ, ThreeBytes;
    forall k: nat | k < 6 ensures Emulates(unit, 19 + k) <==> ThreeBytes(t, k) < 4 {
      EmulatedInTimestamp(t, k);
      assert unit[19 + k] == packed[k] && unit[20 + k] == packed[k + 1] && unit[21 + k] == packed[k + 2];
    }
    forall k: nat | Emulates(unit, k) ensures 19 <= k < 25 {
      NoZeroBefore(unit, packed, k);
    }
    if k: nat :| Emulates(unit, k) {
      assert ThreeBytes(t, k - 19) < 4;
    }
  }

  /** The header and the UUID have no zero byte, and the last byte is 80. */
  lemma NoZeroBefore(unit: Data, packed: Data, k: nat)
    requires |packed| == 8
    requires unit == [NAL_HEADER_SEI, SEI_TYPE_USER_DATA_UNREGISTERED, SEI_PAYLOAD_SIZE] + SEI_UUID + packed
               + [TRAILING]
    requires Emulates(unit, k)
    ensures 19 <= k < 25
  {
    assert unit[27] == TRAILING;
    assert forall i | 0 <= i < 3 :: unit[i] == [NAL_HEADER_SEI, SEI_TYPE_USER_DATA_UNREGISTERED, SEI_PAYLOAD_SIZE][i];
    assert forall i | 3 <= i < 19 :: unit[i] == SEI_UUID[i - 3];
  }

  /** A moment of July 2023, in microseconds, whose unit contains a forbidden sequence */
  const MOMENT := 0x6_0000_0000_0000

  lemma EmulationHappens()
    ensures IsInt64(MOMENT) && exists k :: Emulates(Build(MOMENT).value[4..], k)
  {
    PowerOfThree();
    assert ThreeBytes(MOMENT, 2) == 0;
    EmulationIff(MOMENT);
  }

  lemma PowerOfThree()
    ensures Power(3) == 0x100_0000
  {
    assert Power(1) == 256 && Power(2) == 256 * 256;
  }

  // ---------------------------------------------------------------- reading

  /** `_try_parse_sei`: `start` is the position of the NAL header. */
  function TryParse(data: Data, start: nat): (result: Option<int>)
  {
    if start >= |data| then None
    else if data[start] % 0x20 != 6 then None
    else if start + 3 > |data| then None
    else if data[start + 1] != SEI_TYPE_USER_DATA_UNREGISTERED || data[start + 2] != SEI_PAYLOAD_SIZE then None
    else if start + 27 > |data| then None
    else if data[start + 3..start + 19] != SEI_UUID then None
    else Some(UnpackQ(data[start + 19..start + 27]))
  }

  lemma SliceOfSlice(data: Data, a: nat, b: nat, c: nat, d: nat)
    requires a <= b <= |data| && c <= d <= b - a
    ensures data[a..b][c..d] == data[a + c..a + d]
  {
    assert data[a..b] == data[a..][..b - a];
    assert forall k | 0 <= k < d - c :: data[a..b][c..d][k] == data[a + c..a + d][k];
  }

  /** What the syntax asks of a unit: a SEI header, our type, size and UUID, and then eight bytes. */
  predicate IsOurSei(data: Data, start: nat, timestamp: int) {
    && IsInt64(timestamp)
    && start + 27 <= |data|
    && data[start] % 0x20 == NAL_HEADER_SEI
    && data[start + 1..start + 27] ==
       [SEI_TYPE_USER_DATA_UNREGISTERED, SEI_PAYLOAD_SIZE] + SEI_UUID + PackQ(timestamp)
  }

  /** The parser accepts exactly the units of that syntax, with their timestamp. */
  lemma ParsesExactly(data: Data, start: nat, timestamp: int)
    ensures TryParse(data, start) == Some(timestamp) <==> IsOurSei(data, start, timestamp)
  {
    if start + 27 <= |data| {
      var body := data[start + 1..start + 27];
      assert body[0] == data[start + 1] && body[1] == data[start + 2];
      SliceOfSlice(data, start + 1, start + 27, 2, 18);
      SliceOfSlice(data, start + 1, start + 27, 18, 26);
      assert body[18..26] == body[18..];
      assert body == body[..2] + body[2..18] + body[18..];
      if IsInt64(timestamp) {
        var want := [SEI_TYPE_USER_DATA_UNREGISTERED, SEI_PAYLOAD_SIZE] + SEI_UUID + PackQ(timestamp);
        assert want[0] == SEI_TYPE_USER_DATA_UNREGISTERED && want[1] == SEI_PAYLOAD_SIZE;
        assert want[2..18] == SEI_UUID && want[18..] == PackQ(timestamp);
        UnpackPack(timestamp);
      }
      PackUnpack(body[18..]);
    }
  }

  // ---------------------------------------------------------------- Annex B

  predicate StartsAt(data: Data, pos: nat) {
    pos + 4 <= |data| && data[pos..pos + 4] == START_CODE
  }

  /** A start code with a unit of ours behind it. */
  predicate Hit(data: Data, pos: nat) {
    StartsAt(data, pos) && TryParse(data, pos + 4).Some?
  }

  /** The first such place. */
  predicate FirstHit(data: Data, pos: nat) {
    Hit(data, pos) && forall q | 0 <= q < pos :: !Hit(data, q)
  }

  /** Two start codes cannot overlap, so skipping over one loses none. */
  lemma StartCodesDoNotOverlap(data: Data, p: nat, q: nat)
    requires StartsAt(data, p) && StartsAt(data, q) && p < q
    ensures p + 4 <= q
  {
    assert data[p + 3] == data[p..p + 4][3] == 1;
    assert data[q] == data[q..q + 4][0] == 0;
    assert data[q + 1] == data[q..q + 4][1] == 0;
    assert data[q + 2] == data[q..q + 4][2] == 0;
  }

  /** `data.find(START_CODE, from)` */
  method Find(data: Data, from: nat) returns (pos: int)
    ensures pos == -1 || (from <= pos && StartsAt(data, pos))
    ensures forall q: nat | from <= q && (pos == -1 || q < pos) :: !StartsAt(data, q)
  {
    pos := from;
    while pos + 4 <= |data|
      invariant from <= pos
      invariant forall q: nat | from <= q < pos :: !StartsAt(data, q)
    {
      if data[pos..pos + 4] == START_CODE {
        return;
      }
      pos := pos + 1;
    }
    pos := -1;
  }

  // ---------------------------------------------------------------- length-prefixed units

  /** The length field at `pos`, if there is one and it announces a unit that fits. */
  function UnitLength(data: Data, pos: nat): (length: Option<nat>)
    ensures length.Some? ==> length.value > 0 && pos + 4 + length.value <= |data|
  {
    if pos + 4 >= |data| then None
    else
      var length := Decode(data[pos..pos + 4]);
      if length == 0 || pos + 4 + length > |data| then None else Some(length)
  }

  /** The units that the length fields delimit from `pos` on, up to the first field that does not fit. */
  function Units(data: Data, pos: nat): (starts: seq<nat>)
    ensures forall u | u in starts :: u < |data|
    decreases |data| - pos
  {
    match UnitLength(data, pos)
    case None => []
    case Some(length) => [pos + 4] + Units(data, pos + 4 + length)
  }

  function FirstParsed(data: Data, starts: seq<nat>): Option<int> {
    if starts == [] then None
    else if TryParse(data, starts[0]).Some? then TryParse(data, starts[0])
    else FirstParsed(data, starts[1..])
  }

  // ---------------------------------------------------------------- parse_sei_nal

  /** The timestamp behind the first start code that has one; else that of the first unit that has one. */
  ghost predicate IsResult(data: Data, result: Option<int>) {
    && (forall pos: nat | FirstHit(data, pos) :: result == TryParse(data, pos + 4))
    && ((forall pos: nat :: !FirstHit(data, pos)) ==> result == FirstParsed(data, Units(data, 0)))
  }

  lemma {:induction false} SomeFirstHit(data: Data, pos: nat) returns (first: nat)
    requires Hit(data, pos)
    ensures FirstHit(data, first)
  {
    if q: nat :| q < pos && Hit(data, q) {
      first := SomeFirstHit(data, q);
    } else {
      first := pos;
    }
  }

  method Parse(data: Data) returns (result: Option<int>)
    ensures IsResult(data, result)
  {
    var pos := Find(data, 0);
    while pos != -1
      invariant pos == -1 || StartsAt(data, pos)
      invariant forall q: nat | pos == -1 || q < pos :: !Hit(data, q)
      decreases if pos == -1 then 0 else |data| + 1 - pos
    {
      result := TryParse(data, pos + 4);
      if result != None {
        assert FirstHit(data, pos);
        return;
      }
      ghost var before := pos;
      pos := Find(data, pos + 4);
      forall q: nat | (pos == -1 || q < pos) && q > before && StartsAt(data, q) ensures false {
        StartCodesDoNotOverlap(data, before, q);
      }
    }
    assert forall q: nat :: !FirstHit(data, q);
    result := ParseUnits(data);
  }

  /** The second loop of `parse_sei_nal` */
  method ParseUnits(data: Data) returns (result: Option<int>)
    ensures result == FirstParsed(data, Units(data, 0))
  {
    var pos := 0;
    while pos + 4 < |data|
      invariant 0 <= pos
      invariant FirstParsed(data, Units(data, 0)) == FirstParsed(data, Units(data, pos))
      decreases |data| - pos
    {
      var length := Decode(data[pos..pos + 4]);
      var start := pos + 4;
      if length == 0 || start + length > |data| {
        break;
      }
      result := TryParse(data, start);
      if result != None {
        return;
      }
      assert Units(data, pos) == [start] + Units(data, start + length);
      pos := start + length;
    }
    return None;
  }

  // ---------------------------------------------------------------- round trips

  lemma BuiltParses(timestamp: int, before: Data, rest: Data)
    requires IsInt64(timestamp)
    ensures StartsAt(before + Build(timestamp).value + rest, |before|)
    ensures TryParse(before + Build(timestamp).value + rest, |before| + 4) == Some(timestamp)
  {
    var nal := Build(timestamp).value;
    var data := before + nal + rest;
    var n := |before|;
    assert data[n..n + |nal|] == nal;
    assert nal[..4] == START_CODE;
    assert data[n..n + 4] == data[n..n + |nal|][..4];
    assert nal[4] == NAL_HEADER_SEI && data[n + 4] == nal[4];
    assert nal[5..31] == [SEI_TYPE_USER_DATA_UNREGISTERED, SEI_PAYLOAD_SIZE] + SEI_UUID + PackQ(timestamp);
    assert data[n + 5..n + 31] == data[n..n + |nal|][5..31];
    ParsesExactly(data, n + 4, timestamp);
  }

  /** The stamp comes back from any stream that begins with it, for every signed 64-bit number. */
  lemma RoundTrip(timestamp: int, rest: Data, result: Option<int>)
    requires IsInt64(timestamp) && IsResult(Build(timestamp).value + rest, result)
    ensures result == Some(timestamp)
  {
    BuiltParses(timestamp, [], rest);
    assert [] + Build(timestamp).value + rest == Build(timestamp).value + rest;
    assert FirstHit(Build(timestamp).value + rest, 0);
  }

  /** Whatever precedes the stamp, something is found, and no later than the stamp. */
  lemma FoundInTheMiddle(timestamp: int, before: Data, rest: Data, result: Option<int>)
    requires IsInt64(timestamp) && IsResult(before + Build(timestamp).value + rest, result)
    ensures result.Some?
    ensures (forall pos: nat | pos < |before| :: !Hit(before + Build(timestamp).value + rest, pos)) ==>
              result == Some(timestamp)
  {
    var data := before + Build(timestamp).value + rest;
    BuiltParses(timestamp, before, rest);
    var first := SomeFirstHit(data, |before|);
    assert result == TryParse(data, first + 4);
  }

  /** The result is determined, so every way of computing it agrees. */
  lemma ResultIsUnique(data: Data, a: Option<int>, b: Option<int>)
    requires IsResult(data, a) && IsResult(data, b)
    ensures a == b
  {
    if pos: nat :| FirstHit(data, pos) {
      assert a == TryParse(data, pos + 4);
    }
  }

  /** A stamp sent as a length-prefixed unit comes back as well, when no start code is in the way. */
  lemma UnitRoundTrip(timestamp: int, rest: Data, result: Option<int>)
    requires IsInt64(timestamp)
    requires var data := Encode28() + Build(timestamp).value[4..] + rest;
             IsResult(data, result) && forall pos: nat :: !FirstHit(data, pos)
    ensures result == Some(timestamp)
  {
    hide TryParse, PackQ;
    var nal := Build(timestamp).value;
    var unit := nal[4..];
    var data := Encode28() + unit + rest;
    LengthOfUnit();
    assert |unit| == 28 && data[0..4] == Encode28();
    assert UnitLength(data, 0) == Some(28);
    BuiltParses(timestamp, [], rest);
    assert [] + nal + rest == nal + rest;
    SameUnitParses(nal + rest, data, timestamp) by {
      assert (nal + rest)[4..] == unit + rest;
      assert data == Encode28() + (unit + rest);
      assert data[4..] == unit + rest;
    }
    assert Units(data, 0)[0] == 4;
  }

  /** Parsing at position 4 looks at nothing before it. */
  lemma SameUnitParses(a: Data, b: Data, timestamp: int)
    requires |a| >= 4 && |b| >= 4 && a[4..] == b[4..] && TryParse(a, 4) == Some(timestamp)
    ensures TryParse(b, 4) == Some(timestamp)
  {
    ParsesExactly(a, 4, timestamp);
    ParsesExactly(b, 4, timestamp);
    assert |a| == 4 + |a[4..]| == |b|;
    assert a[4] == a[4..][0] && b[4] == b[4..][0];
    SliceOfSlice(a, 4, |a|, 1, 27);
    SliceOfSlice(b, 4, |b|, 1, 27);
    assert a[4..|a|] == a[4..] && b[4..|b|] == b[4..];
  }

  // ---------------------------------------------------------------- streams of units

  /** A unit that a length field of four bytes can announce */
  predicate IsUnit(unit: Data) {
    0 < |unit| < 0x1_0000_0000
  }

  /** The length of a unit, highest byte first */
  function LengthField(unit: Data): (field: Data)
    requires IsUnit(unit)
    ensures |field| == 4 && Decode(field) == |unit|
  {
    PowerOfEight();
    DecodeEncode(|unit|, 4);
    Encode(|unit|, 4)
  }

  /** The units, each behind its length */
  function Stream(units: seq<Data>): Data
    requires forall k | 0 <= k < |units| :: IsUnit(units[k])
  {
    if units == [] then [] else LengthField(units[0]) + (units[0] + Stream(units[1..]))
  }

  /** Where unit `k` of the stream begins */
  function StartOf(units: seq<Data>, k: nat): nat
    requires k < |units|
  {
    if k == 0 then 4 else 4 + |units[0]| + StartOf(units[1..], k - 1)
  }

  lemma FirstUnit(data: Data, before: Data, unit: Data, rest: Data)
    requires IsUnit(unit) && data == before + (LengthField(unit) + (unit + rest))
    ensures Units(data, |before|) == [|before| + 4] + Units(data, |before| + 4 + |unit|)
  {
    hide *;
    var field := LengthField(unit);
    FieldAt(data, before, field, unit + rest);
    NotEmpty(unit);
    UnitAt(data, |before|, field, |unit|);
  }

  lemma NotEmpty(unit: Data)
    requires IsUnit(unit)
    ensures |unit| > 0
  {
  }

  lemma FieldAt(data: Data, before: Data, field: Data, rest: Data)
    requires |field| == 4 && data == before + (field + rest)
    ensures data[|before|..|before| + 4] == field && |data| == |before| + 4 + |rest|
  {
    assert data[|before|..] == field + rest;
    SliceOfSlice(data, |before|, |data|, 0, 4);
  }

  lemma UnitAt(data: Data, pos: nat, field: Data, n: nat)
    requires n > 0 && pos + 4 + n <= |data| && data[pos..pos + 4] == field && Decode(field) == n
    ensures Units(data, pos) == [pos + 4] + Units(data, pos + 4 + n)
  {
    assert UnitLength(data, pos) == Some(n);
  }

  /** The walk over the length fields finds every unit of a stream, and nothing else. */
  lemma {:induction false} UnitsOfStream(data: Data, before: Data, units: seq<Data>)
    requires (forall k | 0 <= k < |units| :: IsUnit(units[k])) && data == before + Stream(units)
    ensures var starts := Units(data, |before|);
            && |starts| == |units|
            && forall k | 0 <= k < |units| :: starts[k] == |before| + StartOf(units, k)
    decreases |units|
  {
    hide LengthField, IsUnit, Units;
    if units == [] {
      assert data == before;
      NoUnits(before);
    } else {
      var unit, rest := units[0], Stream(units[1..]);
      assert Stream(units) == LengthField(unit) + (unit + rest);
      hide Stream;
      FirstUnit(data, before, unit, rest);
      var longer := before + (LengthField(unit) + unit);
      Regroup(before, LengthField(unit), unit, rest);
      UnitsOfStream(data, longer, units[1..]);
    }
  }

  lemma NoUnits(data: Data)
    ensures Units(data, |data|) == []
  {
  }

  lemma Regroup(a: Data, b: Data, c: Data, d: Data)
    ensures a + (b + (c + d)) == a + (b + c) + d
  {
    assert b + (c + d) == (b + c) + d;
    assert a + ((b + c) + d) == (a + (b + c)) + d;
  }

  lemma {:induction false} UnitInStream(data: Data, before: Data, units: seq<Data>, k: nat)
    requires (forall i | 0 <= i < |units| :: IsUnit(units[i])) && data == before + Stream(units) && k < |units|
    ensures |before| + StartOf(units, k) + |units[k]| <= |data|
    ensures data[|before| + StartOf(units, k)..|before| + StartOf(units, k) + |units[k]|] == units[k]
    decreases |units|
  {
    hide LengthField, IsUnit;
    var unit, rest := units[0], Stream(units[1..]);
    assert Stream(units) == LengthField(unit) + (unit + rest);
    hide Stream;
    Regroup(before, LengthField(unit), unit, rest);
    var longer := before + (LengthField(unit) + unit);
    if k == 0 {
      assert data[|before| + 4..|before| + 4 + |unit|] == unit;
    } else {
      UnitInStream(data, longer, units[1..], k - 1);
    }
  }

  /** The result is the first timestamp that one of the places yields. */
  lemma {:induction false} FirstParsedIff(data: Data, starts: seq<nat>, t: int)
    ensures FirstParsed(data, starts) == Some(t) <==> exists i :: FirstAt(data, starts, i, t)
    ensures FirstParsed(data, starts) == None <==> forall i | 0 <= i < |starts| :: TryParse(data, starts[i]) == None
  {
    hide TryParse;
    if starts != [] {
      var later := starts[1..];
      FirstParsedIff(data, later, t);
      assert forall i | 0 < i < |starts| :: starts[i] == later[i - 1];
      if TryParse(data, starts[0]) == None {
        if i :| FirstAt(data, starts, i, t) {
          assert FirstAt(data, later, i - 1, t);
        }
        if i :| FirstAt(data, later, i, t) {
          assert FirstAt(data, starts, i + 1, t);
        }
        assert forall i | 0 <= i < |later| :: later[i] == starts[i + 1];
      } else if TryParse(data, starts[0]) == Some(t) {
        assert FirstAt(data, starts, 0, t);
      }
    }
  }

  /** The `i`-th place yields the timestamp, and none before it yields any. */
  predicate FirstAt(data: Data, starts: seq<nat>, i: int, t: int) {
    && 0 <= i < |starts| && TryParse(data, starts[i]) == Some(t)
    && forall j | 0 <= j < i :: TryParse(data, starts[j]) == None
  }

  /** A stamp comes back from any stream of units, if no start code and no earlier unit parses. */
  lemma StampAmongUnits(units: seq<Data>, k: nat, timestamp: int, result: Option<int>)
    requires (forall i | 0 <= i < |units| :: IsUnit(units[i])) && k < |units| && IsInt64(timestamp)
    requires Build(timestamp).value[4..] <= units[k]
    requires var data := Stream(units);
             && IsResult(data, result) && (forall pos: nat :: !FirstHit(data, pos))
             && forall j | 0 <= j < k :: TryParse(data, StartOf(units, j)) == None
    ensures result == Some(timestamp)
  {
    hide *;
    var data := Stream(units);
    var start := StartOf(units, k);
    assert data == [] + data;
    UnitsOfStream(data, [], units);
    UnitInStream(data, [], units, k);
    ParsesWhereItIs(data, start, units[k], timestamp);
    FirstParsedIff(data, Units(data, 0), timestamp);
    IsFirstAt(data, Units(data, 0), k, timestamp);
    ResultOfUnits(data, result);
  }

  lemma IsFirstAt(data: Data, starts: seq<nat>, k: nat, timestamp: int)
    requires k < |starts| && TryParse(data, starts[k]) == Some(timestamp)
    requires forall j | 0 <= j < k :: TryParse(data, starts[j]) == None
    ensures FirstAt(data, starts, k, timestamp)
  {
    hide TryParse;
  }

  lemma ResultOfUnits(data: Data, result: Option<int>)
    requires IsResult(data, result) && forall pos: nat :: !FirstHit(data, pos)
    ensures result == FirstParsed(data, Units(data, 0))
  {
    hide FirstParsed, Units, FirstHit;
  }

  /** Parsing looks only at the unit, wherever that is. */
  lemma ParsesWhereItIs(data: Data, start: nat, unit: Data, timestamp: int)
    requires start + |unit| <= |data| && data[start..start + |unit|] == unit
    requires IsInt64(timestamp) && Build(timestamp).value[4..] <= unit
    ensures TryParse(data, start) == Some(timestamp)
  {
    hide PackQ;
    StampIsOurs(timestamp, unit);
    SliceOfSlice(data, start, start + |unit|, 1, 27);
    assert data[start] == unit[0];
    ParsesExactly(data, start, timestamp);
  }

  lemma StampIsOurs(timestamp: int, unit: Data)
    requires IsInt64(timestamp) && Build(timestamp).value[4..] <= unit
    ensures IsOurSei(unit, 0, timestamp)
  {
    hide PackQ;
    var body := [SEI_TYPE_USER_DATA_UNREGISTERED, SEI_PAYLOAD_SIZE] + SEI_UUID + PackQ(timestamp);
    var stamp := Build(timestamp).value;
    assert stamp == START_CODE + [NAL_HEADER_SEI] + body + [TRAILING];
    assert stamp[4..] == [NAL_HEADER_SEI] + body + [TRAILING] == unit[..28];
    assert unit[1..27] == unit[..28][1..27] == body;
  }

  function Encode28(): Data {
    [0, 0, 0, 28]
  }

  lemma LengthOfUnit()
    ensures Decode(Encode28()) == 28
  {
    var b := Encode28();
    assert b[..3] == [0, 0, 0] && [0 as byte, 0, 0][..2] == [0, 0] && [0 as byte, 0][..1] == [0];
    assert Decode([0]) == 0;
    assert Decode([0, 0]) == 0;
    assert Decode([0, 0, 0]) == 0;
  }
}
