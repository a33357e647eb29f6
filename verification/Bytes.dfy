/** Bytes and big-endian integers. */
module Bytes {

  newtype byte = x: int | 0 <= x < 256

  function Power(n: nat): (p: nat)
    ensures p > 0
  {
    if n == 0 then 1 else 256 * Power(n - 1)
  }

  /** `n` bytes, most significant first. */
  function Encode(value: nat, n: nat): (bytes: seq<byte>)
    requires value < Power(n)
    ensures |bytes| == n
  {
    if n == 0 then [] else Encode(value / 256, n - 1) + [(value % 256) as byte]
  }

  function Decode(bytes: seq<byte>): (value: nat)
    ensures value < Power(|bytes|)
  {
    if bytes == [] then 0 else Decode(bytes[..|bytes| - 1]) * 256 + bytes[|bytes| - 1] as nat
  }

  lemma {:induction false} DecodeEncode(value: nat, n: nat)
    requires value < Power(n)
    ensures Decode(Encode(value, n)) == value
  {
    if n > 0 {
      DecodeEncode(value / 256, n - 1);
      assert Encode(value, n)[..n - 1] == Encode(value / 256, n - 1);
    }
  }

  lemma {:induction false} EncodeDecode(bytes: seq<byte>)
    ensures Encode(Decode(bytes), |bytes|) == bytes
  {
    if bytes != [] {
      EncodeDecode(bytes[..|bytes| - 1]);
    }
  }

  lemma PowerOfTwo()
    ensures Power(2) == 0x1_0000
  {
    assert Power(1) == 256 * Power(0);
  }

  lemma DivideTwice(value: nat, n: nat)
    ensures value / Power(n) / 256 == value / Power(n + 1)
  {
    DivideBy(value, Power(n));
  }

  lemma DivideBy(value: nat, p: nat)
    requires p > 0
    ensures value / p / 256 == value / (256 * p)
  {
    var t := value / p / 256;
    var high, low := value / p % 256, value % p;
    TwoDigits(value / p, t, high);
    assert value == (t * 256 + high) * p + low;
    assert (t * 256 + high) * p == t * (256 * p) + high * p;
    AtMost(high, 255, p);
    assert high * p + low < 256 * p;
    DivisionIsUnique(value, 256 * p, t, high * p + low);
  }

  lemma TwoDigits(x: nat, t: nat, low: nat)
    requires t == x / 256 && low == x % 256
    ensures x == t * 256 + low && low <= 255
  {
  }

  lemma AtMost(a: nat, b: nat, p: nat)
    requires a <= b
    ensures a * p <= b * p
  {
  }

  lemma DivisionIsUnique(value: nat, p: nat, q: nat, r: nat)
    requires p > 0 && value == q * p + r && r < p
    ensures value / p == q
  {
    var s := value / p;
    assert s * p <= value < s * p + p;
    if s < q {
      AtMost(s + 1, q, p);
    } else if s > q {
      AtMost(q + 1, s, p);
    }
  }

  /** Byte `i` of an encoded number */
  lemma {:induction false} EncodeAt(value: nat, n: nat, i: nat)
    requires value < Power(n) && i < n
    ensures Encode(value, n)[i] as nat == value / Power(n - 1 - i) % 256
  {
    if i < n - 1 {
      EncodeAt(value / 256, n - 1, i);
      DivideFirst(value, n - 2 - i);
    }
  }

  lemma {:induction false} DivideFirst(value: nat, n: nat)
    ensures value / 256 / Power(n) == value / Power(n + 1)
  {
    if n > 0 {
      DivideFirst(value, n - 1);
      DivideTwice(value / 256, n - 1);
      DivideTwice(value, n);
    }
  }
}
