/** The octets of a text, as section 3 of RFC 3629 has them. */
module Utf8 {
  import opened Text
  import opened Wrappers

  newtype byte = b: int | 0 <= b < 256

  predicate IsTail(b: byte) {
    0x80 <= b < 0xC0
  }

  /** The six low bits of `n` after a shift, as a continuation octet. */
  function Tail(n: nat): (b: byte)
    ensures IsTail(b)
  {
    (0x80 + n % 64) as byte
  }

  function EncodeChar(c: char): (octets: seq<byte>)
    ensures 1 <= |octets| <= 4
  {
    var n := c as int;
    if n < 0x80 then [n as byte]
    else if n < 0x800 then [(0xC0 + n / 64) as byte, Tail(n)]
    else if n < 0x10000 then [(0xE0 + n / 4096) as byte, Tail(n / 64), Tail(n)]
    else [(0xF0 + n / 262144) as byte, Tail(n / 4096), Tail(n / 64), Tail(n)]
  }

  function Encode(s: string): seq<byte> {
    if s == "" then [] else EncodeChar(s[0]) + Encode(s[1..])
  }

  /** How many octets a leading octet announces; 0 for one that leads nothing. */
  function Announced(lead: byte): nat {
    if lead < 0x80 then 1
    else if 0xC2 <= lead < 0xE0 then 2
    else if 0xE0 <= lead < 0xF0 then 3
    else if 0xF0 <= lead < 0xF5 then 4
    else 0
  }

  function Bits(b: byte): nat {
    b as int % 64
  }

  /** The number written in the octets of one code point. */
  function CodePoint(o: seq<byte>): nat
    requires o != [] && |o| == Announced(o[0])
  {
    if |o| == 1 then o[0] as nat
    else if |o| == 2 then o[0] as nat % 32 * 64 + Bits(o[1])
    else if |o| == 3 then o[0] as nat % 16 * 4096 + Bits(o[1]) * 64 + Bits(o[2])
    else o[0] as nat % 8 * 262144 + Bits(o[1]) * 4096 + Bits(o[2]) * 64 + Bits(o[3])
  }

  predicate IsScalar(n: nat) {
    n < 0xD800 || 0xE000 <= n < 0x110000
  }

  /** The text the octets stand for, if they stand for one. */
  function Decode(octets: seq<byte>): Option<string> {
    if octets == [] then Some("")
    else
      var k := Announced(octets[0]);
      if k == 0 || k > |octets| then None
      else
        var n := CodePoint(octets[..k]);
        var rest := Decode(octets[k..]);
        if !IsScalar(n) || rest.None? then None else Some([n as char] + rest.value)
  }

  lemma TailCarriesTheLowBits(n: nat)
    ensures Bits(Tail(n)) == n % 64 && n == n / 64 * 64 + n % 64
  {
  }

  /** Dividing by 64 again takes the next six bits. */
  lemma SixBitsAtATime(n: nat)
    ensures n / 64 / 64 == n / 4096 && n / 4096 / 64 == n / 262144
  {
  }

  lemma LeadCarriesTheHighBits(k: nat)
    ensures k < 32 ==> (0xC0 + k) % 32 == k
    ensures k < 16 ==> (0xE0 + k) % 16 == k
    ensures k < 8 ==> (0xF0 + k) % 8 == k
  {
  }

  lemma HighBits(n: nat)
    ensures n < 0x80 || 2 <= n / 64
    ensures n < 0x800 ==> n / 64 < 32
    ensures n < 0x10000 ==> n / 4096 < 16
    ensures n < 0x110000 ==> n / 262144 <= 4
  {
  }

  /** The size counts the octets of the code point, the octets announce their number, and they are
      read back as the code point. */
  lemma CharRoundTrip(c: char)
    ensures |EncodeChar(c)| == Utf8Size(c) == Announced(EncodeChar(c)[0])
    ensures CodePoint(EncodeChar(c)) == c as int && IsScalar(c as int)
  {
    hide Tail, Bits;
    var n := c as int;
    HighBits(n);
    TailCarriesTheLowBits(n);
    TailCarriesTheLowBits(n / 64);
    TailCarriesTheLowBits(n / 4096);
    SixBitsAtATime(n);
    LeadCarriesTheHighBits(n / 64);
    LeadCarriesTheHighBits(n / 4096);
    LeadCarriesTheHighBits(n / 262144);
  }

  /** `Utf8Len` is the length of the encoding, and the encoding is one: it can be decoded. */
  lemma {:induction false} LengthOfTheEncoding(s: string)
    ensures Utf8Len(s) == |Encode(s)|
    ensures Decode(Encode(s)) == Some(s)
    decreases |s|
  {
    hide EncodeChar, Utf8Size, Announced, CodePoint, IsScalar;
    if s != "" {
      CharRoundTrip(s[0]);
      LengthOfTheEncoding(s[1..]);
      var first, rest := EncodeChar(s[0]), Encode(s[1..]);
      assert (first + rest)[0] == first[0];
      assert (first + rest)[..|first|] == first && (first + rest)[|first|..] == rest;
      assert s == [s[0]] + s[1..];
    }
  }
}
