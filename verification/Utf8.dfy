/**
 Strict UTF-8 (RFC 3629), as Python's bytes.decode("utf-8") accepts it: no overlong forms, no
 surrogates, nothing above U+10FFFF.  A string is a sequence of Unicode scalar values.
 */
module Utf8 {
  import opened Results
  import opened Bytes

  predicate Continuation(b: byte) {
    0x80 <= b < 0xC0
  }

  function EncodeChar(c: char): (b: bytes)
    ensures 1 <= |b| <= 4
  {
    var n := c as int;
    if n < 0x80 then [n as byte]
    else if n < 0x800 then [(0xC0 + n / 64) as byte, Tail(n)]
    else if n < 0x1_0000 then [(0xE0 + n / 64 / 64) as byte, Tail(n / 64), Tail(n)]
    else [(0xF0 + n / 64 / 64 / 64) as byte, Tail(n / 64 / 64), Tail(n / 64), Tail(n)]
  }

  /** The continuation byte that carries the low six bits. */
  function Tail(n: nat): (b: byte)
    ensures Continuation(b)
  {
    (0x80 + n % 64) as byte
  }

  /** The first scalar value of b and the number of bytes it takes, if b starts with a well-formed one. */
  function DecodeChar(b: bytes): (r: Option<(char, nat)>)
    ensures r.Some? ==> 1 <= r.value.1 <= |b|
  {
    if |b| >= 1 && b[0] < 0x80 then
      Some((b[0] as int as char, 1))
    else if |b| >= 2 && 0xC2 <= b[0] <= 0xDF && Continuation(b[1]) then
      var n: int := 64 * (b[0] as int - 0xC0) + (b[1] as int - 0x80);
      Some((n as char, 2))
    else if |b| >= 3 && 0xE0 <= b[0] <= 0xEF && Continuation(b[1]) && Continuation(b[2])
            && (b[0] == 0xE0 ==> 0xA0 <= b[1]) && (b[0] == 0xED ==> b[1] < 0xA0) then
      var n: int := 64 * (64 * (b[0] as int - 0xE0) + (b[1] as int - 0x80)) + (b[2] as int - 0x80);
      Some((n as char, 3))
    else if |b| >= 4 && 0xF0 <= b[0] <= 0xF4 && Continuation(b[1]) && Continuation(b[2]) && Continuation(b[3])
            && (b[0] == 0xF0 ==> 0x90 <= b[1]) && (b[0] == 0xF4 ==> b[1] < 0x90) then
      var n: int := 64 * (64 * (64 * (b[0] as int - 0xF0) + (b[1] as int - 0x80)) + (b[2] as int - 0x80)) + (b[3] as int - 0x80);
      Some((n as char, 4))
    else
      None
  }

  function Encode(s: string): bytes {
    if s == [] then [] else EncodeChar(s[0]) + Encode(s[1..])
  }

  /** None stands for UnicodeDecodeError. */
  function Decode(b: bytes): Option<string> {
    if b == [] then Some("")
    else
      match DecodeChar(b)
      case None => None
      case Some((c, used)) =>
        match Decode(b[used..])
        case None => None
        case Some(rest) => Some([c] + rest)
  }

  lemma DecodeEncodedChar(c: char, rest: bytes)
    ensures DecodeChar(EncodeChar(c) + rest) == Some((c, |EncodeChar(c)|))
  {
    var n := c as int;
    var code := EncodeChar(c);
    var b := code + rest;
    assert forall k :: 0 <= k < |code| ==> b[k] == code[k];
    var q, r := n / 64, n % 64;
    assert n == 64 * q + r;
    var q', r' := q / 64, q % 64;
    assert q == 64 * q' + r';
    assert q' == 64 * (q' / 64) + q' % 64;
  }

  /** Decoding inverts encoding for every string. */
  lemma {:induction false} DecodeEncode(s: string)
    ensures Decode(Encode(s)) == Some(s)
  {
    if s != [] {
      DecodeEncodedChar(s[0], Encode(s[1..]));
      DecodeEncode(s[1..]);
      assert Encode(s)[|EncodeChar(s[0])|..] == Encode(s[1..]);
      assert [s[0]] + s[1..] == s;
    }
  }

  lemma SplitDigits(high: nat, low: nat)
    requires low < 64
    ensures (64 * high + low) / 64 == high && (64 * high + low) % 64 == low
  {
  }

  lemma EncodeTwo(c: char, high: nat, low: nat)
    requires high < 32 && low < 64 && c as int == 64 * high + low && 0x80 <= c as int < 0x800
    ensures EncodeChar(c) == [(0xC0 + high) as byte, (0x80 + low) as byte]
  {
    SplitDigits(high, low);
  }

  lemma EncodeThree(c: char, high: nat, mid: nat, low: nat)
    requires high < 16 && mid < 64 && low < 64 && c as int == 64 * (64 * high + mid) + low && 0x800 <= c as int < 0x1_0000
    ensures EncodeChar(c) == [(0xE0 + high) as byte, (0x80 + mid) as byte, (0x80 + low) as byte]
  {
    SplitDigits(64 * high + mid, low);
    SplitDigits(high, mid);
  }

  lemma EncodeFour(c: char, high: nat, mid: nat, next: nat, low: nat)
    requires high < 8 && mid < 64 && next < 64 && low < 64 && 0x1_0000 <= c as int
    requires c as int == 64 * (64 * (64 * high + mid) + next) + low
    ensures EncodeChar(c) == [(0xF0 + high) as byte, (0x80 + mid) as byte, (0x80 + next) as byte, (0x80 + low) as byte]
  {
    SplitDigits(64 * (64 * high + mid) + next, low);
    SplitDigits(64 * high + mid, next);
    SplitDigits(high, mid);
  }

  lemma EncodeDecodedChar(b: bytes)
    requires DecodeChar(b).Some?
    ensures EncodeChar(DecodeChar(b).value.0) == b[..DecodeChar(b).value.1]
  {
    var (c, used) := DecodeChar(b).value;
    if used == 2 {
      EncodeTwo(c, b[0] as int - 0xC0, b[1] as int - 0x80);
    } else if used == 3 {
      EncodeThree(c, b[0] as int - 0xE0, b[1] as int - 0x80, b[2] as int - 0x80);
    } else if used == 4 {
      EncodeFour(c, b[0] as int - 0xF0, b[1] as int - 0x80, b[2] as int - 0x80, b[3] as int - 0x80);
    }
  }

  lemma EncodeCons(c: char, rest: string)
    ensures Encode([c] + rest) == EncodeChar(c) + Encode(rest)
  {
    assert ([c] + rest)[1..] == rest;
  }

  /** Whatever decodes is the encoding of the result, so different bytes never decode to the same string. */
  lemma {:induction false} EncodeDecode(b: bytes)
    requires Decode(b).Some?
    ensures Encode(Decode(b).value) == b
  {
    if b != [] {
      var c, used, rest := DecodeParts(b);
      EncodeDecode(b[used..]);
      EncodeCons(c, rest);
      assert b[..used] + b[used..] == b;
    }
  }

  lemma DecodeParts(b: bytes) returns (c: char, used: nat, rest: string)
    requires b != [] && Decode(b).Some?
    ensures 0 < used <= |b| && Decode(b[used..]) == Some(rest) && Decode(b) == Some([c] + rest)
    ensures EncodeChar(c) == b[..used]
  {
    EncodeDecodedChar(b);
    c, used := DecodeChar(b).value.0, DecodeChar(b).value.1;
    rest := Decode(b[used..]).value;
  }

  /** A decoder that inverts Encode and accepts nothing else. */
  ghost predicate Inverts(decode: bytes -> Option<string>) {
    && (forall s :: decode(Encode(s)) == Some(s))
    && (forall b :: decode(b).Some? ==> Encode(decode(b).value) == b)
  }

  lemma DecodeInverts()
    ensures Inverts(Decode)
  {
    forall s ensures Decode(Encode(s)) == Some(s) {
      DecodeEncode(s);
    }
    forall b | Decode(b).Some? ensures Encode(Decode(b).value) == b {
      EncodeDecode(b);
    }
  }

  lemma Recovers(decode: bytes -> Option<string>, s: string)
    requires Inverts(decode)
    ensures decode(Encode(s)) == Some(s)
  {
  }

  lemma AcceptsOnlyEncodings(decode: bytes -> Option<string>, b: bytes)
    requires Inverts(decode) && decode(b).Some?
    ensures Encode(decode(b).value) == b
  {
  }
}
