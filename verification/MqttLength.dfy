/** The Remaining Length field of the MQTT fixed header (MQTT 3.1.1, section 2.2.3). */
module MqttLength {
  import opened Bytes

  /** The largest value the sniffer accepts: three length bytes, one fewer than the standard allows. */
  const MAX_LENGTH: nat := 2_097_151

  /** What reading the field gives: the bytes ran out, a fourth byte was needed, or a value and its width. */
  datatype Length = Cut | Malformed | Decoded(value: nat, width: nat)

  /** Reads the field from code, of which `read` bytes have been consumed already. */
  function DecodeFrom(code: bytes, read: nat): (r: Length)
    ensures r.Decoded? ==> 1 <= r.width <= |code| && read + r.width <= 3
    decreases |code|
  {
    if code == [] then Cut
    else if read >= 3 then Malformed
    else if code[0] < 128 then Decoded(code[0] as nat, 1)
    else
      match DecodeFrom(code[1..], read + 1)
      case Decoded(value, width) => Decoded(code[0] as nat - 128 + 128 * value, width + 1)
      case failure => failure
  }

  function Decode(code: bytes): Length {
    DecodeFrom(code, 0)
  }

  /** The encoder of section 2.2.3: seven bits a byte, the top bit says that more follow. */
  function Encode(value: nat): (code: bytes)
    ensures |code| >= 1
  {
    if value < 128 then [value as byte] else [(128 + value % 128) as byte] + Encode(value / 128)
  }

  function Power128(k: nat): (p: nat)
    ensures p > 0
  {
    if k == 0 then 1 else 128 * Power128(k - 1)
  }

  /** Bytes after the field do not matter once it is complete or malformed. */
  lemma {:induction false} DecodeAppend(code: bytes, more: bytes, read: nat)
    requires DecodeFrom(code, read) != Cut
    ensures DecodeFrom(code + more, read) == DecodeFrom(code, read)
    decreases |code|
  {
    if read < 3 && code[0] >= 128 {
      DecodeAppend(code[1..], more, read + 1);
      assert (code + more)[1..] == code[1..] + more;
    }
  }

  lemma {:induction false} DecodeEncodeFrom(value: nat, rest: bytes, read: nat)
    requires read < 3 || (read == 3 && value > 0)
    ensures DecodeFrom(Encode(value) + rest, read) ==
            if value < Power128(3 - read) then Decoded(value, |Encode(value)|) else Malformed
    decreases value
  {
    var code := Encode(value) + rest;
    if read < 3 {
      assert Power128(3 - read) == 128 * Power128(2 - read);
      if value >= 128 {
        DecodeEncodeFrom(value / 128, rest, read + 1);
        assert code[1..] == Encode(value / 128) + rest;
        assert code[0] as int == 128 + value % 128;
      }
    }
  }

  /** Decoding inverts the standard's encoder up to MAX_LENGTH, and rejects every larger value. */
  lemma DecodeEncode(value: nat, rest: bytes)
    ensures Decode(Encode(value) + rest) ==
            if value <= MAX_LENGTH then Decoded(value, |Encode(value)|) else Malformed
  {
    DecodeEncodeFrom(value, rest, 0);
    assert Power128(3) == 128 * Power128(2) && Power128(2) == 128 * Power128(1) && Power128(1) == 128 * Power128(0);
  }

  lemma {:induction false} DecodedBound(code: bytes, read: nat)
    requires DecodeFrom(code, read).Decoded?
    ensures read < 3 && DecodeFrom(code, read).value < Power128(3 - read)
    decreases |code|
  {
    assert Power128(3 - read) == 128 * Power128(2 - read);
    if code[0] >= 128 {
      DecodedBound(code[1..], read + 1);
    }
  }

  /** Any accepted value is within the bound and takes at most three bytes. */
  lemma AcceptedLengthBound(code: bytes)
    requires Decode(code).Decoded?
    ensures Decode(code).value <= MAX_LENGTH && Decode(code).width <= 3
  {
    DecodedBound(code, 0);
    assert Power128(3) == 128 * Power128(2) && Power128(2) == 128 * Power128(1) && Power128(1) == 128 * Power128(0);
  }

  lemma UnfoldDecode(code: bytes)
    ensures Decode(code) ==
            if |code| == 0 then Cut
            else if code[0] < 128 then Decoded(code[0] as nat, 1)
            else if |code| == 1 then Cut
            else if code[1] < 128 then Decoded(code[0] as int - 128 + 128 * (code[1] as int), 2)
            else if |code| == 2 then Cut
            else if code[2] < 128 then Decoded(code[0] as int - 128 + 128 * (code[1] as int - 128 + 128 * (code[2] as int)), 3)
            else if |code| == 3 then Cut
            else Malformed
  {
    if |code| >= 1 {
      assert DecodeFrom(code[1..], 1) == if |code| == 1 then Cut else DecodeFrom(code[1..], 1);
      if |code| >= 2 {
        assert code[1..][1..] == code[2..];
        if |code| >= 3 {
          assert code[2..][1..] == code[3..];
          assert DecodeFrom(code[3..], 3) == if |code| == 3 then Cut else Malformed;
        }
      }
    }
  }

  /** A fourth length byte is always rejected, whatever it is, and nothing else is malformed. */
  lemma MalformedExactlyOnFourthByte(code: bytes)
    ensures Decode(code) == Malformed <==>
            |code| >= 4 && code[0] >= 128 && code[1] >= 128 && code[2] >= 128
    ensures Decode(code) == Cut <==>
            |code| <= 3 && forall k :: 0 <= k < |code| ==> code[k] >= 128
  {
    UnfoldDecode(code);
  }

  /** No accepted code is a proper prefix of another: a decoder never stops early or late. */
  lemma PrefixFree(short: bytes, long: bytes)
    requires Decode(short).Decoded? && Decode(short).width == |short|
    requires Decode(long).Decoded? && Decode(long).width == |long|
    requires short <= long
    ensures short == long
  {
    DecodeAppend(short, long[|short|..], 0);
    assert short + long[|short|..] == long;
  }

  /**
   The decoder also accepts overlong codes.  What was read is the standard's code for the value
   exactly when it is one byte long or its last byte is not zero.
   */
  lemma CanonicalExactlyWithoutTrailingZero(code: bytes)
    requires Decode(code).Decoded?
    ensures var r := Decode(code);
            code[..r.width] == Encode(r.value) <==> r.width == 1 || code[r.width - 1] != 0
  {
    UnfoldDecode(code);
    var r := Decode(code);
    if r.width == 2 {
      assert r.value % 128 == code[0] as int - 128 && r.value / 128 == code[1] as int;
      assert Encode(r.value) == if code[1] == 0 then [r.value as byte] else [code[0], code[1]];
      assert code[..2] == [code[0], code[1]];
    } else if r.width == 3 {
      var upper: int := code[1] as int - 128 + 128 * (code[2] as int);
      assert r.value % 128 == code[0] as int - 128 && r.value / 128 == upper;
      assert upper % 128 == code[1] as int - 128 && upper / 128 == code[2] as int;
      assert code[..3] == [code[0], code[1], code[2]];
      if code[2] != 0 {
        assert Encode(upper) == [code[1]] + Encode(code[2] as int);
        assert Encode(r.value) == [code[0]] + Encode(upper);
      } else {
        assert |Encode(upper)| == 1;
        assert |Encode(r.value)| <= 2;
      }
    }
  }
}
