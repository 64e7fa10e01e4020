/** Percent-encoding (`percent_encode` and `percent_decode` of `history.rs`) over the unreserved set of
    section 2.3 of RFC 3986. */
module PercentCoding {
  import opened Text
  import opened Utf8

  predicate Unreserved(b: nat) {
    || 'A' as int <= b <= 'Z' as int
    || 'a' as int <= b <= 'z' as int
    || '0' as int <= b <= '9' as int
    || b == '-' as int || b == '.' as int || b == '_' as int || b == '~' as int
  }

  /** An upper-case hexadecimal digit. */
  function HexDigit(d: nat): (b: nat)
    requires d < 16
  {
    if d < 10 then '0' as int + d else 'A' as int + (d - 10)
  }

  /** `char::to_digit(16)`. */
  function HexValue(b: nat): (d: Option<nat>)
    ensures d.Some? ==> d.value < 16
  {
    if '0' as int <= b <= '9' as int then Some(b - '0' as int)
    else if 'A' as int <= b <= 'F' as int then Some(b - 'A' as int + 10)
    else if 'a' as int <= b <= 'f' as int then Some(b - 'a' as int + 10)
    else None
  }

  /** `u8::from_str_radix` of two bytes: two digits, or a plus sign and one digit. */
  function HexByte(h: nat, l: nat): (b: Option<nat>) {
    if HexValue(l).None? then None
    else if h == '+' as int then HexValue(l)
    else if HexValue(h).None? then None
    else Some(HexValue(h).value * 16 + HexValue(l).value)
  }

  function EscapeByte(b: nat): (bs: Bytes)
    requires b < 256
  {
    if Unreserved(b) then [b] else ['%' as int, HexDigit(b / 16), HexDigit(b % 16)]
  }

  const HEX: string := "0123456789ABCDEF"

  /** Letters, digits and four marks stand for themselves; every other byte is a percent sign and two digits. */
  lemma EscapesLikeThis(b: nat)
    requires b < 256
    ensures (exists c: char :: b == c as int && ('A' <= c <= 'Z' || 'a' <= c <= 'z' || '0' <= c <= '9' || c in "-._~"))
            <==> EscapeByte(b) == [b]
    ensures EscapeByte(b) == [b] || EscapeByte(b) == ['%' as int, HEX[b / 16] as int, HEX[b % 16] as int]
  {
    HexIsTable(b / 16);
    HexIsTable(b % 16);
    if EscapeByte(b) == [b] {
      var c := b as char;
      assert c in "-._~" <==> c == '-' || c == '.' || c == '_' || c == '~';
      assert b == c as int;
    }
  }

  lemma HexIsTable(d: nat)
    requires d < 16
    ensures HexDigit(d) == HEX[d] as int
  {
  }

  function EscapeBytes(bs: Bytes): (es: Bytes)
    requires AllBytes(bs)
  {
    if bs == [] then [] else EscapeByte(bs[0]) + EscapeBytes(bs[1..])
  }

  function UnescapeBytes(es: Bytes): (bs: Option<Bytes>)
    decreases |es|
  {
    if es == [] then Some([])
    else if es[0] == '%' as int then
      if |es| < 3 then None
      else if HexByte(es[1], es[2]).None? then None
      else Before(HexByte(es[1], es[2]).value, UnescapeBytes(es[3..]))
    else Before(es[0], UnescapeBytes(es[1..]))
  }

  function Before(b: nat, bs: Option<Bytes>): (r: Option<Bytes>) {
    if bs.None? then None else Some([b] + bs.value)
  }

  /** ASCII bytes as characters. */
  predicate Ascii(bs: Bytes) {
    forall i :: 0 <= i < |bs| ==> bs[i] < 128
  }

  function Chars(bs: Bytes): (s: string)
    requires Ascii(bs)
  {
    if bs == [] then "" else [bs[0] as char] + Chars(bs[1..])
  }

  lemma {:induction false} EscapedIsAscii(bs: Bytes)
    requires AllBytes(bs)
    ensures Ascii(EscapeBytes(bs))
  {
    if bs != [] {
      EscapedIsAscii(bs[1..]);
    }
  }

  function Escaped(bs: Bytes): (s: string)
    requires AllBytes(bs)
  {
    EscapedIsAscii(bs);
    Chars(EscapeBytes(bs))
  }

  function PercentEncode(input: string): (s: string) {
    EncodedBytes(input);
    Escaped(Encode(input))
  }

  function PercentDecode(input: string): (s: Option<string>) {
    var bs := UnescapeBytes(Encode(input));
    if bs.None? then None else Decode(bs.value)
  }

  // ---------------------------------------------------------------------------
  // The loops
  // ---------------------------------------------------------------------------

  method DecodeLoop(input: string) returns (s: Option<string>)
    ensures s == PercentDecode(input)
  {
    var bytes := Encode(input);
    var out: Bytes := [];
    var i := 0;
    NothingBefore(UnescapeBytes(bytes));
    assert bytes[0..] == bytes;
    while i < |bytes|
      invariant 0 <= i <= |bytes|
      invariant UnescapeBytes(bytes) == Behind(out, UnescapeBytes(bytes[i..]))
    {
      ghost var rest, before := bytes[i..], out;
      if bytes[i] == '%' as int {
        if i + 3 > |bytes| {
          return None;
        }
        var byte := HexByte(bytes[i + 1], bytes[i + 2]);
        if byte.None? {
          return None;
        }
        out := out + [byte.value];
        i := i + 3;
        assert rest[3..] == bytes[i..];
      } else {
        out := out + [bytes[i]];
        i := i + 1;
        assert rest[1..] == bytes[i..];
      }
      BehindBefore(before, out[|before|], UnescapeBytes(bytes[i..]));
    }
    assert out + [] == out;
    s := Decode(out);
  }

  function Behind(out: Bytes, rest: Option<Bytes>): (r: Option<Bytes>) {
    if rest.None? then None else Some(out + rest.value)
  }

  lemma NothingBefore(rest: Option<Bytes>)
    ensures Behind([], rest) == rest
  {
    if rest.Some? {
      assert [] + rest.value == rest.value;
    }
  }

  lemma BehindBefore(out: Bytes, b: nat, rest: Option<Bytes>)
    ensures Behind(out, Before(b, rest)) == Behind(out + [b], rest)
  {
    if rest.Some? {
      assert out + ([b] + rest.value) == out + [b] + rest.value;
    }
  }

  // ---------------------------------------------------------------------------
  // Inverse
  // ---------------------------------------------------------------------------

  lemma {:induction false} UnescapeEscape(bs: Bytes)
    requires AllBytes(bs)
    ensures UnescapeBytes(EscapeBytes(bs)) == Some(bs)
  {
    if bs != [] {
      UnescapeEscape(bs[1..]);
      assert [bs[0]] + bs[1..] == bs;
    }
  }

  lemma {:induction false} AsciiEncodes(bs: Bytes)
    requires Ascii(bs)
    ensures Encode(Chars(bs)) == bs
  {
    if bs != [] {
      AsciiEncodes(bs[1..]);
      assert Chars(bs)[1..] == Chars(bs[1..]);
      assert [bs[0]] + bs[1..] == bs;
    }
  }

  /** Decoding undoes encoding, for every string. */
  lemma DecodeUndoesEncode(s: string)
    ensures PercentDecode(PercentEncode(s)) == Some(s)
  {
    EncodedBytes(s);
    var bs := Encode(s);
    EscapedIsAscii(bs);
    AsciiEncodes(EscapeBytes(bs));
    UnescapeEscape(bs);
    DecodeEncode(s);
  }

  // ---------------------------------------------------------------------------
  // The other direction
  // ---------------------------------------------------------------------------

  /** The encodings the encoder writes: an escape only where one is needed, its digits in upper case. */
  predicate Canonical(es: Bytes)
    decreases |es|
  {
    if es == [] then true
    else if es[0] == '%' as int then
      && |es| >= 3 && UpperHex(es[1]) && UpperHex(es[2])
      && !Unreserved(HexValue(es[1]).value * 16 + HexValue(es[2]).value)
      && Canonical(es[3..])
    else Unreserved(es[0]) && Canonical(es[1..])
  }

  predicate UpperHex(b: nat)
    ensures UpperHex(b) ==> HexValue(b).Some?
  {
    '0' as int <= b <= '9' as int || 'A' as int <= b <= 'F' as int
  }

  lemma DigitsOfByte(h: nat, l: nat)
    requires HexByte(h, l).Some?
    ensures HexByte(h, l).value < 256
    ensures ['%' as int, h, l] == ['%' as int, HexDigit(HexByte(h, l).value / 16), HexDigit(HexByte(h, l).value % 16)]
       <==> UpperHex(h) && UpperHex(l)
  {
    var v := HexByte(h, l).value;
    if h == '+' as int {
      assert v / 16 == 0;
    } else {
      var hi, lo := HexValue(h).value, HexValue(l).value;
      assert v / 16 == hi && v % 16 == lo;
    }
  }

  lemma {:induction false} EscapeUnescape(es: Bytes)
    requires AllBytes(es) && UnescapeBytes(es).Some?
    ensures AllBytes(UnescapeBytes(es).value)
    ensures EscapeBytes(UnescapeBytes(es).value) == es <==> Canonical(es)
    decreases |es|
  {
    if es != [] {
      var n := if es[0] == '%' as int then 3 else 1;
      EscapeUnescape(es[n..]);
      var b := if n == 3 then HexByte(es[1], es[2]).value else es[0];
      if n == 3 {
        DigitsOfByte(es[1], es[2]);
        assert es[..3] == ['%' as int, es[1], es[2]];
      } else {
        assert es[..1] == [es[0]];
      }
      var bs := UnescapeBytes(es[n..]).value;
      assert UnescapeBytes(es).value == [b] + bs && ([b] + bs)[1..] == bs;
      assert EscapeBytes([b] + bs) == EscapeByte(b) + EscapeBytes(bs);
      FrontAndRest(EscapeByte(b), EscapeBytes(bs), es, n);
    }
  }

  lemma FrontAndRest(front: Bytes, rest: Bytes, es: Bytes, n: nat)
    requires n <= |es|
    requires |front| == n || |front| == 1 || |front| == 3
    ensures |front| == n ==> (front + rest == es <==> front == es[..n] && rest == es[n..])
    ensures front + rest == es && front != [] ==> es[0] == front[0]
  {
    assert es == es[..n] + es[n..];
    if front + rest == es && |front| == n {
      assert (front + rest)[..n] == front && (front + rest)[n..] == rest;
    }
  }

  /** Encoding undoes decoding exactly on the encodings the encoder writes. */
  lemma EncodeUndoesDecodeExactlyWhen(t: string)
    requires PercentDecode(t).Some?
    ensures PercentEncode(PercentDecode(t).value) == t <==> Canonical(Encode(t))
  {
    var s := PercentDecode(t).value;
    var es := Encode(t);
    var bs := UnescapeBytes(es).value;
    EncodeDecode(bs);
    EncodedBytes(t);
    EncodedBytes(s);
    EscapeUnescape(es);
    EscapedIsAscii(bs);
    AsciiEncodes(EscapeBytes(bs));
    DecodeEncode(t);
    DecodeEncode(PercentEncode(s));
  }

  /** A sign passes as the first digit: an escape outside section 2.1 of RFC 3986 is accepted. */
  lemma SignIsAcceptedExample()
    ensures PercentDecode("%+f") == Some(['\U{000F}'])
  {
    var es := ['%' as int, '+' as int, 'f' as int];
    assert Chars(es) == "%+f" by {
      assert es[1..][1..] == ['f' as int] && es[1..][1..][1..] == [];
      assert Chars(es[1..][1..][1..]) == "";
      assert Chars(es[1..][1..]) == "f";
      assert Chars(es[1..]) == "+f";
    }
    AsciiEncodes(es);
    assert es[3..] == [];
    assert UnescapeBytes(es[3..]) == Some([]);
    var bs: Bytes := [15];
    assert HexByte(es[1], es[2]) == Some(15) && bs + [] == bs;
    assert UnescapeBytes(es) == Before(15, UnescapeBytes(es[3..]));
    assert bs[1..] == [];
    assert Decode(bs[1..]) == Some("");
    assert First(bs) == Some((15, 1));
    assert [15 as char] + "" == ['\U{000F}'];
    assert Decode(bs) == Some(['\U{000F}']);
  }
}
