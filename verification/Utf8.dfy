/** UTF-8 as defined by RFC 3629: strings are sequences of Unicode scalar values, bytes are numbers
    below 256. */
module Utf8 {
  import opened Text

  type Bytes = seq<nat>

  function EncodeChar(c: char): (bs: Bytes) {
    var v := c as int;
    if v < 0x80 then [v]
    else if v < 0x800 then [0xC0 + v / 64, 0x80 + v % 64]
    else if v < 0x10000 then [0xE0 + v / 4096, 0x80 + v / 64 % 64, 0x80 + v % 64]
    else [0xF0 + v / 262144, 0x80 + v / 4096 % 64, 0x80 + v / 64 % 64, 0x80 + v % 64]
  }

  /** One character of each length. */
  lemma EncodingExamples()
    ensures EncodeChar('A') == [0x41]
    ensures EncodeChar('\U{00E4}') == [0xC3, 0xA4]
    ensures EncodeChar('\U{20AC}') == [0xE2, 0x82, 0xAC]
    ensures EncodeChar('\U{1F600}') == [0xF0, 0x9F, 0x98, 0x80]
  {
  }

  function Encode(s: string): (bs: Bytes) {
    if s == "" then [] else EncodeChar(s[0]) + Encode(s[1..])
  }

  predicate Continues(b: nat) {
    0x80 <= b < 0xC0
  }

  predicate Scalar(v: int) {
    0 <= v < 0xD800 || 0xE000 <= v < 0x110000
  }

  /** The value and length of the character that starts the bytes, if they start with one. */
  function First(bs: Bytes): (r: Option<(int, nat)>)
    ensures r.Some? ==> Scalar(r.value.0) && 1 <= r.value.1 <= |bs|
  {
    if bs == [] then None
    else if bs[0] < 0x80 then Some((bs[0], 1))
    else if 0xC2 <= bs[0] < 0xE0 then
      if |bs| >= 2 && Continues(bs[1]) then Some((Two(bs[0], bs[1]), 2)) else None
    else if 0xE0 <= bs[0] < 0xF0 then
      if |bs| >= 3 && Continues(bs[1]) && Continues(bs[2]) then
        var v := Three(bs[0], bs[1], bs[2]);
        if v >= 0x800 && Scalar(v) then Some((v, 3)) else None
      else None
    else if 0xF0 <= bs[0] < 0xF5 then
      if |bs| >= 4 && Continues(bs[1]) && Continues(bs[2]) && Continues(bs[3]) then
        var v := Four(bs[0], bs[1], bs[2], bs[3]);
        if v >= 0x10000 && Scalar(v) then Some((v, 4)) else None
      else None
    else None
  }

  function Two(a: nat, b: nat): (v: int) {
    (a - 0xC0) * 64 + (b - 0x80)
  }

  function Three(a: nat, b: nat, c: nat): (v: int) {
    (a - 0xE0) * 4096 + (b - 0x80) * 64 + (c - 0x80)
  }

  function Four(a: nat, b: nat, c: nat, d: nat): (v: int) {
    (a - 0xF0) * 262144 + (b - 0x80) * 4096 + (c - 0x80) * 64 + (d - 0x80)
  }

  function Prepend(c: char, rest: Option<string>): (r: Option<string>) {
    if rest.None? then None else Some([c] + rest.value)
  }

  /** Strict decoding: no overlong forms, no surrogates, nothing beyond U+10FFFF. */
  function Decode(bs: Bytes): (s: Option<string>)
    decreases |bs|
  {
    if bs == [] then Some("")
    else
      var f := First(bs);
      if f.None? then None else Prepend(f.value.0 as char, Decode(bs[f.value.1..]))
  }

  lemma SplitThree(v: nat)
    ensures v == v / 4096 * 4096 + v / 64 % 64 * 64 + v % 64
  {
    assert v / 64 / 64 == v / 4096;
  }

  lemma SplitFour(v: nat)
    ensures v == v / 262144 * 262144 + v / 4096 % 64 * 4096 + v / 64 % 64 * 64 + v % 64
  {
    SplitThree(v);
    assert v / 4096 / 64 == v / 262144;
  }

  lemma FirstOfEncoded(c: char, rest: Bytes)
    ensures First(EncodeChar(c) + rest) == Some((c as int, |EncodeChar(c)|))
  {
    var v := c as int;
    SplitThree(v);
    SplitFour(v);
  }

  lemma {:induction false} DecodeEncode(s: string)
    ensures Decode(Encode(s)) == Some(s)
  {
    if s != "" {
      var rest := Encode(s[1..]);
      FirstOfEncoded(s[0], rest);
      DecodeEncode(s[1..]);
      assert (EncodeChar(s[0]) + rest)[|EncodeChar(s[0])|..] == rest;
      assert [s[0]] + s[1..] == s;
    }
  }

  lemma EncodedFirst(bs: Bytes)
    requires First(bs).Some?
    ensures EncodeChar(First(bs).value.0 as char) == bs[..First(bs).value.1]
  {
    var v := First(bs).value.0;
    if First(bs).value.1 == 2 {
    } else if First(bs).value.1 == 3 {
      ThreeDigits(bs[0] - 0xE0, bs[1] - 0x80, bs[2] - 0x80);
    } else if First(bs).value.1 == 4 {
      FourDigits(bs[0] - 0xF0, bs[1] - 0x80, bs[2] - 0x80, bs[3] - 0x80);
    }
  }

  lemma ThreeDigits(a: nat, b: nat, c: nat)
    requires b < 64 && c < 64
    ensures var v := a * 4096 + b * 64 + c; v / 4096 == a && v / 64 % 64 == b && v % 64 == c
  {
    var v := a * 4096 + b * 64 + c;
    assert v / 64 == a * 64 + b;
  }

  lemma FourDigits(a: nat, b: nat, c: nat, d: nat)
    requires b < 64 && c < 64 && d < 64
    ensures var v := a * 262144 + b * 4096 + c * 64 + d;
            v / 262144 == a && v / 4096 % 64 == b && v / 64 % 64 == c && v % 64 == d
  {
    var v := a * 262144 + b * 4096 + c * 64 + d;
    assert v / 64 == a * 4096 + b * 64 + c;
    ThreeDigits(a, b, c);
    assert v / 4096 == v / 64 / 64 && v / 262144 == v / 64 / 4096;
  }

  lemma {:induction false} EncodeDecode(bs: Bytes)
    requires Decode(bs).Some?
    ensures Encode(Decode(bs).value) == bs
    decreases |bs|
  {
    if bs != [] {
      var f := First(bs).value;
      EncodedFirst(bs);
      EncodeDecode(bs[f.1..]);
      var rest := Decode(bs[f.1..]).value;
      assert ([f.0 as char] + rest)[1..] == rest;
      assert bs == bs[..f.1] + bs[f.1..];
    }
  }

  /** Every byte of an encoding is a byte. */
  predicate AllBytes(bs: Bytes) {
    forall i :: 0 <= i < |bs| ==> bs[i] < 256
  }

  lemma {:induction false} EncodedBytes(s: string)
    ensures AllBytes(Encode(s))
  {
    if s != "" {
      EncodedBytes(s[1..]);
    }
  }
}
