/** Texts as bytes: the UTF-8 encoding of Rust strings, and strict decoding. */
module Utf8 {
  import opened Common
  import opened Text

  type Byte = n: int | 0 <= n < 256

  const NEWLINE: Byte := 10

  function EncodeChar(c: char): (b: seq<Byte>)
    ensures 1 <= |b| <= 4
    ensures |b| == 1 <==> c as int < 128
    ensures |b| == 1 ==> b == [c as int]
    ensures |b| > 1 ==> forall k :: 0 <= k < |b| ==> b[k] >= 128
  {
    var n := c as int;
    if n < 0x80 then [n]
    else if n < 0x800 then [0xC0 + n / 64, 0x80 + n % 64]
    else if n < 0x10000 then [0xE0 + n / 4096, 0x80 + n / 64 % 64, 0x80 + n % 64]
    else [0xF0 + n / 262144, 0x80 + n / 4096 % 64, 0x80 + n / 64 % 64, 0x80 + n % 64]
  }

  /** `as_bytes`. */
  function Encode(s: string): seq<Byte>
  {
    if s == "" then [] else EncodeChar(s[0]) + Encode(s[1..])
  }

  predicate IsContinuation(b: Byte) { 0x80 <= b < 0xC0 }

  /** The payload of a byte above its marker bits. */
  function Payload(b: Byte, marker: int): (n: int) { (b as int) - marker }

  /** The first character and its width, when the bytes start with a well-formed sequence. */
  function DecodeFirst(b: seq<Byte>): (r: Option<(char, nat)>)
    ensures r.Some? ==> 1 <= r.value.1 <= |b|
  {
    if b == [] then None
    else if b[0] < 0x80 then Some((b[0] as char, 1))
    else if 0xC2 <= b[0] < 0xE0 && |b| >= 2 && IsContinuation(b[1]) then
      Some(((Payload(b[0], 0xC0) * 64 + Payload(b[1], 0x80)) as char, 2))
    else if 0xE0 <= b[0] < 0xF0 && |b| >= 3 && IsContinuation(b[1]) && IsContinuation(b[2]) then
      var n := Payload(b[0], 0xE0) * 4096 + Payload(b[1], 0x80) * 64 + Payload(b[2], 0x80);
      if n < 0x800 || 0xD800 <= n < 0xE000 then None else Some((n as char, 3))
    else if 0xF0 <= b[0] < 0xF5 && |b| >= 4 && IsContinuation(b[1]) && IsContinuation(b[2]) && IsContinuation(b[3]) then
      var n := Payload(b[0], 0xF0) * 262144 + Payload(b[1], 0x80) * 4096 + Payload(b[2], 0x80) * 64 + Payload(b[3], 0x80);
      if n < 0x10000 || 0x110000 <= n then None else Some((n as char, 4))
    else None
  }

  /** `String::from_utf8`: `None` for bytes that are not UTF-8. */
  function Decode(b: seq<Byte>): Option<string>
  {
    if b == [] then Some("")
    else
      var first := DecodeFirst(b);
      if first.None? then None
      else
        var rest := Decode(b[first.value.1..]);
        if rest.None? then None else Some([first.value.0] + rest.value)
  }

  lemma CharParts(n: int)
    requires 0 <= n < 0x110000
    ensures n == n / 64 * 64 + n % 64 && n / 64 == n / 4096 * 64 + n / 64 % 64
    ensures n / 4096 == n / 262144 * 64 + n / 4096 % 64
    ensures n < 0x800 ==> n / 64 < 32
    ensures n < 0x10000 ==> n / 4096 < 16
    ensures n / 262144 < 5
  {
  }

  lemma DecodeFirstEncoded(c: char, rest: seq<Byte>)
    ensures DecodeFirst(EncodeChar(c) + rest) == Some((c, |EncodeChar(c)|))
  {
    CharParts(c as int);
    var b := EncodeChar(c) + rest;
    assert forall k :: 0 <= k < |EncodeChar(c)| ==> b[k] == EncodeChar(c)[k];
  }

  lemma {:induction false} DecodeEncoded(s: string)
    ensures Decode(Encode(s)) == Some(s)
  {
    hide DecodeFirst, EncodeChar;
    if s != "" {
      DecodeFirstEncoded(s[0], Encode(s[1..]));
      DecodeEncoded(s[1..]);
      assert Encode(s)[|EncodeChar(s[0])|..] == Encode(s[1..]);
      assert s == [s[0]] + s[1..];
    }
  }

  predicate IsAscii(s: string) { forall c | c in s :: c as int < 128 }

  lemma {:induction false} AsciiWidth(s: string)
    requires IsAscii(s)
    ensures |Encode(s)| == |s|
  {
    if s != "" {
      assert s[0] in s && forall c | c in s[1..] :: c in s;
      AsciiWidth(s[1..]);
    }
  }

  lemma Payloads(a: int, b: int, c: int, d: int)
    requires 0 <= a < 8 && 0 <= b < 64 && 0 <= c < 64 && 0 <= d < 64
    ensures var n := a * 262144 + b * 4096 + c * 64 + d;
            n / 262144 == a && n / 4096 == a * 64 + b && n / 4096 % 64 == b && n / 64 % 64 == c && n % 64 == d &&
            n / 64 == a * 4096 + b * 64 + c
  {
    var n := a * 262144 + b * 4096 + c * 64 + d;
    assert n / 64 == a * 4096 + b * 64 + c && n % 64 == d;
    assert n / 4096 == a * 64 + b;
  }

  lemma DecodedWidth(b: seq<Byte>)
    requires DecodeFirst(b).Some?
    ensures EncodeChar(DecodeFirst(b).value.0) == b[..DecodeFirst(b).value.1]
  {
    var (c, w) := DecodeFirst(b).value;
    if w == 2 {
      Payloads(0, 0, Payload(b[0], 0xC0), Payload(b[1], 0x80));
    } else if w == 3 {
      Payloads(0, Payload(b[0], 0xE0), Payload(b[1], 0x80), Payload(b[2], 0x80));
    } else if w == 4 {
      Payloads(Payload(b[0], 0xF0), Payload(b[1], 0x80), Payload(b[2], 0x80), Payload(b[3], 0x80));
    }
  }

  /** Only encodings are decoded: overlong forms, surrogates and broken sequences are not. */
  lemma {:induction false} EncodeDecoded(b: seq<Byte>)
    requires Decode(b).Some?
    ensures Encode(Decode(b).value) == b
  {
    hide DecodeFirst, EncodeChar;
    if b != [] {
      var first := DecodeFirst(b).value;
      DecodedWidth(b);
      EncodeDecoded(b[first.1..]);
      assert Decode(b).value[1..] == Decode(b[first.1..]).value;
      assert b == b[..first.1] + b[first.1..];
    }
  }

  lemma EncodeCons(c: char, s: string)
    ensures Encode([c] + s) == EncodeChar(c) + Encode(s)
  {
    assert ([c] + s)[1..] == s;
  }

  lemma {:induction false} EncodeConcat(s: string, t: string)
    ensures Encode(s + t) == Encode(s) + Encode(t)
  {
    if s == "" {
      assert s + t == t;
    } else {
      EncodeConcat(s[1..], t);
      EncodeCons(s[0], s[1..] + t);
      ConcatAssociates([s[0]], s[1..], t);
      assert [s[0]] + s[1..] == s;
      ConcatAssociates(EncodeChar(s[0]), Encode(s[1..]), Encode(t));
    }
  }

  lemma {:induction false} EncodeInjective(s: string, t: string)
    ensures Encode(s) == Encode(t) ==> s == t
  {
    DecodeEncoded(s);
    DecodeEncoded(t);
  }

  /** Newline bytes stand for newline characters only. */
  lemma {:induction false} NewlineBytes(s: string)
    ensures NEWLINE in Encode(s) <==> '\n' in s
  {
    if s != "" {
      NewlineBytes(s[1..]);
      assert NEWLINE in EncodeChar(s[0]) <==> s[0] == '\n';
      assert NEWLINE in Encode(s) <==> NEWLINE in EncodeChar(s[0]) || NEWLINE in Encode(s[1..]);
    }
  }

  /** Characters of one, two, three and four bytes, as section 3 of RFC 3629 lays them out; overlong forms, surrogates
      and what lies beyond the last character are refused. */
  lemma KnownEncodings()
    ensures EncodeChar('A') == [0x41] && EncodeChar(0xE9 as char) == [0xC3, 0xA9]
    ensures EncodeChar(0x20AC as char) == [0xE2, 0x82, 0xAC] && EncodeChar(0x1F600 as char) == [0xF0, 0x9F, 0x98, 0x80]
    ensures DecodeFirst([0xC0, 0x80]).None? && DecodeFirst([0xE0, 0x80, 0x80]).None? && DecodeFirst([0xED, 0xA0, 0x80]).None?
    ensures DecodeFirst([0xF4, 0x90, 0x80, 0x80]).None?
  {
  }
}
