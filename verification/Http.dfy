/** The approval client's HTTP requests and the server's responses: printers and parsers on both
    sides, and the bearer match (crates/tole-cli/src/approvals.rs, crates/tole-cli/src/serve.rs,
    crates/tole-cli/src/auth.rs). Message framing is that of sections 3, 5, 6.2 and 6.3 of RFC 9112. */
module Http {
  import opened Common
  import opened Text
  import opened Utf8

  /** Ceiling for the request line and all header lines together. */
  const MAX_HEADER_BYTES: nat := 32 * 1024
  const MAX_BODY_BYTES: nat := 1024 * 1024
  const USIZE_MAX: nat := 0xFFFF_FFFF_FFFF_FFFF
  const U16_MAX: nat := 0xFFFF

  datatype ReadError = Io | Bad(message: string) | TooLarge

  type Read<+T> = Result<T, ReadError>

  // ------------------------------------------------------------------ lines

  /** Number of bytes up to and including the first newline, or all of them. */
  function LineEnd(b: seq<Byte>): (n: nat)
    ensures n <= |b|
    ensures b != [] ==> n > 0
  {
    if b == [] then 0 else if b[0] == NEWLINE then 1 else 1 + LineEnd(b[1..])
  }

  /** What `take(limit).read_line` consumes. */
  function ReadLine(b: seq<Byte>, limit: nat): (line: seq<Byte>)
    ensures |line| <= |b| && |line| <= limit && line == b[..|line|]
    ensures b != [] && limit > 0 ==> line != []
  {
    if LineEnd(b) <= limit then b[..LineEnd(b)] else b[..limit]
  }

  predicate EndsLine(text: Option<string>)
  {
    text.Some? && text.value != "" && text.value[|text.value| - 1] == '\n'
  }

  lemma {:induction false} LineEndAt(line: seq<Byte>, rest: seq<Byte>)
    requires NEWLINE !in line
    ensures LineEnd(line + [NEWLINE] + rest) == |line| + 1
  {
    var b := line + [NEWLINE] + rest;
    if line != [] {
      LineEndAt(line[1..], rest);
      assert b[1..] == line[1..] + [NEWLINE] + rest;
      assert b[0] == line[0] && line[0] in line;
    }
  }

  lemma {:induction false} DecodeWithoutNewline(b: seq<Byte>)
    requires NEWLINE !in b && Decode(b).Some?
    ensures '\n' !in Decode(b).value
  {
    if b != [] {
      var first := DecodeFirst(b).value;
      DecodeWithoutNewline(b[first.1..]);
      assert b[0] in b;
      assert first.0 != '\n' by {
        assert b[0] >= 0x80 ==> first.0 as int >= 0x80;
      }
    }
  }

  /** Reading an encoded line: whole when it fits, else nothing that ends a line. */
  lemma ReadEncodedLine(line: string, rest: seq<Byte>, limit: nat)
    requires '\n' !in line
    ensures var bytes := Encode(line + "\n");
            if |bytes| <= limit then
              ReadLine(bytes + rest, limit) == bytes && Decode(bytes) == Some(line + "\n") && EndsLine(Decode(bytes))
            else !EndsLine(Decode(ReadLine(bytes + rest, limit)))
  {
    var bytes := Encode(line + "\n");
    EncodeConcat(line, "\n");
    assert Encode("\n") == [NEWLINE] by { assert "\n"[1..] == ""; }
    NewlineBytes(line);
    LineEndAt(Encode(line), rest);
    assert bytes + rest == Encode(line) + [NEWLINE] + rest;
    DecodeEncoded(line + "\n");
    if |bytes| > limit {
      var part := ReadLine(bytes + rest, limit);
      assert part == Encode(line)[..limit];
      if Decode(part).Some? {
        DecodeWithoutNewline(part);
      }
    }
  }

  // -------------------------------------------------------- reading a request

  datatype Headers = Headers(authorization: Option<string>, contentLength: Option<nat>, expectContinue: bool)

  const NO_HEADERS := Headers(None, None, false)

  /** One header line, already trimmed at its end. Names match in any case, values keep theirs. */
  function HeaderLine(h: Headers, line: string): Read<Headers>
  {
    var split := SplitOnce(line, ':');
    if split.None? then Ok(h)
    else
      var (name, value) := (split.value.0, Trim(split.value.1));
      if EqIgnoreCase(name, "content-length") then
        if h.contentLength.Some? then Err(Bad("duplicate Content-Length"))
        else
          var n := ParseUnsigned(value, Dec, USIZE_MAX);
          if n.None? then Err(Bad("invalid Content-Length")) else Ok(h.(contentLength := n))
      else if EqIgnoreCase(name, "transfer-encoding") then Err(Bad("Transfer-Encoding is not supported"))
      else if EqIgnoreCase(name, "authorization") then Ok(h.(authorization := Some(value)))
      else if EqIgnoreCase(name, "expect") && EqIgnoreCase(value, "100-continue") then Ok(h.(expectContinue := true))
      else Ok(h)
  }

  /** What reading one more line of the header block leads to. */
  datatype Step = More(headers: Headers, size: nat) | End(size: nat) | Fail(error: ReadError)

  function ReadStep(input: seq<Byte>, used: nat, h: Headers): (s: Step)
    requires used <= |input|
    ensures s.More? || s.End? ==> 0 < s.size <= |input| - used
  {
    if used > MAX_HEADER_BYTES then Fail(Io)
    else
      var line := ReadLine(input[used..], MAX_HEADER_BYTES - used);
      var text := Decode(line);
      if line == [] || !EndsLine(text) then Fail(Io)
      else
        var trimmed := TrimEnd(text.value);
        if trimmed == "" then End(|line|)
        else
          var h' := HeaderLine(h, trimmed);
          if h'.Err? then Fail(h'.error) else More(h'.value, |line|)
  }

  /** The header block from byte `used` of the message on; also where it ends. */
  function ReadHeaders(input: seq<Byte>, used: nat, h: Headers): Read<(Headers, nat)>
    requires used <= |input|
    decreases |input| - used
  {
    match ReadStep(input, used, h)
    case Fail(e) => Err(e)
    case End(n) => Ok((h, used + n))
    case More(h', n) => ReadHeaders(input, used + n, h')
  }

  /** A request, whether it was answered with `100 Continue` on the way, and the bytes it took. */
  datatype Incoming = Incoming(method_: string, path: string, authorization: Option<string>, body: seq<Byte>,
                               continued: bool, consumed: nat)

  /** The first two words of a request line. */
  function TwoWords(text: string): Option<(string, string)>
  {
    var m := NextWord(text);
    if m.None? then None
    else
      var p := NextWord(m.value.1);
      if p.None? then None else Some((m.value.0, p.value.0))
  }

  function ReadRequest(input: seq<Byte>): Read<Incoming>
  {
    var line := ReadLine(input, MAX_HEADER_BYTES);
    var text := Decode(line);
    if !EndsLine(text) then Err(Io)
    else
      var words := TwoWords(text.value);
      if words.None? then Err(Bad("malformed request line"))
      else ReadRest(input, words.value.0, words.value.1, ReadHeaders(input, |line|, NO_HEADERS))
  }

  function ReadRest(input: seq<Byte>, method_: string, path: string, head: Read<(Headers, nat)>): Read<Incoming>
  {
    if head.Err? then Err(head.error) else ReadBody(input, method_, path, head.value.0, head.value.1)
  }

  function ReadBody(input: seq<Byte>, method_: string, path: string, h: Headers, used: nat): Read<Incoming>
  {
    var n := if h.contentLength.Some? then h.contentLength.value else 0;
    if n > MAX_BODY_BYTES then Err(TooLarge)
    else if |input| < used + n then Err(Io)
    else Ok(Incoming(method_, path, h.authorization, input[used..used + n], n > 0 && h.expectContinue, used + n))
  }

  /** The loop over the header lines. */
  method ReceiveHeaders(input: seq<Byte>, start: nat) returns (r: Read<(Headers, nat)>)
    requires start <= |input|
    ensures r == ReadHeaders(input, start, NO_HEADERS)
  {
    hide ReadStep;
    var h, used := NO_HEADERS, start;
    while true
      invariant start <= used <= |input|
      invariant ReadHeaders(input, used, h) == ReadHeaders(input, start, NO_HEADERS)
      decreases |input| - used
    {
      var step := ReadStep(input, used, h);
      if step.Fail? {
        return Err(step.error);
      }
      if step.End? {
        return Ok((h, used + step.size));
      }
      h, used := step.headers, used + step.size;
    }
  }

  /** `read_request`. */
  method Receive(input: seq<Byte>) returns (r: Read<Incoming>)
    ensures r == ReadRequest(input)
  {
    var line := ReadLine(input, MAX_HEADER_BYTES);
    var text := Decode(line);
    if !EndsLine(text) {
      return Err(Io);
    }
    var m := NextWord(text.value);
    if m.None? {
      return Err(Bad("malformed request line"));
    }
    var p := NextWord(m.value.1);
    if p.None? {
      return Err(Bad("malformed request line"));
    }
    var head := ReceiveHeaders(input, |line|);
    if head.Err? {
      return Err(head.error);
    }
    return ReadBody(input, m.value.0, p.value.0, head.value.0, head.value.1);
  }

  // ------------------------------------------------------- printing a request

  const CRLF := "\r\n"

  function PrintLines(lines: seq<string>): string
  {
    if lines == [] then "" else lines[0] + CRLF + PrintLines(lines[1..])
  }

  function RequestLine(method_: string, path: string): string { method_ + " " + path + " HTTP/1.1" }

  /** The header lines `http_call` sends. */
  function RequestHeaders(authority: string, token: string, body: Option<string>): seq<string>
  {
    ["Host: " + authority, "Authorization: Bearer " + token] +
    (if body.Some? then ["Content-Type: application/json", "Content-Length: " + Numeral(|Encode(body.value)|, Dec)] else []) +
    ["Connection: close"]
  }

  function RequestHead(authority: string, method_: string, path: string, token: string, body: Option<string>): string
  {
    RequestLine(method_, path) + CRLF + (PrintLines(RequestHeaders(authority, token, body)) + CRLF)
  }

  function BodyBytes(body: Option<string>): seq<Byte> { if body.Some? then Encode(body.value) else [] }

  /** The bytes `http_call` writes. */
  function PrintRequest(authority: string, method_: string, path: string, token: string, body: Option<string>): seq<Byte>
  {
    Encode(RequestHead(authority, method_, path, token, body)) + BodyBytes(body)
  }

  // ------------------------------------------------------------ round trip

  function FoldHeaders(h: Headers, lines: seq<string>): Read<Headers>
    decreases |lines|
  {
    if lines == [] then Ok(h)
    else
      var h' := HeaderLine(h, TrimEnd(lines[0]));
      if h'.Err? then h' else FoldHeaders(h'.value, lines[1..])
  }

  predicate IsHeaderText(line: string) { '\n' !in line && TrimEnd(line) != "" }

  lemma LineReadsBack(line: string, rest: seq<Byte>, input: seq<Byte>, used: nat, h: Headers)
    requires '\n' !in line
    requires used <= |input| && input[used..] == Encode(line + "\n") + rest
    ensures var size := |Encode(line + "\n")|;
            ReadStep(input, used, h) ==
              if used + size > MAX_HEADER_BYTES then Fail(Io)
              else if TrimEnd(line) == "" then End(size)
              else if HeaderLine(h, TrimEnd(line)).Err? then Fail(HeaderLine(h, TrimEnd(line)).error)
              else More(HeaderLine(h, TrimEnd(line)).value, size)
  {
    TrimEndSnoc(line, '\n');
    if used <= MAX_HEADER_BYTES {
      ReadEncodedLine(line, rest, MAX_HEADER_BYTES - used);
    }
  }

  lemma StepReadsBack(line: string, rest: seq<Byte>, input: seq<Byte>, used: nat, h: Headers)
    requires '\n' !in line
    requires used <= |input| && input[used..] == Encode(line + CRLF) + rest
    ensures var size := |Encode(line + CRLF)|;
            ReadStep(input, used, h) ==
              if used + size > MAX_HEADER_BYTES then Fail(Io)
              else if TrimEnd(line) == "" then End(size)
              else if HeaderLine(h, TrimEnd(line)).Err? then Fail(HeaderLine(h, TrimEnd(line)).error)
              else More(HeaderLine(h, TrimEnd(line)).value, size)
  {
    hide Encode, ReadStep, HeaderLine;
    assert line + CRLF == (line + "\r") + "\n";
    TrimEndSnoc(line, '\r');
    LineReadsBack(line + "\r", rest, input, used, h);
  }

  lemma FirstLineApart(lines: seq<string>)
    requires lines != []
    ensures Encode(PrintLines(lines) + CRLF) == Encode(lines[0] + CRLF) + Encode(PrintLines(lines[1..]) + CRLF)
  {
    ConcatAssociates(lines[0] + CRLF, PrintLines(lines[1..]), CRLF);
    EncodeConcat(lines[0] + CRLF, PrintLines(lines[1..]) + CRLF);
  }

  lemma DropPrefix<T>(all: seq<T>, at: nat, a: seq<T>, b: seq<T>, c: seq<T>)
    requires at <= |all| && all[at..] == a + b + c
    ensures at + |a| <= |all| && all[at + |a|..] == b + c
    ensures all[at..] == a + (b + c)
  {
    assert all[at..][|a|..] == b + c;
  }

  /** Printed header lines are read back one by one, within the byte budget exactly. */
  lemma {:induction false} HeadersReadBack(lines: seq<string>, h: Headers, input: seq<Byte>, used: nat, rest: seq<Byte>)
    requires forall l | l in lines :: IsHeaderText(l)
    requires FoldHeaders(h, lines).Ok?
    requires used <= |input| && input[used..] == Encode(PrintLines(lines) + CRLF) + rest
    ensures var end := used + |Encode(PrintLines(lines) + CRLF)|;
            ReadHeaders(input, used, h) ==
              if end <= MAX_HEADER_BYTES then Ok((FoldHeaders(h, lines).value, end)) else Err(Io)
    decreases |lines|
  {
    hide ReadStep, Encode, TrimEnd, HeaderLine;
    if lines == [] {
      assert PrintLines(lines) + CRLF == "" + CRLF;
      StepReadsBack("", rest, input, used, h);
    } else {
      assert IsHeaderText(lines[0]);
      FirstLineApart(lines);
      var first, tail := Encode(lines[0] + CRLF), Encode(PrintLines(lines[1..]) + CRLF);
      DropPrefix(input, used, first, tail, rest);
      StepReadsBack(lines[0], tail + rest, input, used, h);
      if used + |first| <= MAX_HEADER_BYTES {
        HeadersReadBack(lines[1..], HeaderLine(h, TrimEnd(lines[0])).value, input, used + |first|, rest);
      }
    }
  }

  // ---------------------------------------------------------- the bearer match

  /** `x ^ y`, bit by bit. */
  function Xor(x: nat, y: nat): nat
    decreases x + y
  {
    if x == 0 && y == 0 then 0 else (if x % 2 == y % 2 then 0 else 1) + 2 * Xor(x / 2, y / 2)
  }

  /** `x | y`, bit by bit. */
  function Or(x: nat, y: nat): nat
    decreases x + y
  {
    if x == 0 && y == 0 then 0 else (if x % 2 == 0 && y % 2 == 0 then 0 else 1) + 2 * Or(x / 2, y / 2)
  }

  /** The fold of `ct_eq`: the union of all differing bits. */
  function DifferingBits(a: seq<Byte>, b: seq<Byte>, acc: nat): nat
    requires |a| == |b|
    decreases |a|
  {
    if a == [] then acc else DifferingBits(a[1..], b[1..], Or(acc, Xor(a[0], b[0])))
  }

  /** Equality without an early exit. */
  predicate CtEq(a: seq<Byte>, b: seq<Byte>) { |a| == |b| && DifferingBits(a, b, 0) == 0 }

  lemma {:induction false} XorZero(x: nat, y: nat)
    ensures Xor(x, y) == 0 <==> x == y
    decreases x + y
  {
    if x != 0 || y != 0 { XorZero(x / 2, y / 2); }
  }

  lemma {:induction false} OrZero(x: nat, y: nat)
    ensures Or(x, y) == 0 <==> x == 0 && y == 0
    decreases x + y
  {
    if x != 0 || y != 0 { OrZero(x / 2, y / 2); }
  }

  lemma {:induction false} DifferingBitsZero(a: seq<Byte>, b: seq<Byte>, acc: nat)
    requires |a| == |b|
    ensures DifferingBits(a, b, acc) == 0 <==> acc == 0 && a == b
    decreases |a|
  {
    if a != [] {
      XorZero(a[0], b[0]);
      OrZero(acc, Xor(a[0], b[0]));
      DifferingBitsZero(a[1..], b[1..], Or(acc, Xor(a[0], b[0])));
      assert a == [a[0]] + a[1..] && b == [b[0]] + b[1..];
    }
  }

  /** `ct_eq` is equality. */
  lemma CtEqIsEquality(a: seq<Byte>, b: seq<Byte>)
    ensures CtEq(a, b) <==> a == b
  {
    if |a| == |b| { DifferingBitsZero(a, b, 0); }
  }

  /** `bearer_matches`. */
  predicate BearerMatches(header: Option<string>, token: string)
  {
    header.Some? &&
    var split := SplitOnce(header.value, ' ');
    split.Some? && EqIgnoreCase(split.value.0, "bearer") && CtEq(Encode(Trim(split.value.1)), Encode(token))
  }

  /** A header matches exactly when it is a scheme `bearer` in any case, a space, and the token
      possibly surrounded by blanks. */
  lemma BearerMatchesExactly(header: string, token: string)
    ensures BearerMatches(Some(header), token) <==>
            exists scheme, t :: header == scheme + [' '] + t && EqIgnoreCase(scheme, "bearer") && Trim(t) == token
  {
    SplitOnceParts(header, ' ');
    var split := SplitOnce(header, ' ');
    if split.Some? {
      CtEqIsEquality(Encode(Trim(split.value.1)), Encode(token));
      EncodeInjective(Trim(split.value.1), token);
    }
    forall scheme: string, t: string | header == scheme + [' '] + t && EqIgnoreCase(scheme, "bearer")
      ensures split == Some((scheme, t))
    {
      assert forall k :: 0 <= k < |scheme| ==> LowerAscii(scheme[k]) == LowerAscii("bearer"[k]);
      SplitOnceAt(scheme, ' ', t);
    }
  }

  predicate IsToken(token: string) { token != "" && IsTrimmed(token) && '\n' !in token }

  /** What a request can carry: a trimmed text without newlines. */
  predicate IsStored(header: Option<string>) { header.Some? ==> IsTrimmed(header.value) && '\n' !in header.value }

  lemma OddTokensNeverMatch(header: string, token: string)
    requires IsStored(Some(header)) && !IsToken(token)
    ensures !BearerMatches(Some(header), token)
  {
    if BearerMatches(Some(header), token) {
      BearerMatchesExactly(header, token);
      var scheme, t :| header == scheme + [' '] + t && EqIgnoreCase(scheme, "bearer") && Trim(t) == token;
      TrimIsTrimmed(t);
      assert header[|header| - 1] == if t == "" then ' ' else t[|t| - 1];
      TrimKeepsInk(t);
      TrimIsPart(t, '\n');
    }
  }

  lemma TrimIsPart(s: string, c: char)
    requires c !in s
    ensures c !in Trim(s)
  {
    TrimEndIsPart(s, c);
    TrimStartIsPart(TrimEnd(s), c);
  }

  lemma {:induction false} TrimEndIsPart(s: string, c: char)
    requires c !in s
    ensures c !in TrimEnd(s)
  {
    if s != "" && IsWhitespace(s[|s| - 1]) { TrimEndIsPart(s[..|s| - 1], c); }
  }

  lemma {:induction false} TrimStartIsPart(s: string, c: char)
    requires c !in s
    ensures c !in TrimStart(s)
  {
    if s != "" && IsWhitespace(s[0]) { TrimStartIsPart(s[1..], c); }
  }

  lemma {:induction false} NewlineLast(b: seq<Byte>)
    requires b != [] && NEWLINE !in b[..|b| - 1] && Decode(b).Some?
    ensures forall k :: 0 <= k < |Decode(b).value| - 1 ==> Decode(b).value[k] != '\n'
  {
    var first := DecodeFirst(b).value;
    var rest := b[first.1..];
    if rest != [] {
      assert rest[..|rest| - 1] == b[first.1..|b| - 1];
      NewlineLast(rest);
      assert b[0] in b[..|b| - 1];
      assert b[0] >= 0x80 ==> first.0 as int >= 0x80;
    } else {
      assert Decode(rest) == Some("");
    }
  }

  lemma {:induction false} LineHasOneNewline(b: seq<Byte>, limit: nat)
    ensures var line := ReadLine(b, limit); line != [] ==> NEWLINE !in line[..|line| - 1]
  {
    LineEndIsFirst(b);
  }

  lemma {:induction false} LineEndIsFirst(b: seq<Byte>)
    ensures b != [] ==> NEWLINE !in b[..LineEnd(b) - 1]
  {
    if b != [] && b[0] != NEWLINE {
      LineEndIsFirst(b[1..]);
      if b[1..] != [] {
        assert b[..LineEnd(b) - 1] == [b[0]] + b[1..][..LineEnd(b[1..]) - 1];
      }
    }
  }

  lemma StepStores(input: seq<Byte>, used: nat, h: Headers)
    requires used <= |input| && IsStored(h.authorization)
    ensures ReadStep(input, used, h).More? ==> IsStored(ReadStep(input, used, h).headers.authorization)
  {
    hide Decode, ReadLine, TrimEnd, Trim, SplitOnce, ParseUnsigned;
    if used <= MAX_HEADER_BYTES {
      var line := ReadLine(input[used..], MAX_HEADER_BYTES - used);
      var text := Decode(line);
      if line != [] && EndsLine(text) {
        LineHasOneNewline(input[used..], MAX_HEADER_BYTES - used);
        NewlineLast(line);
        TrimmedLine(text.value);
        var trimmed := TrimEnd(text.value);
        SplitOnceParts(trimmed, ':');
        if SplitOnce(trimmed, ':').Some? {
          var value := SplitOnce(trimmed, ':').value.1;
          assert '\n' !in value;
          TrimIsTrimmed(value);
          TrimIsPart(value, '\n');
        }
      }
    }
  }

  lemma TrimmedLine(text: string)
    requires text != "" && text[|text| - 1] == '\n' && forall k :: 0 <= k < |text| - 1 ==> text[k] != '\n'
    ensures '\n' !in TrimEnd(text)
  {
    TrimEndIsPart(text[..|text| - 1], '\n');
  }

  lemma {:induction false} HeadersStore(input: seq<Byte>, used: nat, h: Headers)
    requires used <= |input| && IsStored(h.authorization)
    ensures ReadHeaders(input, used, h).Ok? ==> IsStored(ReadHeaders(input, used, h).value.0.authorization)
    decreases |input| - used
  {
    hide ReadStep;
    StepStores(input, used, h);
    var step := ReadStep(input, used, h);
    if step.More? { HeadersStore(input, used + step.size, step.headers); }
  }

  /** A configured token that is empty, has outer blanks or holds a newline authorizes no request
      whatever: nothing a client can send is accepted. */
  lemma OddTokensAuthorizeNothing(input: seq<Byte>, token: string)
    requires !IsToken(token)
    ensures ReadRequest(input).Ok? ==> !BearerMatches(ReadRequest(input).value.authorization, token)
  {
    hide ReadHeaders, Decode, ReadLine, NextWord, BearerMatches;
    if ReadRequest(input).Ok? {
      HeadersStore(input, |ReadLine(input, MAX_HEADER_BYTES)|, NO_HEADERS);
      var header := ReadRequest(input).value.authorization;
      if header.Some? { OddTokensNeverMatch(header.value, token); } else { NoHeaderNoMatch(token); }
    }
  }

  lemma NoHeaderNoMatch(token: string)
    ensures !BearerMatches(None, token)
  {
  }

  lemma TrimKeepsInk(t: string)
    requires t != "" && !IsWhitespace(t[|t| - 1])
    ensures Trim(t) != ""
  {
    TrimStartKeepsInk(t);
  }

  lemma {:induction false} TrimStartKeepsInk(t: string)
    requires t != "" && !IsWhitespace(t[|t| - 1])
    ensures TrimStart(t) != ""
  {
    if IsWhitespace(t[0]) { TrimStartKeepsInk(t[1..]); }
  }

  // ------------------------------------------------------ the request round trip

  /** A header line `name: value` means its trimmed value. */
  lemma NamedLine(h: Headers, name: string, value: string)
    requires ':' !in name && value != "" && !IsWhitespace(value[|value| - 1])
    ensures TrimEnd(name + ":" + value) == name + ":" + value
    ensures SplitOnce(name + ":" + value, ':') == Some((name, value))
  {
    SplitOnceAt(name, ':', value);
  }

  lemma TrimAfterBlank(t: string)
    requires t != "" && IsTrimmed(t)
    ensures Trim(" " + t) == t
  {
    var s := " " + t;
    assert s[1..] == t && s[|s| - 1] == t[|t| - 1];
    assert TrimEnd(s) == s;
    assert TrimStart(t) == t;
  }

  /** What the server stores of the client's authorization line. */
  function Bearer(token: string): string { TrimEnd("Bearer " + token) }

  lemma AuthorizationLine(h: Headers, token: string)
    requires '\n' !in token
    ensures IsHeaderText("Authorization: Bearer " + token)
    ensures HeaderLine(h, TrimEnd("Authorization: Bearer " + token)) == Ok(h.(authorization := Some(Bearer(token))))
  {
    hide TrimEnd, Trim, SplitOnce;
    var name, value := "Authorization", Bearer(token);
    assert "Authorization: Bearer " + token == "Authorization: Bearer" + (" " + token);
    assert "Bearer " + token == "Bearer" + (" " + token);
    TrimEndPrefix("Authorization: Bearer", " " + token);
    TrimEndPrefix("Bearer", " " + token);
    assert TrimEnd("Authorization: Bearer " + token) == name + [':'] + (" " + value);
    SplitOnceAt(name, ':', " " + value);
    TrimAfterBlank(value);
    assert |name| == 13 && |"content-length"| == 14 && |"transfer-encoding"| == 17;
    assert EqIgnoreCase(name, "authorization");
  }

  lemma LengthLine(h: Headers, n: nat)
    requires h.contentLength.None? && n <= USIZE_MAX
    ensures IsHeaderText("Content-Length: " + Numeral(n, Dec))
    ensures HeaderLine(h, TrimEnd("Content-Length: " + Numeral(n, Dec))) == Ok(h.(contentLength := Some(n)))
  {
    hide TrimEnd, Trim, SplitOnce, Numeral, ParseUnsigned;
    var digits := Numeral(n, Dec);
    assert "Content-Length: " + digits == "Content-Length" + ":" + (" " + digits);
    assert IsDigitChar(digits[0]) && IsDigitChar(digits[|digits| - 1]);
    NamedLine(h, "Content-Length", " " + digits);
    TrimAfterBlank(digits);
    ParseNumeral(n, Dec, USIZE_MAX);
    assert EqIgnoreCase("Content-Length", "content-length");
    assert forall c | c in digits :: c != '\n';
  }

  /** A header that is none of the four the server reads, told by the length of its name. */
  lemma OtherHeader(h: Headers, name: string, value: string)
    requires ':' !in name && |name| != 6 && |name| != 13 && |name| != 14 && |name| != 17
    ensures HeaderLine(h, name + ":" + value) == Ok(h)
  {
    hide Trim, SplitOnce;
    SplitOnceAt(name, ':', value);
    assert |"content-length"| == 14 && |"transfer-encoding"| == 17 && |"authorization"| == 13 && |"expect"| == 6;
  }

  lemma HostLine(h: Headers, authority: string)
    requires '\n' !in authority
    ensures IsHeaderText("Host: " + authority)
    ensures HeaderLine(h, TrimEnd("Host: " + authority)) == Ok(h)
  {
    hide TrimEnd, HeaderLine;
    assert "Host: " + authority == "Host:" + (" " + authority);
    TrimEndPrefix("Host:", " " + authority);
    assert "Host" + ":" == "Host:";
    OtherHeader(h, "Host", TrimEnd(" " + authority));
  }

  /** Trimming the end never eats into a prefix that ends in ink. */
  lemma {:induction false} TrimEndPrefix(p: string, s: string)
    requires p != "" && !IsWhitespace(p[|p| - 1])
    ensures TrimEnd(p + s) == p + TrimEnd(s)
  {
    if s == "" {
      assert p + s == p;
    } else if IsWhitespace(s[|s| - 1]) {
      TrimEndPrefix(p, s[..|s| - 1]);
      assert (p + s)[..|p + s| - 1] == p + s[..|s| - 1];
    }
  }

  lemma PlainHeader(h: Headers, name: string, value: string)
    requires ':' !in name && |name| != 6 && |name| != 13 && |name| != 14 && |name| != 17
    requires '\n' !in name && '\n' !in value && value != "" && !IsWhitespace(value[|value| - 1])
    ensures IsHeaderText(name + ":" + value)
    ensures HeaderLine(h, TrimEnd(name + ":" + value)) == Ok(h)
  {
    hide TrimEnd, HeaderLine;
    NamedLine(h, name, value);
    OtherHeader(h, name, value);
  }

  lemma TypeLine(h: Headers)
    ensures IsHeaderText("Content-Type: application/json")
    ensures HeaderLine(h, TrimEnd("Content-Type: application/json")) == Ok(h)
  {
    hide TrimEnd, HeaderLine, IsHeaderText;
    PlainHeader(h, "Content-Type", " application/json");
    assert "Content-Type: application/json" == "Content-Type" + ":" + " application/json";
  }

  lemma CloseLine(h: Headers)
    ensures IsHeaderText("Connection: close")
    ensures HeaderLine(h, TrimEnd("Connection: close")) == Ok(h)
  {
    hide TrimEnd, HeaderLine, IsHeaderText;
    PlainHeader(h, "Connection", " close");
    assert "Connection: close" == "Connection" + ":" + " close";
  }

  lemma FixedLines(h: Headers)
    ensures IsHeaderText("Content-Type: application/json") && IsHeaderText("Connection: close")
    ensures HeaderLine(h, TrimEnd("Content-Type: application/json")) == Ok(h)
    ensures HeaderLine(h, TrimEnd("Connection: close")) == Ok(h)
  {
    hide HeaderLine, TrimEnd, IsHeaderText;
    TypeLine(h);
    CloseLine(h);
  }

  /** What the server makes of the client's header lines. */
  lemma FoldRequestHeaders(authority: string, token: string, body: Option<string>)
    requires '\n' !in authority && '\n' !in token
    requires body.Some? ==> |Encode(body.value)| <= USIZE_MAX
    ensures forall l | l in RequestHeaders(authority, token, body) :: IsHeaderText(l)
    ensures FoldHeaders(NO_HEADERS, RequestHeaders(authority, token, body)) ==
            Ok(Headers(Some(Bearer(token)), if body.Some? then Some(|Encode(body.value)|) else None, false))
  {
    hide HeaderLine, TrimEnd, Encode, Numeral, Bearer;
    var lines := RequestHeaders(authority, token, body);
    var h0, h1 := NO_HEADERS, Headers(Some(Bearer(token)), None, false);
    HostLine(h0, authority);
    AuthorizationLine(h0, token);
    FixedLines(h1);
    FoldStep(h0, lines);
    FoldStep(h0, lines[1..]);
    FoldStep(h1, lines[2..]);
    if body.Some? {
      var n := |Encode(body.value)|;
      var h2 := h1.(contentLength := Some(n));
      LengthLine(h1, n);
      FixedLines(h2);
      FoldStep(h1, lines[3..]);
      FoldStep(h2, lines[4..]);
    }
  }

  lemma FoldStep(h: Headers, lines: seq<string>)
    requires lines != [] && HeaderLine(h, TrimEnd(lines[0])).Ok?
    ensures FoldHeaders(h, lines) == FoldHeaders(HeaderLine(h, TrimEnd(lines[0])).value, lines[1..])
    ensures FoldHeaders(h, []) == Ok(h)
  {
  }

  lemma RequestLineWords(method_: string, path: string)
    requires IsWord(method_) && IsWord(path)
    ensures TwoWords(RequestLine(method_, path) + CRLF) == Some((method_, path))
    ensures '\n' !in RequestLine(method_, path)
  {
    var last := " HTTP/1.1" + CRLF;
    assert RequestLine(method_, path) + CRLF == method_ + (" " + path + last);
    NextWordOf(method_, " " + path + last);
    NextWordOf(path, last);
    assert forall c | c in method_ :: c != '\n';
    assert forall c | c in path :: c != '\n';
  }

  lemma WordsAreWords(text: string)
    ensures TwoWords(text).Some? ==> IsWord(TwoWords(text).value.0) && IsWord(TwoWords(text).value.1)
  {
    WordIsWord(TrimStart(text));
    if NextWord(text).Some? { WordIsWord(TrimStart(NextWord(text).value.1)); }
  }

  lemma {:induction false} WordIsWord(s: string)
    ensures s != "" && !IsWhitespace(s[0]) ==> IsWord(Word(s))
    ensures forall c | c in Word(s) :: !IsWhitespace(c)
  {
    if s != "" && !IsWhitespace(s[0]) { WordIsWord(s[1..]); }
  }

  lemma Layout(first: seq<Byte>, block: seq<Byte>, body: seq<Byte>, rest: seq<Byte>)
    ensures var input := first + block + body + rest;
            input == first + (block + (body + rest)) &&
            input[|first|..] == block + (body + rest) && input[|first| + |block|..] == body + rest
  {
    ConcatAssociates(first + block, body, rest);
    ConcatAssociates(first, block, body + rest);
  }

  lemma RequestLineReadBack(line: string, tail: seq<Byte>)
    requires '\n' !in line
    ensures var first := Encode(line + CRLF);
            var words := TwoWords(line + CRLF);
            ReadRequest(first + tail) ==
              if |first| > MAX_HEADER_BYTES then Err(Io)
              else if words.None? then Err(Bad("malformed request line"))
              else ReadRest(first + tail, words.value.0, words.value.1, ReadHeaders(first + tail, |first|, NO_HEADERS))
  {
    hide Encode, Decode, ReadLine, TwoWords, ReadRest, ReadHeaders;
    assert line + CRLF == (line + "\r") + "\n";
    ReadEncodedLine(line + "\r", tail, MAX_HEADER_BYTES);
  }

  /** What the server reads off the bytes the client prints, whatever bytes follow them: within the limits
      the request with the first two words of its line, and beyond them exactly the documented refusal. */
  lemma RequestReadBack(authority: string, method_: string, path: string, token: string, body: Option<string>, rest: seq<Byte>)
    requires '\n' !in RequestLine(method_, path) && '\n' !in token && '\n' !in authority
    requires body.Some? ==> |Encode(body.value)| <= USIZE_MAX
    requires TwoWords(RequestLine(method_, path) + CRLF).Some?
    ensures var head := Encode(RequestHead(authority, method_, path, token, body));
            var size := |head| + |BodyBytes(body)|;
            var words := TwoWords(RequestLine(method_, path) + CRLF).value;
            ReadRequest(PrintRequest(authority, method_, path, token, body) + rest) ==
              if |head| > MAX_HEADER_BYTES then Err(Io)
              else if |BodyBytes(body)| > MAX_BODY_BYTES then Err(TooLarge)
              else Ok(Incoming(words.0, words.1, Some(Bearer(token)), BodyBytes(body), false, size))
  {
    hide Encode, RequestLine, RequestHeaders, ReadHeaders, ReadRequest, ReadBody, FoldHeaders, TwoWords, Bearer;
    var line := RequestLine(method_, path);
    var words := TwoWords(line + CRLF).value;
    var lines := RequestHeaders(authority, token, body);
    var first, block := Encode(line + CRLF), Encode(PrintLines(lines) + CRLF);
    var input := PrintRequest(authority, method_, path, token, body) + rest;
    EncodeConcat(line + CRLF, PrintLines(lines) + CRLF);
    assert Encode(RequestHead(authority, method_, path, token, body)) == first + block;
    assert input == first + block + BodyBytes(body) + rest;
    Layout(first, block, BodyBytes(body), rest);
    RequestLineReadBack(line, block + (BodyBytes(body) + rest));
    if |first| <= MAX_HEADER_BYTES {
      FoldRequestHeaders(authority, token, body);
      HeadersReadBack(lines, NO_HEADERS, input, |first|, BodyBytes(body) + rest);
      var h := FoldHeaders(NO_HEADERS, lines).value;
      if |first| + |block| <= MAX_HEADER_BYTES {
        BodyReadBack(input, words.0, words.1, h, |first| + |block|, body, rest);
      }
    }
  }

  lemma RequestRoundTrip(authority: string, method_: string, path: string, token: string, body: Option<string>, rest: seq<Byte>)
    requires IsWord(method_) && IsWord(path) && '\n' !in token && '\n' !in authority
    requires body.Some? ==> |Encode(body.value)| <= USIZE_MAX
    ensures var head := Encode(RequestHead(authority, method_, path, token, body));
            var size := |head| + |BodyBytes(body)|;
            ReadRequest(PrintRequest(authority, method_, path, token, body) + rest) ==
              if |head| > MAX_HEADER_BYTES then Err(Io)
              else if |BodyBytes(body)| > MAX_BODY_BYTES then Err(TooLarge)
              else Ok(Incoming(method_, path, Some(Bearer(token)), BodyBytes(body), false, size))
  {
    hide Encode, ReadRequest, PrintRequest, RequestHead, RequestLine, TwoWords, Bearer;
    RequestLineWords(method_, path);
    RequestReadBack(authority, method_, path, token, body, rest);
  }

  /** Within the limits a request keeps its method and its path exactly when both are words. The client
      prints whatever it is given. */
  lemma WordsRoundTrip(authority: string, method_: string, path: string, token: string, body: Option<string>, rest: seq<Byte>)
    requires '\n' !in token && '\n' !in authority
    requires |Encode(RequestHead(authority, method_, path, token, body))| <= MAX_HEADER_BYTES
    requires |BodyBytes(body)| <= MAX_BODY_BYTES
    ensures var r := ReadRequest(PrintRequest(authority, method_, path, token, body) + rest);
            r.Ok? && r.value.method_ == method_ && r.value.path == path <==> IsWord(method_) && IsWord(path)
  {
    hide Encode, Decode, PrintRequest, RequestHead, TwoWords, Bearer, ReadLine, ReadHeaders, IsWord;
    if IsWord(method_) && IsWord(path) {
      RequestRoundTrip(authority, method_, path, token, body, rest);
    } else {
      ReadsWords(PrintRequest(authority, method_, path, token, body) + rest);
    }
  }

  lemma ReadsWords(input: seq<Byte>)
    ensures ReadRequest(input).Ok? ==> IsWord(ReadRequest(input).value.method_) && IsWord(ReadRequest(input).value.path)
  {
    hide Decode, TwoWords, ReadLine, ReadHeaders, IsWord;
    var text := Decode(ReadLine(input, MAX_HEADER_BYTES));
    if EndsLine(text) { WordsAreWords(text.value); }
  }

  /** A decision on an id with a blank in it is sent to the path up to the blank. */
  lemma BlankCutsPath(authority: string, id: string, more: string, token: string, body: Option<string>, rest: seq<Byte>)
    requires IsWord(id) && '\n' !in more && '\n' !in token && '\n' !in authority
    requires body.Some? ==> |Encode(body.value)| <= USIZE_MAX
    ensures var path := "/approvals/" + (id + " " + more) + "/decision";
            var head := Encode(RequestHead(authority, "POST", path, token, body));
            |head| <= MAX_HEADER_BYTES && |BodyBytes(body)| <= MAX_BODY_BYTES ==>
              var r := ReadRequest(PrintRequest(authority, "POST", path, token, body) + rest);
              r.Ok? && r.value.method_ == "POST" && r.value.path == "/approvals/" + id
  {
    hide Encode, PrintRequest, RequestHead, ReadRequest, RequestLine, TwoWords, Bearer;
    BlankCutsLine(id, more);
    RequestReadBack(authority, "POST", "/approvals/" + (id + " " + more) + "/decision", token, body, rest);
  }

  lemma BlankCutsLine(id: string, more: string)
    requires IsWord(id) && '\n' !in more
    ensures var line := RequestLine("POST", "/approvals/" + (id + " " + more) + "/decision");
            '\n' !in line && TwoWords(line + CRLF) == Some(("POST", "/approvals/" + id))
  {
    hide NextWord;
    var path := "/approvals/" + (id + " " + more) + "/decision";
    var cut, last := "/approvals/" + id, " " + more + "/decision HTTP/1.1" + CRLF;
    assert IsWord(cut) by { assert forall c | c in cut :: c in "/approvals/" || c in id; }
    assert RequestLine("POST", path) + CRLF == "POST" + (" " + cut + last);
    NextWordOf("POST", " " + cut + last);
    NextWordOf(cut, last);
    assert forall c | c in id :: c != '\n';
  }

  lemma BodyReadBack(input: seq<Byte>, method_: string, path: string, h: Headers, used: nat, body: Option<string>, rest: seq<Byte>)
    requires used <= |input| && input[used..] == BodyBytes(body) + rest
    requires h.contentLength == (if body.Some? then Some(|BodyBytes(body)|) else None) && !h.expectContinue
    ensures ReadBody(input, method_, path, h, used) ==
            if |BodyBytes(body)| > MAX_BODY_BYTES then Err(TooLarge)
            else Ok(Incoming(method_, path, h.authorization, BodyBytes(body), false, used + |BodyBytes(body)|))
  {
    hide Encode;
    var n := |BodyBytes(body)|;
    assert input[used..used + n] == input[used..][..n];
  }

  lemma {:induction false} TrimOfTrimEnd(s: string)
    ensures TrimEnd(TrimEnd(s)) == TrimEnd(s) && Trim(TrimEnd(s)) == Trim(s)
  {
    if s != "" && IsWhitespace(s[|s| - 1]) { TrimOfTrimEnd(s[..|s| - 1]); }
  }

  lemma BearerOf(token: string)
    requires Trim(token) != ""
    ensures BearerMatches(Some(Bearer(token)), Trim(token))
  {
    hide Trim, TrimEnd, BearerMatches;
    InkIsLeft(token);
    TrimBlank(" ", token);
    TrimEndPrefix("Bearer", " " + token);
    assert "Bearer " + token == "Bearer" + (" " + token);
    assert Bearer(token) == "Bearer" + [' '] + TrimEnd(token);
    TrimOfTrimEnd(token);
    assert EqIgnoreCase("Bearer", "bearer");
    BearerMatchesExactly(Bearer(token), Trim(token));
  }

  lemma InkIsLeft(s: string)
    requires Trim(s) != ""
    ensures TrimEnd(s) != ""
  {
  }

  lemma {:induction false} TrimBlank(p: string, s: string)
    requires TrimEnd(s) != ""
    ensures TrimEnd(p + s) == p + TrimEnd(s)
  {
    assert s != "";
    assert (p + s)[..|p + s| - 1] == p + s[..|s| - 1];
    if IsWhitespace(s[|s| - 1]) { TrimBlank(p, s[..|s| - 1]); }
  }

  /** A printed request is authorized by its own token up to outer blanks, and its body decodes to the text
      sent. */
  lemma RoundTripAuthorizes(authority: string, method_: string, path: string, token: string, body: string, rest: seq<Byte>)
    requires IsWord(method_) && IsWord(path) && '\n' !in token && Trim(token) != "" && '\n' !in authority
    requires |Encode(RequestHead(authority, method_, path, token, Some(body)))| <= MAX_HEADER_BYTES
    requires |Encode(body)| <= MAX_BODY_BYTES
    ensures var r := ReadRequest(PrintRequest(authority, method_, path, token, Some(body)) + rest);
            r.Ok? && BearerMatches(r.value.authorization, Trim(token)) && Decode(r.value.body) == Some(body)
  {
    hide Encode, Decode, ReadRequest, PrintRequest, RequestHead, BearerMatches, Bearer, Trim;
    RequestRoundTrip(authority, method_, path, token, Some(body), rest);
    DecodeEncoded(body);
    BearerOf(token);
  }

  // ------------------------------------------------------------- the response

  function ReasonPhrase(status: nat): (r: string)
    ensures |r| <= 21 && forall c | c in r :: ' ' <= c <= 'z'
  {
    if status == 200 then "OK" else if status == 202 then "Accepted" else if status == 400 then "Bad Request"
    else if status == 401 then "Unauthorized" else if status == 403 then "Forbidden"
    else if status == 404 then "Not Found" else if status == 405 then "Method Not Allowed"
    else if status == 409 then "Conflict" else if status == 413 then "Payload Too Large"
    else if status == 429 then "Too Many Requests" else if status == 500 then "Internal Server Error"
    else if status == 503 then "Service Unavailable" else "Unknown"
  }

  function StatusLine(status: nat): string { "HTTP/1.1 " + Numeral(status, Dec) + " " + ReasonPhrase(status) }

  function ResponseHeaders(body: string): seq<string>
  {
    ["Content-Type: application/json", "Content-Length: " + Numeral(|Encode(body)|, Dec), "Connection: close"]
  }

  /** The bytes `respond` writes for a JSON text. */
  function PrintResponse(status: nat, body: string): seq<Byte>
  {
    Encode(StatusLine(status) + CRLF + (PrintLines(ResponseHeaders(body)) + CRLF)) + Encode(body)
  }

  /** `trim_end_matches(['\r', '\n'])` leaves nothing. */
  predicate IsBlankLine(text: string) { forall c | c in text :: c == '\r' || c == '\n' }

  /** Skips header lines up to a blank one and returns what follows; nothing when the input ends
      first, `None` for bytes that are not text. */
  function Payload(input: seq<Byte>, at: nat): Option<string>
    requires at <= |input|
    decreases |input| - at
  {
    var line := ReadLine(input[at..], |input|);
    if line == [] then Some("")
    else
      var text := Decode(line);
      if text.None? then None
      else if IsBlankLine(text.value) then Decode(input[at + |line|..])
      else Payload(input, at + |line|)
  }

  /** The status code and the trimmed payload `http_call` reads; 0 for an unreadable code. */
  function ReadResponse(input: seq<Byte>): Option<(nat, string)>
  {
    var line := ReadLine(input, |input|);
    var text := Decode(line);
    if text.None? then None
    else
      var payload := Payload(input, |line|);
      if payload.None? then None else Some((StatusCode(text.value), Trim(payload.value)))
  }

  /** `split_whitespace().nth(1)` as a `u16`, 0 otherwise. */
  function StatusCode(line: string): nat
  {
    var first := NextWord(line);
    if first.None? then 0
    else
      var second := NextWord(first.value.1);
      if second.None? then 0
      else
        var n := ParseUnsigned(second.value.0, Dec, U16_MAX);
        if n.None? then 0 else n.value
  }

  /** The client's loop over the lines of a response. */
  method ReceivePayload(input: seq<Byte>, start: nat) returns (r: Option<string>)
    requires start <= |input|
    ensures r == Payload(input, start)
  {
    hide Decode, ReadLine, IsBlankLine;
    var at := start;
    while true
      invariant start <= at <= |input|
      invariant Payload(input, at) == Payload(input, start)
      decreases |input| - at
    {
      var line := ReadLine(input[at..], |input|);
      if line == [] {
        return Some("");
      }
      var text := Decode(line);
      if text.None? {
        return None;
      }
      at := at + |line|;
      if IsBlankLine(text.value) {
        return Decode(input[at..]);
      }
    }
  }

  method ReceiveResponse(input: seq<Byte>) returns (r: Option<(nat, string)>)
    ensures r == ReadResponse(input)
  {
    var line := ReadLine(input, |input|);
    var text := Decode(line);
    if text.None? {
      return None;
    }
    var payload := ReceivePayload(input, |line|);
    if payload.None? {
      return None;
    }
    return Some((StatusCode(text.value), Trim(payload.value)));
  }

  lemma PayloadStep(line: string, rest: seq<Byte>, input: seq<Byte>, at: nat)
    requires '\n' !in line
    requires at <= |input| && input[at..] == Encode(line + CRLF) + rest
    ensures Payload(input, at) ==
            if IsBlankLine(line) then Decode(rest) else Payload(input, at + |Encode(line + CRLF)|)
  {
    hide Encode, Decode;
    var bytes := Encode(line + CRLF);
    assert line + CRLF == (line + "\r") + "\n";
    ReadEncodedLine(line + "\r", rest, |input|);
    assert bytes != [] by { DecodeEncoded(line + CRLF); EncodeEmpty(line + CRLF); }
    assert input[at..][|bytes|..] == rest && input[at + |bytes|..] == rest;
    assert IsBlankLine(line + CRLF) <==> IsBlankLine(line) by {
      assert forall c | c in line :: c in line + CRLF;
    }
  }

  lemma EncodeEmpty(s: string)
    ensures Encode(s) == [] <==> s == ""
  {
  }

  lemma {:induction false} PayloadReadBack(lines: seq<string>, input: seq<Byte>, at: nat, rest: seq<Byte>)
    requires forall l | l in lines :: '\n' !in l && !IsBlankLine(l)
    requires at <= |input| && input[at..] == Encode(PrintLines(lines) + CRLF) + rest
    ensures Payload(input, at) == Decode(rest)
    decreases |lines|
  {
    hide Encode, Decode, Payload;
    if lines == [] {
      assert PrintLines(lines) + CRLF == "" + CRLF;
      PayloadStep("", rest, input, at);
    } else {
      assert lines[0] in lines;
      FirstLineApart(lines);
      var first, tail := Encode(lines[0] + CRLF), Encode(PrintLines(lines[1..]) + CRLF);
      DropPrefix(input, at, first, tail, rest);
      PayloadStep(lines[0], tail + rest, input, at);
      PayloadReadBack(lines[1..], input, at + |first|, rest);
    }
  }

  lemma StatusLineCode(status: nat)
    requires status <= U16_MAX
    ensures StatusCode(StatusLine(status) + CRLF) == status
    ensures '\n' !in StatusLine(status)
  {
    hide Numeral, ReasonPhrase, NextWord, ParseUnsigned;
    var digits, last := Numeral(status, Dec), " " + ReasonPhrase(status) + CRLF;
    assert StatusLine(status) + CRLF == "HTTP/1.1" + (" " + digits + last);
    NextWordOf("HTTP/1.1", " " + digits + last);
    assert IsWord(digits);
    NextWordOf(digits, last);
    ParseNumeral(status, Dec, U16_MAX);
    assert forall c | c in digits :: c != '\n';
  }

  /** The client reads back the status and the payload the server prints, for every status and every
      text without outer blanks (printed JSON has none). */
  lemma ResponseRoundTrip(status: nat, body: string)
    requires status <= U16_MAX && IsTrimmed(body)
    ensures ReadResponse(PrintResponse(status, body)) == Some((status, body))
  {
    hide Encode, Decode, ReadLine, StatusCode, StatusLine, Payload, Numeral, Trim;
    var line, lines := StatusLine(status), ResponseHeaders(body);
    var first, block := Encode(line + CRLF), Encode(PrintLines(lines) + CRLF);
    var input := PrintResponse(status, body);
    EncodeConcat(line + CRLF, PrintLines(lines) + CRLF);
    ConcatAssociates(first, block, Encode(body));
    assert input == first + (block + Encode(body));
    StatusLineCode(status);
    assert line + CRLF == (line + "\r") + "\n";
    ReadEncodedLine(line + "\r", block + Encode(body), |input|);
    assert input[|first|..] == block + Encode(body);
    ResponseLinesAreText(body);
    PayloadReadBack(lines, input, |first|, Encode(body));
    DecodeEncoded(body);
    TrimIsTrimmed(body);
  }

  lemma ResponseHeaderLines(body: string)
    requires |Encode(body)| <= USIZE_MAX
    ensures forall l | l in ResponseHeaders(body) :: IsHeaderText(l)
    ensures FoldHeaders(NO_HEADERS, ResponseHeaders(body)) == Ok(NO_HEADERS.(contentLength := Some(|Encode(body)|)))
  {
    hide HeaderLine, TrimEnd, Encode, Numeral, IsHeaderText;
    var lines, n := ResponseHeaders(body), |Encode(body)|;
    var h := NO_HEADERS.(contentLength := Some(n));
    FixedLines(NO_HEADERS);
    LengthLine(NO_HEADERS, n);
    FixedLines(h);
    FoldStep(NO_HEADERS, lines);
    FoldStep(NO_HEADERS, lines[1..]);
    FoldStep(h, lines[2..]);
    assert lines[2..][1..] == [];
  }

  lemma AsciiText(s: string, width: nat)
    requires IsAscii(s) && |s| <= width
    ensures |Encode(s)| <= width
  {
    AsciiWidth(s);
  }

  lemma NumeralIsAscii(n: nat)
    ensures IsAscii(Numeral(n, Dec))
  {
  }

  lemma StatusLineWidth(status: nat)
    requires status <= U16_MAX
    ensures |Encode(StatusLine(status) + CRLF)| <= 38
  {
    hide Encode, Numeral, ReasonPhrase;
    assert Pow10(5) == 100000 by { assert Pow10(2) == 100; }
    NumeralLength(status, 5);
    NumeralIsAscii(status);
    AsciiText(StatusLine(status) + CRLF, 38);
  }

  lemma PrintThree(a: string, b: string, c: string)
    ensures PrintLines([a, b, c]) == a + CRLF + (b + CRLF + (c + CRLF))
  {
    assert [a, b, c][1..] == [b, c] && [b, c][1..] == [c] && [c][1..] == [];
    assert PrintLines([c]) == c + CRLF + PrintLines([]) && PrintLines([]) == "";
    assert PrintLines([b, c]) == b + CRLF + PrintLines([c]);
    assert c + CRLF + "" == c + CRLF;
  }

  lemma AsciiConcat(s: string, t: string)
    requires IsAscii(s) && IsAscii(t)
    ensures IsAscii(s + t)
  {
  }

  lemma ResponseHeadersWidth(body: string)
    requires |Encode(body)| <= USIZE_MAX
    ensures |Encode(PrintLines(ResponseHeaders(body)) + CRLF)| <= 100
  {
    hide Encode, Numeral, IsAscii, PrintLines;
    var a, b, c := "Content-Type: application/json", "Content-Length: ", "Connection: close" + CRLF;
    var digits := Numeral(|Encode(body)|, Dec);
    assert Pow10(20) == 100000000000000000000 by { assert Pow10(10) == 10000000000; }
    NumeralLength(|Encode(body)|, 20);
    NumeralIsAscii(|Encode(body)|);
    PrintThree(a, b + digits, "Connection: close");
    FixedTextsAreAscii();
    AsciiConcat(b, digits);
    AsciiConcat(b + digits, CRLF);
    AsciiConcat(b + digits + CRLF, c);
    AsciiConcat(a + CRLF, b + digits + CRLF + c);
    AsciiConcat(a + CRLF + (b + digits + CRLF + c), CRLF);
    AsciiText(PrintLines(ResponseHeaders(body)) + CRLF, 100);
  }

  lemma FixedTextsAreAscii()
    ensures IsAscii("Content-Type: application/json" + CRLF) && IsAscii("Content-Length: ")
    ensures IsAscii("Connection: close" + CRLF) && IsAscii(CRLF)
  {
  }

  /** A client that honours the headers finds the body: read behind the status line, they declare exactly the
      bytes that are left, and those are the body. */
  lemma ResponseDeclaresItsLength(status: nat, body: string)
    requires status <= U16_MAX && |Encode(body)| <= USIZE_MAX
    ensures var input := PrintResponse(status, body);
            var head := ReadHeaders(input, |ReadLine(input, |input|)|, NO_HEADERS);
            head.Ok? && head.value.1 <= |input| && head.value.0.contentLength == Some(|input| - head.value.1) &&
            input[head.value.1..] == Encode(body)
  {
    hide Encode, Decode, ReadLine, StatusLine, ReadHeaders, FoldHeaders, ResponseHeaders;
    var line, lines := StatusLine(status), ResponseHeaders(body);
    var first, block := Encode(line + CRLF), Encode(PrintLines(lines) + CRLF);
    var input := PrintResponse(status, body);
    EncodeConcat(line + CRLF, PrintLines(lines) + CRLF);
    ConcatAssociates(first, block, Encode(body));
    assert input == first + (block + Encode(body));
    StatusLineCode(status);
    assert line + CRLF == (line + "\r") + "\n";
    ReadEncodedLine(line + "\r", block + Encode(body), |input|);
    assert input[|first|..] == block + Encode(body);
    ResponseHeaderLines(body);
    HeadersReadBack(lines, NO_HEADERS, input, |first|, Encode(body));
    StatusLineWidth(status);
    ResponseHeadersWidth(body);
    assert input[|first| + |block|..] == Encode(body);
  }

  lemma ResponseLinesAreText(body: string)
    ensures forall l | l in ResponseHeaders(body) :: '\n' !in l && !IsBlankLine(l)
  {
    hide Encode, Numeral, IsBlankLine;
    IsText("Content-Type: application/json", "");
    IsText("Content-Length: ", Numeral(|Encode(body)|, Dec));
    IsText("Connection: close", "");
    assert "Content-Type: application/json" + "" == "Content-Type: application/json";
    assert "Connection: close" + "" == "Connection: close";
  }

  lemma IsText(name: string, digits: string)
    requires name != "" && name[0] == 'C' && '\n' !in name && forall c | c in digits :: IsDigitChar(c)
    ensures '\n' !in name + digits && !IsBlankLine(name + digits)
  {
    assert (name + digits)[0] in name + digits;
  }
}
