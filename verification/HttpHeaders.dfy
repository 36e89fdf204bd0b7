/** Which header blocks the server accepts, and what it takes from them (crates/tole-cli/src/serve.rs). A message
    with an ambiguous length is refused, as section 6.3 of RFC 9112 asks. */
module HttpHeaders {
  import opened Common
  import opened Text
  import opened Utf8
  import opened Http

  /** The values of all lines with this name, in any case, in order. */
  function ValuesOf(lines: seq<string>, name: string): seq<string>
  {
    if lines == [] then []
    else
      var split := SplitOnce(TrimEnd(lines[0]), ':');
      (if split.Some? && EqIgnoreCase(split.value.0, name) then [Trim(split.value.1)] else []) + ValuesOf(lines[1..], name)
  }

  function LengthIn(value: string): Option<nat> { ParseUnsigned(value, Dec, USIZE_MAX) }

  /** No transfer encoding, and at most one length, which is a number. */
  predicate IsClear(lines: seq<string>)
  {
    ValuesOf(lines, "transfer-encoding") == [] && |ValuesOf(lines, "content-length")| <= 1 &&
    forall v | v in ValuesOf(lines, "content-length") :: LengthIn(v).Some?
  }

  /** What is taken from a clear block: the last authorization, the length, and whether the client waits for an
      interim answer. */
  function Taken(lines: seq<string>): Headers
    requires IsClear(lines)
  {
    var auths, lengths := ValuesOf(lines, "authorization"), ValuesOf(lines, "content-length");
    Headers(if auths == [] then None else Some(auths[|auths| - 1]),
            if lengths == [] then None else LengthIn(lengths[0]),
            exists v :: v in ValuesOf(lines, "expect") && EqIgnoreCase(v, "100-continue"))
  }

  /** The step that one line is. */
  lemma LineIs(h: Headers, line: string)
    ensures var lengths, auths, expects, r :=
              ValuesOf([line], "content-length"), ValuesOf([line], "authorization"), ValuesOf([line], "expect"),
              HeaderLine(h, TrimEnd(line));
            && (r.Ok? <==> ValuesOf([line], "transfer-encoding") == [] &&
                           (lengths != [] ==> h.contentLength.None? && LengthIn(lengths[0]).Some?))
            && (r.Ok? ==> r.value == Headers(if auths == [] then h.authorization else Some(auths[0]),
                                             if lengths == [] then h.contentLength else LengthIn(lengths[0]),
                                             h.expectContinue || (expects != [] && EqIgnoreCase(expects[0], "100-continue"))))
            && |lengths| <= 1 && |auths| <= 1 && |expects| <= 1
  {
    hide TrimEnd, Trim, SplitOnce, ParseUnsigned;
    assert [line][1..] == [];
    assert |"content-length"| == 14 && |"transfer-encoding"| == 17 && |"authorization"| == 13 && |"expect"| == 6;
  }

  lemma ValuesCons(line: string, lines: seq<string>, name: string)
    ensures ValuesOf([line] + lines, name) == ValuesOf([line], name) + ValuesOf(lines, name)
  {
    hide TrimEnd, Trim, SplitOnce;
    assert ([line] + lines)[1..] == lines && [line][1..] == [];
  }

  /** The same on top of what was read before, given the values of the names. */
  predicate ClearOnTop(h: Headers, encodings: seq<string>, lengths: seq<string>)
  {
    encodings == [] && |lengths| <= (if h.contentLength.Some? then 0 else 1) && forall v | v in lengths :: LengthIn(v).Some?
  }

  function OnTop(h: Headers, auths: seq<string>, lengths: seq<string>, expects: seq<string>): Headers
  {
    Headers(if auths == [] then h.authorization else Some(auths[|auths| - 1]),
            if lengths == [] then h.contentLength else LengthIn(lengths[0]),
            h.expectContinue || exists v :: v in expects && EqIgnoreCase(v, "100-continue"))
  }

  /** One line more in front. */
  lemma ClearStep(h: Headers, g: Headers, encodings: seq<string>, lengths: seq<string>, encodings': seq<string>, lengths': seq<string>)
    requires |lengths| <= 1 && g.contentLength == if lengths == [] then h.contentLength else LengthIn(lengths[0])
    ensures ClearOnTop(h, encodings + encodings', lengths + lengths') <==>
            encodings == [] && (lengths != [] ==> h.contentLength.None? && LengthIn(lengths[0]).Some?) &&
            ClearOnTop(g, encodings', lengths')
  {
    hide LengthIn;
    assert forall v :: v in lengths + lengths' <==> v in lengths || v in lengths';
    assert lengths != [] ==> lengths[0] in lengths + lengths';
  }

  lemma OnTopStep(h: Headers, auths: seq<string>, lengths: seq<string>, expects: seq<string>,
                  auths': seq<string>, lengths': seq<string>, expects': seq<string>)
    requires |auths| <= 1 && |lengths| <= 1 && |expects| <= 1 && (lengths != [] ==> lengths' == [])
    ensures OnTop(h, auths + auths', lengths + lengths', expects + expects') ==
            OnTop(OnTop(h, auths, lengths, expects), auths', lengths', expects')
  {
    hide LengthIn, EqIgnoreCase;
    assert forall v :: v in expects + expects' <==> v in expects || v in expects';
  }

  lemma {:induction false} FoldIs(h: Headers, lines: seq<string>)
    ensures FoldHeaders(h, lines).Ok? <==>
            ClearOnTop(h, ValuesOf(lines, "transfer-encoding"), ValuesOf(lines, "content-length"))
    ensures FoldHeaders(h, lines).Ok? ==>
              FoldHeaders(h, lines).value ==
                OnTop(h, ValuesOf(lines, "authorization"), ValuesOf(lines, "content-length"), ValuesOf(lines, "expect"))
    decreases |lines|
  {
    if lines != [] {
      hide HeaderLine, TrimEnd, ValuesOf, LengthIn, ClearOnTop, OnTop;
      var line, rest := lines[0], lines[1..];
      assert lines == [line] + rest;
      LineIs(h, line);
      ValuesCons(line, rest, "content-length");
      ValuesCons(line, rest, "transfer-encoding");
      ValuesCons(line, rest, "authorization");
      ValuesCons(line, rest, "expect");
      var auths, lengths, expects := ValuesOf([line], "authorization"), ValuesOf([line], "content-length"), ValuesOf([line], "expect");
      var g := OnTop(h, auths, lengths, expects);
      LineOnTop(h, line);
      ClearStep(h, g, ValuesOf([line], "transfer-encoding"), lengths, ValuesOf(rest, "transfer-encoding"), ValuesOf(rest, "content-length"));
      if HeaderLine(h, TrimEnd(line)).Ok? {
        FoldIs(g, rest);
        if FoldHeaders(g, rest).Ok? {
          OneLengthOnly(g, lengths, ValuesOf(rest, "transfer-encoding"), ValuesOf(rest, "content-length"));
          OnTopStep(h, auths, lengths, expects, ValuesOf(rest, "authorization"), ValuesOf(rest, "content-length"), ValuesOf(rest, "expect"));
        }
      }
    }
  }

  lemma OneLengthOnly(g: Headers, lengths: seq<string>, encodings': seq<string>, lengths': seq<string>)
    requires ClearOnTop(g, encodings', lengths') && (lengths != [] ==> g.contentLength.Some?)
    ensures lengths != [] ==> lengths' == []
  {
  }

  lemma LineOnTop(h: Headers, line: string)
    ensures var r := HeaderLine(h, TrimEnd(line));
            var lengths := ValuesOf([line], "content-length");
            var g := OnTop(h, ValuesOf([line], "authorization"), lengths, ValuesOf([line], "expect"));
            (r.Ok? ==> r.value == g && (lengths != [] ==> g.contentLength.Some?)) &&
            g.contentLength == if lengths == [] then h.contentLength else LengthIn(lengths[0])
  {
    hide HeaderLine, TrimEnd, ValuesOf, LengthIn, EqIgnoreCase;
    LineIs(h, line);
  }

  /** A block whose lines are refused is refused. */
  lemma {:induction false} RefusedBack(lines: seq<string>, h: Headers, input: seq<Byte>, used: nat, rest: seq<Byte>)
    requires forall l | l in lines :: IsHeaderText(l)
    requires FoldHeaders(h, lines).Err?
    requires used <= |input| && input[used..] == Encode(PrintLines(lines) + CRLF) + rest
    ensures used + |Encode(PrintLines(lines) + CRLF)| <= MAX_HEADER_BYTES ==>
              ReadHeaders(input, used, h) == Err(FoldHeaders(h, lines).error)
    decreases |lines|
  {
    hide ReadStep, Encode, TrimEnd, HeaderLine;
    assert IsHeaderText(lines[0]);
    FirstLineApart(lines);
    var first, tail := Encode(lines[0] + CRLF), Encode(PrintLines(lines[1..]) + CRLF);
    DropPrefix(input, used, first, tail, rest);
    StepReadsBack(lines[0], tail + rest, input, used, h);
    if used + |first| + |tail| <= MAX_HEADER_BYTES && HeaderLine(h, TrimEnd(lines[0])).Ok? {
      RefusedBack(lines[1..], HeaderLine(h, TrimEnd(lines[0])).value, input, used + |first|, rest);
    }
  }

  /** Within its byte budget the server reads a header block exactly when it is clear, and takes from it what
      stands in it; one with a transfer encoding, a second length or a length that is no number is refused. */
  lemma ClearBlocksAreRead(lines: seq<string>, input: seq<Byte>, used: nat, rest: seq<Byte>)
    requires forall l | l in lines :: IsHeaderText(l)
    requires used <= |input| && input[used..] == Encode(PrintLines(lines) + CRLF) + rest
    requires used + |Encode(PrintLines(lines) + CRLF)| <= MAX_HEADER_BYTES
    ensures var head := ReadHeaders(input, used, NO_HEADERS);
            (head.Ok? <==> IsClear(lines)) &&
            (IsClear(lines) ==> head == Ok((Taken(lines), used + |Encode(PrintLines(lines) + CRLF)|)))
  {
    hide ReadHeaders, Encode, FoldHeaders, ValuesOf, LengthIn, EqIgnoreCase;
    FoldIs(NO_HEADERS, lines);
    if IsClear(lines) {
      HeadersReadBack(lines, NO_HEADERS, input, used, rest);
    } else {
      RefusedBack(lines, NO_HEADERS, input, used, rest);
    }
  }

  /** A whole request of one-line words, with any clear block: read is what stands there, and the client gets an
      interim answer exactly when it waits for one and sends a body. */
  lemma ClearRequestIsRead(line: string, lines: seq<string>, body: seq<Byte>, rest: seq<Byte>)
    requires '\n' !in line && TwoWords(line + CRLF).Some?
    requires (forall l | l in lines :: IsHeaderText(l)) && IsClear(lines)
    requires |Encode(line + CRLF)| + |Encode(PrintLines(lines) + CRLF)| <= MAX_HEADER_BYTES
    requires |body| == (if Taken(lines).contentLength.Some? then Taken(lines).contentLength.value else 0) <= MAX_BODY_BYTES
    ensures var words, h := TwoWords(line + CRLF).value, Taken(lines);
            var size := |Encode(line + CRLF)| + |Encode(PrintLines(lines) + CRLF)| + |body|;
            ReadRequest(Encode(line + CRLF) + Encode(PrintLines(lines) + CRLF) + body + rest) ==
              Ok(Incoming(words.0, words.1, h.authorization, body, h.expectContinue && body != [], size))
  {
    hide Encode, ReadHeaders, ReadRequest, TwoWords, ValuesOf, LengthIn, EqIgnoreCase, IsClear, Taken;
    var first, block := Encode(line + CRLF), Encode(PrintLines(lines) + CRLF);
    var input := first + block + body + rest;
    Layout(first, block, body, rest);
    RequestLineReadBack(line, block + (body + rest));
    ClearBlocksAreRead(lines, input, |first|, body + rest);
    assert input[|first| + |block|..][..|body|] == body;
    assert input[|first| + |block|..|first| + |block| + |body|] == body;
  }

  lemma PlainValue(name: string, value: string, other: string)
    requires ':' !in name && value != "" && IsTrimmed(value)
    ensures ValuesOf([name + ": " + value], other) == if EqIgnoreCase(name, other) then [value] else []
  {
    hide TrimEnd, Trim, SplitOnce;
    assert name + ": " + value == name + ":" + (" " + value);
    NamedLine(NO_HEADERS, name, " " + value);
    TrimAfterBlank(value);
    assert [name + ": " + value][1..] == [];
  }

  /** What stands in the headers of a request that `http_call` prints. */
  lemma ClientSays(authority: string, token: string, body: Option<string>)
    requires authority != "" && IsTrimmed(authority) && token != "" && IsTrimmed(token)
    ensures var lines := RequestHeaders(authority, token, body);
            && ValuesOf(lines, "host") == [authority] && ValuesOf(lines, "authorization") == ["Bearer " + token]
            && ValuesOf(lines, "connection") == ["close"]
            && ValuesOf(lines, "content-type") == (if body.Some? then ["application/json"] else [])
            && ValuesOf(lines, "content-length") == (if body.Some? then [Numeral(|Encode(body.value)|, Dec)] else [])
  {
    hide ValuesOf, EqIgnoreCase, Encode, Numeral;
    ClientValues(authority, token, body, "host");
    ClientValues(authority, token, body, "authorization");
    ClientValues(authority, token, body, "connection");
    ClientValues(authority, token, body, "content-type");
    ClientValues(authority, token, body, "content-length");
    NamesDiffer();
  }

  lemma NamesDiffer()
    ensures EqIgnoreCase("Host", "host") && EqIgnoreCase("Authorization", "authorization") && EqIgnoreCase("Connection", "connection")
    ensures EqIgnoreCase("Content-Type", "content-type") && EqIgnoreCase("Content-Length", "content-length")
    ensures forall a, b | a in ["Host", "Authorization", "Content-Type", "Content-Length", "Connection"] &&
                          b in ["host", "authorization", "content-type", "content-length", "connection"] && |a| != |b| :: !EqIgnoreCase(a, b)
  {
    assert |"Host"| == 4 && |"Authorization"| == 13 && |"Content-Type"| == 12 && |"Content-Length"| == 14 && |"Connection"| == 10;
    assert |"host"| == 4 && |"authorization"| == 13 && |"content-type"| == 12 && |"content-length"| == 14 && |"connection"| == 10;
  }

  lemma ClientValues(authority: string, token: string, body: Option<string>, name: string)
    requires authority != "" && IsTrimmed(authority) && token != "" && IsTrimmed(token)
    ensures ValuesOf(RequestHeaders(authority, token, body), name) ==
            (if EqIgnoreCase("Host", name) then [authority] else []) +
            (if EqIgnoreCase("Authorization", name) then ["Bearer " + token] else []) +
            (if body.Some? && EqIgnoreCase("Content-Type", name) then ["application/json"] else []) +
            (if body.Some? && EqIgnoreCase("Content-Length", name) then [Numeral(|Encode(body.value)|, Dec)] else []) +
            (if EqIgnoreCase("Connection", name) then ["close"] else [])
  {
    hide ValuesOf, EqIgnoreCase, Encode, Numeral;
    var lines := RequestHeaders(authority, token, body);
    PlainValue("Host", authority, name);
    PlainValue("Authorization", "Bearer " + token, name);
    PlainValue("Connection", "close", name);
    var host, bearer := "Host: " + authority, "Authorization: Bearer " + token;
    assert "Host" + ": " + authority == host && "Authorization" + ": " + ("Bearer " + token) == bearer;
    assert "Connection" + ": " + "close" == "Connection: close";
    if body.Some? {
      var digits := Numeral(|Encode(body.value)|, Dec);
      BodyValues(digits, name);
      assert lines == [host, bearer, "Content-Type: application/json", "Content-Length: " + digits, "Connection: close"];
      FiveValues(lines, name);
    } else {
      assert lines == [host, bearer, "Connection: close"];
      ThreeValues(lines, name);
    }
  }

  lemma BodyValues(digits: string, name: string)
    requires digits != "" && forall c | c in digits :: IsDigitChar(c)
    ensures ValuesOf(["Content-Type: application/json"], name) == if EqIgnoreCase("Content-Type", name) then ["application/json"] else []
    ensures ValuesOf(["Content-Length: " + digits], name) == if EqIgnoreCase("Content-Length", name) then [digits] else []
  {
    hide ValuesOf, EqIgnoreCase;
    assert IsDigitChar(digits[0]) && IsDigitChar(digits[|digits| - 1]);
    PlainValue("Content-Type", "application/json", name);
    PlainValue("Content-Length", digits, name);
    assert "Content-Type" + ": " + "application/json" == "Content-Type: application/json";
    assert "Content-Length" + ": " + digits == "Content-Length: " + digits;
  }

  lemma ThreeValues(lines: seq<string>, name: string)
    requires |lines| == 3
    ensures ValuesOf(lines, name) == ValuesOf([lines[0]], name) + ValuesOf([lines[1]], name) + ValuesOf([lines[2]], name)
  {
    hide ValuesOf;
    ValuesCons(lines[0], lines[1..], name);
    ValuesCons(lines[1], lines[2..], name);
    assert lines == [lines[0]] + lines[1..] && lines[1..] == [lines[1]] + lines[2..] && lines[2..] == [lines[2]];
  }

  lemma FiveValues(lines: seq<string>, name: string)
    requires |lines| == 5
    ensures ValuesOf(lines, name) ==
            ValuesOf([lines[0]], name) + ValuesOf([lines[1]], name) + ValuesOf([lines[2]], name) +
            ValuesOf([lines[3]], name) + ValuesOf([lines[4]], name)
  {
    hide ValuesOf;
    ThreeValues(lines[2..], name);
    ValuesCons(lines[0], lines[1..], name);
    ValuesCons(lines[1], lines[2..], name);
    assert lines == [lines[0]] + lines[1..] && lines[1..] == [lines[1]] + lines[2..];
  }
}
