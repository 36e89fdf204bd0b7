/** Which tokens a server can be started with, and which of them any request can carry
    (crates/tole-cli/src/main.rs, crates/tole-cli/src/serve.rs, crates/tole-cli/src/auth.rs). */
module Tokens {
  import opened Common
  import opened Text
  import opened Utf8
  import opened Http

  /** The token a server starts with: the flag, else the environment, refused when blank. */
  function ServerToken(flag: Option<string>, env: Option<string>): (r: Option<string>)
  {
    var token := if flag.Some? then flag else env;
    if token.None? || Trim(token.value) == "" then None else Some(Trim(token.value))
  }

  /** `resolve_token`, which the server applies to what it was started with. */
  function ResolveToken(flag: Option<string>, env: Option<string>): Option<string>
  {
    if flag.Some? && Trim(flag.value) != "" then Some(Trim(flag.value))
    else if env.Some? && Trim(env.value) != "" then Some(Trim(env.value))
    else None
  }

  /** A server has a trimmed token that is not empty, and the second resolution leaves it alone. */
  lemma ServerTokenIsTrimmed(flag: Option<string>, env: Option<string>, other: Option<string>)
    ensures var token := ServerToken(flag, env);
            token.Some? ==> token.value != "" && IsTrimmed(token.value) && ResolveToken(token, other) == token
    ensures flag.Some? ==> ServerToken(flag, env) == ServerToken(flag, other)
    ensures flag.None? && env.Some? && IsTrimmed(env.value) && env.value != "" ==> ServerToken(flag, env) == env
  {
    hide Trim;
    if flag.Some? { TrimIsTrimmed(flag.value); }
    if env.Some? { TrimIsTrimmed(env.value); }
    var token := ServerToken(flag, env);
    if token.Some? { TrimIsTrimmed(token.value); }
  }

  /** The request can be read and carries the token. */
  predicate Authorizes(input: seq<Byte>, token: string)
  {
    ReadRequest(input).Ok? && BearerMatches(ReadRequest(input).value.authorization, token)
  }

  // ------------------------------------------------- what a request must spend on it

  /** Bytes around the token in the shortest request: a request line of four bytes, the header's name with
      its colon, the scheme with its space, two line ends. */
  const OVERHEAD: nat := 4 + 14 + 7 + 2

  lemma {:induction false} EncodeLength(s: string)
    ensures |Encode(s)| >= |s|
  {
    if s != "" { EncodeLength(s[1..]); }
  }

  lemma TrimEndCosts(s: string)
    ensures |Encode(TrimEnd(s))| + (if s != "" && IsWhitespace(s[|s| - 1]) then 1 else 0) <= |Encode(s)|
  {
    var back := TrimEndSplits(s);
    EncodeConcat(TrimEnd(s), back);
    EncodeLength(back);
  }

  lemma TrimCosts(s: string)
    ensures |Encode(Trim(s))| <= |Encode(s)|
  {
    hide Encode;
    TrimEndCosts(s);
    var front := TrimStartSplits(TrimEnd(s));
    EncodeConcat(front, Trim(s));
  }

  lemma PartsCost(a: string, c: char, b: string)
    ensures |Encode(a + [c] + b)| >= |a| + 1 + |Encode(b)|
  {
    EncodeConcat(a + [c], b);
    EncodeLength(a + [c]);
  }

  /** A line that sets the authorization is as long as the header's name, colon, value and line end. */
  lemma StepCosts(input: seq<Byte>, used: nat, h: Headers)
    requires used <= |input|
    ensures var step := ReadStep(input, used, h);
            step.More? && step.headers.authorization != h.authorization ==>
              step.headers.authorization.Some? && step.size >= 14 + |Encode(step.headers.authorization.value)| + 1
  {
    hide Decode, Encode, ReadLine, TrimEnd, Trim, SplitOnce, ParseUnsigned;
    var step := ReadStep(input, used, h);
    if step.More? {
      var line := ReadLine(input[used..], MAX_HEADER_BYTES - used);
      var text := Decode(line).value;
      EncodeDecoded(line);
      TrimEndCosts(text);
      SplitOnceParts(TrimEnd(text), ':');
      if SplitOnce(TrimEnd(text), ':').Some? {
        var (name, value) := SplitOnce(TrimEnd(text), ':').value;
        PartsCost(name, ':', value);
        TrimCosts(value);
        assert |"authorization"| == 13;
      }
    }
  }

  lemma {:induction false} HeadersCost(input: seq<Byte>, used: nat, h: Headers)
    requires used <= |input|
    ensures var head := ReadHeaders(input, used, h);
            head.Ok? ==> used < head.value.1 <= MAX_HEADER_BYTES &&
                         (head.value.0.authorization != h.authorization ==>
                            head.value.0.authorization.Some? &&
                            head.value.1 - used >= 16 + |Encode(head.value.0.authorization.value)|)
    decreases |input| - used
  {
    hide ReadStep, Encode;
    StepCosts(input, used, h);
    StepStaysInside(input, used, h);
    var step := ReadStep(input, used, h);
    if step.More? { HeadersCost(input, used + step.size, step.headers); }
  }

  lemma StepStaysInside(input: seq<Byte>, used: nat, h: Headers)
    requires used <= |input|
    ensures var step := ReadStep(input, used, h);
            step.More? || step.End? ==> used + step.size <= MAX_HEADER_BYTES
  {
    hide Decode, TrimEnd, HeaderLine, ReadLine;
  }

  lemma LineCosts(text: string)
    requires EndsLine(Some(text)) && TwoWords(text).Some?
    ensures |text| >= 4
  {
    hide TrimStart, Word;
    var first := NextWord(text).value;
    NextWordSplits(text);
    NextWordSplits(first.1);
  }

  lemma NextWordSplits(text: string)
    ensures var next := NextWord(text);
            next.Some? ==> |next.value.0| >= 1 &&
                           |next.value.0| + |next.value.1| <= |text| - (if IsWhitespace(text[0]) then 1 else 0) &&
                           (next.value.1 == "" ==> !IsWhitespace(text[|text| - 1])) &&
                           (next.value.1 != "" ==> IsWhitespace(next.value.1[0]) && next.value.1[|next.value.1| - 1] == text[|text| - 1])
  {
    TrimStartLast(text);
    WordIsWord(TrimStart(text));
    WordEnds(TrimStart(text));
  }

  lemma {:induction false} WordEnds(s: string)
    ensures |Word(s)| < |s| ==> IsWhitespace(s[|Word(s)|])
  {
    if s != "" && !IsWhitespace(s[0]) { WordEnds(s[1..]); }
  }

  /** A request that carries a token spends the overhead and the token's bytes on its head. */
  lemma AuthorizedCosts(input: seq<Byte>, token: string)
    requires Authorizes(input, token)
    ensures OVERHEAD + |Encode(token)| <= MAX_HEADER_BYTES
  {
    hide Decode, Encode, ReadLine, TwoWords, ReadHeaders, BearerMatches;
    var line := ReadLine(input, MAX_HEADER_BYTES);
    var text := Decode(line).value;
    EncodeDecoded(line);
    EncodeLength(text);
    LineCosts(text);
    HeadersCost(input, |line|, NO_HEADERS);
    var header := ReadRequest(input).value.authorization;
    NoHeaderNoMatch(token);
    MatchCosts(header.value, token);
  }

  lemma MatchCosts(header: string, token: string)
    requires BearerMatches(Some(header), token)
    ensures |Encode(header)| >= 7 + |Encode(token)|
  {
    hide Encode, BearerMatches;
    BearerMatchesExactly(header, token);
    var scheme: string, t: string :| header == scheme + [' '] + t && EqIgnoreCase(scheme, "bearer") && Trim(t) == token;
    PartsCost(scheme, ' ', t);
    TrimCosts(t);
  }

  // ----------------------------------------------------------- the shortest request

  function Shortest(token: string): seq<Byte>
  {
    Encode("a b\n") + (Encode("authorization:bearer " + token + "\n") + Encode("\n"))
  }

  lemma ShortestLine(tail: seq<Byte>)
    ensures var first := Encode("a b\n");
            |first| == 4 && ReadRequest(first + tail) == ReadRest(first + tail, "a", "b", ReadHeaders(first + tail, 4, NO_HEADERS))
  {
    hide Encode, Decode, ReadLine, NextWord, ReadRest, ReadHeaders;
    AsciiWidth("a b\n");
    assert "a b\n" == "a b" + "\n" && "a b\n" == "a" + " b\n" && " b\n" == " " + "b" + "\n";
    ReadEncodedLine("a b", tail, MAX_HEADER_BYTES);
    NextWordOf("a", " b\n");
    NextWordOf("b", "\n");
  }

  lemma ShortestHeader(token: string, h: Headers)
    requires IsToken(token)
    ensures var line := "authorization:bearer " + token;
            '\n' !in line && TrimEnd(line) == line &&
            HeaderLine(h, line) == Ok(h.(authorization := Some("bearer " + token)))
  {
    hide Trim, SplitOnce;
    var line, value := "authorization:bearer " + token, "bearer " + token;
    assert line == "authorization" + [':'] + value;
    SplitOnceAt("authorization", ':', value);
    TrimIsTrimmed(value);
    assert |"content-length"| == 14 && |"transfer-encoding"| == 17;
  }

  lemma ShortestHeaderWidth(token: string)
    ensures |Encode("authorization:bearer " + token + "\n")| == 22 + |Encode(token)|
  {
    hide Encode;
    AsciiWidth("authorization:bearer ");
    AsciiWidth("\n");
    EncodeConcat("authorization:bearer ", token);
    EncodeConcat("authorization:bearer " + token, "\n");
  }

  lemma ShortestAuthorizes(token: string)
    requires IsToken(token) && OVERHEAD + |Encode(token)| <= MAX_HEADER_BYTES
    ensures Authorizes(Shortest(token), token)
  {
    hide Encode, ReadStep, ReadRequest, HeaderLine, BearerMatches;
    var first, line, input := Encode("a b\n"), "authorization:bearer " + token, Shortest(token);
    ShortestLine(Encode(line + "\n") + Encode("\n"));
    ShortestHeader(token, NO_HEADERS);
    ShortestHeaderWidth(token);
    var at := 4 + |Encode(line + "\n")|;
    assert input[4..] == Encode(line + "\n") + Encode("\n");
    LineReadsBack(line, Encode("\n"), input, 4, NO_HEADERS);
    var h := NO_HEADERS.(authorization := Some("bearer " + token));
    assert "\n" == "" + "\n";
    assert input[at..] == Encode("" + "\n") + [];
    AsciiWidth("\n");
    LineReadsBack("", [], input, at, h);
    TrimIsTrimmed(token);
    assert "bearer " + token == "bearer" + [' '] + token;
    BearerMatchesExactly("bearer " + token, token);
  }

  /** Some request carries a token exactly when it is trimmed, not empty, free of newlines and short enough
      for the limit on request heads. */
  lemma TokensThatWork(token: string)
    ensures (exists input :: Authorizes(input, token)) <==>
            IsToken(token) && OVERHEAD + |Encode(token)| <= MAX_HEADER_BYTES
  {
    hide Authorizes, IsToken, Encode;
    forall input | Authorizes(input, token)
      ensures IsToken(token) && OVERHEAD + |Encode(token)| <= MAX_HEADER_BYTES
    {
      AuthorizedCosts(input, token);
      OnlyTokens(input, token);
    }
    if IsToken(token) && OVERHEAD + |Encode(token)| <= MAX_HEADER_BYTES { ShortestAuthorizes(token); }
  }

  lemma OnlyTokens(input: seq<Byte>, token: string)
    requires Authorizes(input, token)
    ensures IsToken(token)
  {
    hide ReadRequest, BearerMatches, IsToken;
    if !IsToken(token) { OddTokensAuthorizeNothing(input, token); }
  }

  /** Of the tokens that a server starts with, those work that are free of newlines and short enough. */
  lemma ServersThatAuthorize(flag: Option<string>, env: Option<string>)
    requires ServerToken(flag, env).Some?
    ensures var token := ServerToken(flag, env).value;
            (exists input :: Authorizes(input, token)) <==>
            '\n' !in token && OVERHEAD + |Encode(token)| <= MAX_HEADER_BYTES
  {
    hide Authorizes, Encode, ServerToken;
    ServerTokenIsTrimmed(flag, env, None);
    TokensThatWork(ServerToken(flag, env).value);
  }

  /** A server starts with a token of two lines, and authorizes nobody. */
  lemma TwoLinesAuthorizeNobody(input: seq<Byte>)
    ensures ServerToken(Some("a\nb"), None) == Some("a\nb") && !Authorizes(input, "a\nb")
  {
    hide Trim, Authorizes, Encode;
    var token := "a\nb";
    TrimIsTrimmed(token);
    assert token[1] in token;
    TokensThatWork(token);
  }
}
