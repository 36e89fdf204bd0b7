/** The decoder that lifts the deployed prompt out of the command line's Rust source
    (evals/replay/replay.rs). Legal literals are those of the section "String literals" of the
    chapter "Tokens" of the Rust Reference. */
module Literal {
  import opened Common
  import opened Text
  import opened Utf8

  // ---------------------------------------------------- the decoder on texts

  /** The text after its longest prefix of characters from `blanks`. */
  function Skip(t: string, blanks: string): (r: string)
    ensures |r| <= |t|
  {
    if t != "" && t[0] in blanks then Skip(t[1..], blanks) else t
  }

  /** Between adjacent segments: blanks and continuation backslashes. */
  const JOIN := " \n\t\\"
  /** After a line continuation. */
  const INDENT := "\n\r \t"

  /** What the text after a backslash stands for. */
  datatype Escape = Bad | Emit(c: char, rest: string) | Nothing(rest: string)

  /** `char::from_u32`. */
  function CharFrom(n: nat): Option<char>
  {
    if n < 0xD800 || 0xE000 <= n < 0x110000 then Some(n as char) else None
  }

  /** `\xHH`: two characters, read as an unsigned number of at most one byte. */
  function HexEscape(t: string): (e: Escape)
    ensures e.Emit? ==> |e.rest| < |t|
  {
    var hex := if |t| < 2 then t else t[..2];
    var n := ParseUnsigned(hex, Hex, 0xFF);
    if |hex| < 2 || n.None? then Bad else Emit(n.value as char, t[2..])
  }

  /** `\u{H..}`: one to six bytes up to the closing brace. */
  function UnicodeEscape(t: string): (e: Escape)
    ensures e.Emit? ==> |e.rest| < |t|
  {
    if t == "" || t[0] != '{' then Bad
    else
      var split := SplitOnce(t[1..], '}');
      if split.None? then Bad
      else
        SplitOnceParts(t[1..], '}');
        var hex, rest := split.value.0, split.value.1;
        var n := ParseUnsigned(hex, Hex, 0xFFFF_FFFF);
        if |Encode(hex)| == 0 || |Encode(hex)| > 6 || n.None? || CharFrom(n.value).None? then Bad
        else Emit(CharFrom(n.value).value, rest)
  }

  /** The characters that stand for one character after a backslash. */
  function ShortEscape(c: char): Option<char>
  {
    if c == 'n' then Some('\n') else if c == 't' then Some('\t') else if c == 'r' then Some('\r')
    else if c == '"' then Some('"') else if c == '\\' then Some('\\') else if c == '\'' then Some('\'')
    else None
  }

  /** The text after a backslash. */
  function EscapeOf(t: string): (e: Escape)
    ensures e.Emit? || e.Nothing? ==> |e.rest| <= |t|
  {
    if t == "" || t[0] == '0' then Bad
    else if ShortEscape(t[0]).Some? then Emit(ShortEscape(t[0]).value, t[1..])
    else if t[0] == 'x' then HexEscape(t[1..])
    else if t[0] == 'u' then UnicodeEscape(t[1..])
    else Nothing(Skip(t, INDENT))
  }

  function Prepend(s: string, r: Option<string>): Option<string>
  {
    if r.None? then None else Some(s + r.value)
  }

  /** The decoded literal whose opening quote stands before `t`; `None` when decoding is refused. */
  function Scan(t: string): Option<string>
    decreases |t|
  {
    if t == "" then None
    else if t[0] == '"' then
      var after := Skip(t[1..], JOIN);
      if after != "" && after[0] == '"' then Scan(after[1..]) else Some("")
    else if t[0] == '\\' then
      match EscapeOf(t[1..])
      case Bad => None
      case Emit(c, rest) => Prepend([c], Scan(rest))
      case Nothing(rest) => Scan(rest)
    else Prepend([t[0]], Scan(t[1..]))
  }

  // ------------------------------------------- the decoder on a byte index

  /** `i` lies on a character boundary of the bytes of a text. */
  predicate Boundary(b: seq<Byte>, i: nat) { i <= |b| && Decode(b[i..]).Some? }

  /** The text from byte `i` on. */
  function From(b: seq<Byte>, i: nat): string
    requires Boundary(b, i)
  {
    Decode(b[i..]).value
  }

  /** An ASCII byte is the next character; anything else starts a wider one. */
  lemma ByteIsChar(b: seq<Byte>, i: nat)
    requires Boundary(b, i) && i < |b|
    ensures From(b, i) != ""
    ensures b[i] < 128 ==> From(b, i)[0] == b[i] as char && Boundary(b, i + 1) && From(b, i + 1) == From(b, i)[1..]
    ensures b[i] >= 128 ==> From(b, i)[0] as int >= 128
  {
    var first := DecodeFirst(b[i..]).value;
    assert b[i..][first.1..] == b[i + first.1..];
    assert b[i..][0] == b[i];
  }

  lemma NextChar(b: seq<Byte>, i: nat)
    requires Boundary(b, i) && i < |b|
    ensures From(b, i) != ""
    ensures var w := |EncodeChar(From(b, i)[0])|; Boundary(b, i + w) && From(b, i + w) == From(b, i)[1..]
  {
    var first := DecodeFirst(b[i..]).value;
    assert b[i..][first.1..] == b[i + first.1..];
    DecodedWidth(b[i..]);
  }

  /** Bytes of a text taken off a boundary lead to a boundary. */
  lemma {:induction false} AdvanceText(b: seq<Byte>, i: nat, s: string, t: string)
    requires Boundary(b, i) && From(b, i) == s + t
    ensures Boundary(b, i + |Encode(s)|) && From(b, i + |Encode(s)|) == t
    decreases |s|
  {
    hide Decode, EncodeChar;
    if s == "" {
      assert s + t == t;
      assert Encode(s) == [];
    } else {
      assert i < |b| by { EmptyTail(b, i); }
      NextChar(b, i);
      assert (s + t)[1..] == s[1..] + t;
      AdvanceText(b, i + |EncodeChar(s[0])|, s[1..], t);
    }
  }

  lemma EmptyTail(b: seq<Byte>, i: nat)
    requires Boundary(b, i)
    ensures i == |b| <==> From(b, i) == ""
  {
  }

  lemma {:induction false} DigitsAreAscii(s: string)
    requires DigitsValue(s, Hex).Some?
    ensures IsAscii(s) && forall c | c in s :: DigitValue(c).Some?
  {
    if s != "" {
      DigitsAreAscii(s[..|s| - 1]);
      assert s == s[..|s| - 1] + [s[|s| - 1]];
    }
  }

  lemma NumberIsAscii(s: string, max: nat)
    requires ParseUnsigned(s, Hex, max).Some?
    ensures IsAscii(s) && |Encode(s)| == |s|
  {
    hide Encode, DigitsValue;
    if s[0] == '+' {
      DigitsAreAscii(s[1..]);
      assert s == ['+'] + s[1..];
    } else {
      DigitsAreAscii(s);
    }
    AsciiWidth(s);
  }

  /** The look-ahead loops: skips bytes that stand for characters of `blanks`. */
  method SkipBytes(b: seq<Byte>, i: nat, blanks: string) returns (j: nat)
    requires Boundary(b, i)
    requires IsAscii(blanks)
    ensures i <= j && Boundary(b, j) && From(b, j) == Skip(From(b, i), blanks)
  {
    hide Decode;
    j := i;
    while j < |b| && b[j] < 128 && b[j] as char in blanks
      invariant i <= j && Boundary(b, j)
      invariant Skip(From(b, j), blanks) == Skip(From(b, i), blanks)
      decreases |b| - j
    {
      ByteIsChar(b, j);
      j := j + 1;
    }
    EmptyTail(b, j);
    if j < |b| { ByteIsChar(b, j); }
  }

  /** Decodes the escape whose backslash stands before byte `i`: what it emits and where the text
      goes on. */
  method DecodeEscape(b: seq<Byte>, i: nat) returns (ok: bool, out: string, next: nat)
    requires Boundary(b, i)
    ensures match EscapeOf(From(b, i))
            case Bad => !ok
            case Emit(c, rest) => ok && out == [c] && i <= next && Boundary(b, next) && From(b, next) == rest
            case Nothing(rest) => ok && out == "" && i <= next && Boundary(b, next) && From(b, next) == rest
  {
    hide Decode, Skip, HexEscape, UnicodeEscape;
    EmptyTail(b, i);
    if i == |b| {
      return false, "", i;
    }
    ByteIsChar(b, i);
    var short := if b[i] < 128 then ShortEscape(b[i] as char) else None;
    if short.Some? {
      return true, [short.value], i + 1;
    } else if b[i] == 48 {
      return false, "", i;
    } else if b[i] == 120 {
      ok, out, next := DecodeHex(b, i + 1);
    } else if b[i] == 117 {
      ok, out, next := DecodeUnicode(b, i + 1);
    } else {
      next := SkipBytes(b, i, INDENT);
      return true, "", next;
    }
  }

  method DecodeHex(b: seq<Byte>, i: nat) returns (ok: bool, out: string, next: nat)
    requires Boundary(b, i)
    ensures match HexEscape(From(b, i))
            case Bad => !ok
            case Emit(c, rest) => ok && out == [c] && i <= next && Boundary(b, next) && From(b, next) == rest
            case Nothing(_) => false
  {
    hide Decode, Encode, ParseUnsigned;
    var t := From(b, i);
    var hex := if |t| < 2 then t else t[..2];
    var n := ParseUnsigned(hex, Hex, 0xFF);
    if n.Some? { NumberIsAscii(hex, 0xFF); }
    if |Encode(hex)| < 2 || n.None? {
      if |Encode(hex)| < 2 { WideEnough(hex); }
      return false, "", i;
    }
    assert t == hex + t[2..];
    AdvanceText(b, i, hex, t[2..]);
    return true, [n.value as char], i + 2;
  }

  lemma {:induction false} EncodeAtLeast(s: string)
    ensures |s| <= |Encode(s)|
  {
    if s != "" { EncodeAtLeast(s[1..]); }
  }

  lemma WideEnough(s: string)
    requires |Encode(s)| < 2
    ensures |s| < 2
  {
    EncodeAtLeast(s);
  }

  method DecodeUnicode(b: seq<Byte>, i: nat) returns (ok: bool, out: string, next: nat)
    requires Boundary(b, i)
    ensures match UnicodeEscape(From(b, i))
            case Bad => !ok
            case Emit(c, rest) => ok && out == [c] && i <= next && Boundary(b, next) && From(b, next) == rest
            case Nothing(_) => false
  {
    hide Decode, Encode, ParseUnsigned, SplitOnce;
    EmptyTail(b, i);
    if i < |b| { ByteIsChar(b, i); }
    if i == |b| || b[i] != 123 {
      return false, "", i;
    }
    var t := From(b, i + 1);
    SplitOnceParts(t, '}');
    var split := SplitOnce(t, '}');
    if split.None? {
      return false, "", i;
    }
    var hex := split.value.0;
    var close := |Encode(hex)|;
    var n := ParseUnsigned(hex, Hex, 0xFFFF_FFFF);
    if close == 0 || close > 6 || n.None? || CharFrom(n.value).None? {
      return false, "", i;
    }
    AdvanceText(b, i + 1, hex, ['}'] + split.value.1) by {
      assert t == hex + (['}'] + split.value.1);
    }
    EmptyTail(b, i + 1 + close);
    ByteIsChar(b, i + 1 + close);
    assert (['}'] + split.value.1)[1..] == split.value.1;
    assert b[i + 1 + close] < 128;
    return true, [CharFrom(n.value).value], i + 1 + close + 1;
  }

  /** Decodes the literal whose opening quote stands before byte `start` of a text. The index only
      grows and always lies on a character boundary, so no slice of the source ever splits one. */
  method DecodeLiteral(b: seq<Byte>, start: nat) returns (r: Option<string>)
    requires Boundary(b, start)
    ensures r == Scan(From(b, start))
  {
    hide Decode, Skip, EscapeOf, EncodeChar;
    var out, i := "", start;
    PrependTwice("", "", Scan(From(b, start)));
    while true
      invariant Boundary(b, i)
      invariant Prepend(out, Scan(From(b, i))) == Scan(From(b, start))
      decreases |b| - i
    {
      EmptyTail(b, i);
      if i == |b| {
        return None;
      }
      ByteIsChar(b, i);
      if b[i] == 34 {
        var j := SkipBytes(b, i + 1, JOIN);
        EmptyTail(b, j);
        if j < |b| { ByteIsChar(b, j); }
        if j < |b| && b[j] == 34 {
          i := j + 1;
        } else {
          assert out + "" == out;
          return Some(out);
        }
      } else if b[i] == 92 {
        var ok, emitted, next := DecodeEscape(b, i + 1);
        if !ok {
          return None;
        }
        PrependTwice(out, emitted, Scan(From(b, next)));
        out, i := out + emitted, next;
      } else {
        NextChar(b, i);
        var c := From(b, i)[0];
        PrependTwice(out, [c], Scan(From(b, i)[1..]));
        out, i := out + [c], i + |EncodeChar(c)|;
      }
    }
  }

  lemma PrependTwice(a: string, b: string, r: Option<string>)
    ensures Prepend(a, Prepend(b, r)) == Prepend(a + b, r)
    ensures Prepend("", r) == r
  {
    if r.Some? {
      assert a + (b + r.value) == (a + b) + r.value;
      assert "" + r.value == r.value;
    }
  }

  // ------------------------------------------------ the elements of a literal

  /** One element of what the decoder reads. The last four are not elements of Rust's string literals,
      and of the others some forms are not. */
  datatype Piece =
    | Raw(c: char)
    | CrLf
    | Short(c: char)
    | Byte(high: char, low: char)
    | Unicode(digits: string)
    | Continue(blanks: string)
    | Nul
    | LoneCr
    | Unknown(c: char)
    | Join(blanks: string)

  function ShortName(c: char): char
  {
    match c case '\n' => 'n' case '\t' => 't' case '\r' => 'r' case _ => c
  }

  function Render(p: Piece): (s: string)
    ensures s != ""
  {
    match p
    case Raw(c) => [c]
    case CrLf => "\r\n"
    case Short(c) => ['\\', ShortName(c)]
    case Byte(high, low) => ['\\', 'x', high, low]
    case Unicode(digits) => ['\\', 'u'] + ("{" + digits + "}")
    case Continue(blanks) => ['\\'] + blanks
    case Nul => "\\0"
    case LoneCr => "\r"
    case Unknown(c) => ['\\', c]
    case Join(blanks) => ['"'] + blanks + ['"']
  }

  /** Characters that mean something of their own after a backslash. */
  predicate IsSpecial(c: char) { c == '0' || c == 'x' || c == 'u' || c in INDENT || ShortEscape(c).Some? }

  /** The number of a byte or Unicode escape the way the decoder reads it. */
  function EscapeValue(digits: string, max: nat): Option<nat> { ParseUnsigned(digits, Hex, max) }

  /** The decoder accepts the element. */
  predicate Fits(p: Piece)
  {
    match p
    case Raw(c) => c != '"' && c != '\\' && c != '\r'
    case CrLf => true
    case Short(c) => c in "\n\t\r\"\\'"
    case Byte(high, low) => EscapeValue([high, low], 0xFF).Some?
    case Unicode(digits) =>
      digits != "" && |Encode(digits)| <= 6 && EscapeValue(digits, 0xFFFF_FFFF).Some? &&
      CharFrom(EscapeValue(digits, 0xFFFF_FFFF).value).Some?
    case Continue(blanks) => blanks != "" && forall c | c in blanks :: c in INDENT
    case Nul => false
    case LoneCr => true
    case Unknown(c) => !IsSpecial(c)
    case Join(blanks) => forall c | c in blanks :: c in JOIN
  }

  /** What the decoder makes of it. */
  function Decoded(p: Piece): string
    requires Fits(p)
  {
    match p
    case Raw(c) => [c]
    case CrLf => "\r\n"
    case Short(c) => [c]
    case Byte(high, low) => [EscapeValue([high, low], 0xFF).value as char]
    case Unicode(digits) => [CharFrom(EscapeValue(digits, 0xFFFF_FFFF).value).value]
    case Continue(_) => ""
    case LoneCr => "\r"
    case Unknown(c) => [c]
    case Join(_) => ""
  }

  /** What may follow an element: no blank that a continuation would swallow, and no newline that would
      make a carriage return part of a line end. */
  predicate Precedes(p: Piece, next: char) { (p.Continue? ==> next !in INDENT) && (p.LoneCr? ==> next != '\n') }

  predicate FitAll(ps: seq<Piece>)
  {
    (forall p | p in ps :: Fits(p)) && Spaced(ps)
  }

  predicate Spaced(ps: seq<Piece>)
  {
    forall k :: 0 <= k < |ps| - 1 ==> Precedes(ps[k], Render(ps[k + 1])[0])
  }

  function RenderAll(ps: seq<Piece>): string
  {
    if ps == [] then "" else Render(ps[0]) + RenderAll(ps[1..])
  }

  function DecodedAll(ps: seq<Piece>): string
    requires forall p | p in ps :: Fits(p)
  {
    if ps == [] then "" else Decoded(ps[0]) + DecodedAll(ps[1..])
  }

  // ---------------------------------------------------- one element in front of more

  lemma {:induction false} SkipBlanks(blanks: string, rest: string, allowed: string)
    requires forall c | c in blanks :: c in allowed
    requires rest == "" || rest[0] !in allowed
    ensures Skip(blanks + rest, allowed) == rest
  {
    if blanks == "" {
      assert blanks + rest == rest;
    } else {
      assert (blanks + rest)[1..] == blanks[1..] + rest;
      SkipBlanks(blanks[1..], rest, allowed);
    }
  }

  lemma {:induction false} Skipped(t: string, allowed: string)
    ensures var n := |t| - |Skip(t, allowed)|;
            t == t[..n] + Skip(t, allowed) && (forall c | c in t[..n] :: c in allowed) &&
            (Skip(t, allowed) != "" ==> Skip(t, allowed)[0] !in allowed)
  {
    if t != "" && t[0] in allowed {
      Skipped(t[1..], allowed);
      var n := |t[1..]| - |Skip(t[1..], allowed)|;
      assert t[..n + 1] == [t[0]] + t[1..][..n];
    }
  }

  lemma TwoCharacters(high: char, low: char, rest: string)
    ensures ([high, low] + rest)[..2] == [high, low] && ([high, low] + rest)[2..] == rest
  {
  }

  lemma HexStep(high: char, low: char, rest: string)
    ensures HexEscape([high, low] + rest) ==
            if EscapeValue([high, low], 0xFF).Some? then Emit(EscapeValue([high, low], 0xFF).value as char, rest) else Bad
  {
    hide ParseUnsigned;
    TwoCharacters(high, low, rest);
  }

  /** A number in the decoder's sense has no closing brace in it. */
  lemma NoBrace(digits: string, max: nat)
    requires EscapeValue(digits, max).Some?
    ensures '}' !in digits
  {
    hide DigitsValue;
    if digits[0] == '+' {
      DigitsAreAscii(digits[1..]);
      assert digits == ['+'] + digits[1..];
    } else {
      DigitsAreAscii(digits);
    }
  }

  lemma UnicodeStep(digits: string, rest: string)
    requires Fits(Unicode(digits))
    ensures UnicodeEscape("{" + digits + "}" + rest) == Emit(Decoded(Unicode(digits))[0], rest)
  {
    hide Encode, ParseUnsigned;
    var t := "{" + digits + "}" + rest;
    assert t[1..] == digits + ['}'] + rest;
    NoBrace(digits, 0xFFFF_FFFF);
    SplitOnceAt(digits, '}', rest);
    assert |Encode(digits)| > 0 by { EncodeAtLeast(digits); }
  }

  lemma UnicodeLayout(digits: string, rest: string)
    ensures var t := Render(Unicode(digits)) + rest;
            t[0] == '\\' && t[1..][0] == 'u' && t[1..][1..] == "{" + digits + "}" + rest
  {
    var inner := "{" + digits + "}";
    assert (['\\', 'u'] + inner + rest)[1..] == ['u'] + (inner + rest);
  }

  lemma ShortStep(c: char, rest: string)
    requires Fits(Short(c))
    ensures EscapeOf([ShortName(c)] + rest) == Emit(c, rest)
  {
    hide HexEscape, UnicodeEscape, Skip;
    assert ([ShortName(c)] + rest)[1..] == rest;
  }

  lemma ContinueStep(blanks: string, rest: string)
    requires Fits(Continue(blanks)) && (rest == "" || rest[0] !in INDENT)
    ensures EscapeOf(blanks + rest) == Nothing(rest)
  {
    hide HexEscape, UnicodeEscape;
    assert (blanks + rest)[0] == blanks[0] && blanks[0] in blanks;
    SkipBlanks(blanks, rest, INDENT);
  }

  lemma UnknownStep(c: char, rest: string)
    requires !IsSpecial(c)
    ensures EscapeOf([c] + rest) == Nothing([c] + rest)
  {
    hide HexEscape, UnicodeEscape;
  }

  /** What stands behind the backslash of an escape, and what it means. */
  lemma EscapeStep(p: Piece, rest: string)
    requires Fits(p) && (p.Short? || p.Byte? || p.Unicode? || p.Continue?)
    requires p.Continue? ==> rest == "" || rest[0] !in INDENT
    ensures (Render(p) + rest)[0] == '\\' && |Decoded(p)| == if p.Continue? then 0 else 1
    ensures EscapeOf((Render(p) + rest)[1..]) == if p.Continue? then Nothing(rest) else Emit(Decoded(p)[0], rest)
  {
    hide HexEscape, UnicodeEscape, ParseUnsigned, Encode, Skip, SplitOnce;
    var t := (Render(p) + rest)[1..];
    match p
    case Short(c) =>
      hide EscapeOf;
      assert t == [ShortName(c)] + rest;
      ShortStep(c, rest);
    case Byte(high, low) =>
      assert t[1..] == [high, low] + rest;
      HexStep(high, low, rest);
    case Unicode(digits) =>
      UnicodeLayout(digits, rest);
      UnicodeStep(digits, rest);
    case Continue(blanks) =>
      hide EscapeOf;
      assert t == blanks + rest;
      ContinueStep(blanks, rest);
  }

  /** `Scan` behind a backslash. */
  function ScanEscape(t: string): Option<string>
  {
    match EscapeOf(t)
    case Bad => None
    case Emit(c, rest) => Prepend([c], Scan(rest))
    case Nothing(rest) => Scan(rest)
  }

  lemma ScanOfEscape(t: string)
    requires t != "" && t[0] == '\\'
    ensures Scan(t) == ScanEscape(t[1..])
  {
    hide EscapeOf;
  }

  lemma ScanOfRaw(c: char, rest: string)
    requires c != '"' && c != '\\'
    ensures Scan([c] + rest) == Prepend([c], Scan(rest))
  {
    assert ([c] + rest)[1..] == rest;
  }

  /** A closing quote that is followed by blanks or backslashes and another quote joins the next
      segment instead of ending the literal. */
  predicate Joins(tail: string) { Skip(tail, JOIN) != "" && Skip(tail, JOIN)[0] == '"' }

  lemma ScanOfQuote(tail: string)
    ensures Scan("\"" + tail) == if Joins(tail) then Scan(Skip(tail, JOIN)[1..]) else Some("")
  {
    assert ("\"" + tail)[1..] == tail;
  }

  lemma JoinLayout(blanks: string, rest: string)
    requires Fits(Join(blanks))
    ensures var t := Render(Join(blanks)) + rest; t[0] == '"' && Skip(t[1..], JOIN) == "\"" + rest
    ensures Render(Join(blanks)) + rest == "\"" + (blanks + ("\"" + rest))
  {
    assert Render(Join(blanks)) + rest == "\"" + (blanks + ("\"" + rest));
    SkipBlanks(blanks, "\"" + rest, JOIN);
  }

  lemma CrLfStep(rest: string)
    ensures Scan("\r\n" + rest) == Prepend("\r\n", Scan(rest))
  {
    hide Scan;
    assert "\r\n" + rest == ['\r'] + (['\n'] + rest);
    ScanOfRaw('\r', ['\n'] + rest);
    ScanOfRaw('\n', rest);
    PrependTwice("\r", "\n", Scan(rest));
    assert "\r" + "\n" == "\r\n";
  }

  lemma JoinStep(blanks: string, rest: string)
    requires Fits(Join(blanks))
    ensures Scan(Render(Join(blanks)) + rest) == Scan(rest)
  {
    hide Scan, Skip;
    JoinLayout(blanks, rest);
    ScanOfQuote(blanks + ("\"" + rest));
    assert ("\"" + (blanks + ("\"" + rest)))[1..] == blanks + ("\"" + rest);
    assert ("\"" + rest)[1..] == rest;
  }

  lemma UnknownScans(c: char, rest: string)
    requires Fits(Unknown(c))
    ensures Scan(Render(Unknown(c)) + rest) == Prepend([c], Scan(rest))
  {
    hide Scan, EscapeOf, IsSpecial;
    assert (Render(Unknown(c)) + rest)[1..] == [c] + rest;
    ScanOfEscape(Render(Unknown(c)) + rest);
    UnknownStep(c, rest);
    NotSpecial(c);
    ScanOfRaw(c, rest);
  }

  /** One element in front of more text. */
  lemma Step(p: Piece, rest: string)
    requires Fits(p) && (rest == "" || Precedes(p, rest[0]))
    ensures Scan(Render(p) + rest) == Prepend(Decoded(p), Scan(rest))
  {
    hide Scan, EscapeOf, Skip, ParseUnsigned, Encode, IsSpecial;
    PrependTwice("", "", Scan(rest));
    match p
    case Raw(c) => ScanOfRaw(c, rest);
    case LoneCr => ScanOfRaw('\r', rest);
    case CrLf => CrLfStep(rest);
    case Unknown(c) => UnknownScans(c, rest);
    case Join(blanks) => JoinStep(blanks, rest);
    case _ =>
      EscapeStep(p, rest);
      ScanOfEscape(Render(p) + rest);
  }

  lemma NotSpecial(c: char)
    requires !IsSpecial(c)
    ensures c != '"' && c != '\\'
  {
  }

  /** Accepted elements decode one after the other, whatever follows the last one. */
  lemma {:induction false} PiecesDecode(ps: seq<Piece>, rest: string)
    requires FitAll(ps) && rest != "" && rest[0] !in INDENT
    ensures Scan(RenderAll(ps) + rest) == Prepend(DecodedAll(ps), Scan(rest))
  {
    hide Scan, Fits, Decoded, Render;
    if ps == [] {
      assert RenderAll(ps) + rest == rest;
      PrependTwice("", "", Scan(rest));
    } else {
      var more := RenderAll(ps[1..]) + rest;
      ConcatAssociates(Render(ps[0]), RenderAll(ps[1..]), rest);
      StartsAs(ps, rest);
      Step(ps[0], more);
      PiecesDecode(ps[1..], rest);
      PrependTwice(Decoded(ps[0]), DecodedAll(ps[1..]), Scan(rest));
    }
  }

  /** What follows an element in a spaced list may follow it. */
  lemma StartsAs(ps: seq<Piece>, rest: string)
    requires ps != [] && Spaced(ps) && rest != "" && rest[0] !in INDENT
    ensures var more := RenderAll(ps[1..]) + rest; more != "" && Precedes(ps[0], more[0])
    ensures Spaced(ps[1..])
  {
    hide Render;
    if |ps| > 1 {
      assert (RenderAll(ps[1..]) + rest)[0] == Render(ps[1])[0];
      assert Precedes(ps[0], Render(ps[0 + 1])[0]);
    }
    assert forall k :: 0 <= k < |ps[1..]| ==> ps[1..][k] == ps[k + 1];
  }

  // ------------------------------------------------------- what the decoder accepts

  /** The element a text behind a backslash starts with, and what follows it. */
  function HeadEscape(u: string): (h: Option<(Piece, string)>)
    ensures h.Some? ==> |h.value.1| <= |u|
  {
    match EscapeOf(u)
    case Bad => None
    case Emit(c, rest) =>
      if ShortEscape(u[0]).Some? then Some((Short(c), rest))
      else if u[0] == 'x' then Some((Byte(u[1], u[2]), rest))
      else Some((Unicode(SplitOnce(u[2..], '}').value.0), rest))
    case Nothing(rest) =>
      if u[0] in INDENT then Some((Continue(u[..|u| - |rest|]), rest)) else Some((Unknown(u[0]), u[1..]))
  }

  /** The element a text starts with, and what follows it; none at a closing quote. */
  function Head(t: string): (h: Option<(Piece, string)>)
    requires t != ""
    ensures h.Some? ==> |h.value.1| < |t|
  {
    if t[0] == '"' then
      var after := Skip(t[1..], JOIN);
      if Joins(t[1..]) then Some((Join(t[1..][..|t| - 1 - |after|]), after[1..])) else None
    else if t[0] == '\\' then HeadEscape(t[1..])
    else if t[0] == '\r' then
      if |t| > 1 && t[1] == '\n' then Some((CrLf, t[2..])) else Some((LoneCr, t[1..]))
    else Some((Raw(t[0]), t[1..]))
  }

  /** The elements up to the closing quote, and what stands behind it. */
  function Parse(t: string): Option<(seq<Piece>, string)>
    decreases |t|
  {
    if t == "" then None
    else if t[0] == '"' && !Joins(t[1..]) then Some(([], t[1..]))
    else
      var h := Head(t);
      if h.None? then None
      else
        var more := Parse(h.value.1);
        if more.None? then None else Some(([h.value.0] + more.value.0, more.value.1))
  }

  /** The ways in which an escape is accepted. */
  lemma EscapeShape(u: string)
    requires !EscapeOf(u).Bad?
    ensures u != ""
    ensures var e := EscapeOf(u);
            if ShortEscape(u[0]).Some? then e == Emit(ShortEscape(u[0]).value, u[1..])
            else if u[0] == 'x' then e.Emit? && HexEscape(u[1..]) == e
            else if u[0] == 'u' then e.Emit? && UnicodeEscape(u[1..]) == e
            else u[0] != '0' && e == Nothing(Skip(u, INDENT))
  {
    hide HexEscape, UnicodeEscape, Skip;
    if u[0] == 'x' || u[0] == 'u' { NumberEscapes(u[1..]); }
  }

  lemma NumberEscapes(t: string)
    ensures !HexEscape(t).Nothing? && !UnicodeEscape(t).Nothing?
  {
    hide ParseUnsigned, Encode, SplitOnce;
  }

  lemma HeadEscapeSound(u: string)
    ensures HeadEscape(u).None? <==> EscapeOf(u).Bad?
    ensures var h := HeadEscape(u);
            h.Some? ==> Fits(h.value.0) && ['\\'] + u == Render(h.value.0) + h.value.1 &&
                        (h.value.1 != "" ==> Precedes(h.value.0, h.value.1[0]))
  {
    hide EscapeOf, HexEscape, UnicodeEscape, ParseUnsigned, Encode, Skip, SplitOnce, ShortEscape, IsSpecial, Fits, Render;
    if !EscapeOf(u).Bad? {
      EscapeShape(u);
      if ShortEscape(u[0]).Some? {
        ShortSound(u);
      } else if u[0] == 'x' {
        ByteSound(u);
      } else if u[0] == 'u' {
        UnicodeSound(u);
      } else if u[0] in INDENT {
        BlanksSound(u);
      } else {
        UnknownSound(u);
      }
    }
  }

  lemma ShortSound(u: string)
    requires u != "" && ShortEscape(u[0]).Some?
    ensures var p := Short(ShortEscape(u[0]).value); Fits(p) && ['\\'] + u == Render(p) + u[1..]
  {
    assert u == [u[0]] + u[1..];
  }

  lemma SkipsFirst(u: string)
    requires u != ""
    ensures u[0] in INDENT ==> |Skip(u, INDENT)| < |u|
    ensures u[0] !in INDENT ==> Skip(u, INDENT) == u
  {
  }

  lemma BlanksSound(u: string)
    requires u != "" && u[0] in INDENT
    ensures var rest := Skip(u, INDENT);
            |rest| <= |u| &&
            var p := Continue(u[..|u| - |rest|]);
            Fits(p) && ['\\'] + u == Render(p) + rest && (rest != "" ==> rest[0] !in INDENT)
  {
    hide Skip, IsSpecial;
    SkipsFirst(u);
    Skipped(u, INDENT);
  }

  lemma UnknownSound(u: string)
    requires u != "" && u[0] !in INDENT && ShortEscape(u[0]).None? && u[0] != 'x' && u[0] != 'u' && u[0] != '0'
    ensures Fits(Unknown(u[0])) && ['\\'] + u == Render(Unknown(u[0])) + u[1..] && Skip(u, INDENT) == u
  {
    assert u == [u[0]] + u[1..];
  }

  lemma ByteSound(u: string)
    requires u != "" && u[0] == 'x' && HexEscape(u[1..]).Emit?
    ensures |u| >= 3 && Fits(Byte(u[1], u[2])) && HexEscape(u[1..]).rest == u[3..]
    ensures ['\\'] + u == Render(Byte(u[1], u[2])) + u[3..]
  {
    hide ParseUnsigned;
    assert u[1..][..2] == [u[1], u[2]] && u[1..][2..] == u[3..];
  }

  lemma UnicodeSound(u: string)
    requires u != "" && u[0] == 'u' && UnicodeEscape(u[1..]).Emit?
    ensures |u| >= 2 && SplitOnce(u[2..], '}').Some?
    ensures var split := SplitOnce(u[2..], '}').value;
            Fits(Unicode(split.0)) && UnicodeEscape(u[1..]).rest == split.1 &&
            ['\\'] + u == Render(Unicode(split.0)) + split.1
  {
    hide ParseUnsigned, Encode, SplitOnce;
    assert u[1..][1..] == u[2..];
    SplitOnceParts(u[2..], '}');
    var split := SplitOnce(u[2..], '}').value;
    assert u == ['u', '{'] + u[2..];
    assert split.0 != "" by { EncodeEmptyText(); }
    assert ['\\'] + u == Render(Unicode(split.0)) + split.1;
  }

  lemma EncodeEmptyText()
    ensures |Encode("")| == 0
  {
  }

  lemma PlainHeadSound(t: string)
    requires t != "" && t[0] != '\\'
    ensures var h := Head(t);
            h.Some? ==> Fits(h.value.0) && t == Render(h.value.0) + h.value.1 &&
                        (h.value.1 != "" ==> Precedes(h.value.0, h.value.1[0]))
    ensures Head(t).None? ==> t[0] == '"' && !Joins(t[1..])
  {
    hide HeadEscape, Skip, ParseUnsigned, Encode, IsSpecial, Joins;
    if t[0] == '"' { JoinHeadSound(t); }
  }

  lemma JoinHeadSound(t: string)
    requires t != "" && t[0] == '"'
    ensures Head(t).None? <==> !Joins(t[1..])
    ensures var h := Head(t);
            h.Some? ==> h.value.0.Join? && Fits(h.value.0) && t == Render(h.value.0) + h.value.1
  {
    hide HeadEscape, Skip, ParseUnsigned, Encode, IsSpecial;
    Skipped(t[1..], JOIN);
  }

  lemma HeadSound(t: string)
    requires t != ""
    ensures var h := Head(t);
            h.Some? ==> Fits(h.value.0) && t == Render(h.value.0) + h.value.1 &&
                        (h.value.1 != "" ==> Precedes(h.value.0, h.value.1[0]))
    ensures Head(t).None? ==> (t[0] == '"' && !Joins(t[1..])) || Scan(t) == None
  {
    hide HeadEscape, EscapeOf, Fits, Render, Precedes, Joins, Skip, Scan;
    if t[0] == '\\' {
      HeadEscapeSound(t[1..]);
      assert t == ['\\'] + t[1..];
      ScanOfEscape(t);
    } else {
      PlainHeadSound(t);
    }
  }

  /** `t` is cut into accepted elements, the closing quote, and what the decoder does not look at. */
  predicate Splits(t: string, ps: seq<Piece>, tail: string)
  {
    FitAll(ps) && !Joins(tail) && t == RenderAll(ps) + ("\"" + tail)
  }

  lemma {:induction false} ParseSound(t: string)
    ensures Parse(t).None? ==> Scan(t) == None
    ensures Parse(t).Some? ==>
              Splits(t, Parse(t).value.0, Parse(t).value.1) && Scan(t) == Some(DecodedAll(Parse(t).value.0))
    decreases |t|
  {
    hide Scan, Head, Fits, Decoded, Render, Joins;
    if t == "" {
      assert Scan(t) == None by { EmptyIsRefused(); }
    } else if t[0] == '"' && !Joins(t[1..]) {
      assert t == "\"" + t[1..] && RenderAll([]) + t == t;
      ScanOfQuote(t[1..]);
    } else {
      HeadSound(t);
      var h := Head(t);
      if h.Some? {
        var (p, rest) := h.value;
        Step(p, rest);
        ParseSound(rest);
        if Parse(rest).Some? { InFront(p, Parse(rest).value.0, Parse(rest).value.1, rest); }
      }
    }
  }

  lemma EmptyIsRefused()
    ensures Scan("") == None
  {
  }

  lemma InFront(p: Piece, ps: seq<Piece>, tail: string, rest: string)
    requires Fits(p) && Splits(rest, ps, tail) && rest != "" && Precedes(p, rest[0])
    ensures Splits(Render(p) + rest, [p] + ps, tail) && DecodedAll([p] + ps) == Decoded(p) + DecodedAll(ps)
  {
    hide Fits, Decoded, Render, Joins;
    var all := [p] + ps;
    assert all[1..] == ps;
    ConcatAssociates(Render(p), RenderAll(ps), "\"" + tail);
    assert ps != [] ==> rest[0] == Render(ps[0])[0];
    assert forall k :: 0 < k < |all| ==> all[k] == ps[k - 1];
  }

  lemma HeadOf(p: Piece, rest: string)
    requires Fits(p) && (rest == "" || Precedes(p, rest[0]))
    ensures Head(Render(p) + rest) == Some((p, rest))
  {
    hide EscapeOf, Skip, ParseUnsigned, Encode, Scan;
    var t := Render(p) + rest;
    match p
    case Raw(c) => assert t[1..] == rest;
    case LoneCr => assert t[1..] == rest;
    case CrLf => assert t[2..] == rest;
    case Unknown(c) =>
      assert t[1..] == [c] + rest && t[1..][1..] == rest;
      UnknownStep(c, rest);
    case Join(blanks) =>
      JoinLayout(blanks, rest);
      assert t[1..] == blanks + ("\"" + rest);
      assert t[1..][..|blanks|] == blanks && ("\"" + rest)[1..] == rest;
    case _ =>
      EscapeStep(p, rest);
      EscapeHead(p, rest);
  }

  lemma EscapeHead(p: Piece, rest: string)
    requires Fits(p) && (p.Short? || p.Byte? || p.Unicode? || p.Continue?)
    requires p.Continue? ==> rest == "" || rest[0] !in INDENT
    requires EscapeOf((Render(p) + rest)[1..]) == if p.Continue? then Nothing(rest) else Emit(Decoded(p)[0], rest)
    ensures HeadEscape((Render(p) + rest)[1..]) == Some((p, rest))
  {
    hide EscapeOf, HeadEscape, Fits, Render, CharFrom, EscapeValue;
    var u := (Render(p) + rest)[1..];
    match p
    case Short(c) => ShortHead(u, c, rest);
    case Byte(high, low) => ByteHead(u, high, low, rest);
    case Unicode(digits) => UnicodeHead(u, digits, rest);
    case Continue(blanks) => ContinueHead(u, blanks, rest);
  }

  lemma ShortHead(u: string, c: char, rest: string)
    requires Fits(Short(c)) && u == (Render(Short(c)) + rest)[1..] && EscapeOf(u) == Emit(c, rest)
    ensures HeadEscape(u) == Some((Short(c), rest))
  {
    hide EscapeOf;
    assert u[0] == ShortName(c);
  }

  lemma ByteHead(u: string, high: char, low: char, rest: string)
    requires u == (Render(Byte(high, low)) + rest)[1..] && EscapeOf(u).Emit? && EscapeOf(u).rest == rest
    ensures HeadEscape(u) == Some((Byte(high, low), rest))
  {
    hide EscapeOf;
    assert u == ['x', high, low] + rest;
  }

  lemma UnicodeHead(u: string, digits: string, rest: string)
    requires Fits(Unicode(digits)) && u == (Render(Unicode(digits)) + rest)[1..]
    requires EscapeOf(u).Emit? && EscapeOf(u).rest == rest
    ensures HeadEscape(u) == Some((Unicode(digits), rest))
  {
    hide EscapeOf, ParseUnsigned, Encode, SplitOnce;
    UnicodeLayout(digits, rest);
    assert u[2..] == digits + ['}'] + rest by { assert u[1..][1..] == u[2..]; }
    NoBrace(digits, 0xFFFF_FFFF);
    SplitOnceAt(digits, '}', rest);
  }

  lemma ContinueHead(u: string, blanks: string, rest: string)
    requires Fits(Continue(blanks)) && u == (Render(Continue(blanks)) + rest)[1..] && EscapeOf(u) == Nothing(rest)
    ensures HeadEscape(u) == Some((Continue(blanks), rest))
  {
    hide EscapeOf;
    assert u == blanks + rest && u[0] == blanks[0] && blanks[0] in blanks;
    assert u[..|u| - |rest|] == blanks;
  }

  lemma {:induction false} ParseComplete(ps: seq<Piece>, tail: string)
    requires FitAll(ps) && !Joins(tail)
    ensures Parse(RenderAll(ps) + ("\"" + tail)) == Some((ps, tail))
  {
    hide Head, Fits, Render, Joins;
    var end := "\"" + tail;
    if ps == [] {
      assert RenderAll(ps) + end == end && end[1..] == tail;
    } else {
      var more := RenderAll(ps[1..]) + end;
      ConcatAssociates(Render(ps[0]), RenderAll(ps[1..]), end);
      StartsAs(ps, end);
      HeadOf(ps[0], more);
      NotTheEnd(ps[0], more);
      ParseComplete(ps[1..], tail);
      assert [ps[0]] + ps[1..] == ps;
    }
  }

  lemma NotTheEnd(p: Piece, rest: string)
    requires Fits(p)
    ensures var t := Render(p) + rest; t != "" && !(t[0] == '"' && !Joins(t[1..]))
  {
    hide EscapeOf, Skip, ParseUnsigned, Encode;
    if p.Join? { JoinLayout(p.blanks, rest); }
  }

  /** A text is decoded to `v` exactly when it is cut into accepted elements and a closing quote in a way
      that spells `v`; and there is one way at most. */
  lemma AcceptsExactly(t: string, v: string)
    ensures Scan(t) == Some(v) <==> exists ps, tail :: Splits(t, ps, tail) && DecodedAll(ps) == v
    ensures forall ps, tail, qs, rest :: Splits(t, ps, tail) && Splits(t, qs, rest) ==> ps == qs && tail == rest
  {
    hide Scan, FitAll, Joins, DecodedAll, Parse;
    ParseSound(t);
    forall ps, tail | Splits(t, ps, tail)
      ensures Parse(t) == Some((ps, tail))
    {
      ParseComplete(ps, tail);
    }
  }

  // --------------------------------------------------------- what the language says

  /** The digits of a Unicode escape without the separators the language allows between them. */
  function WithoutUnderscores(s: string): string
  {
    if s == "" then "" else (if s[0] == '_' then "" else [s[0]]) + WithoutUnderscores(s[1..])
  }

  /** The number in the braces of a Unicode escape. */
  function CodePoint(digits: string): Option<nat> { DigitsValue(WithoutUnderscores(digits), Hex) }

  /** A line end as it stands in a source file. */
  predicate StartsLine(blanks: string) { "\n" <= blanks || "\r\n" <= blanks }

  predicate IsAsciiByte(high: char, low: char) { '0' <= high <= '7' && DigitValue(low).Some? }

  /** The element is one of a Rust string literal. A carriage return stands only in front of a newline,
      byte escapes end at `\x7F`, and a continuation starts with a line end. */
  predicate Legal(p: Piece)
  {
    match p
    case Raw(c) => c != '"' && c != '\\' && c != '\r'
    case CrLf => true
    case Short(c) => c in "\n\t\r\"\\'"
    case Byte(high, low) => IsAsciiByte(high, low)
    case Unicode(digits) =>
      digits != "" && digits[0] != '_' && (forall c | c in digits :: c == '_' || DigitValue(c).Some?) &&
      |WithoutUnderscores(digits)| <= 6 && CodePoint(digits).Some? && CharFrom(CodePoint(digits).value).Some?
    case Continue(blanks) => StartsLine(blanks) && forall c | c in blanks :: c in INDENT
    case Nul => true
    case _ => false
  }

  /** What the language says it stands for; line ends are newlines before anything else is read. */
  function Meaning(p: Piece): string
    requires Legal(p)
  {
    match p
    case Raw(c) => [c]
    case CrLf => "\n"
    case Short(c) => [c]
    case Byte(high, low) => [(16 * DigitValue(high).value + DigitValue(low).value) as char]
    case Unicode(digits) => [CharFrom(CodePoint(digits).value).value]
    case Continue(_) => ""
    case Nul => "\0"
  }

  /** The legal forms that the decoder refuses. */
  predicate Refused(p: Piece) { p.Nul? || (p.Unicode? && '_' in p.digits) }

  /** The forms that the decoder accepts although the language has no such element. */
  predicate Loose(p: Piece)
  {
    match p
    case LoneCr => true
    case Unknown(_) => true
    case Join(_) => true
    case Byte(high, low) => !IsAsciiByte(high, low)
    case Unicode(digits) => digits != "" && digits[0] == '+'
    case Continue(blanks) => !StartsLine(blanks)
    case _ => false
  }

  lemma {:induction false} NoUnderscores(s: string)
    requires '_' !in s
    ensures WithoutUnderscores(s) == s
  {
    if s != "" { NoUnderscores(s[1..]); }
  }

  lemma TwoDigits(high: char, low: char)
    requires DigitValue(high).Some? && DigitValue(low).Some?
    ensures EscapeValue([high, low], 0xFF) == Some(16 * DigitValue(high).value + DigitValue(low).value)
  {
    var s := [high, low];
    assert s[..1] == [high] && [high][..0] == "";
    assert DigitsValue([high], Hex) == Some(DigitValue(high).value);
  }

  /** A Unicode escape without separators is legal exactly when the decoder accepts it without a sign. */
  lemma UnicodeAgrees(digits: string)
    ensures Legal(Unicode(digits)) && '_' !in digits <==> Fits(Unicode(digits)) && digits[0] != '+'
    ensures Legal(Unicode(digits)) && '_' !in digits ==> Decoded(Unicode(digits)) == Meaning(Unicode(digits))
  {
    hide Encode, DigitsValue, WithoutUnderscores;
    if Legal(Unicode(digits)) && '_' !in digits {
      NoUnderscores(digits);
      assert digits[0] in digits;
      DigitsAreAscii(digits);
      AsciiWidth(digits);
    } else if Fits(Unicode(digits)) && digits[0] != '+' {
      DigitsAreAscii(digits);
      AsciiWidth(digits);
      assert '_' !in digits by { assert DigitValue('_').None?; }
      NoUnderscores(digits);
    }
  }

  /** Of the legal elements the decoder accepts all but the refused ones, and of what it accepts all but
      the loose ones are legal; it gets their meaning right except for line ends with a carriage
      return. */
  lemma LegalAndAccepted(p: Piece)
    ensures Legal(p) && !Refused(p) <==> Fits(p) && !Loose(p)
    ensures Legal(p) && !Refused(p) ==>
              if p.CrLf? then |Decoded(p)| == |Meaning(p)| + 1 else Decoded(p) == Meaning(p)
  {
    hide ParseUnsigned, Encode;
    match p
    case Byte(high, low) =>
      if IsAsciiByte(high, low) { TwoDigits(high, low); }
    case Unicode(digits) =>
      if digits != "" { UnicodeAgrees(digits); }
    case _ =>
  }

  predicate LegalAll(ps: seq<Piece>)
  {
    (forall p | p in ps :: Legal(p)) && Spaced(ps)
  }

  function MeaningAll(ps: seq<Piece>): string
    requires forall p | p in ps :: Legal(p)
  {
    if ps == [] then "" else Meaning(ps[0]) + MeaningAll(ps[1..])
  }

  /** How many line ends are written with a carriage return. */
  function CrLfs(ps: seq<Piece>): nat
  {
    if ps == [] then 0 else (if ps[0].CrLf? then 1 else 0) + CrLfs(ps[1..])
  }

  lemma {:induction false} MeaningOfAll(ps: seq<Piece>)
    requires forall p | p in ps :: Legal(p) && !Refused(p)
    ensures forall p | p in ps :: Fits(p)
    ensures |DecodedAll(ps)| == |MeaningAll(ps)| + CrLfs(ps)
    ensures CrLfs(ps) == 0 ==> DecodedAll(ps) == MeaningAll(ps)
  {
    hide Legal, Fits, Loose, Refused, Decoded, Meaning;
    forall p | p in ps ensures Fits(p) { LegalAndAccepted(p); }
    if ps != [] {
      LegalAndAccepted(ps[0]);
      MeaningOfAll(ps[1..]);
    }
  }

  predicate SomeRefused(ps: seq<Piece>) { exists p :: p in ps && Refused(p) }

  lemma RefusedStep(p: Piece, rest: string)
    requires Legal(p) && Refused(p)
    ensures Scan(Render(p) + rest) == None
  {
    hide Scan, EscapeOf;
    var t := Render(p) + rest;
    assert t[0] == '\\';
    ScanOfEscape(t);
    RefusedEscape(p, rest);
  }

  lemma RefusedEscape(p: Piece, rest: string)
    requires Legal(p) && Refused(p)
    ensures EscapeOf((Render(p) + rest)[1..]) == Bad
  {
    hide Encode, HexEscape;
    if p.Unicode? {
      UnicodeLayout(p.digits, rest);
      SeparatorRefused(p.digits, rest);
    }
  }

  lemma SeparatorRefused(digits: string, rest: string)
    requires Legal(Unicode(digits)) && '_' in digits
    ensures UnicodeEscape("{" + digits + "}" + rest) == Bad
  {
    hide Encode, DigitsValue, CodePoint;
    var t := "{" + digits + "}" + rest;
    assert t[1..] == digits + ['}'] + rest;
    SplitOnceAt(digits, '}', rest);
    assert digits[0] in digits;
    if DigitsValue(digits, Hex).Some? { DigitsAreAscii(digits); }
  }

  /** One refused element makes the decoder refuse the whole text. */
  lemma {:induction false} RefusedStops(ps: seq<Piece>, rest: string)
    requires LegalAll(ps) && SomeRefused(ps) && rest != "" && rest[0] !in INDENT
    ensures Scan(RenderAll(ps) + rest) == None
  {
    hide Scan, Legal, Refused, Render, Loose, Fits;
    var more := RenderAll(ps[1..]) + rest;
    ConcatAssociates(Render(ps[0]), RenderAll(ps[1..]), rest);
    if Refused(ps[0]) {
      RefusedStep(ps[0], more);
    } else {
      LegalAndAccepted(ps[0]);
      StartsAs(ps, rest);
      Step(ps[0], more);
      assert SomeRefused(ps[1..]) by {
        var p :| p in ps && Refused(p);
        assert p in ps[1..];
      }
      RefusedStops(ps[1..], rest);
    }
  }

  lemma LegalFits(ps: seq<Piece>)
    requires LegalAll(ps) && !SomeRefused(ps)
    ensures FitAll(ps)
  {
    hide Legal, Fits, Refused, Loose;
    forall p | p in ps ensures Fits(p) { LegalAndAccepted(p); }
  }

  /** A legal literal is refused exactly for a `\0` or a separator between the digits of a Unicode escape;
      otherwise its elements are decoded, up to what a following segment adds. */
  lemma LiteralDecodes(ps: seq<Piece>, tail: string)
    requires LegalAll(ps)
    ensures !SomeRefused(ps) ==> FitAll(ps)
    ensures Scan(RenderAll(ps) + ("\"" + tail)) ==
            if SomeRefused(ps) then None
            else if Joins(tail) then Prepend(DecodedAll(ps), Scan(Skip(tail, JOIN)[1..]))
            else Some(DecodedAll(ps))
  {
    hide Legal, Refused, Fits, Scan, RenderAll, DecodedAll, Joins, Skip;
    if SomeRefused(ps) {
      RefusedStops(ps, "\"" + tail);
    } else {
      LegalFits(ps);
      PiecesDecode(ps, "\"" + tail);
      ScanOfQuote(tail);
      assert DecodedAll(ps) + "" == DecodedAll(ps);
    }
  }

  /** A legal literal that is not joined with another text decodes to what the language says it stands for
      exactly when it has no `\0`, no separator in a Unicode escape and no line end with a carriage
      return. */
  lemma LiteralMeans(ps: seq<Piece>, tail: string)
    requires LegalAll(ps) && !Joins(tail)
    ensures Scan(RenderAll(ps) + ("\"" + tail)) == Some(MeaningAll(ps)) <==> !SomeRefused(ps) && CrLf !in ps
  {
    hide Legal, Fits, Scan, RenderAll, Joins, Refused, DecodedAll, MeaningAll;
    LiteralDecodes(ps, tail);
    NoCrLf(ps);
    if !SomeRefused(ps) { MeaningOfAll(ps); }
  }

  lemma {:induction false} NoCrLf(ps: seq<Piece>)
    ensures CrLfs(ps) == 0 <==> CrLf !in ps
  {
    if ps != [] {
      NoCrLf(ps[1..]);
      assert CrLf in ps <==> ps[0] == CrLf || CrLf in ps[1..];
    }
  }

  /** What the decoder accepts is a legal literal exactly when no loose element occurs in it. */
  lemma LegalExactly(t: string, ps: seq<Piece>, tail: string)
    requires Splits(t, ps, tail)
    ensures (exists qs :: LegalAll(qs) && t == RenderAll(qs) + ("\"" + tail)) <==> forall p | p in ps :: !Loose(p)
  {
    hide Legal, Fits, Scan, RenderAll, Joins, Refused, Loose, Spaced, Parse;
    ParseComplete(ps, tail);
    forall p | p in ps ensures Legal(p) && !Refused(p) <==> !Loose(p) { LegalAndAccepted(p); }
    assert (forall p | p in ps :: !Loose(p)) ==> LegalAll(ps);
    forall qs | LegalAll(qs) && t == RenderAll(qs) + ("\"" + tail)
      ensures qs == ps && !SomeRefused(ps)
    {
      ParseSound(t);
      if SomeRefused(qs) {
        RefusedStops(qs, "\"" + tail);
      } else {
        LegalFits(qs);
        ParseComplete(qs, tail);
      }
    }
  }

  /** A single element, up to the closing quote. */
  lemma Alone(p: Piece, t: string, v: string)
    requires Fits(p) && t == Render(p) + "\"" && v == Decoded(p)
    ensures Scan(t) == Some(v)
  {
    hide Scan, Fits, Render, Decoded;
    Step(p, "\"");
    Ends();
    assert v + "" == v;
  }

  /** A single refused element, up to the closing quote. */
  lemma RefusedAlone(p: Piece, t: string)
    requires Legal(p) && Refused(p) && t == Render(p) + "\""
    ensures Scan(t) == None
  {
    hide Scan, Legal, Refused, Render;
    var ps := [p];
    assert ps[1..] == [];
    LiteralDecodes(ps, "");
    assert RenderAll(ps) + ("\"" + "") == t;
  }

  /** A NUL is refused. */
  lemma NulIsRefused()
    ensures Legal(Nul) && Meaning(Nul) == "\0" && Scan("\\0\"") == None
  {
    hide Scan;
    RefusedAlone(Nul, "\\0\"");
  }

  /** A separator between the digits of a Unicode escape is refused. */
  lemma UnderscoreIsRefused()
    ensures Legal(Unicode("4_1")) && Meaning(Unicode("4_1")) == "A" && Scan("\\u{4_1}\"") == None
  {
    hide Scan;
    FortyOne();
    RefusedAlone(Unicode("4_1"), "\\u{4_1}\"");
  }

  lemma FortyOne()
    ensures Legal(Unicode("4_1")) && Meaning(Unicode("4_1")) == "A"
  {
    assert "4_1"[1..] == "_1" && "_1"[1..] == "1" && "1"[1..] == "";
    assert "" + "1" == "1";
    assert WithoutUnderscores("4_1") == "41";
    assert "41"[..1] == "4" && "4"[..0] == "";
    assert DigitsValue("4", Hex) == Some(4) && DigitsValue("41", Hex) == Some(65);
  }

  /** A line end with a carriage return keeps it. */
  lemma CrLfIsKept()
    ensures Legal(CrLf) && Meaning(CrLf) == "\n" && Scan("\r\n\"") == Some("\r\n")
  {
    hide Scan;
    Alone(CrLf, "\r\n\"", "\r\n");
  }

  /** What the short escapes stand for. */
  lemma ShortEscapesMean()
    ensures Scan("\\n\"") == Some("\n") && Scan("\\t\"") == Some("\t") && Scan("\\r\"") == Some("\r")
    ensures Scan("\\\\\"") == Some("\\") && Scan("\\\"\"") == Some("\"") && Scan("\\'\"") == Some("'")
  {
    hide Scan;
    Alone(Short('\n'), "\\n\"", "\n");
    Alone(Short('\t'), "\\t\"", "\t");
    Alone(Short('\r'), "\\r\"", "\r");
    Alone(Short('\\'), "\\\\\"", "\\");
    Alone(Short('"'), "\\\"\"", "\"");
    Alone(Short('\''), "\\'\"", "'");
  }

  /** A line end behind a backslash, and the indentation of the next line, stand for nothing. */
  lemma ContinuationMeans()
    ensures Scan("\\\n \ta\"") == Some("a") && !Loose(Continue("\n \t"))
  {
    hide Scan;
    var ps := [Continue("\n \t"), Raw('a')];
    assert ps[1..] == [Raw('a')] && [Raw('a')][1..] == [];
    PiecesDecode(ps, "\"");
    Ends();
    assert RenderAll(ps) + "\"" == "\\\n \ta\"";
    assert DecodedAll(ps) == "a" && "a" + "" == "a";
  }

  /** A lone carriage return. */
  lemma LoneCrAccepted()
    ensures Scan("\r\"") == Some("\r") && Loose(LoneCr)
  {
    hide Scan;
    Alone(LoneCr, "\r\"", "\r");
  }

  /** A backslash in front of a character that has no meaning there. */
  lemma UnknownAccepted()
    ensures Scan("\\q\"") == Some("q") && Loose(Unknown('q'))
  {
    hide Scan;
    Alone(Unknown('q'), "\\q\"", "q");
  }

  /** A sign in front of the digits of an escape. */
  lemma SignAccepted()
    ensures Scan("\\x+7\"") == Some([7 as char]) && Loose(Byte('+', '7'))
    ensures Scan("\\u{+41}\"") == Some("A") && Loose(Unicode("+41"))
  {
    hide Scan;
    SignedDigits();
    Alone(Byte('+', '7'), "\\x+7\"", [7 as char]);
    Alone(Unicode("+41"), "\\u{+41}\"", "A");
  }

  /** A byte escape beyond ASCII. */
  lemma HighByteAccepted()
    ensures Scan("\\xFF\"") == Some([0xFF as char]) && Loose(Byte('F', 'F'))
  {
    hide Scan;
    TwoDigits('F', 'F');
    Alone(Byte('F', 'F'), "\\xFF\"", [0xFF as char]);
  }

  /** A continuation without a line end. */
  lemma BlankAccepted()
    ensures Scan("\\ a\"") == Some("a") && Loose(Continue(" "))
  {
    hide Scan;
    PiecesDecode([Continue(" "), Raw('a')], "\"");
    Ends();
    TwoOrThree();
    assert "a" + "" == "a" && " "[0] != '\n' && " "[0] != '\r';
  }

  /** The literal is joined with the next quoted text. */
  lemma JoinAccepted()
    ensures Scan("a\" \"b\"") == Some("ab") && Loose(Join(" "))
  {
    hide Scan;
    PiecesDecode([Raw('a'), Join(" "), Raw('b')], "\"");
    Ends();
    TwoOrThree();
    assert "ab" + "" == "ab";
  }

  /** Blanks, line ends and backslashes may stand between the two texts. */
  lemma JoinOverLines()
    ensures Scan("a\"\\\n\t \"b\"") == Some("ab") && Loose(Join("\\\n\t "))
  {
    hide Scan;
    var ps := [Raw('a'), Join("\\\n\t "), Raw('b')];
    assert ps[1..] == [ps[1], ps[2]] && ps[1..][1..] == [ps[2]] && [ps[2]][1..] == [];
    PiecesDecode(ps, "\"");
    Ends();
    assert RenderAll([ps[2]]) == "b" && RenderAll(ps[1..]) == Render(ps[1]) + "b";
    assert RenderAll(ps) + "\"" == "a\"\\\n\t \"b\"";
    assert DecodedAll(ps) == "ab" && "ab" + "" == "ab";
  }

  lemma Ends()
    ensures Scan("\"") == Some("")
  {
    ScanOfQuote("");
    assert "\"" + "" == "\"";
  }

  lemma SignedDigits()
    ensures EscapeValue("+7", 0xFF) == Some(7)
    ensures Fits(Unicode("+41")) && Decoded(Unicode("+41")) == "A"
  {
    assert "+7"[1..] == "7" && "7"[..0] == "" && DigitsValue("", Hex) == Some(0);
    assert "+41"[1..] == "41" && "41"[..1] == "4" && "4"[..0] == "";
    assert DigitsValue("4", Hex) == Some(4) && DigitsValue("41", Hex) == Some(65);
    AsciiWidth("+41");
  }

  lemma TwoOrThree()
    ensures RenderAll([Continue(" "), Raw('a')]) + "\"" == "\\ a\""
    ensures RenderAll([Raw('a'), Join(" "), Raw('b')]) + "\"" == "a\" \"b\""
    ensures DecodedAll([Continue(" "), Raw('a')]) == "a" && DecodedAll([Raw('a'), Join(" "), Raw('b')]) == "ab"
  {
    var two, three := [Continue(" "), Raw('a')], [Raw('a'), Join(" "), Raw('b')];
    assert two[1..] == [Raw('a')] && three[1..] == [Join(" "), Raw('b')] && three[1..][1..] == [Raw('b')];
    assert [Raw('a')][1..] == [] && [Raw('b')][1..] == [];
  }

  /** Decoding starts on a boundary: the byte behind the first quote of a source text. */
  lemma StartsOnBoundary(before: string, t: string)
    ensures var b := Encode(before + t); Boundary(b, |Encode(before)|) && From(b, |Encode(before)|) == t
  {
    hide Decode, Encode;
    var b := Encode(before + t);
    DecodeEncoded(before + t);
    assert b[0..] == b;
    AdvanceText(b, 0, before, t);
  }
}
