/** Text operations shared by the other modules: lines, decimal and hexadecimal numerals, and the
    Rust `str` methods the sources call. A `char` is a Unicode scalar value, as in Rust. */
module Text {

  import opened Common

  // ------------------------------------------------------------------ lines

  /** `s.split('\n').collect()`: never empty, one more part than there are newlines. */
  function SplitLines(s: string): (parts: seq<string>)
    ensures parts != []
    ensures forall p | p in parts :: '\n' !in p
  {
    if s == "" then [""]
    else if s[0] == '\n' then [""] + SplitLines(s[1..])
    else
      var rest := SplitLines(s[1..]);
      [[s[0]] + rest[0]] + rest[1..]
  }

  /** `parts.join("\n")`. */
  function JoinLines(parts: seq<string>): string
  {
    if parts == [] then ""
    else if |parts| == 1 then parts[0]
    else parts[0] + "\n" + JoinLines(parts[1..])
  }

  /** A newline-free line in front of a newline is split off whole. */
  lemma {:induction false} SplitFirst(line: string, rest: string)
    requires '\n' !in line
    ensures SplitLines(line) == [line]
    ensures SplitLines(line + "\n" + rest) == [line] + SplitLines(rest)
  {
    var s := line + "\n" + rest;
    if line == "" {
      assert s[1..] == rest;
    } else {
      SplitFirst(line[1..], rest);
      assert s[1..] == line[1..] + "\n" + rest;
      assert line == [line[0]] + line[1..];
    }
  }

  lemma {:induction false} SplitAfterJoin(parts: seq<string>)
    requires parts != []
    requires forall p | p in parts :: '\n' !in p
    ensures SplitLines(JoinLines(parts)) == parts
  {
    if |parts| == 1 {
      SplitFirst(parts[0], "");
    } else {
      SplitAfterJoin(parts[1..]);
      SplitFirst(parts[0], JoinLines(parts[1..]));
      assert parts == [parts[0]] + parts[1..];
    }
  }

  /** `line` is one of the lines of `text`: it stands between newlines or the ends. */
  ghost predicate HasLine(text: string, line: string)
  {
    '\n' !in line && exists before, after :: StandsBetween(text, before, line, after)
  }

  predicate StandsBetween(text: string, before: string, line: string, after: string)
  {
    text == before + line + after &&
    (before == "" || before[|before| - 1] == '\n') && (after == "" || after[0] == '\n')
  }

  lemma SplitCons(c: char, s: string)
    ensures var rest := SplitLines(s);
            SplitLines([c] + s) == if c == '\n' then [""] + rest else [[c] + rest[0]] + rest[1..]
  {
    assert ([c] + s)[1..] == s;
  }

  lemma FirstGrows(c: char, a: seq<string>, b: seq<string>)
    requires a != []
    ensures [[c] + (a + b)[0]] + (a + b)[1..] == ([[c] + a[0]] + a[1..]) + b
  {
    assert (a + b)[1..] == a[1..] + b;
  }

  lemma {:induction false} SplitConcat(p: string, t: string)
    ensures SplitLines(p + "\n" + t) == SplitLines(p) + SplitLines(t)
  {
    hide SplitLines;
    if p == "" {
      SplitFirst("", t);
    } else {
      var c, rest := p[0], p[1..];
      var a, b := SplitLines(rest), SplitLines(t);
      SplitConcat(rest, t);
      SplitCons(c, rest);
      SplitCons(c, rest + "\n" + t);
      assert p == [c] + rest && p + "\n" + t == [c] + (rest + "\n" + t);
      FirstGrows(c, a, b);
      ConcatAssociates([""], a, b);
    }
  }

  /** The first line of a text, and what follows it. */
  lemma {:induction false} SplitHead(s: string)
    ensures var first := SplitLines(s)[0];
            first <= s && '\n' !in first &&
            if |first| == |s| then SplitLines(s) == [first]
            else s[|first|] == '\n' && SplitLines(s) == [first] + SplitLines(s[|first| + 1..])
  {
    if s != "" && s[0] != '\n' {
      SplitHead(s[1..]);
      var first, rest := SplitLines(s)[0], SplitLines(s[1..])[0];
      assert first == [s[0]] + rest;
      assert |rest| < |s| - 1 ==> s[1..][|rest| + 1..] == s[|first| + 1..];
    }
  }

  lemma {:induction false} LineStands(s: string, line: string) returns (before: string, after: string)
    requires line in SplitLines(s)
    ensures StandsBetween(s, before, line, after)
    decreases |s|
  {
    hide SplitLines;
    var first := SplitLines(s)[0];
    SplitHead(s);
    if line == first {
      before, after := "", s[|line|..];
      assert s == "" + line + after;
    } else {
      var rest := s[|first| + 1..];
      assert line in SplitLines(rest);
      before, after := LineStands(rest, line);
      assert s == first + "\n" + rest;
      assert first + "\n" + (before + line + after) == (first + "\n" + before) + line + after;
      before := first + "\n" + before;
    }
  }

  lemma StandingIsLine(s: string, before: string, line: string, after: string)
    requires '\n' !in line && StandsBetween(s, before, line, after)
    ensures line in SplitLines(s)
  {
    hide SplitLines;
    FirstIsLine(line, after);
    if before != "" {
      var p := before[..|before| - 1];
      assert before == p + "\n";
      ConcatAssociates(before, line, after);
      SplitConcat(p, line + after);
    } else {
      assert s == line + after;
    }
  }

  /** Splitting a text yields exactly its lines. */
  lemma LinesAreLines(s: string, line: string)
    ensures line in SplitLines(s) <==> HasLine(s, line)
  {
    hide SplitLines, StandsBetween;
    if line in SplitLines(s) { var before, after := LineStands(s, line); }
    if HasLine(s, line) {
      var before, after :| StandsBetween(s, before, line, after);
      StandingIsLine(s, before, line, after);
    }
  }

  lemma FirstIsLine(line: string, after: string)
    requires '\n' !in line && (after == "" || after[0] == '\n')
    ensures line in SplitLines(line + after)
  {
    if after == "" {
      assert line + after == line;
      SplitFirst(line, "");
    } else {
      assert line + after == line + "\n" + after[1..];
      SplitFirst(line, after[1..]);
    }
  }

  // --------------------------------------------------------------- numerals

  /** The character of one digit, lower case above nine. */
  function DigitChar(d: nat): (c: char)
    requires d < 16
    ensures DigitValue(c) == Some(d)
    ensures IsDigitChar(c)
  {
    if d < 10 then ('0' as int + d) as char else ('a' as int + d - 10) as char
  }

  /** What `{}` and `{:x}` print. */
  predicate IsDigitChar(c: char) { '0' <= c <= '9' || 'a' <= c <= 'f' }

  /** `char::to_digit(16)`: both letter cases are digits. */
  function DigitValue(c: char): (d: Option<nat>)
    ensures d.Some? ==> d.value < 16
  {
    if '0' <= c <= '9' then Some((c as int) - ('0' as int))
    else if 'a' <= c <= 'f' then Some((c as int) - ('a' as int) + 10)
    else if 'A' <= c <= 'F' then Some((c as int) - ('A' as int) + 10)
    else None
  }

  /** The two radixes the sources print and read. */
  datatype Radix = Dec | Hex {
    function Shift(v: nat, d: nat): nat { if Dec? then 10 * v + d else 16 * v + d }
    function Front(n: nat): nat { if Dec? then n / 10 else n / 16 }
    function Last(n: nat): (d: nat) ensures d < 16 { if Dec? then n % 10 else n % 16 }
    predicate IsDigit(d: nat) { d < if Dec? then 10 else 16 }
  }

  /** The numeral of `n`, without leading zeros (`{}` and `{:x}`). */
  function Numeral(n: nat, radix: Radix): (s: string)
    ensures s != ""
    ensures forall c | c in s :: IsDigitChar(c)
    decreases n
  {
    if radix.IsDigit(n) then [DigitChar(n)]
    else Numeral(radix.Front(n), radix) + [DigitChar(radix.Last(n))]
  }

  function Pow10(k: nat): nat { if k == 0 then 1 else 10 * Pow10(k - 1) }

  lemma {:induction false} NumeralLength(n: nat, width: nat)
    requires n < Pow10(width) && 1 <= width
    ensures |Numeral(n, Dec)| <= width
  {
    if n >= 10 { NumeralLength(n / 10, width - 1); }
  }

  /** The value of a digit string; `None` when a character is not a digit of the radix. */
  function DigitsValue(s: string, radix: Radix): Option<nat>
  {
    if s == "" then Some(0)
    else
      var front, d := DigitsValue(s[..|s| - 1], radix), DigitValue(s[|s| - 1]);
      if front.Some? && d.Some? && radix.IsDigit(d.value) then Some(radix.Shift(front.value, d.value)) else None
  }

  lemma {:induction false} NumeralValue(n: nat, radix: Radix)
    ensures DigitsValue(Numeral(n, radix), radix) == Some(n)
    decreases n
  {
    var s := Numeral(n, radix);
    assert DigitsValue("", radix) == Some(0);
    if radix.IsDigit(n) {
      assert s[..|s| - 1] == "";
    } else {
      NumeralValue(radix.Front(n), radix);
      assert s[..|s| - 1] == Numeral(radix.Front(n), radix);
    }
  }

  /** Unsigned `from_str_radix`: an optional `+`, at least one digit, and a value up to `max`. */
  function ParseUnsigned(s: string, radix: Radix, max: nat): (r: Option<nat>)
    ensures r.Some? ==> r.value <= max
  {
    var digits := if s != "" && s[0] == '+' then s[1..] else s;
    if digits == "" then None
    else
      var v := DigitsValue(digits, radix);
      if v.Some? && v.value <= max then v else None
  }

  lemma ParseNumeral(n: nat, radix: Radix, max: nat)
    requires n <= max
    ensures ParseUnsigned(Numeral(n, radix), radix, max) == Some(n)
  {
    NumeralValue(n, radix);
    assert IsDigitChar(Numeral(n, radix)[0]);
  }

  // ------------------------------------------------------------- `str` methods

  /** `char::is_whitespace`: the Unicode White_Space property. */
  predicate IsWhitespace(c: char)
  {
    var n := c as int;
    9 <= n <= 13 || n == 0x20 || n == 0x85 || n == 0xA0 || n == 0x1680 || 0x2000 <= n <= 0x200A ||
    n == 0x2028 || n == 0x2029 || n == 0x202F || n == 0x205F || n == 0x3000
  }

  function TrimStart(s: string): (t: string)
    ensures |t| <= |s|
    ensures t != "" ==> !IsWhitespace(t[0])
  {
    if s != "" && IsWhitespace(s[0]) then TrimStart(s[1..]) else s
  }

  function TrimEnd(s: string): (t: string)
    ensures |t| <= |s|
    ensures t != "" ==> !IsWhitespace(t[|t| - 1]) && t[0] == s[0]
  {
    if s != "" && IsWhitespace(s[|s| - 1]) then TrimEnd(s[..|s| - 1]) else s
  }

  function Trim(s: string): string { TrimStart(TrimEnd(s)) }

  /** Nothing to trim. */
  predicate IsTrimmed(s: string)
  {
    s == "" || (!IsWhitespace(s[0]) && !IsWhitespace(s[|s| - 1]))
  }

  lemma {:induction false} TrimStartLast(s: string)
    ensures TrimStart(s) != "" ==> TrimStart(s)[|TrimStart(s)| - 1] == s[|s| - 1]
  {
    if s != "" && IsWhitespace(s[0]) { TrimStartLast(s[1..]); }
  }

  lemma TrimIsTrimmed(s: string)
    ensures IsTrimmed(Trim(s))
    ensures IsTrimmed(s) ==> Trim(s) == s
  {
    TrimStartLast(TrimEnd(s));
  }

  predicate IsBlank(s: string) { forall c | c in s :: IsWhitespace(c) }

  lemma {:induction false} TrimEndSplits(s: string) returns (back: string)
    ensures s == TrimEnd(s) + back && IsBlank(back)
  {
    back := "";
    if s != "" && IsWhitespace(s[|s| - 1]) {
      back := TrimEndSplits(s[..|s| - 1]);
      back := back + [s[|s| - 1]];
    }
  }

  lemma {:induction false} TrimStartSplits(s: string) returns (front: string)
    ensures s == front + TrimStart(s) && IsBlank(front)
  {
    front := "";
    if s != "" && IsWhitespace(s[0]) {
      front := TrimStartSplits(s[1..]);
      front := [s[0]] + front;
    }
  }

  /** Trimming takes blanks off both ends. */
  lemma TrimParts(s: string) returns (front: string, back: string)
    ensures s == front + Trim(s) + back && IsBlank(front) && IsBlank(back)
  {
    back := TrimEndSplits(s);
    front := TrimStartSplits(TrimEnd(s));
  }

  lemma BlankTrims(s: string)
    ensures Trim(s) == "" <==> IsBlank(s)
  {
    var front, back := TrimParts(s);
    TrimIsTrimmed(s);
    if Trim(s) != "" { assert s[|front|] == Trim(s)[0] && s[|front|] in s; }
  }

  /** Nothing else does. */
  lemma TrimBetween(front: string, s: string, back: string)
    requires IsBlank(front) && IsBlank(back) && IsTrimmed(s) && s != ""
    ensures Trim(front + s + back) == s
  {
    TrimEndBehind(front + s, back);
    TrimStartBefore(front, s);
  }

  lemma {:induction false} TrimEndBehind(s: string, back: string)
    requires IsBlank(back) && s != "" && !IsWhitespace(s[|s| - 1])
    ensures TrimEnd(s + back) == s
  {
    if back == "" {
      assert s + back == s;
    } else {
      TrimEndBehind(s, back[..|back| - 1]);
      assert (s + back)[..|s + back| - 1] == s + back[..|back| - 1];
    }
  }

  lemma {:induction false} TrimStartBefore(front: string, s: string)
    requires IsBlank(front) && s != "" && !IsWhitespace(s[0])
    ensures TrimStart(front + s) == s
  {
    if front == "" {
      assert front + s == s;
    } else {
      TrimStartBefore(front[1..], s);
      assert (front + s)[1..] == front[1..] + s;
    }
  }

  lemma TrimEndSnoc(s: string, c: char)
    requires IsWhitespace(c)
    ensures TrimEnd(s + [c]) == TrimEnd(s)
  {
    assert (s + [c])[..|s|] == s;
  }

  /** The run of non-blank characters a text starts with. */
  function Word(s: string): (w: string)
    ensures |w| <= |s| && s[..|w|] == w
  {
    if s == "" || IsWhitespace(s[0]) then "" else [s[0]] + Word(s[1..])
  }

  /** `split_whitespace().next()`: the first word and what follows it. */
  function NextWord(s: string): Option<(string, string)>
  {
    var t := TrimStart(s);
    if t == "" then None else Some((Word(t), t[|Word(t)|..]))
  }

  predicate IsWord(s: string) { s != "" && forall c | c in s :: !IsWhitespace(c) }

  lemma {:induction false} WordThenBlank(w: string, rest: string)
    requires IsWord(w) && rest != "" && IsWhitespace(rest[0])
    ensures Word(w + rest) == w
  {
    assert !IsWhitespace(w[0]);
    assert (w + rest)[1..] == w[1..] + rest;
    if |w| > 1 {
      WordThenBlank(w[1..], rest);
    } else {
      assert w[1..] + rest == rest;
    }
    assert w == [w[0]] + w[1..];
  }

  lemma NextWordOf(w: string, rest: string)
    requires IsWord(w) && rest != "" && IsWhitespace(rest[0])
    ensures NextWord(w + rest) == Some((w, rest)) && NextWord(" " + w + rest) == Some((w, rest))
  {
    WordThenBlank(w, rest);
    assert (w + rest)[0] == w[0] && w[0] in w;
    assert (" " + w + rest)[1..] == w + rest;
    assert (w + rest)[|w|..] == rest;
  }

  /** `split_once`. */
  function SplitOnce(s: string, c: char): Option<(string, string)>
  {
    if s == "" then None
    else if s[0] == c then Some(("", s[1..]))
    else
      var r := SplitOnce(s[1..], c);
      if r.None? then None else Some(([s[0]] + r.value.0, r.value.1))
  }

  lemma {:induction false} SplitOnceAt(a: string, c: char, b: string)
    requires c !in a
    ensures SplitOnce(a + [c] + b, c) == Some((a, b))
  {
    var s := a + [c] + b;
    if a == "" {
      assert s[1..] == b;
    } else {
      SplitOnceAt(a[1..], c, b);
      assert s[1..] == a[1..] + [c] + b;
      assert a == [a[0]] + a[1..];
    }
  }

  lemma {:induction false} SplitOnceParts(s: string, c: char)
    ensures SplitOnce(s, c).None? <==> c !in s
    ensures SplitOnce(s, c).Some? ==>
              c !in SplitOnce(s, c).value.0 && s == SplitOnce(s, c).value.0 + [c] + SplitOnce(s, c).value.1
  {
    if s != "" {
      SplitOnceParts(s[1..], c);
      assert s == [s[0]] + s[1..];
    }
  }

  function LowerAscii(c: char): char
  {
    if 'A' <= c <= 'Z' then ((c as int) + 32) as char else c
  }

  /** `eq_ignore_ascii_case`. */
  predicate EqIgnoreCase(a: string, b: string)
  {
    |a| == |b| && forall k :: 0 <= k < |a| ==> LowerAscii(a[k]) == LowerAscii(b[k])
  }

  // ------------------------------------------------------------------- order

  /** `str` ordering: by the first differing character, a prefix first; for UTF-8 that is the order of
      the bytes. */
  predicate TextLess(s: string, t: string)
  {
    t != "" && (s == "" || s[0] < t[0] || (s[0] == t[0] && TextLess(s[1..], t[1..])))
  }

  lemma {:induction false} TextLessTotal(s: string, t: string)
    ensures TextLess(s, t) || s == t || TextLess(t, s)
    ensures !(TextLess(s, t) && TextLess(t, s))
  {
    if s != "" && t != "" {
      TextLessTotal(s[1..], t[1..]);
      assert s == [s[0]] + s[1..] && t == [t[0]] + t[1..];
    }
  }

  lemma {:induction false} TextLessTransitive(s: string, t: string, u: string)
    requires TextLess(s, t) && TextLess(t, u)
    ensures TextLess(s, u)
  {
    if s != "" && s[0] == t[0] == u[0] { TextLessTransitive(s[1..], t[1..], u[1..]); }
  }
}
