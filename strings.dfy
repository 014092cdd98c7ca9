/** The few operations on Python `str` values that the bot relies on:
    `split()`, `strip()`, `split(sep, 1)`, `int()`, `str()` of a non-negative
    integer and `sep.join(parts)`. Whitespace is the ASCII part of Python's
    `str.isspace`. */
module Strings {

  datatype Option<T> = None | Some(value: T)

  /** ASCII characters that Python's `str.isspace` accepts:
      TAB, LF, VT, FF, CR, the four information separators and SPACE. */
  predicate IsSpace(c: char) {
    c == ' ' || ('\t' <= c <= '\r') || ('\U{1C}' <= c <= '\U{1F}')
  }

  predicate NoSpace(s: string) {
    forall i :: 0 <= i < |s| ==> !IsSpace(s[i])
  }

  predicate IsDigit(c: char) {
    '0' <= c <= '9'
  }

  predicate AllDigits(s: string) {
    forall i :: 0 <= i < |s| ==> IsDigit(s[i])
  }

  /** A non-empty run of ASCII digits: what `str(n)` produces for `n >= 0`. */
  predicate IsNumeral(s: string) {
    s != [] && AllDigits(s)
  }

  /** What `int()` skips around the digits: SPACE and TAB through CR. The
      information separators U+001C..U+001F count as whitespace for
      `split()` and `strip()` but not for `int()`. */
  predicate IsIntSpace(c: char) {
    c == ' ' || ('\t' <= c <= '\r')
  }

  /** The two notions of whitespace: `str.strip()`'s and `int()`'s. */
  datatype Blanks = StrBlanks | IntBlanks

  predicate IsBlank(b: Blanks, c: char) {
    if b == StrBlanks then IsSpace(c) else IsIntSpace(c)
  }

  // ---------------------------------------------------------------- strip

  /** How many blanks of kind `b` open `s`. */
  function LeadingBlanks(s: string, b: Blanks): (n: nat)
    ensures n <= |s|
    ensures forall k :: 0 <= k < n ==> IsBlank(b, s[k])
    ensures n < |s| ==> !IsBlank(b, s[n])
  {
    if s != [] && IsBlank(b, s[0]) then 1 + LeadingBlanks(s[1..], b) else 0
  }

  /** How many blanks of kind `b` close `s`. */
  function TrailingBlanks(s: string, b: Blanks): (n: nat)
    ensures n <= |s|
    ensures forall k :: |s| - n <= k < |s| ==> IsBlank(b, s[k])
    ensures n < |s| ==> !IsBlank(b, s[|s| - n - 1])
  {
    if s != [] && IsBlank(b, s[|s| - 1]) then 1 + TrailingBlanks(s[..|s| - 1], b) else 0
  }

  /** Leading and trailing blanks of kind `b` removed: what is left is one
      slice of `s`, and every character of `s` outside it is such a blank. */
  function StripBy(s: string, b: Blanks): (r: string)
    ensures r == [] || (!IsBlank(b, r[0]) && !IsBlank(b, r[|r| - 1]))
    ensures var i := LeadingBlanks(s, b);
      && i + |r| <= |s| && r == s[i..i + |r|]
      && (forall k :: i + |r| <= k < |s| ==> IsBlank(b, s[k]))
  {
    var i := LeadingBlanks(s, b);
    var t := s[i..];
    var n := TrailingBlanks(t, b);
    SuffixBlanks(s, i, n, b);
    s[i..|s| - n]
  }

  /** Blanks closing the suffix `s[i..]` close `s` too. */
  lemma SuffixBlanks(s: string, i: nat, n: nat, b: Blanks)
    requires i <= |s| && n <= |s| - i
    requires forall k :: |s| - i - n <= k < |s| - i ==> IsBlank(b, s[i..][k])
    ensures forall k :: |s| - n <= k < |s| ==> IsBlank(b, s[k])
  {
    forall k | |s| - n <= k < |s|
      ensures IsBlank(b, s[k])
    {
      assert s[k] == s[i..][k - i];
    }
  }

  /** Python's `s.strip()`: leading and trailing whitespace removed, and
      nothing else. */
  function Strip(s: string): (r: string)
    ensures r == [] || (!IsSpace(r[0]) && !IsSpace(r[|r| - 1]))
    ensures var i := LeadingBlanks(s, StrBlanks);
      && i + |r| <= |s| && r == s[i..i + |r|]
      && (forall k :: 0 <= k < i ==> IsSpace(s[k]))
      && (forall k :: i + |r| <= k < |s| ==> IsSpace(s[k]))
  {
    StripBy(s, StrBlanks)
  }

  /** Stripping a string that neither starts nor ends with whitespace
      changes nothing. */
  lemma StripUnpadded(s: string)
    requires s == [] || (!IsSpace(s[0]) && !IsSpace(s[|s| - 1]))
    ensures Strip(s) == s
  {
  }

  /** One leading space in front of a word is what `strip()` removes. */
  lemma StripLeadingSpace(w: string)
    requires w != [] && !IsSpace(w[0]) && !IsSpace(w[|w| - 1])
    ensures Strip(" " + w) == w
  {
    var t := " " + w;
    assert t[1..] == w;
    assert LeadingBlanks(t, StrBlanks) == 1;
  }

  // ---------------------------------------------------------------- split()

  /** Length of the leading run of non-whitespace characters. */
  function WordLength(s: string): (n: nat)
    ensures n <= |s|
    ensures forall i :: 0 <= i < n ==> !IsSpace(s[i])
    ensures n < |s| ==> IsSpace(s[n])
  {
    if s == [] || IsSpace(s[0]) then 0 else 1 + WordLength(s[1..])
  }

  /** Python's `s.split()` without arguments: the maximal runs of
      non-whitespace characters, in order; never an empty word. */
  function Words(s: string): (ws: seq<string>)
    ensures forall k :: 0 <= k < |ws| ==> ws[k] != [] && NoSpace(ws[k])
    decreases |s|
  {
    if s == [] then []
    else if IsSpace(s[0]) then Words(s[1..])
    else
      var n := WordLength(s);
      [s[..n]] + Words(s[n..])
  }

  /** A word followed by whitespace (or by nothing) is split off whole. */
  lemma WordsCons(w: string, rest: string)
    requires w != [] && NoSpace(w)
    requires rest == [] || IsSpace(rest[0])
    ensures Words(w + rest) == [w] + Words(rest)
  {
    var s := w + rest;
    var n := WordLength(s);
    assert forall i :: 0 <= i < |w| ==> s[i] == w[i];
    assert |w| < |s| ==> s[|w|] == rest[0];
    assert n == |w|;
    assert s[..n] == w;
    assert s[n..] == rest;
  }

  /** Leading whitespace of any kind is skipped. */
  lemma WordsBlank(c: char, rest: string)
    requires IsSpace(c)
    ensures Words([c] + rest) == Words(rest)
  {
    assert ([c] + rest)[1..] == rest;
  }

  /** A text of whitespace only, the empty text included, has no words. */
  lemma {:induction false} WordsAllBlank(s: string)
    requires forall k :: 0 <= k < |s| ==> IsSpace(s[k])
    ensures Words(s) == []
  {
    if s != [] {
      WordsAllBlank(s[1..]);
    }
  }

  // ---------------------------------------------------------------- split(c, 1)

  /** Position of the first occurrence of `c`, if any. */
  function FirstIndex(s: string, c: char): (r: Option<nat>)
    ensures r.None? <==> c !in s
    ensures r.Some? ==> r.value < |s| && s[r.value] == c && c !in s[..r.value]
  {
    if s == [] then None
    else if s[0] == c then Some(0)
    else
      match FirstIndex(s[1..], c)
      case None => None
      case Some(i) => assert s[1..][..i] == s[1..i + 1]; Some(i + 1)
  }

  /** Python's `s.split(c, 1)` when `c` occurs in `s`: the text before the
      first `c` and the text after it. */
  function SplitAtFirst(s: string, c: char): (r: (string, string))
    requires c in s
    ensures s == r.0 + [c] + r.1
    ensures c !in r.0
  {
    var i := FirstIndex(s, c).value;
    assert s == s[..i] + [c] + s[i + 1..];
    (s[..i], s[i + 1..])
  }

  /** The decomposition is unique: whatever precedes the first `c` is the
      first half. */
  lemma SplitAtFirstOf(a: string, c: char, b: string)
    requires c !in a
    ensures SplitAtFirst(a + [c] + b, c) == (a, b)
  {
    var s := a + [c] + b;
    var r := SplitAtFirst(s, c);
    assert forall i :: 0 <= i < |a| ==> s[i] == a[i];
    assert s[|a|] == c;
    assert forall i :: 0 <= i < |r.0| ==> s[i] == r.0[i];
    assert s[|r.0|] == c;
    assert |r.0| == |a|;
    assert r.0 == s[..|a|] == a;
    assert r.1 == s[|a| + 1..] == b;
  }

  // ---------------------------------------------------------------- split(c)

  /** Python's `s.split(c)`: the pieces between occurrences of `c`. */
  function Split(s: string, c: char): (ps: seq<string>)
    ensures |ps| >= 1
    decreases |s|
  {
    if c !in s then [s]
    else
      var (before, after) := SplitAtFirst(s, c);
      [before] + Split(after, c)
  }

  lemma SplitCons(a: string, c: char, b: string)
    requires c !in a
    ensures Split(a + [c] + b, c) == [a] + Split(b, c)
  {
    SplitAtFirstOf(a, c, b);
  }

  // ---------------------------------------------------------------- int()

  function DigitValue(c: char): nat
    requires IsDigit(c)
  {
    c as int - '0' as int
  }

  /** The number a run of decimal digits denotes. */
  function DigitsValue(s: string): nat
    requires AllDigits(s)
  {
    if s == [] then 0 else DigitsValue(s[..|s| - 1]) * 10 + DigitValue(s[|s| - 1])
  }

  /** A numeral has no blanks of either kind to strip. */
  lemma StripNumeral(s: string, b: Blanks)
    requires IsNumeral(s)
    ensures StripBy(s, b) == s
  {
    assert LeadingBlanks(s, b) == 0 by {
      assert !IsBlank(b, s[0]);
    }
    assert forall k :: 0 <= k < |s| ==> !IsBlank(b, s[k]) by {
      assert AllDigits(s);
    }
  }

  /** Python's `int(s)` in base 10, restricted to ASCII: surrounding
      SPACE and TAB..CR are ignored, an optional sign may precede a non-empty
      run of digits, and anything else raises `ValueError` (here: `None`). */
  function ParseInt(s: string): (r: Option<int>)
    ensures IsNumeral(s) ==> r == Some(DigitsValue(s))
  {
    var t := StripBy(s, IntBlanks);
    assert IsNumeral(s) ==> t == s by {
      if IsNumeral(s) {
        StripNumeral(s, IntBlanks);
      }
    }
    if t != [] && (t[0] == '+' || t[0] == '-') then
      if IsNumeral(t[1..]) then
        var magnitude: int := DigitsValue(t[1..]);
        Some(if t[0] == '-' then -magnitude else magnitude)
      else None
    else if IsNumeral(t) then Some(DigitsValue(t))
    else None
  }

  /** What `int()` accepts, once its whitespace is stripped: a numeral, or a
      sign followed by a numeral, and nothing else. So the empty text, a
      lone sign, a space between digits and a doubled sign all raise. */
  lemma ParseIntCore(s: string)
    ensures var t := StripBy(s, IntBlanks);
            ParseInt(s).Some? <==> (|| IsNumeral(t)
                                    || (|t| > 1 && (t[0] == '+' || t[0] == '-') && IsNumeral(t[1..])))
    ensures var t := StripBy(s, IntBlanks);
            ParseInt(s).Some? && !IsNumeral(t) ==>
              ParseInt(s).value == if t[0] == '-' then -(DigitsValue(t[1..]) as int) else DigitsValue(t[1..]) as int
  {
  }

  /** `int("")` raises: the minute of a two-character time token `hm`,
      `hm[2:]`, is empty. */
  lemma ParseIntEmpty()
    ensures ParseInt("").None?
  {
  }

  /** `int()` raises as soon as the text holds, anywhere, a character that
      is neither `int()`'s whitespace, nor a digit, nor a sign; the
      information separators U+001C..U+001F are such characters. */
  lemma ParseIntRejects(s: string, i: nat)
    requires i < |s| && !IsIntSpace(s[i]) && !IsDigit(s[i]) && s[i] != '+' && s[i] != '-'
    ensures ParseInt(s).None?
  {
    var t := StripBy(s, IntBlanks);
    var lead := LeadingBlanks(s, IntBlanks);
    assert lead <= i < lead + |t| by {
      assert !IsBlank(IntBlanks, s[i]);
    }
    assert t[i - lead] == s[i];
    if t != [] && (t[0] == '+' || t[0] == '-') {
      assert t[1..][i - lead - 1] == s[i];
    }
  }

  /** Stripping keeps exactly `s[p..q]` when `p` and `q` bound the first
      and the last non-blank character. */
  lemma StripBetween(s: string, p: nat, q: nat, b: Blanks)
    requires p < q <= |s|
    requires forall k :: 0 <= k < p ==> IsBlank(b, s[k])
    requires forall k :: q <= k < |s| ==> IsBlank(b, s[k])
    requires !IsBlank(b, s[p]) && !IsBlank(b, s[q - 1])
    ensures StripBy(s, b) == s[p..q]
  {
    assert LeadingBlanks(s, b) == p;
    var r := StripBy(s, b);
    assert |r| == q - p;
  }

  /** Stripping removes exactly the blank padding around a core that starts
      and ends with a non-blank character. */
  lemma StripPadded(pre: string, core: string, post: string, b: Blanks)
    requires core != [] && !IsBlank(b, core[0]) && !IsBlank(b, core[|core| - 1])
    requires forall k :: 0 <= k < |pre| ==> IsBlank(b, pre[k])
    requires forall k :: 0 <= k < |post| ==> IsBlank(b, post[k])
    ensures StripBy(pre + core + post, b) == core
  {
    var s := pre + core + post;
    var n := |pre| + |core|;
    assert forall k :: 0 <= k < |pre| ==> s[k] == pre[k];
    assert forall k :: n <= k < |s| ==> s[k] == post[k - n];
    assert s[|pre|] == core[0];
    assert s[n - 1] == core[|core| - 1];
    StripBetween(s, |pre|, n, b);
    assert s[|pre|..n] == core;
  }

  /** `int()` of a numeral with an optional sign and `int()`'s whitespace
      around it: the signed value of the digits. */
  lemma ParseIntPadded(pre: string, sign: string, digits: string, post: string)
    requires sign == "" || sign == "+" || sign == "-"
    requires IsNumeral(digits)
    requires forall k :: 0 <= k < |pre| ==> IsIntSpace(pre[k])
    requires forall k :: 0 <= k < |post| ==> IsIntSpace(post[k])
    ensures ParseInt(pre + sign + digits + post)
         == Some(if sign != "" && sign[0] == '-' then -(DigitsValue(digits) as int) else DigitsValue(digits) as int)
  {
    var x, core := pre + sign + digits + post, sign + digits;
    assert x == pre + core + post by {
      ConcatAssoc(pre, sign, digits);
    }
    assert StripBy(x, IntBlanks) == core by {
      assert core[|core| - 1] == digits[|digits| - 1];
      assert core[0] == if sign == "" then digits[0] else sign[0];
      StripPadded(pre, core, post, IntBlanks);
    }
    if sign == "" {
      assert core == digits;
      ParseIntUnsigned(x, digits);
    } else {
      assert core == [sign[0]] + digits;
      ParseIntSigned(x, sign[0], digits);
    }
  }

  lemma ParseIntUnsigned(x: string, digits: string)
    requires IsNumeral(digits)
    requires StripBy(x, IntBlanks) == digits
    ensures ParseInt(x) == Some(DigitsValue(digits) as int)
  {
    assert !(digits[0] == '+' || digits[0] == '-');
  }

  lemma ParseIntSigned(x: string, sign: char, digits: string)
    requires sign == '+' || sign == '-'
    requires IsNumeral(digits)
    requires StripBy(x, IntBlanks) == [sign] + digits
    ensures ParseInt(x) == Some(if sign == '-' then -(DigitsValue(digits) as int) else DigitsValue(digits) as int)
  {
    assert ([sign] + digits)[1..] == digits;
  }

  // ---------------------------------------------------------------- str()

  function Digit(d: nat): (c: char)
    requires d < 10
    ensures IsDigit(c) && DigitValue(c) == d
  {
    ('0' as int + d) as char
  }

  /** Python's `str(n)` for `n >= 0`: decimal, no leading zeros. */
  function NatText(n: nat): (s: string)
    ensures IsNumeral(s)
  {
    if n < 10 then [Digit(n)] else NatText(n / 10) + [Digit(n % 10)]
  }

  /** Python's `str(n)` for any integer. */
  function IntText(n: int): string {
    if n < 0 then "-" + NatText(-n) else NatText(n)
  }

  /** Decimal rendering and `int()` are inverse on the naturals. */
  lemma {:induction false} NatTextRoundTrip(n: nat)
    ensures DigitsValue(NatText(n)) == n
    ensures ParseInt(NatText(n)) == Some(n)
  {
    if n >= 10 {
      NatTextRoundTrip(n / 10);
      var s := NatText(n);
      assert s[..|s| - 1] == NatText(n / 10);
    }
  }

  /** `int("-" + digits)` is the negated value of the digits. */
  lemma ParseIntNegative(digits: string)
    requires IsNumeral(digits)
    ensures ParseInt("-" + digits) == Some(-(DigitsValue(digits) as int))
  {
    var s := "-" + digits;
    assert s == ['-'] + digits;
    assert StripBy(s, IntBlanks) == s by {
      assert s[|s| - 1] == digits[|digits| - 1];
      StripBetween(s, 0, |s|, IntBlanks);
      assert s[0..|s|] == s;
    }
    ParseIntSigned(s, '-', digits);
  }

  /** `int(str(n)) == n` for every integer, negative ones included. */
  lemma ParseIntText(n: int)
    ensures ParseInt(IntText(n)) == Some(n)
  {
    if n < 0 {
      var t := NatText(-n);
      assert DigitsValue(t) == -n by {
        NatTextRoundTrip(-n);
      }
      ParseIntNegative(t);
    } else {
      assert IntText(n) == NatText(n);
      NatTextRoundTrip(n);
    }
  }

  // ---------------------------------------------------------------- join

  /** Python's `sep.join(parts)`. */
  function Join(sep: string, parts: seq<string>): (r: string)
    ensures parts != [] ==> parts[0] <= r
  {
    if parts == [] then ""
    else if |parts| == 1 then parts[0]
    else parts[0] + sep + Join(sep, parts[1..])
  }

  /** A character found neither in the separator nor in any part is not in
      the joined text. */
  lemma {:induction false} JoinAvoids(c: char, sep: string, parts: seq<string>)
    requires c !in sep
    requires forall k :: 0 <= k < |parts| ==> c !in parts[k]
    ensures c !in Join(sep, parts)
  {
    if |parts| > 1 {
      JoinAvoids(c, sep, parts[1..]);
    }
  }

  /** The joined text ends with the last part's last character. */
  lemma {:induction false} JoinLast(sep: string, parts: seq<string>)
    requires parts != [] && parts[|parts| - 1] != []
    ensures var r := Join(sep, parts); var p := parts[|parts| - 1];
            r != [] && r[|r| - 1] == p[|p| - 1]
  {
    if |parts| > 1 {
      JoinLast(sep, parts[1..]);
    }
  }

  /** `p` occurs somewhere in `s`. */
  ghost predicate Contains(s: string, p: string) {
    exists a, b :: s == a + p + b
  }

  /** Occurrence is transitive through an enclosing piece of text. */
  lemma ContainsPiece(s: string, x: string, p: string, y: string)
    requires Contains(s, x + p + y)
    ensures Contains(s, p)
  {
    var a, b :| s == a + (x + p + y) + b;
    assert s == (a + x) + p + (y + b);
  }

  /** Every part shows up in the joined text. */
  lemma {:induction false} JoinHasPart(sep: string, parts: seq<string>, k: int)
    requires 0 <= k < |parts|
    ensures Contains(Join(sep, parts), parts[k])
  {
    var r := Join(sep, parts);
    if |parts| == 1 {
      assert r == "" + parts[k] + "";
    } else if k == 0 {
      assert r == "" + parts[0] + (sep + Join(sep, parts[1..]));
    } else {
      var tail := Join(sep, parts[1..]);
      assert r == (parts[0] + sep) + tail;
      JoinHasPart(sep, parts[1..], k - 1);
      assert parts[1..][k - 1] == parts[k];
      var a, b :| tail == a + parts[k] + b;
      ConcatAssoc(parts[0] + sep, a + parts[k], b);
      ConcatAssoc(parts[0] + sep, a, parts[k]);
    }
  }

  lemma ConcatAssoc<T>(a: seq<T>, b: seq<T>, c: seq<T>)
    ensures a + b + c == a + (b + c)
  {
  }

  lemma HeadTail<T>(s: seq<T>)
    requires s != []
    ensures s == [s[0]] + s[1..]
  {
  }

  lemma PrefixExtend<T>(s: seq<T>, i: int)
    requires 0 <= i < |s|
    ensures s[..i + 1] == s[..i] + [s[i]]
  {
  }

  lemma JoinCons(sep: string, ws: seq<string>, rest: string)
    requires |ws| > 1
    ensures Join(sep, ws) + rest == ws[0] + (sep + (Join(sep, ws[1..]) + rest))
  {
    var j := Join(sep, ws[1..]);
    assert Join(sep, ws) == ws[0] + sep + j;
  }

  /** `split()` undoes `" ".join(words)` for words without whitespace. */
  lemma {:induction false} WordsOfJoin(ws: seq<string>, rest: string)
    requires forall k :: 0 <= k < |ws| ==> ws[k] != [] && NoSpace(ws[k])
    requires rest == [] || IsSpace(rest[0])
    ensures Words(Join(" ", ws) + rest) == ws + Words(rest)
  {
    if |ws| == 0 {
      assert Join(" ", ws) + rest == rest;
    } else if |ws| == 1 {
      WordsCons(ws[0], rest);
    } else {
      var head, tail := ws[0], Join(" ", ws[1..]) + rest;
      JoinCons(" ", ws, rest);
      WordsOfJoin(ws[1..], rest);
      WordsCons(head, " " + tail);
      WordsBlank(' ', tail);
      assert Words(Join(" ", ws) + rest) == [head] + Words(tail);
      HeadTail(ws);
      ConcatAssoc([head], ws[1..], Words(rest));
    }
  }
}
