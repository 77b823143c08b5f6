/**
 * The string operations of Python that the scraper applies to cells and
 * column labels: strip(), lower(), title(), split(), int(), str(int),
 * the f"{m:02d}" format and the few regular expressions it uses.
 * Case mapping, \d and \b are modelled on ASCII.
 */
module Text {
  import opened Wrappers

  /** Python's str.isspace(): the characters strip() and split() remove. */
  predicate IsSpace(c: char) {
    c == ' ' || ('\t' <= c <= '\r') || ('\U{1C}' <= c <= '\U{1F}') || c == '\U{85}' || c == '\U{A0}'
    || c == '\U{1680}' || ('\U{2000}' <= c <= '\U{200A}') || c == '\U{2028}' || c == '\U{2029}'
    || c == '\U{202F}' || c == '\U{205F}' || c == '\U{3000}'
  }

  predicate IsUpper(c: char) { 'A' <= c <= 'Z' }
  predicate IsLower(c: char) { 'a' <= c <= 'z' }
  predicate IsLetter(c: char) { IsUpper(c) || IsLower(c) }
  predicate IsDigit(c: char) { '0' <= c <= '9' }
  /** A character of the regular-expression class \w. */
  predicate IsWordChar(c: char) { IsLetter(c) || IsDigit(c) || c == '_' }

  function LowerChar(c: char): (d: char)
    ensures IsLetter(c) <==> IsLetter(d)
    ensures !IsUpper(d)
  {
    if IsUpper(c) then (c as int + 32) as char else c
  }

  function UpperChar(c: char): (d: char)
    ensures IsLetter(c) <==> IsLetter(d)
    ensures !IsLower(d)
  {
    if IsLower(c) then (c as int - 32) as char else c
  }

  /** str.lower() */
  function Lower(s: string): (r: string)
    ensures |r| == |s|
  {
    if |s| == 0 then [] else [LowerChar(s[0])] + Lower(s[1..])
  }

  lemma {:induction false} LowerAt(s: string, i: nat)
    requires i < |s|
    ensures Lower(s)[i] == LowerChar(s[i])
  {
    if i > 0 {
      LowerAt(s[1..], i - 1);
    }
  }

  lemma {:induction false} LowerSlice(s: string, i: nat, j: nat)
    requires i <= j <= |s|
    ensures Lower(s[i..j]) == Lower(s)[i..j]
  {
    var a, b := Lower(s[i..j]), Lower(s)[i..j];
    forall k | 0 <= k < j - i ensures a[k] == b[k] {
      LowerAt(s[i..j], k);
      LowerAt(s, i + k);
    }
  }

  /** str.title(): a letter is upper-cased when it does not follow a letter,
      lower-cased otherwise; `afterLetter` says whether the preceding character was one. */
  function TitleFrom(s: string, afterLetter: bool): (r: string)
    ensures |r| == |s|
  {
    if |s| == 0 then []
    else
      var c := s[0];
      [if !IsLetter(c) then c else if afterLetter then LowerChar(c) else UpperChar(c)]
      + TitleFrom(s[1..], IsLetter(c))
  }

  /** str.title() */
  function Title(s: string): (r: string)
    ensures |r| == |s|
  {
    TitleFrom(s, false)
  }

  /** title() leaves a run of lower-case letters after a letter alone. */
  lemma {:induction false} TitleOfLowerTail(s: string)
    requires forall i :: 0 <= i < |s| ==> IsLower(s[i])
    ensures TitleFrom(s, true) == s
  {
    if |s| > 0 {
      TitleOfLowerTail(s[1..]);
    }
  }

  /** A capitalised word (an upper-case letter, then lower-case ones) is its
      own strip().title(). */
  lemma TitleOfCapitalised(s: string)
    requires |s| > 0 && IsUpper(s[0]) && forall i :: 1 <= i < |s| ==> IsLower(s[i])
    ensures Title(Trim(s)) == s
  {
    TrimUnspaced(s);
    TitleOfLowerTail(s[1..]);
    assert s == [s[0]] + s[1..];
  }

  /** str.lstrip() */
  function TrimLeft(s: string): (r: string)
    ensures |r| <= |s|
  {
    if |s| > 0 && IsSpace(s[0]) then TrimLeft(s[1..]) else s
  }

  /** str.rstrip() */
  function TrimRight(s: string): (r: string)
    ensures |r| <= |s|
  {
    if |s| > 0 && IsSpace(s[|s| - 1]) then TrimRight(s[..|s| - 1]) else s
  }

  /** str.strip() */
  function Trim(s: string): (r: string)
    ensures |r| <= |s|
  {
    TrimRight(TrimLeft(s))
  }

  /** A string without enclosing whitespace is its own strip(). */
  lemma TrimUnspaced(s: string)
    requires s == [] || (!IsSpace(s[0]) && !IsSpace(s[|s| - 1]))
    ensures Trim(s) == s
  {
  }

  predicate AllDigits(s: string) { forall i :: 0 <= i < |s| ==> IsDigit(s[i]) }

  /** re.fullmatch(r"\d+", s) */
  predicate IsDigits(s: string) { |s| > 0 && AllDigits(s) }

  predicate StartsWith(s: string, p: string) { |p| <= |s| && s[..|p|] == p }

  /** The substring test `p in s`. */
  predicate Contains(s: string, p: string)
    decreases |s|
  {
    StartsWith(s, p) || (|s| > 0 && Contains(s[1..], p))
  }

  /** Case-insensitive match of the lower-case literal w at position i of s. */
  predicate LowerMatchAt(s: string, i: int, w: string) {
    0 <= i && i + |w| <= |s| && Lower(s[i..i + |w|]) == w
  }

  /** Case-insensitive match of \b w \b at position i, for a literal w made of word characters. */
  predicate HasWordAt(s: string, i: int, w: string) {
    LowerMatchAt(s, i, w)
    && (i == 0 || !IsWordChar(s[i - 1]))
    && (i + |w| == |s| || !IsWordChar(s[i + |w|]))
  }

  /** re.search(r"\b" + w + r"\b", s, re.I) */
  predicate ContainsWord(s: string, w: string) {
    exists i :: 0 <= i <= |s| && HasWordAt(s, i, w)
  }

  /** The tail ` *Spread` of the footnote pattern, starting at position j. */
  predicate SpreadFrom(s: string, j: nat)
    decreases |s| - j
  {
    if j < |s| && s[j] == ' ' then SpreadFrom(s, j + 1) else LowerMatchAt(s, j, "spread")
  }

  /** One of the alternatives of r"\* *Spread|High-?Low" (re.I) matches at position i. */
  predicate FootnoteAt(s: string, i: nat)
    requires i < |s|
  {
    (s[i] == '*' && SpreadFrom(s, i + 1))
    || (LowerMatchAt(s, i, "high") && (LowerMatchAt(s, i + 4, "low") || LowerMatchAt(s, i + 4, "-low")))
  }

  /** re.search(r"\* *Spread|High-?Low", s, re.I) */
  predicate MatchesFootnote(s: string) {
    exists i: nat :: i < |s| && FootnoteAt(s, i)
  }

  /** A non-empty run of non-whitespace characters: what str.split() yields. */
  predicate IsToken(t: string) {
    |t| > 0 && forall i :: 0 <= i < |t| ==> !IsSpace(t[i])
  }

  function TokenLength(s: string): (n: nat)
    ensures n <= |s|
    ensures forall i :: 0 <= i < n ==> !IsSpace(s[i])
    ensures n < |s| ==> IsSpace(s[n])
  {
    if |s| == 0 || IsSpace(s[0]) then 0 else 1 + TokenLength(s[1..])
  }

  /** str.split() with no separator: the maximal runs of non-whitespace characters. */
  function Words(s: string): (w: seq<string>)
    ensures forall t <- w :: IsToken(t)
    decreases |s|
  {
    if |s| == 0 then []
    else if IsSpace(s[0]) then Words(s[1..])
    else
      var n := TokenLength(s);
      [s[..n]] + Words(s[n..])
  }

  lemma {:induction false} TokenLengthOfToken(a: string, rest: string)
    requires IsToken(a)
    requires rest == [] || IsSpace(rest[0])
    ensures TokenLength(a + rest) == |a|
    decreases |a|
  {
    var s := a + rest;
    assert s[0] == a[0];
    if |a| > 1 {
      assert s[1..] == a[1..] + rest;
      TokenLengthOfToken(a[1..], rest);
    } else {
      assert s[1..] == rest;
    }
  }

  lemma WordsOfToken(b: string)
    requires IsToken(b)
    ensures Words(b) == [b]
  {
    TokenLengthOfToken(b, []);
    assert b + [] == b;
    assert b[|b|..] == [];
  }

  /** Splitting "a b" for two tokens a and b gives back [a, b]. */
  lemma WordsOfPair(a: string, b: string)
    requires IsToken(a) && IsToken(b)
    ensures Words(a + " " + b) == [a, b]
  {
    var s := a + " " + b;
    TokenLengthOfToken(a, " " + b);
    assert s == a + (" " + b);
    assert s[..|a|] == a;
    assert s[|a|..] == " " + b;
    assert (" " + b)[1..] == b;
    WordsOfToken(b);
  }

  function DigitValue(c: char): (v: nat)
    requires IsDigit(c)
    ensures v < 10
  {
    c as int - '0' as int
  }

  function DigitChar(d: nat): (c: char)
    requires d < 10
    ensures IsDigit(c) && DigitValue(c) == d
  {
    ('0' as int + d) as char
  }

  /** The decimal value of a string of digits, most significant first. */
  function DigitsValue(s: string): nat
    requires AllDigits(s)
  {
    if |s| == 0 then 0 else 10 * DigitsValue(s[..|s| - 1]) + DigitValue(s[|s| - 1])
  }

  /** str(n) for a natural number. */
  function NatToString(n: nat): (s: string)
    ensures IsDigits(s)
  {
    if n < 10 then [DigitChar(n)] else NatToString(n / 10) + [DigitChar(n % 10)]
  }

  lemma {:induction false} NatToStringRoundTrip(n: nat)
    ensures DigitsValue(NatToString(n)) == n
  {
    if n >= 10 {
      var s := NatToString(n);
      assert s[..|s| - 1] == NatToString(n / 10);
      NatToStringRoundTrip(n / 10);
    }
  }

  /** str(i) for an integer. */
  function IntToString(i: int): (s: string)
    ensures |s| > 0
  {
    if i < 0 then "-" + NatToString(-i) else NatToString(i)
  }

  /** int(s) for a string without surrounding whitespace: an optional sign, then decimal digits. */
  function ParseInt(s: string): Option<int> {
    if |s| > 0 && (s[0] == '-' || s[0] == '+') then
      if IsDigits(s[1..]) then
        Some(if s[0] == '-' then 0 - DigitsValue(s[1..]) else DigitsValue(s[1..]))
      else None
    else if IsDigits(s) then Some(DigitsValue(s))
    else None
  }

  /** int(str(i)) == i */
  lemma ParseIntRoundTrip(i: int)
    ensures ParseInt(IntToString(i)) == Some(i)
  {
    var d := NatToString(if i < 0 then -i else i);
    NatToStringRoundTrip(if i < 0 then -i else i);
    if i < 0 {
      assert IntToString(i)[1..] == d;
    } else {
      assert IsDigit(d[0]);
    }
  }

  lemma AllDigitsAppend(p: string, t: string)
    requires AllDigits(p) && AllDigits(t)
    ensures AllDigits(p + t)
  {
    assert forall i :: 0 <= i < |p + t| ==> (p + t)[i] == if i < |p| then p[i] else t[i - |p|];
  }

  /** The value of the digit string p + t, as int() reads it. */
  lemma {:induction false} DigitsValueAppend(p: string, t: string)
    requires AllDigits(p) && AllDigits(t)
    ensures AllDigits(p + t)
    ensures DigitsValue(p + t) == DigitsValue(p) * Pow10(|t|) + DigitsValue(t)
    decreases |t|
  {
    AllDigitsAppend(p, t);
    if |t| == 0 {
      assert p + t == p;
    } else {
      var u := t[..|t| - 1];
      var s := p + t;
      assert s[..|s| - 1] == p + u;
      DigitsValueAppend(p, u);
      ShiftDigit(DigitsValue(p), Pow10(|u|), DigitsValue(u), DigitValue(t[|t| - 1]));
    }
  }

  lemma ShiftDigit(a: nat, b: nat, c: nat, d: nat)
    ensures 10 * (a * b + c) + d == a * (10 * b) + (10 * c + d)
  {
  }

  function Pow10(n: nat): (r: nat)
    ensures r >= 1
  {
    if n == 0 then 1 else 10 * Pow10(n - 1)
  }

  /** f"{m:02d}": zero-padded to width two; a sign already gives width two. */
  function Pad2(m: int): string {
    if 0 <= m < 10 then "0" + NatToString(m) else IntToString(m)
  }

  /** A month number comes out as exactly two digits that int() reads back. */
  lemma Pad2RoundTrip(m: int)
    requires 0 <= m < 100
    ensures |Pad2(m)| == 2 && IsDigits(Pad2(m)) && ParseInt(Pad2(m)) == Some(m)
  {
    if m < 10 {
      var d := NatToString(m);
      assert d == [DigitChar(m)];
      DigitsValueAppend("0", d);
      assert Pad2(m) == "0" + d;
      assert DigitsValue("0") == 10 * DigitsValue("") + 0;
    } else {
      assert NatToString(m) == NatToString(m / 10) + [DigitChar(m % 10)];
      ParseIntRoundTrip(m);
    }
  }

  /** str.replace(",", "") */
  function RemoveCommas(s: string): (r: string)
    ensures ',' !in r
    ensures multiset(r) == multiset(s)[',' := 0]
  {
    if |s| == 0 then ""
    else
      assert s == [s[0]] + s[1..];
      (if s[0] == ',' then "" else [s[0]]) + RemoveCommas(s[1..])
  }

  /** Removing commas distributes over concatenation. */
  lemma {:induction false} RemoveCommasAppend(a: string, b: string)
    ensures RemoveCommas(a + b) == RemoveCommas(a) + RemoveCommas(b)
  {
    if |a| > 0 {
      assert (a + b)[1..] == a[1..] + b;
      RemoveCommasAppend(a[1..], b);
    } else {
      assert a + b == b;
    }
  }

  /** A string without commas is left as it is. */
  lemma {:induction false} RemoveCommasUnchanged(s: string)
    requires ',' !in s
    ensures RemoveCommas(s) == s
  {
    if |s| > 0 {
      assert s[0] in s;
      assert forall c <- s[1..] :: c in s;
      RemoveCommasUnchanged(s[1..]);
    }
  }

  /** s[0:3] in Python: the first three characters, or all of a shorter string. */
  function Prefix3(s: string): (r: string)
    ensures |r| <= 3 && StartsWith(s, r)
  {
    if |s| <= 3 then s else s[..3]
  }
}
