/** The string operations the page relies on: JavaScript's `String.prototype.trim`
    and the decimal rendering of an integer inside a template literal. */
module Text {
  import opened Wrappers

  /** The characters `trim` removes: the ECMAScript WhiteSpace and LineTerminator
      code points, where WhiteSpace includes every Unicode space separator (Zs).
      The first range is tab, line feed, vertical tab, form feed and carriage return. */
  predicate IsWhitespace(c: char) {
    ('\t' <= c <= '\r') || c == ' ' || c == '\U{00A0}' || c == '\U{1680}' ||
    ('\U{2000}' <= c <= '\U{200A}') || c == '\U{2028}' || c == '\U{2029}' ||
    c == '\U{202F}' || c == '\U{205F}' || c == '\U{3000}' || c == '\U{FEFF}'
  }

  predicate AllWhitespace(s: string) {
    forall i :: 0 <= i < |s| ==> IsWhitespace(s[i])
  }

  /** Drops the leading whitespace. */
  function TrimStart(s: string): (r: string)
    ensures |r| <= |s|
    decreases |s|
  {
    if |s| > 0 && IsWhitespace(s[0]) then TrimStart(s[1..]) else s
  }

  /** TrimStart keeps a suffix of `s`; everything it drops is whitespace, and
      what it keeps does not start with whitespace. */
  lemma {:induction false} TrimStartStrips(s: string)
    ensures TrimStart(s) == s[|s| - |TrimStart(s)|..]
    ensures forall i :: 0 <= i < |s| - |TrimStart(s)| ==> IsWhitespace(s[i])
    ensures TrimStart(s) == [] || !IsWhitespace(TrimStart(s)[0])
    decreases |s|
  {
    if |s| > 0 && IsWhitespace(s[0]) {
      TrimStartStrips(s[1..]);
    }
  }

  /** Drops the trailing whitespace. */
  function TrimEnd(s: string): (r: string)
    ensures |r| <= |s|
    decreases |s|
  {
    if |s| > 0 && IsWhitespace(s[|s| - 1]) then TrimEnd(s[..|s| - 1]) else s
  }

  /** TrimEnd keeps a prefix of `s`; everything it drops is whitespace, and
      what it keeps does not end with whitespace. */
  lemma {:induction false} TrimEndStrips(s: string)
    ensures TrimEnd(s) == s[..|TrimEnd(s)|]
    ensures forall i :: |TrimEnd(s)| <= i < |s| ==> IsWhitespace(s[i])
    ensures TrimEnd(s) == [] || !IsWhitespace(TrimEnd(s)[|TrimEnd(s)| - 1])
    decreases |s|
  {
    if |s| > 0 && IsWhitespace(s[|s| - 1]) {
      var front := s[..|s| - 1];
      TrimEndStrips(front);
    }
  }

  /** `s.trim()`: a slice of `s` that neither starts nor ends with whitespace;
      it is empty exactly when `s` is all whitespace. */
  function Trim(s: string): (r: string)
    ensures |r| <= |s|
    ensures r == [] <==> AllWhitespace(s)
    ensures r != [] ==> !IsWhitespace(r[0]) && !IsWhitespace(r[|r| - 1])
  {
    var front := TrimStart(s);
    var r := TrimEnd(front);
    TrimStartStrips(s);
    TrimEndStrips(front);
    assert r == [] ==> front == [];
    r
  }

  /** Trim removes whitespace only: the result sits in `s` at offset `k`, with
      nothing but whitespace before and after it. */
  lemma TrimIsSlice(s: string) returns (k: nat)
    ensures k + |Trim(s)| <= |s| && Trim(s) == s[k..k + |Trim(s)|]
    ensures forall i :: 0 <= i < k ==> IsWhitespace(s[i])
    ensures forall i :: k + |Trim(s)| <= i < |s| ==> IsWhitespace(s[i])
  {
    var front := TrimStart(s);
    var r := TrimEnd(front);
    assert Trim(s) == r;
    k := |s| - |front|;
    TrimStartStrips(s);
    TrimEndStrips(front);
    assert r == s[k..k + |r|];
    forall i | k + |r| <= i < |s| ensures IsWhitespace(s[i]) {
      assert s[i] == front[i - k];
    }
  }

  /** Trimming a trimmed string changes nothing. */
  lemma TrimIdempotent(s: string)
    ensures Trim(Trim(s)) == Trim(s)
  {
    var r := Trim(s);
    if r != [] {
      assert TrimStart(r) == r;
      assert TrimEnd(r) == r;
    }
  }

  // ---- decimal rendering of integers ----

  predicate IsDigit(c: char) {
    '0' <= c <= '9'
  }

  predicate AllDigits(s: string) {
    forall i :: 0 <= i < |s| ==> IsDigit(s[i])
  }

  function DigitChar(d: nat): (c: char)
    requires d < 10
    ensures IsDigit(c) && c as int - '0' as int == d
  {
    ((d + '0' as int) as char)
  }

  /** The decimal digits of `n`, most significant first, without leading zeros. */
  function ShowNat(n: nat): (r: string)
    ensures |r| >= 1 && AllDigits(r)
    ensures r[0] == '0' ==> n == 0 && |r| == 1
  {
    if n < 10 then [DigitChar(n)] else ShowNat(n / 10) + [DigitChar(n % 10)]
  }

  /** The rendering JavaScript gives an integer-valued number in a template
      literal: a minus sign before the digits of a negative value. */
  function ShowInt(i: int): (r: string)
    ensures |r| >= 1 && r != "-"
    ensures i < 0 <==> r[0] == '-'
  {
    if i < 0 then "-" + ShowNat(-i) else ShowNat(i)
  }

  /** The value of a string of decimal digits. */
  function ParseNat(s: string): nat
    requires AllDigits(s)
    decreases |s|
  {
    if s == [] then 0 else 10 * ParseNat(s[..|s| - 1]) + (s[|s| - 1] as int - '0' as int)
  }

  /** A digit string as ShowNat writes it: at least one digit, and no
      leading zero unless the number is zero itself. */
  predicate Canonical(s: string) {
    |s| >= 1 && AllDigits(s) && (s[0] == '0' ==> |s| == 1)
  }

  /** Reads back what ShowInt writes, and nothing else: an optional minus sign
      followed by canonical digits, where a minus sign never precedes a zero. */
  function ParseInt(s: string): Option<int> {
    if |s| >= 2 && s[0] == '-' && Canonical(s[1..]) && s[1] != '0' then Some(0 - ParseNat(s[1..]) as int)
    else if Canonical(s) then Some(ParseNat(s))
    else None
  }

  lemma {:induction false} ParseShowNat(n: nat)
    ensures ParseNat(ShowNat(n)) == n
  {
    if n >= 10 {
      var r := ShowNat(n);
      var front := ShowNat(n / 10);
      assert r[..|r| - 1] == front;
      ParseShowNat(n / 10);
    }
  }

  /** The rendering of an integer reads back as that integer. */
  lemma ParseShowInt(i: int)
    ensures ParseInt(ShowInt(i)) == Some(i)
  {
    var r := ShowInt(i);
    if i < 0 {
      var digits := ShowNat(-i);
      ParseShowNat(-i);
      assert r[1..] == digits;
      assert digits[0] != '0';
      assert Canonical(r[1..]) && r[1] != '0';
    } else {
      ParseShowNat(i);
      assert Canonical(r);
    }
  }

  /** Digits that do not start with a zero stand for a positive number. */
  lemma {:induction false} LeadingNonZeroPositive(s: string)
    requires |s| >= 1 && AllDigits(s) && s[0] != '0'
    ensures ParseNat(s) >= 1
  {
    if |s| > 1 {
      LeadingNonZeroPositive(s[..|s| - 1]);
    }
  }

  /** Canonical digits are exactly the rendering of the number they stand for. */
  lemma {:induction false} ShowParseNat(s: string)
    requires Canonical(s)
    ensures ShowNat(ParseNat(s)) == s
  {
    var d := s[|s| - 1] as int - '0' as int;
    if |s| == 1 {
      assert ShowNat(ParseNat(s)) == [DigitChar(d)];
    } else {
      var front := s[..|s| - 1];
      LeadingNonZeroPositive(front);
      ShowParseNat(front);
      var n := ParseNat(s);
      assert n == 10 * ParseNat(front) + d;
      assert n / 10 == ParseNat(front) && n % 10 == d;
      assert ShowNat(n) == front + [DigitChar(d)];
      assert s == front + [s[|s| - 1]];
    }
  }

  /** ParseInt accepts only what ShowInt writes: a string that reads as `i` is
      the rendering of `i`, so each integer has exactly one spelling. */
  lemma ParseIntOnlyCanonical(s: string, i: int)
    ensures ParseInt(s) == Some(i) ==> s == ShowInt(i)
  {
    if ParseInt(s) == Some(i) {
      if |s| >= 2 && s[0] == '-' && Canonical(s[1..]) && s[1] != '0' {
        LeadingNonZeroPositive(s[1..]);
        ShowParseNat(s[1..]);
        assert s == "-" + s[1..];
      } else {
        ShowParseNat(s);
      }
    }
  }
}
