/**
 * The few pieces of Python's `str` and `int` behaviour that the bot's code
 * relies on: `isspace`, `strip`, `split()[0]`, `int(s)` in base 10,
 * `str(n)`, `capitalize` on ASCII text, `sep.join` and the code-point
 * ordering that `<` uses on strings.
 */
module PyText {
  import opened Wrappers

  /** `c.isspace()`: the characters Python treats as whitespace. */
  predicate IsSpace(c: char) {
    var n := c as int;
    (9 <= n <= 13) || (28 <= n <= 32) || n == 0x85 || n == 0xA0 || n == 0x1680
    || (0x2000 <= n <= 0x200A) || n == 0x2028 || n == 0x2029 || n == 0x202F
    || n == 0x205F || n == 0x3000
  }

  predicate IsDigit(c: char) {
    '0' <= c <= '9'
  }

  predicate NoSpace(s: string) {
    forall i :: 0 <= i < |s| ==> !IsSpace(s[i])
  }

  predicate AllSpace(s: string) {
    forall i :: 0 <= i < |s| ==> IsSpace(s[i])
  }

  /** Number of leading whitespace characters of `s`. */
  function Indent(s: string): (k: nat)
    ensures k <= |s|
    ensures forall i :: 0 <= i < k ==> IsSpace(s[i])
    ensures k == |s| || !IsSpace(s[k])
  {
    if s != [] && IsSpace(s[0]) then 1 + Indent(s[1..]) else 0
  }

  /** Number of trailing whitespace characters of `s`. */
  function Trailing(s: string): (k: nat)
    ensures k <= |s|
    ensures forall i :: |s| - k <= i < |s| ==> IsSpace(s[i])
    ensures k == |s| || !IsSpace(s[|s| - 1 - k])
  {
    if s != [] && IsSpace(s[|s| - 1]) then 1 + Trailing(s[..|s| - 1]) else 0
  }

  /** `s.strip()` with no argument. */
  function Strip(s: string): (r: string)
    ensures |r| <= |s|
    ensures r == [] || (!IsSpace(r[0]) && !IsSpace(r[|r| - 1]))
    ensures r == [] <==> AllSpace(s)
  {
    var k := Indent(s);
    var t := s[k..];
    var r := t[..|t| - Trailing(t)];
    assert r != [] ==> r[0] == s[k];
    assert AllSpace(s) ==> k == |s|;
    assert r == [] ==> AllSpace(t) && s == s[..k] + t;
    r
  }

  /** What `strip` removes is whitespace only: the result is the middle of `s` between its whitespace ends. */
  lemma StripSlice(s: string)
    ensures Indent(s) + |Strip(s)| <= |s| && Strip(s) == s[Indent(s)..Indent(s) + |Strip(s)|]
    ensures AllSpace(s[..Indent(s)]) && AllSpace(s[Indent(s) + |Strip(s)|..])
  {
    StripMiddle(s);
    AllSpaceSlice(s, 0, Indent(s));
    StripTrailing(s);
  }

  /** `strip` cuts the leading run, then the trailing run of what is left. */
  lemma StripCuts(s: string)
    ensures var k := Indent(s); var t := s[k..]; Strip(s) == t[..|t| - Trailing(t)]
  {
  }

  lemma StripMiddle(s: string)
    ensures Indent(s) + |Strip(s)| <= |s| && Strip(s) == s[Indent(s)..Indent(s) + |Strip(s)|]
  {
    var k := Indent(s);
    var t := s[k..];
    StripCuts(s);
    SliceOfSuffix(s, k, |t| - Trailing(t));
  }

  lemma StripTrailing(s: string)
    ensures AllSpace(s[Indent(s) + |Strip(s)|..])
  {
    var k := Indent(s);
    var t := s[k..];
    var n := |t| - Trailing(t);
    StripCuts(s);
    assert |Strip(s)| == n;
    AllSpaceSlice(t, n, |t|);
    SliceOfSuffix(s, k, n);
  }

  /** A slice of a suffix is a slice of the whole text. */
  lemma SliceOfSuffix(s: string, k: nat, n: nat)
    requires k + n <= |s|
    ensures s[k..][..n] == s[k..k + n]
    ensures s[k..][n..] == s[k + n..]
  {
  }

  /** A stretch of whitespace characters, cut out, is all whitespace. */
  lemma AllSpaceSlice(s: string, lo: nat, hi: nat)
    requires lo <= hi <= |s|
    requires forall i :: lo <= i < hi ==> IsSpace(s[i])
    ensures AllSpace(s[lo..hi])
  {
    forall i | 0 <= i < hi - lo ensures IsSpace(s[lo..hi][i]) {
      assert s[lo..hi][i] == s[lo + i];
    }
  }

  /** Longest prefix of `s` without whitespace. */
  function Word(s: string): (r: string)
    ensures |r| <= |s| && r == s[..|r|] && NoSpace(r)
    ensures |r| == |s| || IsSpace(s[|r|])
  {
    if s == [] || IsSpace(s[0]) then [] else [s[0]] + Word(s[1..])
  }

  /**
   * `s.split()[0]`: the first whitespace-separated token, or `None` where
   * Python raises IndexError because the text is empty or all whitespace.
   */
  function FirstToken(s: string): (r: Option<string>)
    ensures r.None? <==> AllSpace(s)
    ensures r.Some? ==> var k := Indent(s);
      && r.value != [] && NoSpace(r.value)
      && k + |r.value| <= |s| && s[k..k + |r.value|] == r.value
      && (k + |r.value| == |s| || IsSpace(s[k + |r.value|]))
  {
    var t := s[Indent(s)..];
    if t == [] then None else Some(Word(t))
  }

  /** The grammar `digit ("_"? digit)*` that `int()` accepts after the sign. */
  predicate DigitGroups(d: string) {
    && |d| > 0 && IsDigit(d[0]) && IsDigit(d[|d| - 1])
    && (forall i :: 0 <= i < |d| ==> IsDigit(d[i]) || d[i] == '_')
    && (forall i :: 0 <= i < |d| - 1 ==> !(d[i] == '_' && d[i + 1] == '_'))
  }

  /** Decimal value of the digits of `d`, skipping underscores. */
  function DigitsValue(d: string): nat
    requires forall i :: 0 <= i < |d| ==> IsDigit(d[i]) || d[i] == '_'
  {
    if d == [] then 0
    else if d[|d| - 1] == '_' then DigitsValue(d[..|d| - 1])
    else
      assert IsDigit(d[|d| - 1]);
      DigitsValue(d[..|d| - 1]) * 10 + (d[|d| - 1] as int - '0' as int)
  }

  /** `int(s)`: `None` where Python raises ValueError. */
  function ParseInt(s: string): Option<int>
  {
    var t := Strip(s);
    if |t| > 0 && (t[0] == '-' || t[0] == '+') then
      var d := t[1..];
      if DigitGroups(d) then
        Some(if t[0] == '-' then -(DigitsValue(d) as int) else DigitsValue(d))
      else None
    else if DigitGroups(t) then Some(DigitsValue(t))
    else None
  }

  function DigitChar(n: nat): (c: char)
    requires n < 10
    ensures IsDigit(c) && c as int - '0' as int == n
  {
    ('0' as int + n) as char
  }

  /** `str(n)` for a natural number. */
  function NatToString(n: nat): (r: string)
    ensures |r| > 0 && forall i :: 0 <= i < |r| ==> IsDigit(r[i])
  {
    if n < 10 then [DigitChar(n)] else NatToString(n / 10) + [DigitChar(n % 10)]
  }

  /** `str(i)` for an integer. */
  function IntToString(i: int): string {
    if i < 0 then "-" + NatToString(-i) else NatToString(i)
  }

  lemma {:induction false} NatToStringValue(n: nat)
    ensures DigitsValue(NatToString(n)) == n
  {
    if n >= 10 {
      NatToStringValue(n / 10);
      var s := NatToString(n);
      assert s[..|s| - 1] == NatToString(n / 10);
    }
  }

  /** `str(i)` is a non-empty run of non-space characters: an optional '-' and then the digits of `abs(i)`. */
  lemma IntToStringShape(i: int)
    ensures |IntToString(i)| > 0 && NoSpace(IntToString(i))
    ensures i < 0 ==> IntToString(i)[0] == '-' && IntToString(i)[1..] == NatToString(-i)
    ensures i >= 0 ==> IntToString(i) == NatToString(i) && IsDigit(IntToString(i)[0])
  {
    var s := IntToString(i);
    if i < 0 {
      var d := NatToString(-i);
      assert s == "-" + d;
      forall k | 0 <= k < |s| ensures !IsSpace(s[k]) {
        if k > 0 { assert s[k] == d[k - 1]; }
      }
    }
  }

  /** Text without whitespace is left alone by `strip`. */
  lemma StripNoSpace(s: string)
    requires NoSpace(s)
    ensures Strip(s) == s
  {
    assert Indent(s) == 0;
    assert s[0..] == s;
    if s != [] {
      assert Trailing(s) == 0;
    }
  }

  /** A word followed by whitespace or nothing is what `split()[0]` returns. */
  lemma FirstTokenOfWord(w: string, rest: string)
    requires w != [] && NoSpace(w)
    requires rest == [] || IsSpace(rest[0])
    ensures FirstToken(w + rest) == Some(w)
  {
    var s := w + rest;
    assert !IsSpace(s[0]);
    assert Indent(s) == 0;
    assert s[0..] == s;
    var token := FirstToken(s).value;
    assert forall i :: 0 <= i < |w| ==> s[i] == w[i];
    assert |s| == |w| || s[|w|] == rest[0];
    assert token == s[..|w|] == w;
  }

  /** `int(str(i)) == i`: the text `str` produces is read back by `int`. */
  lemma ParseIntOfIntToString(i: int)
    ensures ParseInt(IntToString(i)) == Some(i)
  {
    var n: nat := if i < 0 then -i else i;
    var d := NatToString(n);
    NatToStringValue(n);
    var s := IntToString(i);
    IntToStringShape(i);
    StripNoSpace(s);
    assert DigitGroups(d);
    if i < 0 {
      assert ParseInt(s) == Some(-(DigitsValue(d) as int));
    } else {
      assert s[0] != '-' && s[0] != '+';
      assert ParseInt(s) == Some(DigitsValue(d));
    }
  }

  function UpperAscii(c: char): char {
    if 'a' <= c <= 'z' then (c as int - 32) as char else c
  }

  function LowerAscii(c: char): char {
    if 'A' <= c <= 'Z' then (c as int + 32) as char else c
  }

  function LowerAll(s: string): (r: string)
    ensures |r| == |s|
  {
    if s == [] then [] else [LowerAscii(s[0])] + LowerAll(s[1..])
  }

  lemma {:induction false} LowerAllAt(s: string)
    ensures forall i :: 0 <= i < |s| ==> LowerAll(s)[i] == LowerAscii(s[i])
  {
    if s != [] {
      LowerAllAt(s[1..]);
      assert forall i :: 1 <= i < |s| ==> s[1..][i - 1] == s[i];
    }
  }

  /** `s.capitalize()` on ASCII text: first letter upper case, the rest lower case. */
  function Capitalize(s: string): (r: string)
    ensures |r| == |s|
  {
    if s == [] then [] else [UpperAscii(s[0])] + LowerAll(s[1..])
  }

  /** `s.capitalize() == t` exactly when `t` is `s` with its first letter upper-cased and the rest lower-cased. */
  lemma CapitalizeChars(s: string, t: string)
    requires |s| == |t| > 0 && t[0] == UpperAscii(s[0])
    requires forall i :: 1 <= i < |s| ==> t[i] == LowerAscii(s[i])
    ensures Capitalize(s) == t
  {
    var c := Capitalize(s);
    LowerAllAt(s[1..]);
    forall i | 0 <= i < |s| ensures c[i] == t[i] {
      if i > 0 { assert c[i] == LowerAll(s[1..])[i - 1] && s[1..][i - 1] == s[i]; }
    }
  }

  /** `sep.join(xs)`. */
  function Join(xs: seq<string>, sep: string): (r: string)
    ensures xs == [] ==> r == []
    ensures |xs| == 1 ==> r == xs[0]
  {
    if xs == [] then []
    else if |xs| == 1 then xs[0]
    else Join(xs[..|xs| - 1], sep) + sep + xs[|xs| - 1]
  }

  /** One more line is added after the separator. */
  lemma JoinSnoc(xs: seq<string>, x: string, sep: string)
    requires |xs| >= 1
    ensures Join(xs + [x], sep) == Join(xs, sep) + sep + x
  {
    assert (xs + [x])[..|xs|] == xs;
  }

  /** `a <= b` on Python strings: lexicographic by code point. */
  predicate LexLe(a: string, b: string)
    decreases |a|
  {
    a == [] || (b != [] && (a[0] < b[0] || (a[0] == b[0] && LexLe(a[1..], b[1..]))))
  }

  lemma {:induction false} LexLeTotal(a: string, b: string)
    ensures LexLe(a, b) || LexLe(b, a)
    decreases |a|
  {
    if a != [] && b != [] && a[0] == b[0] {
      LexLeTotal(a[1..], b[1..]);
    }
  }

  lemma {:induction false} LexLeTransitive(a: string, b: string, c: string)
    requires LexLe(a, b) && LexLe(b, c)
    ensures LexLe(a, c)
    decreases |a|
  {
    if a != [] && a[0] == b[0] && b[0] == c[0] {
      LexLeTransitive(a[1..], b[1..], c[1..]);
    }
  }

  lemma {:induction false} LexLeAntisymmetric(a: string, b: string)
    requires LexLe(a, b) && LexLe(b, a)
    ensures a == b
    decreases |a|
  {
    if a != [] {
      LexLeAntisymmetric(a[1..], b[1..]);
      assert a == [a[0]] + a[1..] && b == [b[0]] + b[1..];
    }
  }
}
