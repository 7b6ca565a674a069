/**
 * String helpers used by the Python backend and the JavaScript client:
 * whitespace trimming, substring search, splitting and joining on a
 * separator, ASCII lower-casing and decimal digits.
 */
module Text {

  /** The characters Python's `str.isspace()` accepts; `str.strip()` removes these. */
  predicate IsPySpace(c: char) {
    c == ' ' || '\t' <= c <= '\r' || '\U{1C}' <= c <= '\U{1F}' || c == '\U{85}' || c == '\U{A0}'
    || c == '\U{1680}' || '\U{2000}' <= c <= '\U{200A}' || c == '\U{2028}' || c == '\U{2029}'
    || c == '\U{202F}' || c == '\U{205F}' || c == '\U{3000}'
  }

  /** WhiteSpace and LineTerminator of ECMA-262 (section 12.2 and 12.3); `String.prototype.trim` removes these. */
  predicate IsJsSpace(c: char) {
    c == ' ' || '\t' <= c <= '\r' || c == '\U{A0}' || c == '\U{FEFF}'
    || c == '\U{1680}' || '\U{2000}' <= c <= '\U{200A}' || c == '\U{2028}' || c == '\U{2029}'
    || c == '\U{202F}' || c == '\U{205F}' || c == '\U{3000}'
  }

  /** Every character of `s` is whitespace in the sense of `ws`. */
  predicate Blank(s: string, ws: char -> bool) {
    forall i | 0 <= i < |s| :: ws(s[i])
  }

  /** Removes leading whitespace. */
  function TrimStart(s: string, ws: char -> bool): (r: string)
    ensures |r| <= |s| && r == s[|s| - |r|..]
    ensures Blank(s[..|s| - |r|], ws)
    ensures r == [] || !ws(r[0])
  {
    if s != [] && ws(s[0]) then TrimStart(s[1..], ws) else s
  }

  /** Removes trailing whitespace. */
  function TrimEnd(s: string, ws: char -> bool): (r: string)
    ensures |r| <= |s| && r == s[..|r|]
    ensures Blank(s[|r|..], ws)
    ensures r == [] || !ws(r[|r| - 1])
  {
    if s != [] && ws(s[|s| - 1]) then TrimEnd(s[..|s| - 1], ws) else s
  }

  /**
   * Removes whitespace at both ends: the result is a slice of `s`, what was
   * cut off on either side is whitespace, and the result neither starts nor
   * ends with whitespace.
   */
  function Trim(s: string, ws: char -> bool): (r: string)
    ensures exists lo | 0 <= lo <= |s| - |r| :: r == s[lo..lo + |r|] && Blank(s[..lo], ws) && Blank(s[lo + |r|..], ws)
    ensures r == [] || (!ws(r[0]) && !ws(r[|r| - 1]))
    ensures r == [] <==> Blank(s, ws)
  {
    var t := TrimStart(s, ws);
    var r := TrimEnd(t, ws);
    TrimSlice(s, t, r, ws);
    TrimEmpty(s, t, r, ws);
    r
  }

  /**
   * Cutting whitespace off the front of `s`, giving `t`, then off the back
   * of `t`, giving `r`, leaves a slice of `s` with only whitespace cut off
   * on either side.
   */
  lemma TrimSlice(s: string, t: string, r: string, ws: char -> bool)
    requires |t| <= |s| && t == s[|s| - |t|..] && Blank(s[..|s| - |t|], ws)
    requires |r| <= |t| && r == t[..|r|] && Blank(t[|r|..], ws)
    ensures exists lo | 0 <= lo <= |s| - |r| :: r == s[lo..lo + |r|] && Blank(s[..lo], ws) && Blank(s[lo + |r|..], ws)
  {
    var lo := |s| - |t|;
    assert r == s[lo..lo + |r|];
    var tail := s[lo + |r|..];
    forall i | 0 <= i < |tail| ensures ws(tail[i]) {
      assert tail[i] == t[|r|..][i];
    }
  }

  /** The same two cuts leave nothing exactly when `s` is blank. */
  lemma TrimEmpty(s: string, t: string, r: string, ws: char -> bool)
    requires |t| <= |s| && t == s[|s| - |t|..] && Blank(s[..|s| - |t|], ws) && (t == [] || !ws(t[0]))
    requires |r| <= |t| && r == t[..|r|] && Blank(t[|r|..], ws)
    ensures r == [] <==> Blank(s, ws)
  {
    var lo := |s| - |t|;
    if r == [] {
      forall i | 0 <= i < |s| ensures ws(s[i]) {
        assert s[i] == s[..lo][i];
      }
    } else {
      assert !ws(t[0]) && t[0] == s[lo];
    }
  }

  /** Python's `str.strip()` with no argument. */
  function PyStrip(s: string): string { Trim(s, IsPySpace) }

  /** JavaScript's `String.prototype.trim()`. */
  function JsTrim(s: string): string { Trim(s, IsJsSpace) }

  /** A string that neither starts nor ends with whitespace is its own trim. */
  lemma TrimKeeps(s: string, ws: char -> bool)
    requires s == [] || (!ws(s[0]) && !ws(s[|s| - 1]))
    ensures Trim(s, ws) == s
  {
    if s != [] {
      assert TrimStart(s, ws) == s;
      assert TrimEnd(s, ws) == s;
    }
  }

  /** Trimming only removes characters: what remains occurs in the input. */
  lemma TrimChars(s: string, ws: char -> bool, c: char)
    requires c in Trim(s, ws)
    ensures c in s
  {
    var t := TrimStart(s, ws);
    var r := TrimEnd(t, ws);
    var i :| 0 <= i < |r| && r[i] == c;
    assert t[i] == c;
    assert s[|s| - |t| + i] == c;
  }

  /** Trimming twice changes nothing more than trimming once. */
  lemma TrimIdempotent(s: string, ws: char -> bool)
    ensures Trim(Trim(s, ws), ws) == Trim(s, ws)
  {
    var r := Trim(s, ws);
    if r != [] {
      assert TrimStart(r, ws) == r;
      assert TrimEnd(r, ws) == r;
    }
  }

  /** `sub` occurs in `s` as a contiguous slice (Python's `in`, JavaScript's `includes`). */
  predicate Contains(s: string, sub: string) {
    sub <= s || (s != [] && Contains(s[1..], sub))
  }

  /** A copy of `sub` starts at position `i` of `s`. */
  predicate OccursAt(s: string, sub: string, i: nat) {
    i + |sub| <= |s| && s[i..i + |sub|] == sub
  }

  /** `Contains` holds exactly when some position of `s` starts a copy of `sub`. */
  lemma {:induction false} ContainsIff(s: string, sub: string)
    ensures Contains(s, sub) <==> exists i: nat :: OccursAt(s, sub, i)
  {
    if sub <= s {
      assert OccursAt(s, sub, 0);
    } else if s == [] {
    } else {
      ContainsIff(s[1..], sub);
      if exists i: nat :: OccursAt(s, sub, i) {
        var i: nat :| OccursAt(s, sub, i);
        assert i != 0;
        assert OccursAt(s[1..], sub, i - 1) by { assert s[1..][i - 1..i - 1 + |sub|] == s[i..i + |sub|]; }
      }
      if Contains(s[1..], sub) {
        var i: nat :| OccursAt(s[1..], sub, i);
        assert OccursAt(s, sub, i + 1) by { assert s[1..][i..i + |sub|] == s[i + 1..i + 1 + |sub|]; }
      }
    }
  }

  /** Every string contains the empty string. */
  lemma ContainsEmpty(s: string)
    ensures Contains(s, "")
  {
  }

  /** Position of the first occurrence of `c` in `s`. */
  function IndexOf(s: string, c: char): (k: nat)
    requires c in s
    ensures k < |s| && s[k] == c && c !in s[..k]
  {
    if s[0] == c then 0 else 1 + IndexOf(s[1..], c)
  }

  /** The first `c` of `s` is at `k` when `s[k]` is `c` and none comes before it. */
  lemma IndexOfFirst(s: string, c: char, k: nat)
    requires k < |s| && s[k] == c && c !in s[..k]
    ensures IndexOf(s, c) == k
  {
  }

  /** Number of occurrences of `c` in `s` (Python's `str.count` for a one-character argument). */
  function Count(s: string, c: char): (n: nat)
    ensures n == multiset(s)[c]
  {
    if s == [] then 0
    else
      assert s == [s[0]] + s[1..];
      (if s[0] == c then 1 else 0) + Count(s[1..], c)
  }

  /** The parts joined with `sep` between consecutive parts (Python's `sep.join`, JavaScript's `Array.prototype.join`). */
  function Join(parts: seq<string>, sep: string): string {
    if parts == [] then ""
    else if |parts| == 1 then parts[0]
    else parts[0] + sep + Join(parts[1..], sep)
  }

  /**
   * Splits `s` at every occurrence of `sep` (Python's `str.split` and
   * JavaScript's `String.prototype.split` with a one-character separator):
   * there is one more part than separators, no part contains the separator,
   * and joining the parts back gives `s`.
   */
  function Split(s: string, sep: char): (parts: seq<string>)
    ensures |parts| == Count(s, sep) + 1
    ensures forall p | p in parts :: sep !in p
    ensures Join(parts, [sep]) == s
    decreases |s|
  {
    if sep in s then
      var k := IndexOf(s, sep);
      var rest := Split(s[k + 1..], sep);
      assert s == s[..k] + [sep] + s[k + 1..];
      assert multiset(s)[sep] == multiset(s[..k])[sep] + 1 + multiset(s[k + 1..])[sep];
      assert multiset(s[..k])[sep] == 0;
      [s[..k]] + rest
    else
      assert multiset(s)[sep] == 0;
      [s]
  }

  /** A string without the separator is a single part. */
  lemma SplitNoSeparator(s: string, sep: char)
    requires sep !in s
    ensures Split(s, sep) == [s]
  {
  }

  /** Splitting `a + [sep] + b` where `a` has no separator yields `a` followed by the parts of `b`. */
  lemma SplitAt(a: string, sep: char, b: string)
    requires sep !in a
    ensures Split(a + [sep] + b, sep) == [a] + Split(b, sep)
  {
    var s := a + [sep] + b;
    assert s[|a|] == sep;
    var k := IndexOf(s, sep);
    assert s[..k] == a;
    assert s[k + 1..] == b;
  }

  /** Splitting the parts joined by a separator none of them holds gives the parts back. */
  lemma {:induction false} SplitJoin(parts: seq<string>, sep: char)
    requires parts != []
    requires forall p | p in parts :: sep !in p
    ensures Split(Join(parts, [sep]), sep) == parts
  {
    if |parts| == 1 {
      SplitNoSeparator(parts[0], sep);
    } else {
      var rest := parts[1..];
      assert parts[0] in parts;
      assert forall p | p in rest :: p in parts;
      SplitJoin(rest, sep);
      assert Join(parts, [sep]) == parts[0] + [sep] + Join(rest, [sep]);
      SplitAt(parts[0], sep, Join(rest, [sep]));
    }
  }

  function LowerChar(c: char): char {
    if 'A' <= c <= 'Z' then (c as int + 32) as char else c
  }

  /** Lower-casing of the ASCII letters; every other character is kept. */
  function ToLowerAscii(s: string): (r: string)
    ensures |r| == |s|
    ensures forall i | 0 <= i < |r| :: r[i] == LowerChar(s[i])
    ensures forall i | 0 <= i < |r| :: !('A' <= r[i] <= 'Z')
  {
    seq(|s|, i requires 0 <= i < |s| => LowerChar(s[i]))
  }

  /** Lower-casing twice is lower-casing once. */
  lemma ToLowerIdempotent(s: string)
    ensures ToLowerAscii(ToLowerAscii(s)) == ToLowerAscii(s)
  {
  }

  /** Lower-casing and trimming commute: no ASCII letter is white space. */
  lemma LowerTrimCommute(s: string)
    ensures JsTrim(ToLowerAscii(s)) == ToLowerAscii(JsTrim(s))
  {
    var t := TrimStart(s, IsJsSpace);
    TrimStartLower(s);
    TrimEndLower(t);
  }

  lemma {:induction false} TrimStartLower(s: string)
    ensures TrimStart(ToLowerAscii(s), IsJsSpace) == ToLowerAscii(TrimStart(s, IsJsSpace))
    decreases |s|
  {
    if s != [] {
      var l := ToLowerAscii(s);
      assert IsJsSpace(l[0]) == IsJsSpace(s[0]);
      if IsJsSpace(s[0]) {
        assert l[1..] == ToLowerAscii(s[1..]);
        TrimStartLower(s[1..]);
      }
    }
  }

  lemma {:induction false} TrimEndLower(s: string)
    ensures TrimEnd(ToLowerAscii(s), IsJsSpace) == ToLowerAscii(TrimEnd(s, IsJsSpace))
    decreases |s|
  {
    if s != [] {
      var l := ToLowerAscii(s);
      assert IsJsSpace(l[|l| - 1]) == IsJsSpace(s[|s| - 1]);
      if IsJsSpace(s[|s| - 1]) {
        assert l[..|l| - 1] == ToLowerAscii(s[..|s| - 1]);
        TrimEndLower(s[..|s| - 1]);
      }
    }
  }

  predicate IsDigit(c: char) { '0' <= c <= '9' }

  predicate AllDigits(s: string) { forall i | 0 <= i < |s| :: IsDigit(s[i]) }

  function DigitValue(c: char): (d: nat)
    requires IsDigit(c)
    ensures d < 10
  {
    c as int - '0' as int
  }

  function DigitChar(d: nat): (c: char)
    requires d < 10
    ensures IsDigit(c) && DigitValue(c) == d
  {
    ('0' as int + d) as char
  }

  /** The number a string of decimal digits denotes (empty string: 0). */
  function DigitsValue(s: string): nat
    requires AllDigits(s)
  {
    if s == [] then 0 else 10 * DigitsValue(s[..|s| - 1]) + DigitValue(s[|s| - 1])
  }

  /** The decimal text of `n`, without leading zeros (Python's `str(n)`, JavaScript's `String(n)` below 10^21). */
  function NatToString(n: nat): (s: string)
    ensures s != [] && AllDigits(s) && DigitsValue(s) == n
    ensures |s| > 1 ==> s[0] != '0'
  {
    if n < 10 then [DigitChar(n)]
    else
      var s := NatToString(n / 10) + [DigitChar(n % 10)];
      assert s[..|s| - 1] == NatToString(n / 10);
      s
  }

  /** Decimal text of an integer, with a leading "-" when negative. */
  function IntToString(i: int): string {
    if i < 0 then "-" + NatToString(-i) else NatToString(i)
  }

  /** Distinct numbers have distinct decimal texts. */
  lemma NatToStringInjective(m: nat, n: nat)
    requires NatToString(m) == NatToString(n)
    ensures m == n
  {
  }
}
