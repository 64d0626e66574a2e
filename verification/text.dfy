/**
 * The handful of Python string primitives the core relies on: `str.isspace`,
 * `str.lower`, `str.split()` with no separator, `' '.join`, `str.strip()`,
 * `str.startswith`, the `in` substring test, and `str(int)`.
 */
module Text {

  /** Python's `str.isspace()`: the characters `split()` and `strip()` treat as whitespace. */
  predicate IsSpace(c: char) {
    var x := c as int;
    (9 <= x <= 13) || (28 <= x <= 32) || x == 0x85 || x == 0xA0 || x == 0x1680
    || (0x2000 <= x <= 0x200A) || x == 0x2028 || x == 0x2029 || x == 0x202F
    || x == 0x205F || x == 0x3000
  }

  predicate NoSpace(s: string) {
    forall i :: 0 <= i < |s| ==> !IsSpace(s[i])
  }

  predicate AllSpace(s: string) {
    forall i :: 0 <= i < |s| ==> IsSpace(s[i])
  }

  /** A token of `split()`: a non-empty run of non-whitespace characters. */
  predicate IsWord(w: string) {
    |w| > 0 && NoSpace(w)
  }

  predicate AllWords(ws: seq<string>) {
    forall k :: 0 <= k < |ws| ==> IsWord(ws[k])
  }

  // ---------------------------------------------------------------- lower()

  /** Lower-casing of one character (the ASCII letters; see README). */
  function LowerChar(c: char): char {
    if 'A' <= c <= 'Z' then (c as int + 32) as char else c
  }

  function Lower(s: string): string {
    seq(|s|, i requires 0 <= i < |s| => LowerChar(s[i]))
  }

  lemma LowerAppend(a: string, b: string)
    ensures Lower(a + b) == Lower(a) + Lower(b)
  {
  }

  // ------------------------------------------------------ split() and join

  /** Length of the leading run of non-whitespace characters of `s`. */
  function SpanWord(s: string): (k: nat)
    ensures k <= |s|
    ensures NoSpace(s[..k])
    ensures k < |s| ==> IsSpace(s[k])
  {
    if s == [] || IsSpace(s[0]) then 0
    else
      var k := 1 + SpanWord(s[1..]);
      assert s[..k] == [s[0]] + s[1..][..k - 1];
      k
  }

  /** Python's `s.split()`: the maximal runs of non-whitespace, left to right. */
  function Words(s: string): (ws: seq<string>)
    ensures AllWords(ws)
    decreases |s|
  {
    if s == [] then []
    else if IsSpace(s[0]) then Words(s[1..])
    else
      var k := SpanWord(s);
      [s[..k]] + Words(s[k..])
  }

  /** Python's `' '.join(ws)`. */
  function JoinSpace(ws: seq<string>): string {
    if ws == [] then ""
    else if |ws| == 1 then ws[0]
    else ws[0] + " " + JoinSpace(ws[1..])
  }

  /** `' '.join(s.split())`: every whitespace run becomes one space, none at the ends. */
  function Collapse(s: string): string {
    JoinSpace(Words(s))
  }

  /** No whitespace but single ' ' characters, each between two non-whitespace characters. */
  predicate Normalized(s: string) {
    forall i :: 0 <= i < |s| && IsSpace(s[i]) ==>
      s[i] == ' ' && 0 < i < |s| - 1 && !IsSpace(s[i - 1]) && !IsSpace(s[i + 1])
  }

  lemma {:induction false} SpanWordAppend(a: string, r: string)
    requires SpanWord(a) < |a| || (r != [] && IsSpace(r[0]))
    ensures SpanWord(a + r) == SpanWord(a)
    decreases |a|
  {
    if a == [] {
      assert (a + r)[0] == r[0];
    } else if IsSpace(a[0]) {
      assert (a + r)[0] == a[0];
    } else {
      assert (a + r)[0] == a[0];
      assert (a + r)[1..] == a[1..] + r;
      SpanWordAppend(a[1..], r);
    }
  }

  /** Splitting `a + c + b` at a whitespace character `c` splits `a` and `b` separately. */
  lemma {:induction false} WordsAppend(a: string, c: char, b: string)
    requires IsSpace(c)
    ensures Words(a + [c] + b) == Words(a) + Words(b)
    decreases |a|
  {
    var s := a + [c] + b;
    if a == [] {
      assert s[0] == c && s[1..] == b;
    } else if IsSpace(a[0]) {
      assert s[0] == a[0];
      assert s[1..] == a[1..] + [c] + b;
      WordsAppend(a[1..], c, b);
    } else {
      assert s[0] == a[0];
      assert s == a + ([c] + b);
      SpanWordAppend(a, [c] + b);
      var k := SpanWord(a);
      assert s[..k] == a[..k];
      if k < |a| {
        assert s[k..] == a[k..] + [c] + b;
        WordsAppend(a[k..], c, b);
      } else {
        assert a[k..] == [];
        assert s[k..] == [c] + b;
        assert s[k..][0] == c && s[k..][1..] == b;
      }
    }
  }

  lemma WordsOfWord(w: string)
    requires IsWord(w)
    ensures Words(w) == [w]
  {
    assert w[0] == w[..1][0];
    var k := SpanWord(w);
    assert k == |w|;
    assert w[..k] == w;
    assert w[k..] == [];
  }

  /** `split()` undoes `' '.join` on a list of tokens. */
  lemma {:induction false} WordsOfJoin(ws: seq<string>)
    requires AllWords(ws)
    ensures Words(JoinSpace(ws)) == ws
  {
    if ws == [] {
    } else if |ws| == 1 {
      WordsOfWord(ws[0]);
    } else {
      WordsOfJoin(ws[1..]);
      WordsOfWord(ws[0]);
      WordsAppend(ws[0], ' ', JoinSpace(ws[1..]));
      assert ws == [ws[0]] + ws[1..];
    }
  }

  /** `' '.join` of tokens is normalized, non-empty exactly when there are tokens. */
  lemma {:induction false} JoinNormalized(ws: seq<string>)
    requires AllWords(ws)
    ensures Normalized(JoinSpace(ws))
    ensures ws != [] ==> var j := JoinSpace(ws); |j| > 0 && !IsSpace(j[0]) && !IsSpace(j[|j| - 1])
    ensures ws == [] ==> JoinSpace(ws) == []
  {
    if ws == [] {
    } else if |ws| == 1 {
      assert IsWord(ws[0]);
    } else {
      JoinNormalized(ws[1..]);
      var w, t := ws[0], JoinSpace(ws[1..]);
      assert IsWord(w);
      var j := w + " " + t;
      assert j == JoinSpace(ws);
      forall i | 0 <= i < |j| && IsSpace(j[i])
        ensures j[i] == ' ' && 0 < i < |j| - 1 && !IsSpace(j[i - 1]) && !IsSpace(j[i + 1])
      {
        if i < |w| {
          assert false;
        } else if i == |w| {
          assert j[i - 1] == w[|w| - 1];
          assert j[i + 1] == t[0];
        } else if i == |w| + 1 {
          assert false;
        } else {
          assert j[i] == t[i - |w| - 1];
          assert j[i - 1] == t[i - |w| - 2];
          assert j[i + 1] == t[i - |w|];
        }
      }
    }
  }

  /** The result of collapsing whitespace has no leading, trailing or repeated whitespace. */
  lemma CollapseNormalized(s: string)
    ensures Normalized(Collapse(s))
  {
    JoinNormalized(Words(s));
  }

  /** Collapsing whitespace twice is collapsing it once. */
  lemma CollapseIdempotent(s: string)
    ensures Collapse(Collapse(s)) == Collapse(s)
  {
    WordsOfJoin(Words(s));
  }

  // ----------------------------------------------------------------- strip()

  /** The first position at or after `i` that is not whitespace, or `|s|`. */
  function SkipSpace(s: string, i: nat): (j: nat)
    requires i <= |s|
    ensures i <= j <= |s|
    ensures forall p :: i <= p < j ==> IsSpace(s[p])
    ensures j < |s| ==> !IsSpace(s[j])
    decreases |s| - i
  {
    if i < |s| && IsSpace(s[i]) then SkipSpace(s, i + 1) else i
  }

  /** The end of `s[lo..j]` once its trailing whitespace is cut off. */
  function SkipSpaceBack(s: string, lo: nat, j: nat): (e: nat)
    requires lo <= j <= |s|
    ensures lo <= e <= j
    ensures forall p :: e <= p < j ==> IsSpace(s[p])
    ensures lo < e ==> !IsSpace(s[e - 1])
  {
    if lo < j && IsSpace(s[j - 1]) then SkipSpaceBack(s, lo, j - 1) else j
  }

  /**
   * Python's `s.strip()`: `s` with its leading and trailing whitespace removed.
   * The result is a slice of `s` with only whitespace on either side of it and
   * no whitespace at either of its ends, which determines it.
   */
  function Strip(s: string): (r: string)
    ensures exists i, j :: 0 <= i <= j <= |s| && r == s[i..j] && AllSpace(s[..i]) && AllSpace(s[j..])
    ensures r == [] || (!IsSpace(r[0]) && !IsSpace(r[|r| - 1]))
  {
    var i := SkipSpace(s, 0);
    var j := SkipSpaceBack(s, i, |s|);
    assert forall p :: 0 <= p < i ==> s[..i][p] == s[p];
    assert forall p :: 0 <= p < |s| - j ==> s[j..][p] == s[j + p];
    assert AllSpace(s[..i]) && AllSpace(s[j..]);
    var r := s[i..j];
    assert r != [] ==> r[0] == s[i] && r[|r| - 1] == s[j - 1];
    r
  }

  // --------------------------------------------------- prefixes and substrings

  /** Python's `s.startswith(p)`. */
  predicate StartsWith(s: string, p: string) {
    |p| <= |s| && s[..|p|] == p
  }

  /** Python's `s.endswith(p)`. */
  predicate EndsWith(s: string, p: string) {
    |p| <= |s| && s[|s| - |p|..] == p
  }

  predicate OccursAt(s: string, sub: string, i: int) {
    0 <= i && i + |sub| <= |s| && s[i..i + |sub|] == sub
  }

  /** Python's `sub in s`. */
  predicate Contains(s: string, sub: string) {
    exists i :: 0 <= i <= |s| && OccursAt(s, sub, i)
  }

  lemma ContainsMiddle(a: string, sub: string, b: string)
    ensures Contains(a + sub + b, sub)
  {
    assert (a + sub + b)[|a|..|a| + |sub|] == sub;
    assert OccursAt(a + sub + b, sub, |a|);
  }

  lemma ContainsRight(a: string, b: string, sub: string)
    requires Contains(b, sub)
    ensures Contains(a + b, sub)
  {
    var i :| 0 <= i <= |b| && OccursAt(b, sub, i);
    assert (a + b)[|a| + i..|a| + i + |sub|] == b[i..i + |sub|];
    assert OccursAt(a + b, sub, |a| + i);
  }

  lemma ContainsSelf(s: string)
    ensures Contains(s, s)
  {
    assert OccursAt(s, s, 0);
  }

  lemma ContainsLeft(a: string, b: string, sub: string)
    requires Contains(a, sub)
    ensures Contains(a + b, sub)
  {
    var i :| 0 <= i <= |a| && OccursAt(a, sub, i);
    assert (a + b)[i..i + |sub|] == a[i..i + |sub|];
    assert OccursAt(a + b, sub, i);
  }

  lemma LowerKeepsPrefix(s: string, p: string)
    requires StartsWith(s, p)
    ensures StartsWith(Lower(s), Lower(p))
  {
    assert Lower(s)[..|p|] == Lower(s[..|p|]);
  }

  // ----------------------------------------------------------------- str(int)

  function DigitChar(d: nat): char
    requires d < 10
  {
    (48 + d) as char
  }

  predicate IsDigits(s: string) {
    forall i :: 0 <= i < |s| ==> '0' <= s[i] <= '9'
  }

  /** The value of a string of decimal digits. */
  function DecimalValue(s: string): nat
    requires IsDigits(s)
  {
    if s == [] then 0
    else 10 * DecimalValue(s[..|s| - 1]) + (s[|s| - 1] as int - 48)
  }

  /** Python's `str(n)` for `n >= 0`: decimal digits without leading zeros. */
  function NatToDecimal(n: nat): (r: string)
    ensures |r| >= 1 && IsDigits(r)
    ensures r[0] == '0' ==> n == 0 && r == "0"
  {
    if n < 10 then [DigitChar(n)]
    else
      var p := NatToDecimal(n / 10);
      p + [DigitChar(n % 10)]
  }

  /** Reading the digits back gives the number: `int(str(n)) == n`. */
  lemma {:induction false} DecimalRoundTrip(n: nat)
    ensures DecimalValue(NatToDecimal(n)) == n
  {
    if n >= 10 {
      DecimalRoundTrip(n / 10);
      var r := NatToDecimal(n);
      assert r[..|r| - 1] == NatToDecimal(n / 10);
    }
  }

  /** Python's `str(x)` for any integer `x`. */
  function IntToDecimal(x: int): (r: string)
    ensures |r| >= 1
    ensures x < 0 <==> r[0] == '-'
    ensures x < 0 ==> IsDigits(r[1..]) && DecimalValue(r[1..]) == -x
    ensures x >= 0 ==> IsDigits(r) && DecimalValue(r) == x
    ensures x >= 0 && r[0] == '0' ==> r == "0"
    ensures x < 0 ==> |r| >= 2 && r[1] != '0'
  {
    if x < 0 then
      var d := NatToDecimal(-x);
      DecimalRoundTrip(-x);
      assert ("-" + d)[1..] == d;
      "-" + d
    else
      DecimalRoundTrip(x);
      NatToDecimal(x)
  }
}
