/**
 * String helpers standing in for the Python built-ins the script uses:
 * `str.strip()`, `str.upper()`, the `in` substring test and `' '.join(...)`.
 */
module Text {

  /** Python's `str.isspace()`: the characters `str.strip()` removes and
      the regular-expression class `\s` matches in a `str` pattern. */
  predicate IsSpace(c: char) {
    || c == ' '
    || ('\t' <= c <= '\r')
    || ('\U{1C}' <= c <= '\U{1F}')
    || c == '\U{85}' || c == '\U{A0}' || c == '\U{1680}'
    || ('\U{2000}' <= c <= '\U{200A}')
    || c == '\U{2028}' || c == '\U{2029}' || c == '\U{202F}'
    || c == '\U{205F}' || c == '\U{3000}'
  }

  /** An ASCII decimal digit (the class `\d` restricted to ASCII). */
  predicate IsDigit(c: char) {
    '0' <= c <= '9'
  }

  ghost predicate AllSpace(s: string) {
    forall i :: 0 <= i < |s| ==> IsSpace(s[i])
  }

  ghost predicate AllDigits(s: string) {
    forall i :: 0 <= i < |s| ==> IsDigit(s[i])
  }

  /** `str.upper()` on one character: ASCII and Latin-1 lower-case letters. */
  function UpperChar(c: char): char {
    if 'a' <= c <= 'z' || ('\U{E0}' <= c <= '\U{FE}' && c != '\U{F7}') then
      (c as int - 32) as char
    else if c == '\U{FF}' then
      '\U{178}'
    else
      c
  }

  /** `str.upper()`, character by character. */
  function Upper(s: string): (r: string)
    ensures |r| == |s|
  {
    seq(|s|, i requires 0 <= i < |s| => UpperChar(s[i]))
  }

  lemma UpperIdempotent(s: string)
    ensures Upper(Upper(s)) == Upper(s)
  {
  }

  /** Leading whitespace removed (`str.lstrip()`). */
  function TrimStart(s: string): (r: string)
    ensures |r| <= |s|
    ensures AllSpace(s[..|s| - |r|])
    ensures r == [] || !IsSpace(r[0])
  {
    if |s| > 0 && IsSpace(s[0]) then
      var r := TrimStart(s[1..]);
      assert s[..|s| - |r|] == [s[0]] + s[1..][..|s| - 1 - |r|];
      r
    else s
  }

  /** What `str.lstrip()` leaves is the end of the text. */
  lemma {:induction false} TrimStartSuffix(s: string)
    ensures TrimStart(s) == s[|s| - |TrimStart(s)|..]
  {
    if |s| > 0 && IsSpace(s[0]) {
      TrimStartSuffix(s[1..]);
      assert s[1..][|s| - 1 - |TrimStart(s)|..] == s[|s| - |TrimStart(s)|..];
    }
  }

  /** Trailing whitespace removed (`str.rstrip()`). */
  function TrimEnd(s: string): (r: string)
    ensures |r| <= |s| && r == s[..|r|]
    ensures AllSpace(s[|r|..])
    ensures r == [] || !IsSpace(r[|r| - 1])
  {
    if |s| > 0 && IsSpace(s[|s| - 1]) then
      var r := TrimEnd(s[..|s| - 1]);
      assert s[|r|..] == s[..|s| - 1][|r|..] + [s[|s| - 1]];
      r
    else s
  }

  /** `str.strip()`: the text left after removing whitespace at both ends;
      it neither starts nor ends with whitespace. */
  function Trim(s: string): (r: string)
    ensures r == [] || (!IsSpace(r[0]) && !IsSpace(r[|r| - 1]))
  {
    TrimEnd(TrimStart(s))
  }

  /** `r` is the slice of `s` at `i` with only whitespace around it. */
  ghost predicate SliceBetweenSpace(s: string, r: string, i: int) {
    0 <= i && i + |r| <= |s| && r == s[i..i + |r|] && AllSpace(s[..i]) && AllSpace(s[i + |r|..])
  }

  /** The strip is a slice of the text and everything cut off is whitespace. */
  lemma TrimIsSlice(s: string)
    ensures exists i :: SliceBetweenSpace(s, Trim(s), i)
  {
    var t := TrimStart(s);
    var r := TrimEnd(t);
    assert r == Trim(s);
    var i := |s| - |t|;
    TrimStartSuffix(s);
    assert t == s[i..];
    assert r == t[..|r|];
    assert r == s[i..i + |r|];
    assert s[i + |r|..] == t[|r|..];
    assert SliceBetweenSpace(s, r, i);
  }

  /** Stripping is empty exactly when the text is all whitespace. */
  lemma TrimEmptyIff(s: string)
    ensures Trim(s) == [] <==> AllSpace(s)
  {
    TrimIsSlice(s);
  }

  /** A text without whitespace at either end is its own strip. */
  lemma TrimNoOp(s: string)
    requires s == [] || (!IsSpace(s[0]) && !IsSpace(s[|s| - 1]))
    ensures Trim(s) == s
  {
    assert TrimStart(s) == s;
  }

  /** Whitespace after the text does not change its strip. */
  lemma TrimDropTrailingSpace(u: string, w: string)
    requires AllSpace(w)
    ensures Trim(u + w) == Trim(u)
  {
    if AllSpace(u) {
      assert AllSpace(u + w);
      TrimEmptyIff(u + w);
      TrimEmptyIff(u);
    } else {
      var k :| 0 <= k < |u| && !IsSpace(u[k]);
      TrimStartKeepsTail(u, w, k);
      TrimEndDropSpace(TrimStart(u), w);
    }
  }

  lemma {:induction false} TrimStartKeepsTail(v: string, w: string, k: nat)
    requires k < |v| && !IsSpace(v[k])
    ensures TrimStart(v + w) == TrimStart(v) + w
  {
    if IsSpace(v[0]) {
      assert (v + w)[1..] == v[1..] + w;
      TrimStartKeepsTail(v[1..], w, k - 1);
    }
  }

  lemma {:induction false} TrimEndDropSpace(t: string, w: string)
    requires AllSpace(w)
    ensures TrimEnd(t + w) == TrimEnd(t)
  {
    if |w| > 0 {
      var v := t + w;
      assert v[|v| - 1] == w[|w| - 1];
      assert IsSpace(v[|v| - 1]);
      assert v[..|v| - 1] == t + w[..|w| - 1];
      assert TrimEnd(v) == TrimEnd(v[..|v| - 1]);
      assert AllSpace(w[..|w| - 1]);
      TrimEndDropSpace(t, w[..|w| - 1]);
    } else {
      assert t + w == t;
    }
  }

  /** `s` begins with `p`. */
  predicate StartsWith(s: string, p: string) {
    |p| <= |s| && s[..|p|] == p
  }

  ghost predicate OccursAt(s: string, kw: string, i: int) {
    0 <= i && i + |kw| <= |s| && s[i..i + |kw|] == kw
  }

  /** Python's `kw in s` on two strings. */
  function Contains(s: string, kw: string): bool
    decreases |s|
  {
    StartsWith(s, kw) || (|s| > 0 && Contains(s[1..], kw))
  }

  /** `Contains` is the substring relation: `kw` occurs in `s` at some offset. */
  lemma {:induction false} ContainsIff(s: string, kw: string)
    ensures Contains(s, kw) <==> exists i :: OccursAt(s, kw, i)
    decreases |s|
  {
    if StartsWith(s, kw) {
      assert OccursAt(s, kw, 0);
    } else if |s| > 0 {
      ContainsIff(s[1..], kw);
      if Contains(s[1..], kw) {
        var i :| OccursAt(s[1..], kw, i);
        assert s[1..][i..i + |kw|] == s[i + 1..i + 1 + |kw|];
        assert OccursAt(s, kw, i + 1);
      }
      if i :| OccursAt(s, kw, i) {
        assert i != 0;
        assert s[1..][i - 1..i - 1 + |kw|] == s[i..i + |kw|];
        assert OccursAt(s[1..], kw, i - 1);
      }
    }
  }

  /** Any character of a contained keyword is a character of the text. */
  lemma ContainsHasChars(s: string, kw: string, c: char)
    requires c in kw && c !in s
    ensures !Contains(s, kw)
  {
    ContainsIff(s, kw);
  }

  lemma SliceOfSlice(s: string, i: nat, n: nat, j: nat, m: nat)
    requires i + n <= |s| && j + m <= n
    ensures s[i..i + n][j..j + m] == s[i + j..i + j + m]
  {
    var x, y := s[i..i + n][j..j + m], s[i + j..i + j + m];
    assert forall k :: 0 <= k < m ==> x[k] == s[i + j + k] == y[k];
  }

  /** A text contains anything a keyword it contains does. */
  lemma ContainsTransitive(s: string, kw: string, part: string)
    requires Contains(s, kw) && Contains(kw, part)
    ensures Contains(s, part)
  {
    ContainsIff(s, kw);
    ContainsIff(kw, part);
    var i :| OccursAt(s, kw, i);
    var j :| OccursAt(kw, part, j);
    SliceOfSlice(s, i, |kw|, j, |part|);
    assert OccursAt(s, part, i + j);
    ContainsIff(s, part);
  }

  /** Upper-casing turns no character into whitespace and no whitespace
      into anything else, so a stripped text stays stripped. */
  lemma UpperKeepsStripped(t: string)
    requires t == [] || (!IsSpace(t[0]) && !IsSpace(t[|t| - 1]))
    ensures Trim(Upper(t)) == Upper(t)
  {
    UpperKeepsClasses(t);
    TrimNoOp(Upper(t));
  }

  /** Upper-casing keeps every character's class: whitespace stays
      whitespace, a digit stays a digit, and nothing becomes either. */
  lemma UpperKeepsClasses(s: string)
    ensures forall i :: 0 <= i < |s| ==> (IsSpace(Upper(s)[i]) <==> IsSpace(s[i]))
    ensures forall i :: 0 <= i < |s| ==> (IsDigit(Upper(s)[i]) <==> IsDigit(s[i]))
  {
  }

  /** Python's `' '.join(xs)`. */
  function JoinSpace(xs: seq<string>): string {
    if |xs| == 0 then ""
    else if |xs| == 1 then xs[0]
    else xs[0] + " " + JoinSpace(xs[1..])
  }

  lemma OccursCharAt(s: string, kw: string, i: int, p: int)
    requires OccursAt(s, kw, i) && i <= p < i + |kw|
    ensures s[p] in kw
  {
    assert s[p] == s[i..i + |kw|][p - i];
  }

  lemma OccursLeftOfSpace(a: string, b: string, kw: string, i: int)
    requires OccursAt(a, kw, i)
    ensures OccursAt(a + " " + b, kw, i)
  {
    var s := a + " " + b;
    assert s[..|a|] == a;
    SliceOfSlice(s, 0, |a|, i, |kw|);
  }

  lemma OccursRightOfSpace(a: string, b: string, kw: string, i: int)
    requires OccursAt(b, kw, i)
    ensures OccursAt(a + " " + b, kw, i + |a| + 1)
  {
    var s := a + " " + b;
    assert s[|a| + 1..|a| + 1 + |b|] == b;
    SliceOfSlice(s, |a| + 1, |b|, i, |kw|);
  }

  lemma OccursAroundSpace(a: string, b: string, kw: string, i: int)
    requires ' ' !in kw && OccursAt(a + " " + b, kw, i)
    ensures OccursAt(a, kw, i) || OccursAt(b, kw, i - |a| - 1)
  {
    var s := a + " " + b;
    if i + |kw| <= |a| {
      assert s[..|a|] == a;
      SliceOfSlice(s, 0, |a|, i, |kw|);
    } else if i >= |a| + 1 {
      assert s[|a| + 1..|a| + 1 + |b|] == b;
      SliceOfSlice(s, |a| + 1, |b|, i - |a| - 1, |kw|);
    } else {
      OccursCharAt(s, kw, i, |a|);
      assert false;
    }
  }

  /** A keyword without a space is found in `a + " " + b` only inside `a` or inside `b`. */
  lemma ContainsAroundSpace(a: string, b: string, kw: string)
    requires ' ' !in kw
    ensures Contains(a + " " + b, kw) <==> Contains(a, kw) || Contains(b, kw)
  {
    var s := a + " " + b;
    ContainsIff(s, kw);
    ContainsIff(a, kw);
    ContainsIff(b, kw);
    if i :| OccursAt(a, kw, i) {
      OccursLeftOfSpace(a, b, kw, i);
    }
    if i :| OccursAt(b, kw, i) {
      OccursRightOfSpace(a, b, kw, i);
    }
    if i :| OccursAt(s, kw, i) {
      OccursAroundSpace(a, b, kw, i);
    }
  }

  /** Joining with single spaces cannot create an occurrence of a keyword
      that has no space in it: the keyword occurs in the joined text exactly
      when it occurs in one of the parts. */
  lemma {:induction false} ContainsJoin(xs: seq<string>, kw: string)
    requires |kw| > 0 && ' ' !in kw
    ensures Contains(JoinSpace(xs), kw) <==> exists i :: 0 <= i < |xs| && Contains(xs[i], kw)
  {
    if |xs| == 0 {
      ContainsIff("", kw);
    } else if |xs| > 1 {
      ContainsAroundSpace(xs[0], JoinSpace(xs[1..]), kw);
      ContainsJoin(xs[1..], kw);
      if i :| 0 <= i < |xs| && Contains(xs[i], kw) {
        if i > 0 {
          assert xs[1..][i - 1] == xs[i];
        }
      }
      if i :| 0 <= i < |xs| - 1 && Contains(xs[1..][i], kw) {
        assert xs[i + 1] == xs[1..][i];
      }
    }
  }
}
