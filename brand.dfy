/**
 * `extract_brand_from_filename`: the brand is the file name without its
 * extension, without a trailing year token (`\s*\d{2,4}$`), stripped.
 */
module Brand {
  import opened Text

  /** `name.rfind('.')`: the index of the last dot, or -1. */
  function LastDot(name: string): (i: int)
    ensures -1 <= i < |name|
    ensures i >= 0 ==> name[i] == '.'
    ensures forall j :: i < j < |name| ==> name[j] != '.'
  {
    if name == [] then -1
    else if name[|name| - 1] == '.' then |name| - 1
    else LastDot(name[..|name| - 1])
  }

  /** `Path(name).stem` for a file name (a last path component): the name
      without its last suffix; a leading or trailing dot does not start one. */
  function Stem(name: string): string {
    var i := LastDot(name);
    if 0 < i < |name| - 1 then name[..i] else name
  }

  ghost predicate DigitsIn(s: string, i: int, j: int) {
    0 <= i <= j <= |s| && forall m :: i <= m < j ==> IsDigit(s[m])
  }

  ghost predicate SpacesIn(s: string, i: int, j: int) {
    0 <= i <= j <= |s| && forall m :: i <= m < j ==> IsSpace(s[m])
  }

  /** Length of the run of digits that ends the text. */
  function TrailingDigits(s: string): (d: nat)
    ensures d <= |s| && DigitsIn(s, |s| - d, |s|)
    ensures d < |s| ==> !IsDigit(s[|s| - d - 1])
  {
    if s != [] && IsDigit(s[|s| - 1]) then TrailingDigits(s[..|s| - 1]) + 1 else 0
  }

  /** Length of the run of whitespace that ends the text. */
  function TrailingSpaces(s: string): (w: nat)
    ensures w <= |s| && SpacesIn(s, |s| - w, |s|)
    ensures w < |s| ==> !IsSpace(s[|s| - w - 1])
  {
    if s != [] && IsSpace(s[|s| - 1]) then TrailingSpaces(s[..|s| - 1]) + 1 else 0
  }

  /** Where the year token starts in a text ending in at least two digits:
      four digits back when the digit run is longer, otherwise the start of
      the whitespace before the run. */
  function TokenStart(t: string): (p: nat)
    requires TrailingDigits(t) >= 2
    ensures p <= |t| - 2
  {
    var d := TrailingDigits(t);
    if d > 4 then |t| - 4 else |t| - d - TrailingSpaces(t[..|t| - d])
  }

  /** The year token removed from the very end of `t`. */
  function StripYearAtEnd(t: string): (r: string)
    ensures r == t || |r| + 2 <= |t|
  {
    if TrailingDigits(t) < 2 then t else t[..TokenStart(t)]
  }

  /** `re.sub(r'\s*\d{2,4}$', '', s)`. `$` also matches just before a
      final newline, so a token there is removed and the newline kept. */
  function StripYear(s: string): (r: string)
    ensures |r| <= |s|
    ensures r != s ==> |r| + 2 <= |s|
  {
    if |s| > 0 && s[|s| - 1] == '\n' then StripYearAtEnd(s[..|s| - 1]) + "\n"
    else StripYearAtEnd(s)
  }

  /** The brand of a file-name stem. */
  function BrandOfStem(stem: string): (b: string)
    ensures b == [] || (!IsSpace(b[0]) && !IsSpace(b[|b| - 1]))
  {
    Trim(StripYear(stem))
  }

  /** `extract_brand_from_filename(filename)`; never starts or ends with whitespace. */
  function ExtractBrand(filename: string): (b: string)
    ensures b == [] || (!IsSpace(b[0]) && !IsSpace(b[|b| - 1]))
  {
    BrandOfStem(Stem(filename))
  }

  // ----- The regular expression, stated as what it matches -----

  /** `s[p..e]` is `\s*` followed by `k` digits, `2 <= k <= 4`. */
  ghost predicate TokenSplit(s: string, p: int, e: int, k: int) {
    2 <= k <= 4 && p + k <= e && SpacesIn(s, p, e - k) && DigitsIn(s, e - k, e)
  }

  /** Where `$` may match: at the end, or before a newline that ends the text. */
  ghost predicate MatchEnd(s: string, e: int) {
    e == |s| || (|s| > 0 && e == |s| - 1 && s[e] == '\n')
  }

  /** The pattern `\s*\d{2,4}$` matches `s[p..e]`. */
  ghost predicate MatchesAt(s: string, p: int, e: int) {
    MatchEnd(s, e) && exists k :: TokenSplit(s, p, e, k)
  }

  /** A match that starts before every other one (the one `re.sub` replaces). */
  ghost predicate LeftmostMatch(s: string, p: int, e: int) {
    MatchesAt(s, p, e) && forall q, e' :: 0 <= q < p ==> !MatchesAt(s, q, e')
  }

  lemma DigitNotSpace(c: char)
    ensures !(IsDigit(c) && IsSpace(c))
  {
  }

  /** A run of `k` digits at the end is part of the trailing digit run. */
  lemma {:induction false} DigitRunBound(t: string, k: nat)
    requires DigitsIn(t, |t| - k, |t|)
    ensures k <= TrailingDigits(t)
  {
    if k > 0 {
      DigitRunBound(t[..|t| - 1], k - 1);
    }
  }

  /** A run of `w` spaces at the end is part of the trailing whitespace run. */
  lemma {:induction false} SpaceRunBound(u: string, w: nat)
    requires SpacesIn(u, |u| - w, |u|)
    ensures w <= TrailingSpaces(u)
  {
    if w > 0 {
      SpaceRunBound(u[..|u| - 1], w - 1);
    }
  }

  /** A token ending at the end of `t` takes at most the trailing digits,
      and all of them unless it starts right at its digits. */
  lemma TokenShape(t: string, q: int, k: int)
    requires TokenSplit(t, q, |t|, k)
    ensures k <= TrailingDigits(t)
    ensures k < TrailingDigits(t) ==> q == |t| - k
  {
    DigitRunBound(t, k);
    if q < |t| - k {
      DigitNotSpace(t[|t| - k - 1]);
    }
  }

  /** With fewer than two trailing digits no token ends at the end of `t`. */
  lemma NoTokenAtEnd(t: string, q: int, k: int)
    requires TrailingDigits(t) < 2
    ensures !TokenSplit(t, q, |t|, k)
  {
    if TokenSplit(t, q, |t|, k) {
      TokenShape(t, q, k);
    }
  }

  /** With two or more trailing digits, a token starts at `TokenStart(t)`. */
  lemma TokenAtStart(t: string)
    requires TrailingDigits(t) >= 2
    ensures TokenSplit(t, TokenStart(t), |t|, if TrailingDigits(t) > 4 then 4 else TrailingDigits(t))
  {
    var d := TrailingDigits(t);
    if d > 4 {
      LongRunToken(t, d);
    } else {
      var w := TrailingSpaces(t[..|t| - d]);
      SpacesOfPrefix(t, |t| - d, w);
      ShortRunToken(t, d, w);
    }
  }

  /** A run of more than four digits ends in a token of its last four. */
  lemma LongRunToken(t: string, d: nat)
    requires 4 < d <= |t| && DigitsIn(t, |t| - d, |t|)
    ensures TokenSplit(t, |t| - 4, |t|, 4)
  {
  }

  /** Whitespace, then two to four digits at the end, is a token. */
  lemma ShortRunToken(t: string, d: nat, w: nat)
    requires 2 <= d <= 4 && d + w <= |t| && DigitsIn(t, |t| - d, |t|) && SpacesIn(t, |t| - d - w, |t| - d)
    ensures TokenSplit(t, |t| - d - w, |t|, d)
  {
  }

  lemma SpacesOfPrefix(t: string, n: nat, w: nat)
    requires n <= |t| && SpacesIn(t[..n], n - w, n)
    ensures SpacesIn(t, n - w, n)
  {
    assert forall m :: n - w <= m < n ==> t[m] == t[..n][m];
  }

  /** ... and no token starts before it. */
  lemma NoTokenBefore(t: string, q: int, j: int)
    requires TrailingDigits(t) >= 2 && 0 <= q < TokenStart(t)
    ensures !TokenSplit(t, q, |t|, j)
  {
    if TokenSplit(t, q, |t|, j) {
      TokenShape(t, q, j);
      var d := TrailingDigits(t);
    }
  }

  /** Matches of `s` that end at `e` are the tokens of `s[..e]` that end at its end. */
  lemma TokenOfPrefix(s: string, e: int, q: int, k: int)
    requires 0 <= e <= |s|
    ensures TokenSplit(s, q, e, k) <==> TokenSplit(s[..e], q, e, k)
  {
  }

  /** A match cannot end at the end of a text whose last character is a newline. */
  lemma NoTokenAtNewline(s: string, q: int, k: int)
    requires |s| > 0 && s[|s| - 1] == '\n'
    ensures !TokenSplit(s, q, |s|, k)
  {
  }

  /** Where every match must end: before a final newline, else at the end. */
  function MatchLimit(s: string): (e: nat)
    ensures e <= |s|
  {
    if |s| > 0 && s[|s| - 1] == '\n' then |s| - 1 else |s|
  }

  lemma MatchIsTokenOfPrefix(s: string, q: int, e: int, k: int)
    requires MatchEnd(s, e) && TokenSplit(s, q, e, k)
    ensures e == MatchLimit(s)
    ensures TokenSplit(s[..e], q, e, k)
  {
    if MatchLimit(s) < |s| && e == |s| {
      NoTokenAtNewline(s, q, k);
    }
    TokenOfPrefix(s, e, q, k);
  }

  lemma StripYearNoMatch(s: string)
    requires TrailingDigits(s[..MatchLimit(s)]) < 2
    ensures forall p, e :: !MatchesAt(s, p, e)
    ensures StripYear(s) == s
  {
    var e := MatchLimit(s);
    forall q, e', k | MatchEnd(s, e') && TokenSplit(s, q, e', k)
      ensures false
    {
      MatchIsTokenOfPrefix(s, q, e', k);
      NoTokenAtEnd(s[..e], q, k);
    }
    assert e < |s| ==> s == s[..e] + "\n";
  }

  lemma StripYearMatch(s: string)
    requires TrailingDigits(s[..MatchLimit(s)]) >= 2
    ensures var e := MatchLimit(s);
            var p := TokenStart(s[..e]);
            LeftmostMatch(s, p, e) && StripYear(s) == s[..p] + s[e..]
  {
    var e := MatchLimit(s);
    var t := s[..e];
    TokenAtStart(t);
    var p := TokenStart(t);
    var k := if TrailingDigits(t) > 4 then 4 else TrailingDigits(t);
    TokenOfPrefix(s, e, p, k);
    assert MatchesAt(s, p, e);
    forall q, e' | 0 <= q < p
      ensures !MatchesAt(s, q, e')
    {
      forall j | MatchEnd(s, e') && TokenSplit(s, q, e', j)
        ensures false
      {
        MatchIsTokenOfPrefix(s, q, e', j);
        NoTokenBefore(t, q, j);
      }
    }
    assert e < |s| ==> s[e..] == "\n";
    assert e == |s| ==> s[e..] == [] && t == s;
  }

  /** `StripYear` is `re.sub` with the pattern `\s*\d{2,4}$`: with no match
      the text is unchanged, otherwise the leftmost match `s[p..e]` is cut
      out. No second match can follow it: it ends at the end of `s` or just
      before a final newline, and a match takes at least two characters. */
  lemma StripYearIsRegex(s: string)
    ensures (forall p, e :: !MatchesAt(s, p, e)) ==> StripYear(s) == s
    ensures (exists p, e :: MatchesAt(s, p, e)) ==>
              exists p, e :: LeftmostMatch(s, p, e) && StripYear(s) == s[..p] + s[e..]
  {
    if TrailingDigits(s[..MatchLimit(s)]) < 2 {
      StripYearNoMatch(s);
    } else {
      StripYearMatch(s);
    }
  }

  // ----- What the brand is, case by case -----

  /** The brand of a stem that does not end in a newline: the trimmed stem
      when it ends in fewer than two digits; when it ends in two to four,
      the stem without those digits and the whitespace before them,
      trimmed; with more than four, the stem without its last four digits,
      trimmed. */
  lemma BrandCases(t: string)
    requires !(|t| > 0 && t[|t| - 1] == '\n')
    ensures var d := TrailingDigits(t);
            var u := t[..|t| - d];
            BrandOfStem(t) == (if d < 2 then Trim(t)
                               else if d <= 4 then Trim(u[..|u| - TrailingSpaces(u)])
                               else Trim(t[..|t| - 4]))
  {
    var d := TrailingDigits(t);
    if d < 2 {
      StripNoYear(t);
    } else if d <= 4 {
      ShortYearBrand(t);
    } else {
      StripLongNumber(t);
    }
  }

  lemma StripNoYear(t: string)
    requires !(|t| > 0 && t[|t| - 1] == '\n') && TrailingDigits(t) < 2
    ensures BrandOfStem(t) == Trim(t)
  {
  }

  lemma StripLongNumber(t: string)
    requires !(|t| > 0 && t[|t| - 1] == '\n') && TrailingDigits(t) > 4
    ensures BrandOfStem(t) == Trim(t[..|t| - 4])
  {
  }

  lemma ShortYearBrand(t: string)
    requires !(|t| > 0 && t[|t| - 1] == '\n') && 2 <= TrailingDigits(t) <= 4
    ensures var u := t[..|t| - TrailingDigits(t)];
            BrandOfStem(t) == Trim(u[..|u| - TrailingSpaces(u)])
  {
    ShortYearCut(t);
  }

  /** The whitespace the year token takes along would be stripped anyway. */
  lemma TrimDropTrailingSpaces(u: string)
    ensures Trim(u[..|u| - TrailingSpaces(u)]) == Trim(u)
  {
    var p := |u| - TrailingSpaces(u);
    assert SpacesIn(u, p, |u|);
    TrimDropSpaceRun(u, p);
  }

  lemma ShortYearCut(t: string)
    requires !(|t| > 0 && t[|t| - 1] == '\n') && 2 <= TrailingDigits(t) <= 4
    ensures var u := t[..|t| - TrailingDigits(t)];
            StripYear(t) == u[..|u| - TrailingSpaces(u)]
  {
  }

  /** Cutting off a run of whitespace at the end does not change the strip. */
  lemma TrimDropSpaceRun(u: string, p: nat)
    requires SpacesIn(u, p, |u|)
    ensures Trim(u[..p]) == Trim(u)
  {
    assert forall i :: 0 <= i < |u| - p ==> u[p..][i] == u[p + i];
    assert u[..p] + u[p..] == u;
    TrimDropTrailingSpace(u[..p], u[p..]);
  }

  /** A newline that ends the stem is kept by the substitution and then
      trimmed away, so a year token before it is still removed. */
  lemma BrandBeforeNewline(t: string)
    requires |t| > 0 && t[|t| - 1] == '\n'
    requires !(|t| > 1 && t[|t| - 2] == '\n')
    ensures BrandOfStem(t) == BrandOfStem(t[..|t| - 1])
  {
    var u := t[..|t| - 1];
    TrimDropTrailingSpace(StripYearAtEnd(u), "\n");
  }

  /** The stem of `n.ext` is `n` when neither part is empty and the
      extension has no dot; `n` may have dots of its own. */
  lemma StemOfExtension(n: string, ext: string)
    requires |n| > 0 && |ext| > 0 && '.' !in ext
    ensures Stem(n + "." + ext) == n
  {
    var name := n + "." + ext;
    assert name[|n|] == '.';
    assert name[|n| + 1..] == ext;
    assert name[..|n|] == n;
  }

  /** A text made of `u`, not ending in a digit, and then the digits `y`
      ends in exactly `|y|` digits. */
  lemma TrailingDigitsOf(u: string, y: string)
    requires (u == [] || !IsDigit(u[|u| - 1])) && AllDigits(y)
    ensures TrailingDigits(u + y) == |y|
  {
    var t := u + y;
    DigitRunBound(t, |y|);
    if u != [] {
      assert t[|u| - 1] == u[|u| - 1];
    }
  }

  /** A file named brand, space, year, dot, extension gives the brand. */
  lemma BrandOfYearFile(b: string, y: string, ext: string)
    requires |b| > 0 && !IsSpace(b[0]) && !IsSpace(b[|b| - 1]) && !IsDigit(b[|b| - 1])
    requires 2 <= |y| <= 4 && AllDigits(y)
    requires |ext| > 0 && '.' !in ext
    ensures ExtractBrand(b + " " + y + "." + ext) == b
  {
    var stem := b + " " + y;
    StemOfExtension(stem, ext);
    YearStem(b, y);
    assert ExtractBrand(stem + "." + ext) == BrandOfStem(stem);
  }

  lemma YearStem(b: string, y: string)
    requires |b| > 0 && !IsSpace(b[0]) && !IsSpace(b[|b| - 1]) && !IsDigit(b[|b| - 1])
    requires 2 <= |y| <= 4 && AllDigits(y)
    ensures BrandOfStem(b + " " + y) == b
  {
    var stem := b + " " + y;
    var u := b + " ";
    TrailingDigitsOf(u, y);
    assert stem[..|stem| - |y|] == u;
    ShortYearBrand(stem);
    TrimDropTrailingSpaces(u);
    TrimDropTrailingSpace(b, " ");
    TrimNoOp(b);
  }


  /** A file named brand, dot, extension, where the brand does not end
      in a digit, gives the brand. */
  lemma BrandOfPlainFile(b: string, ext: string)
    requires |b| > 0 && !IsSpace(b[0]) && !IsSpace(b[|b| - 1]) && !IsDigit(b[|b| - 1])
    requires |ext| > 0 && '.' !in ext
    ensures ExtractBrand(b + "." + ext) == b
  {
    StemOfExtension(b, ext);
    StripNoYear(b);
    TrimNoOp(b);
  }

  /** A number of more than four digits after the brand loses only its
      last four digits; the space before the rest stays inside the brand. */
  lemma BrandOfLongNumber(b: string, y: string, ext: string)
    requires |b| > 0 && !IsSpace(b[0]) && !IsDigit(b[|b| - 1])
    requires |y| > 4 && AllDigits(y)
    requires |ext| > 0 && '.' !in ext
    ensures ExtractBrand(b + " " + y + "." + ext) == b + " " + y[..|y| - 4]
  {
    var stem := b + " " + y;
    StemOfExtension(stem, ext);
    TrailingDigitsOf(b + " ", y);
    StripLongNumber(stem);
    var r := b + " " + y[..|y| - 4];
    assert stem[..|stem| - 4] == r;
    assert r[0] == b[0];
    assert r[|r| - 1] == y[|y| - 5];
    DigitNotSpace(y[|y| - 5]);
    TrimNoOp(r);
    assert ExtractBrand(stem + "." + ext) == BrandOfStem(stem);
  }

  // ----- Examples from the price-list folder -----

  lemma BrandWithYear()
    ensures ExtractBrand("LACTEOS DEL VALLE 2025.xlsx") == "LACTEOS DEL VALLE"
  {
    assert "LACTEOS DEL VALLE 2025.xlsx" == "LACTEOS DEL VALLE" + " " + "2025" + "." + "xlsx";
    BrandOfYearFile("LACTEOS DEL VALLE", "2025", "xlsx");
  }

  lemma BrandWithShortYear()
    ensures ExtractBrand("LECHERIA 26.ods") == "LECHERIA"
  {
    assert "LECHERIA 26.ods" == "LECHERIA" + " " + "26" + "." + "ods";
    BrandOfYearFile("LECHERIA", "26", "ods");
  }

  lemma BrandWithoutYear()
    ensures ExtractBrand("ALPINA.xls") == "ALPINA"
  {
    assert "ALPINA.xls" == "ALPINA" + "." + "xls";
    BrandOfPlainFile("ALPINA", "xls");
  }

  lemma BrandWithLongNumber()
    ensures ExtractBrand("LOTE 12345.xlsx") == "LOTE 1"
  {
    assert "LOTE 12345.xlsx" == "LOTE" + " " + "12345" + "." + "xlsx";
    assert "LOTE 1" == "LOTE" + " " + "12345"[..1];
    BrandOfLongNumber("LOTE", "12345", "xlsx");
  }

  /** Dots inside the brand stay: only the last dot starts the extension. */
  lemma BrandWithDots()
    ensures ExtractBrand("ALIMENTOS S.A.S 2025.xlsx") == "ALIMENTOS S.A.S"
  {
    assert "ALIMENTOS S.A.S 2025.xlsx" == "ALIMENTOS S.A.S" + " " + "2025" + "." + "xlsx";
    BrandOfYearFile("ALIMENTOS S.A.S", "2025", "xlsx");
  }
}
