/**
 * `clean_price`: a price cell becomes a number. A missing cell is 0, a
 * numeric cell passes through, and a text keeps only its digits and its
 * separators, turns commas into dots and is read with `float()`; text
 * that `float()` refuses is 0.
 */
module Price {
  import opened Options
  import opened Text
  import opened Decimals
  import opened Sheets

  predicate IsSeparator(c: char) {
    c == '.' || c == ','
  }

  /** `re.sub(r'[^\d.,]', '', s)`: the digits and separators of `s`, in order. */
  function KeepNumeric(s: string): (r: string)
    ensures |r| <= |s|
  {
    if s == [] then []
    else if IsDigit(s[0]) || IsSeparator(s[0]) then [s[0]] + KeepNumeric(s[1..])
    else KeepNumeric(s[1..])
  }

  /** `s.replace(',', '.')`. */
  function CommasToDots(s: string): (r: string)
    ensures |r| == |s| && ',' !in r
  {
    if s == [] then [] else [if s[0] == ',' then '.' else s[0]] + CommasToDots(s[1..])
  }

  /** A text made only of digits and dots, the only texts `float()` sees here. */
  predicate IsCleaned(t: string) {
    forall i :: 0 <= i < |t| ==> IsDigit(t[i]) || t[i] == '.'
  }

  /** The text `clean_price` hands to `float()`: only digits and dots. */
  function Clean(s: string): (r: string)
    ensures IsCleaned(r) && |r| <= |s|
  {
    KeepNumericKeeps(s);
    CommasToDotsChars(KeepNumeric(s));
    CommasToDots(KeepNumeric(s))
  }

  /** The digits of a text, in order. */
  function DigitsOf(s: string): string {
    if s == [] then []
    else if IsDigit(s[0]) then [s[0]] + DigitsOf(s[1..])
    else DigitsOf(s[1..])
  }

  /** How many separators (`.` or `,`) a text has. */
  function SeparatorCount(s: string): nat {
    if s == [] then 0
    else (if IsSeparator(s[0]) then 1 else 0) + SeparatorCount(s[1..])
  }

  /** The index of the first separator, or `|s|` when there is none. */
  function FirstSeparator(s: string): (k: nat)
    ensures k <= |s|
    ensures k < |s| ==> IsSeparator(s[k])
    ensures forall i :: 0 <= i < k ==> !IsSeparator(s[i])
  {
    if s == [] then 0
    else if IsSeparator(s[0]) then 0
    else 1 + FirstSeparator(s[1..])
  }

  /** The index of the first dot, or `|t|` when there is none. */
  function FirstDot(t: string): (k: nat)
    ensures k <= |t|
    ensures k < |t| ==> t[k] == '.'
    ensures forall i :: 0 <= i < k ==> t[i] != '.'
  {
    if t == [] then 0
    else if t[0] == '.' then 0
    else 1 + FirstDot(t[1..])
  }

  /** What `float()` gives for a text of digits and dots: digits with at
      most one dot and at least one digit on either side of it ("7.50",
      "7.", ".5", "750") are a number; everything else ("", ".",
      "1.2.3") raises `ValueError`, which is `None` here. */
  function ParseFloat(t: string): (r: Option<Decimal>)
    ensures r.Some? ==> IsCleaned(t) && t != [] && t != "."
    ensures r.Some? ==> r.value.scale < |t|
  {
    // Other texts never reach `float()` here and are not modelled.
    if !IsCleaned(t) then None else
    var k := FirstDot(t);
    if k == |t| then
      if t == [] then None else Some(Decimal(DigitsValue(t), 0))
    else
      var whole, frac := t[..k], t[k + 1..];
      if '.' in frac || whole + frac == [] then None
      else Some(Decimal(DigitsValue(whole + frac), |frac|))
  }

  /** The price `clean_price` gives for a text cell, stated on the text
      itself: 0 unless it has a digit and at most one separator; otherwise
      all its digits read as one number, scaled by the digits after the
      separator. */
  function TextPrice(s: string): (r: Decimal)
    ensures DigitsOf(s) == [] || SeparatorCount(s) > 1 ==> r == Zero
    ensures r.scale <= |s|
  {
    DigitsOfIsDigits(s);
    DigitsOfIsDigits(s[FirstSeparator(s)..]);
    if DigitsOf(s) == [] || SeparatorCount(s) > 1 then Zero
    else Decimal(DigitsValue(DigitsOf(s)), |DigitsOf(s[FirstSeparator(s)..])|)
  }

  /** `clean_price(value)`. */
  function CleanPrice(v: Option<Cell>): (r: Decimal)
    ensures v.None? ==> r == Zero
    ensures v.Some? && v.value.NumberCell? ==> r == v.value.value
    ensures v.Some? && v.value.TextCell? ==> r == TextPrice(v.value.text)
  {
    match v
    case None => Zero
    case Some(NumberCell(d, _)) => d
    case Some(TextCell(s)) =>
      ParseOfClean(s);
      match ParseFloat(Clean(s))
      case None => Zero
      case Some(d) => d
  }

  // ----- Clean, piece by piece -----

  lemma {:induction false} KeepNumericKeeps(s: string)
    ensures forall i :: 0 <= i < |KeepNumeric(s)| ==> IsDigit(KeepNumeric(s)[i]) || IsSeparator(KeepNumeric(s)[i])
  {
    if s != [] {
      KeepNumericKeeps(s[1..]);
    }
  }

  lemma {:induction false} CommasToDotsChars(s: string)
    ensures |CommasToDots(s)| == |s|
    ensures forall i :: 0 <= i < |s| ==> CommasToDots(s)[i] == if s[i] == ',' then '.' else s[i]
  {
    if s != [] {
      CommasToDotsChars(s[1..]);
    }
  }

  lemma {:induction false} DigitsOfIsDigits(s: string)
    ensures AllDigits(DigitsOf(s)) && |DigitsOf(s)| <= |s|
  {
    if s != [] {
      DigitsOfIsDigits(s[1..]);
    }
  }

  lemma {:induction false} KeepNumericAppend(a: string, b: string)
    ensures KeepNumeric(a + b) == KeepNumeric(a) + KeepNumeric(b)
  {
    if a != [] {
      assert (a + b)[1..] == a[1..] + b;
      KeepNumericAppend(a[1..], b);
    } else {
      assert a + b == b;
    }
  }

  lemma {:induction false} DigitsOfAppend(a: string, b: string)
    ensures DigitsOf(a + b) == DigitsOf(a) + DigitsOf(b)
  {
    if a != [] {
      assert (a + b)[1..] == a[1..] + b;
      DigitsOfAppend(a[1..], b);
    } else {
      assert a + b == b;
    }
  }

  lemma {:induction false} SeparatorCountAppend(a: string, b: string)
    ensures SeparatorCount(a + b) == SeparatorCount(a) + SeparatorCount(b)
  {
    if a != [] {
      assert (a + b)[1..] == a[1..] + b;
      SeparatorCountAppend(a[1..], b);
    } else {
      assert a + b == b;
    }
  }

  lemma {:induction false} CommasToDotsAppend(a: string, b: string)
    ensures CommasToDots(a + b) == CommasToDots(a) + CommasToDots(b)
  {
    if a != [] {
      assert (a + b)[1..] == a[1..] + b;
      CommasToDotsAppend(a[1..], b);
    } else {
      assert a + b == b;
    }
  }

  lemma CleanAppend(a: string, b: string)
    ensures Clean(a + b) == Clean(a) + Clean(b)
  {
    KeepNumericAppend(a, b);
    CommasToDotsAppend(KeepNumeric(a), KeepNumeric(b));
  }

  /** Without separators, cleaning leaves just the digits. */
  lemma {:induction false} CleanNoSeparator(s: string)
    requires SeparatorCount(s) == 0
    ensures Clean(s) == DigitsOf(s)
  {
    if s != [] {
      CleanNoSeparator(s[1..]);
      assert Clean(s) == Clean([s[0]] + s[1..]) by { assert s == [s[0]] + s[1..]; }
      CleanAppend([s[0]], s[1..]);
    }
  }

  /** With a separator, cleaning leaves a dot. */
  lemma {:induction false} CleanKeepsSeparator(s: string)
    requires SeparatorCount(s) > 0
    ensures '.' in Clean(s)
  {
    assert s == [s[0]] + s[1..];
    CleanAppend([s[0]], s[1..]);
    if !IsSeparator(s[0]) {
      CleanKeepsSeparator(s[1..]);
    } else {
      assert Clean([s[0]]) == ".";
    }
  }

  /** A text with a separator splits at the first one. */
  lemma SplitAtFirstSeparator(s: string)
    requires SeparatorCount(s) > 0
    ensures FirstSeparator(s) < |s|
    ensures var k := FirstSeparator(s);
            && s == s[..k] + [s[k]] + s[k + 1..]
            && SeparatorCount(s[..k]) == 0
            && SeparatorCount(s[k + 1..]) == SeparatorCount(s) - 1
  {
    var k := FirstSeparator(s);
    if k == |s| {
      NoSeparatorCount(s);
    } else {
      var left, c, right := s[..k], s[k], s[k + 1..];
      SplitAt(s, k);
      NoSeparatorCount(left);
      SeparatorCountAppend(left + [c], right);
      SeparatorCountAppend(left, [c]);
      CleanOfChar(c);
    }
  }

  lemma DropAt(s: string, k: nat)
    requires k < |s|
    ensures s[k..] == [s[k]] + s[k + 1..]
  {
  }

  lemma SplitAt(s: string, k: nat)
    requires k < |s|
    ensures s == s[..k] + [s[k]] + s[k + 1..]
  {
  }

  lemma {:induction false} NoSeparatorCount(s: string)
    requires forall i :: 0 <= i < |s| ==> !IsSeparator(s[i])
    ensures SeparatorCount(s) == 0
  {
    if s != [] {
      NoSeparatorCount(s[1..]);
    }
  }

  lemma FirstDotAfterDigits(x: string, y: string)
    requires '.' !in x
    ensures FirstDot(x + "." + y) == |x|
  {
    var t := x + "." + y;
    assert t[|x|] == '.';
    assert forall i :: 0 <= i < |x| ==> t[i] == x[i];
  }

  /** `float()` on digits, a dot and more digits-and-dots. */
  lemma ParseAtDot(x: string, y: string)
    requires AllDigits(x) && IsCleaned(y)
    ensures IsCleaned(x + "." + y)
    ensures ParseFloat(x + "." + y)
            == if '.' in y || x + y == [] then None
               else Some(Decimal(DigitsValue(x + y), |y|))
  {
    var t := x + "." + y;
    assert '.' !in x;
    FirstDotAfterDigits(x, y);
    assert t[..|x|] == x;
    assert t[|x| + 1..] == y;
  }

  lemma ParseNoSeparator(s: string)
    requires SeparatorCount(s) == 0
    ensures ParseFloat(Clean(s))
            == if DigitsOf(s) == [] then None else Some(TextPrice(s))
  {
    var t := Clean(s);
    CleanNoSeparator(s);
    DigitsOfIsDigits(s);
    FirstDotOfDigits(t);
    NoSeparatorFirst(s);
    assert s[|s|..] == [];
  }

  /** A text of digits only has no dot. */
  lemma {:induction false} FirstDotOfDigits(t: string)
    requires AllDigits(t)
    ensures FirstDot(t) == |t|
  {
    if t != [] {
      assert IsDigit(t[0]);
      FirstDotOfDigits(t[1..]);
    }
  }

  lemma {:induction false} NoSeparatorFirst(s: string)
    requires SeparatorCount(s) == 0
    ensures FirstSeparator(s) == |s|
  {
    if s != [] {
      NoSeparatorFirst(s[1..]);
    }
  }

  lemma SplitClean(s: string)
    requires SeparatorCount(s) > 0
    ensures FirstSeparator(s) < |s|
    ensures var k := FirstSeparator(s);
            && Clean(s) == DigitsOf(s[..k]) + "." + Clean(s[k + 1..])
            && DigitsOf(s) == DigitsOf(s[..k]) + DigitsOf(s[k + 1..])
            && DigitsOf(s[k..]) == DigitsOf(s[k + 1..])
            && SeparatorCount(s[k + 1..]) == SeparatorCount(s) - 1
  {
    SplitAtFirstSeparator(s);
    var k := FirstSeparator(s);
    var left, c, right := s[..k], s[k], s[k + 1..];
    CleanAroundSeparator(left, c, right);
    DigitsAroundSeparator(left, c, right);
    DropAt(s, k);
    DigitsOfAppend([c], right);
    CleanOfChar(c);
  }

  lemma CleanAroundSeparator(left: string, c: char, right: string)
    requires IsSeparator(c) && SeparatorCount(left) == 0
    ensures Clean(left + [c] + right) == DigitsOf(left) + "." + Clean(right)
  {
    CleanAppend(left + [c], right);
    CleanAppend(left, [c]);
    CleanOfChar(c);
    CleanNoSeparator(left);
  }

  /** One character cleans to itself if a digit, to a dot if a separator, and to nothing otherwise. */
  lemma CleanOfChar(c: char)
    ensures Clean([c]) == if IsDigit(c) then [c] else if IsSeparator(c) then "." else ""
    ensures DigitsOf([c]) == if IsDigit(c) then [c] else ""
    ensures SeparatorCount([c]) == if IsSeparator(c) then 1 else 0
  {
    assert [c][1..] == [];
    var d := if c == ',' then '.' else c;
    if IsDigit(c) || IsSeparator(c) {
      assert KeepNumeric([c]) == [c] + KeepNumeric([]) == [c];
      assert CommasToDots([c]) == [d] + CommasToDots([]) == [d];
    } else {
      assert KeepNumeric([c]) == KeepNumeric([]) == [];
    }
    if IsDigit(c) {
      assert DigitsOf([c]) == [c] + DigitsOf([]) == [c];
    } else {
      assert DigitsOf([c]) == DigitsOf([]) == [];
    }
  }

  lemma DigitsAroundSeparator(left: string, c: char, right: string)
    requires IsSeparator(c)
    ensures DigitsOf(left + [c] + right) == DigitsOf(left) + DigitsOf(right)
  {
    DigitsOfAppend(left + [c], right);
    DigitsOfAppend(left, [c]);
    assert DigitsOf([c]) == [];
  }

  lemma ParseOneSeparator(s: string)
    requires SeparatorCount(s) == 1
    ensures ParseFloat(Clean(s)) == if DigitsOf(s) == [] then None else Some(TextPrice(s))
  {
    SplitClean(s);
    var k := FirstSeparator(s);
    var left, right := s[..k], s[k + 1..];
    DigitsOfIsDigits(left);
    ParseAtDot(DigitsOf(left), Clean(right));
    CleanNoSeparator(right);
    DigitsOfIsDigits(right);
    assert '.' !in Clean(right);
  }

  lemma ParseManySeparators(s: string)
    requires SeparatorCount(s) > 1
    ensures ParseFloat(Clean(s)) == None
  {
    SplitClean(s);
    var k := FirstSeparator(s);
    var left, right := s[..k], s[k + 1..];
    DigitsOfIsDigits(left);
    ParseAtDot(DigitsOf(left), Clean(right));
    CleanKeepsSeparator(right);
  }

  /** `float(clean)` stated on the original text: it fails exactly when the
      text has no digit or more than one separator, and otherwise reads all
      the digits scaled by the number of digits after the separator. */
  lemma ParseOfClean(s: string)
    ensures ParseFloat(Clean(s))
            == if DigitsOf(s) == [] || SeparatorCount(s) > 1 then None
               else Some(TextPrice(s))
  {
    if SeparatorCount(s) == 0 {
      ParseNoSeparator(s);
    } else if SeparatorCount(s) == 1 {
      ParseOneSeparator(s);
    } else {
      ParseManySeparators(s);
    }
  }

  /** `float()` on the cleaned text succeeds exactly when that text has at
      least one digit and at most one dot. */
  lemma ParseSucceedsIff(s: string)
    ensures ParseFloat(Clean(s)).Some?
            <==> DigitsOf(Clean(s)) != [] && SeparatorCount(Clean(s)) <= 1
  {
    ParseOfClean(s);
    CleanCounts(s);
  }

  /** Cleaning keeps every digit and turns each separator into one dot. */
  lemma {:induction false} CleanCounts(s: string)
    ensures DigitsOf(Clean(s)) == DigitsOf(s)
    ensures SeparatorCount(Clean(s)) == SeparatorCount(s)
  {
    if s != [] {
      assert s == [s[0]] + s[1..];
      CleanAppend([s[0]], s[1..]);
      DigitsOfAppend(Clean([s[0]]), Clean(s[1..]));
      SeparatorCountAppend(Clean([s[0]]), Clean(s[1..]));
      DigitsOfAppend([s[0]], s[1..]);
      SeparatorCountAppend([s[0]], s[1..]);
      CleanCounts(s[1..]);
    }
  }

  // ----- The examples the script's behaviour is known by -----

  lemma PriceMissing()
    ensures CleanPrice(None) == Zero
  {
  }

  /** "7.50" is read as 7.5. */
  lemma PriceSevenFifty()
    ensures CleanPrice(Some(TextCell("7.50"))) == Decimal(750, 2)
    ensures Value(Decimal(750, 2)) == 7.5
  {
    SevenFiftyText("7.50");
    SevenFiftyReal();
  }

  lemma SevenFiftyText(s: string)
    requires s == "7.50"
    ensures TextPrice(s) == Decimal(750, 2)
  {
    SevenFiftyDigits(s);
    SevenFiftySeparator(s);
    SevenFiftyValue("750");
  }

  lemma SevenFiftyReal()
    ensures Value(Decimal(750, 2)) == 7.5
  {
    assert Pow10(2) == 100;
  }

  lemma SevenFiftyDigits(s: string)
    requires s == "7.50"
    ensures DigitsOf(s) == "750"
    ensures SeparatorCount(s) == 1
  {
    assert s == ['7'] + ".50";
    DigitsCons('7', ".50");
    FiftyDigits(".50");
  }

  lemma FiftyDigits(u: string)
    requires u == ".50"
    ensures DigitsOf(u) == "50" && SeparatorCount(u) == 1
  {
    assert u == ['.'] + "50";
    DigitsCons('.', "50");
    assert "50" == ['5'] + "0";
    DigitsCons('5', "0");
    assert "0" == ['0'] + "";
    DigitsCons('0', "");
  }

  /** The digits and separators of a text, one character at a time. */
  lemma DigitsCons(c: char, rest: string)
    ensures DigitsOf([c] + rest) == (if IsDigit(c) then [c] else "") + DigitsOf(rest)
    ensures SeparatorCount([c] + rest) == (if IsSeparator(c) then 1 else 0) + SeparatorCount(rest)
  {
    assert ([c] + rest)[1..] == rest;
  }

  lemma SevenFiftySeparator(s: string)
    requires s == "7.50"
    ensures FirstSeparator(s) == 1 && s[1..] == ".50" && DigitsOf(".50") == "50"
  {
    assert s[1..] == ".50";
    assert !IsSeparator(s[0]) && IsSeparator(s[1]);
    FiftyDigits(".50");
  }

  lemma SevenFiftyValue(t: string)
    requires t == "750"
    ensures AllDigits(t) && DigitsValue(t) == 750
  {
    assert t[..2] == "75";
    assert "75"[..1] == "7";
    assert "7"[..0] == "";
  }

  /** "$ 12.345,67" cleans to a text with two dots ("12.345.67"). */
  lemma CleanMixedSeparators()
    ensures SeparatorCount(Clean("$ 12.345,67")) == 2
  {
    CleanCounts("$ 12.345,67");
    MixedSeparators();
  }

  /** "$ 12.345,67" has two separators, the dot and the comma. */
  lemma MixedSeparators()
    ensures SeparatorCount("$ 12.345,67") == 2
  {
    MixedSeparatorsUpToComma();
    SeparatorCountSnoc("$ 12.345,", '6');
    SeparatorCountSnoc("$ 12.345,6", '7');
  }

  lemma MixedSeparatorsUpToComma()
    ensures SeparatorCount("$ 12.345,") == 2
  {
    MixedSeparatorsUpToDot();
    SeparatorCountSnoc("$ 12.", '3');
    SeparatorCountSnoc("$ 12.3", '4');
    SeparatorCountSnoc("$ 12.34", '5');
    SeparatorCountSnoc("$ 12.345", ',');
  }

  lemma MixedSeparatorsUpToDot()
    ensures SeparatorCount("$ 12.") == 1
  {
    SeparatorCountSnoc("", '$');
    SeparatorCountSnoc("$", ' ');
    SeparatorCountSnoc("$ ", '1');
    SeparatorCountSnoc("$ 1", '2');
    SeparatorCountSnoc("$ 12", '.');
  }

  /** Appending one character adds one to the count exactly when it is a separator. */
  lemma SeparatorCountSnoc(s: string, c: char)
    ensures SeparatorCount(s + [c]) == SeparatorCount(s) + (if IsSeparator(c) then 1 else 0)
  {
    SeparatorCountAppend(s, [c]);
  }

  /** ... which `float()` refuses, so the price is 0. */
  lemma PriceMixedSeparators()
    ensures CleanPrice(Some(TextCell("$ 12.345,67"))) == Zero
  {
    assert TextPrice("$ 12.345,67") == Zero;
  }
}
