/** Numbers as texts: what parsing makes of digits, signs, dots and exponents, with the limits of an
    int and of a double written as powers. */
module JsonNumbers {
  import opened Grammars
  import opened Engine
  import opened EngineLaws
  import opened JsonGrammar
  import opened JsonMatching
  import opened Json
  import opened Builder
  import opened JsonParse
  import opened JsonRoundTrip
  import opened JsonTheorems
  import opened JsonReader

  // ---- powers ----

  function Power(b: nat, k: nat): nat
  {
    if k == 0 then 1 else b * Power(b, k - 1)
  }

  lemma {:induction false} PowerAdds(b: nat, i: nat, j: nat)
    ensures Power(b, i + j) == Power(b, i) * Power(b, j)
  {
    if i > 0 {
      PowerAdds(b, i - 1, j);
      Reassociate(b, Power(b, i - 1), Power(b, j));
    }
  }

  lemma Reassociate(a: nat, b: nat, c: nat)
    ensures a * (b * c) == (a * b) * c
  {
  }

  lemma {:induction false} TenToIsPower(n: nat)
    ensures TenTo(n) == Power(10, n)
  {
    if n > 0 { TenToIsPower(n - 1); }
  }

  lemma PowersOfTwo()
    ensures Power(2, 9) == 0x200 && Power(2, 7) == 0x80 && Power(2, 54) == 0x40_0000_0000_0000
    ensures Power(2, 97) == TWO_TO_97
  {
    assert Power(2, 16) == 0x1_0000 && Power(2, 7) == 0x80 && Power(2, 9) == 0x200;
    PowerAdds(2, 16, 16);
    PowerAdds(2, 32, 16);
    PowerAdds(2, 48, 48);
    assert Power(2, 1) == 2 && Power(2, 6) == 0x40;
    PowerAdds(2, 96, 1);
    PowerAdds(2, 48, 6);
  }

  lemma HugePowers()
    ensures Power(2, 485) == TWO_TO_485 && Power(2, 970) == TWO_TO_485 * TWO_TO_485
    ensures Power(2, 1067) == TWO_TO_1067
  {
    PowersOfTwo();
    PowerAdds(2, 97, 97);
    PowerAdds(2, 194, 97);
    PowerAdds(2, 291, 97);
    PowerAdds(2, 388, 97);
    PowerAdds(2, 485, 485);
    PowerAdds(2, 970, 97);
  }

  /** The first number too great for a double: half-way between the greatest one, 2^1024 - 2^971, and
      2^1024. */
  lemma DoubleLimitIs()
    ensures DOUBLE_LIMIT == Power(2, 1024) - Power(2, 970)
  {
    PowersOfTwo();
    HugePowers();
    PowerAdds(2, 54, 970);
    LessOne(0x40_0000_0000_0000, Power(2, 970));
    Reassociate(0x3F_FFFF_FFFF_FFFF, TWO_TO_485, TWO_TO_485);
  }

  lemma LessOne(a: nat, b: nat)
    requires a > 0
    ensures (a - 1) * b == a * b - b
  {
  }

  /** A number n / scale that a double cannot hold because it is too small: below 2^-1022 once rounded to
      53 bits, that is below 2^-1022 - 2^-1076, and not a multiple of 2^-1074. */
  predicate TooSmall(n: nat, scale: nat)
    requires scale > 0
  {
    n > 0 && n * Power(2, 1076) < (Power(2, 54) - 1) * scale && n * Power(2, 1074) % scale != 0
  }

  lemma UnderflowsIsTooSmall(n: nat, scale: nat)
    requires scale > 0
    ensures Underflows(n, scale) <==> TooSmall(n, scale)
  {
    PowersOfTwo();
    HugePowers();
    PowerAdds(2, 1067, 9);
    PowerAdds(2, 1067, 7);
    Reassociate(n, TWO_TO_1067, 0x200);
    Reassociate(n, TWO_TO_1067, 0x80);
  }

  // ---- digits ----

  lemma DigitsGrow(ds: string, d: char)
    requires (forall ch :: ch in ds ==> IsDigit(ch)) && IsDigit(d)
    ensures forall ch :: ch in ds + [d] ==> IsDigit(ch)
    ensures Digits(ds + [d]) == 10 * Digits(ds) + (d as int - '0' as int)
  {
    assert (ds + [d])[..|ds|] == ds;
  }

  lemma {:induction false} ZerosAreZero(zeros: string)
    requires forall ch :: ch in zeros ==> ch == '0'
    ensures (forall ch :: ch in zeros ==> IsDigit(ch)) && Digits(zeros) == 0
    decreases |zeros|
  {
    if zeros != "" {
      var n := |zeros| - 1;
      assert zeros == zeros[..n] + [zeros[n]];
      assert zeros[n] in zeros && forall ch :: ch in zeros[..n] ==> ch in zeros;
      ZerosAreZero(zeros[..n]);
      DigitsGrow(zeros[..n], zeros[n]);
    }
  }

  /** Leading zeros count for nothing. */
  lemma {:induction false} PaddedDigits(zeros: string, ds: string)
    requires (forall ch :: ch in zeros ==> ch == '0') && (forall ch :: ch in ds ==> IsDigit(ch))
    ensures (forall ch :: ch in zeros + ds ==> IsDigit(ch)) && Digits(zeros + ds) == Digits(ds)
    decreases |ds|
  {
    if ds == "" {
      assert zeros + ds == zeros;
      ZerosAreZero(zeros);
    } else {
      var n := |ds| - 1;
      assert ds == ds[..n] + [ds[n]] && zeros + ds == (zeros + ds[..n]) + [ds[n]];
      PaddedDigits(zeros, ds[..n]);
      DigitsGrow(zeros + ds[..n], ds[n]);
      DigitsGrow(ds[..n], ds[n]);
    }
  }

  predicate AllDigits(ds: string) { ds != "" && forall ch :: ch in ds ==> ch in "0123456789" }

  lemma DigitsAre(ds: string)
    ensures AllDigits(ds) <==> ds != "" && forall ch :: ch in ds ==> IsDigit(ch)
  {
    forall ch: char ensures IsDigit(ch) <==> ch in "0123456789" { DigitIs(ch); }
  }

  lemma DigitIs(ch: char)
    ensures IsDigit(ch) <==> ch in "0123456789"
  {
    if IsDigit(ch) { assert "0123456789"[ch as int - '0' as int] == ch; }
  }

  predicate Sign(sign: string) { sign == "" || sign == "+" || sign == "-" }

  // ---- a number as a document ----

  /** A sign, digits, and something after them that is no digit. */
  lemma DigitsThere(sign: string, ds: string, rest: string)
    requires Sign(sign) && AllDigits(ds) && (rest != "" ==> !IsDigit(rest[0]))
    ensures var s := sign + ds + rest;
      && SignEnd(s, 0) == |sign| && RunEnd(Digit, s, |sign|) == |sign + ds| && s[..|sign + ds|] == sign + ds
      && s != "" && (s[0] == '+' || s[0] == '-' || IsDigit(s[0]))
  {
    var s := sign + ds + rest;
    DigitsAre(ds);
    forall i | |sign| <= i < |sign + ds| ensures IsDigit(s[i]) {
      assert s[i] == ds[i - |sign|] && ds[i - |sign|] in ds;
    }
    if rest != "" { assert s[|sign + ds|] == rest[0]; }
    DigitsEnd(s, |sign|, |sign + ds|);
  }

  lemma {:induction false} DigitsEnd(s: string, p: nat, q: nat)
    requires p <= q <= |s| && (forall i :: p <= i < q ==> IsDigit(s[i])) && (q < |s| ==> !IsDigit(s[q]))
    ensures RunEnd(Digit, s, p) == q
    decreases q - p
  {
    if p < q { DigitsEnd(s, p + 1, q); }
  }

  /** What one action, given all that has been matched of a text that starts with a number, comes to. */
  lemma OneCall(s: string, g: Grammar, e: Engine.Event, n: nat)
    requires JReady(g) && e.Fired? && e.from == 0 && e.to == n && 0 < n <= |s| && RunEnd(Space, s, 0) == 0
    requires ReadValue(s, 0).o == Outcome(true, n, [e])
    ensures match Apply(Start(), Action(s, e))
            case Thrown(f) => Parse(s, 0) == (Threw(f), 0)
            case Built(b) => Parse(s, 0) == (Returned(b.root), RunEnd(Space, s, n))
  {
    var h := ParseIs(s, 0);
    DocumentRuns(g, s, 0);
    ValueIs(g, s, 0);
    OneAction(s, e);
    ReplayOne(Start(), Action(s, e));
    if Apply(Start(), Action(s, e)).Thrown? { ThrownAtOnce(g, s, e); }
  }

  /** Nothing that could be part of a number, or white space. */
  predicate Stops(rest: string)
  {
    rest != "" ==> rest[0] !in "0123456789.e" && !IsWhite(rest[0])
  }

  lemma NumberStarts(s: string)
    requires s != "" && (s[0] == '+' || s[0] == '-' || IsDigit(s[0]))
    ensures RunEnd(Space, s, 0) == 0 && ReadValue(s, 0) == Clean(NumberRun(s, 0))
  {
    SpaceIsWhite(s[0]);
  }

  /** An integer with any sign and any number of leading zeros, up to what is no part of it: it is read
      when it fits in 32 bits, and otherwise it raises and the position has not moved. */
  lemma IntegerParses(sign: string, zeros: string, n: nat, rest: string)
    requires Sign(sign) && (forall ch :: ch in zeros ==> ch == '0') && Stops(rest)
    ensures var text := sign + zeros + Decimal(n);
      var i := if sign == "-" then -(n as int) else n as int;
      Parse(text + rest, 0) ==
        if -0x8000_0000 <= i <= 0x7FFF_FFFF then (Returned(Int(i)), |text|) else (Threw(OutOfRange), 0)
  {
    var ds := zeros + Decimal(n);
    assert sign + zeros + Decimal(n) == sign + ds;
    StoiOfPadded(sign, zeros, n, ds);
    IntegerGives(sign, ds, rest);
  }

  lemma StoiOfPadded(sign: string, zeros: string, n: nat, ds: string)
    requires Sign(sign) && (forall ch :: ch in zeros ==> ch == '0') && ds == zeros + Decimal(n)
    ensures AllDigits(ds)
    ensures var i := if sign == "-" then -(n as int) else n as int;
      Stoi(sign + ds) == if FitsInt(i) then Number(i) else Bad(OutOfRange)
  {
    DecimalDigits(n);
    PaddedDigits(zeros, Decimal(n));
    DigitsAre(ds);
    StoiOfDigits(sign, ds);
  }

  lemma IntegerGives(sign: string, ds: string, rest: string)
    requires Sign(sign) && AllDigits(ds) && Stops(rest)
    ensures var text := sign + ds;
      Parse(text + rest, 0) ==
        match Stoi(text)
        case Number(i) => (Returned(Int(i)), |text|)
        case Bad(f) => (Threw(f), 0)
  {
    var text := sign + ds;
    var s := text + rest;
    if rest != "" { DigitIs(rest[0]); }
    DigitsThere(sign, ds, rest);
    NumberStarts(s);
    var g := ParseIs(s, 0);
    var e := Fired(INT_VALUE, 0, |text|);
    IntegerIsRead(s, text, rest, e);
    OneCall(s, g, e, |text|);
    if rest != "" { SpaceIsWhite(rest[0]); }
  }

  lemma IntegerIsRead(s: string, text: string, rest: string, e: Engine.Event)
    requires s == text + rest && e == Fired(INT_VALUE, 0, |text|) && Stops(rest)
    requires SignEnd(s, 0) < RunEnd(Digit, s, SignEnd(s, 0)) == |text|
    ensures NumberRun(s, 0) == Outcome(true, |text|, [e]) && Action(s, e) == IntValue(text)
  {
    if rest != "" {
      assert s[|text|] == rest[0];
      assert "0123456789.e"[10] == '.' && "0123456789.e"[11] == 'e';
    }
    assert s[0..|text|] == text;
  }

  lemma StoiOfDigits(sign: string, ds: string)
    requires Sign(sign) && ds != "" && forall ch :: ch in ds ==> IsDigit(ch)
    ensures var i := if sign == "-" then -Digits(ds) else Digits(ds);
      Stoi(sign + ds) == if FitsInt(i) then Number(i) else Bad(OutOfRange)
  {
    assert ds[0] in ds;
    if sign != "" { assert (sign + ds)[0] == sign[0] && (sign + ds)[1..] == ds; } else { assert sign + ds == ds; }
  }

  // ---- doubles ----

  /** In the range of a double: below the limit, and not lost for being too small. */
  predicate InRange(n: nat, scale: nat)
    requires scale > 0
  {
    n < (Power(2, 1024) - Power(2, 970)) * scale && !TooSmall(n, scale)
  }

  lemma {:induction false} PowerIsPositive(b: nat, k: nat)
    requires b > 0
    ensures Power(b, k) > 0
  {
    if k > 0 { PowerIsPositive(b, k - 1); }
  }

  lemma {:induction false} CountsDigits(t: string, n: nat)
    requires n <= |t| && (forall i :: 0 <= i < n ==> IsDigit(t[i])) && (n < |t| ==> !IsDigit(t[n]))
    ensures DigitCount(t) == n
    decreases n
  {
    if n > 0 {
      assert forall i :: 0 <= i < n - 1 ==> t[1..][i] == t[i + 1];
      CountsDigits(t[1..], n - 1);
    }
  }

  lemma UnsignedIs(sign: string, text: string)
    requires Sign(sign) && text != "" && IsDigit(text[0])
    ensures Unsigned(sign + text) == text
  {
    if sign != "" { assert (sign + text)[1..] == text; } else { assert sign + text == text; }
  }

  lemma MarkedCount(whole: string, mark: char, more: string, t: string)
    requires AllDigits(whole) && AllDigits(more) && !IsDigit(mark) && t == whole + ([mark] + more)
    ensures DigitCount(t) == |whole| && DigitCount(more) == |more| && t != "" && IsDigit(t[0])
  {
    DigitsAre(whole);
    DigitsAre(more);
    assert forall i :: 0 <= i < |whole| ==> t[i] == whole[i] && whole[i] in whole;
    CountsDigits(t, |whole|);
    assert forall i :: 0 <= i < |more| ==> more[i] in more;
    CountsDigits(more, |more|);
  }

  /** Digits, a mark, and digits. */
  lemma MarkedParts(whole: string, mark: char, more: string, t: string, b: string)
    requires AllDigits(whole) && AllDigits(more) && !IsDigit(mark) && b == [mark] + more && t == whole + b
    ensures DigitCount(t) == |whole| && DigitCount(more) == |more| && t != "" && IsDigit(t[0])
    ensures t[..|whole|] == whole && t[|whole|..] == b && b[1..] == more && more[..|more|] == more
  {
    MarkedCount(whole, mark, more, t);
    Halves(whole, b);
    Halves([mark], more);
  }

  lemma Halves(a: string, b: string)
    ensures (a + b)[..|a|] == a && (a + b)[|a|..] == b && b[..|b|] == b
  {
  }

  lemma FractionFits(t: string, whole: string, b: string, frac: string)
    requires t[..DigitCount(t)] == whole && t[|whole|..] == b && b != "" && b[0] == '.' && b[1..] == frac
    requires DigitCount(frac) == |frac| && frac[..|frac|] == frac && frac != ""
    requires forall ch :: ch in whole + frac ==> IsDigit(ch)
    ensures FitsDouble(t) <==>
      Digits(whole + frac) < DOUBLE_LIMIT * TenTo(|frac|) && !Underflows(Digits(whole + frac), TenTo(|frac|))
  {
  }

  lemma FitsFraction(whole: string, frac: string, t: string)
    requires AllDigits(whole) && AllDigits(frac) && t == whole + (['.'] + frac)
    ensures forall ch :: ch in whole + frac ==> IsDigit(ch)
    ensures Power(10, |frac|) > 0
    ensures FitsDouble(t) <==> InRange(Digits(whole + frac), Power(10, |frac|))
  {
    var b := ['.'] + frac;
    MarkedParts(whole, '.', frac, t, b);
    DigitsAre(whole);
    DigitsAre(frac);
    FractionFits(t, whole, b, frac);
    TenToIsPower(|frac|);
    RangeIs(Digits(whole + frac), TenTo(|frac|));
  }

  lemma RangeIs(n: nat, scale: nat)
    requires scale > 0
    ensures n < DOUBLE_LIMIT * scale && !Underflows(n, scale) <==> InRange(n, scale)
  {
    DoubleLimitIs();
    UnderflowsIsTooSmall(n, scale);
  }

  lemma ExponentFits(t: string, whole: string, b: string, exp: string)
    requires t[..DigitCount(t)] == whole && t[|whole|..] == b && b != "" && b[0] == 'e' && b[1..] == exp
    requires DigitCount(exp) == |exp| && exp[..|exp|] == exp && exp != ""
    requires (forall ch :: ch in whole ==> IsDigit(ch)) && (forall ch :: ch in exp ==> IsDigit(ch))
    ensures FitsDouble(t) <==> Digits(whole) * TenTo(Digits(exp)) < DOUBLE_LIMIT
  {
  }

  lemma FitsExponent(whole: string, exp: string, t: string)
    requires AllDigits(whole) && AllDigits(exp) && t == whole + (['e'] + exp)
    ensures (forall ch :: ch in whole ==> IsDigit(ch)) && (forall ch :: ch in exp ==> IsDigit(ch))
    ensures FitsDouble(t) <==> Digits(whole) * Power(10, Digits(exp)) < Power(2, 1024) - Power(2, 970)
  {
    var b := ['e'] + exp;
    MarkedParts(whole, 'e', exp, t, b);
    DigitsAre(whole);
    DigitsAre(exp);
    ExponentFits(t, whole, b, exp);
    TenToIsPower(Digits(exp));
    DoubleLimitIs();
  }

  /** A number with a mark in it, up to the first character after it that is no digit. */
  lemma MarkedGives(sign: string, whole: string, mark: char, more: string, rest: string, t: string)
    requires Sign(sign) && AllDigits(whole) && AllDigits(more) && (mark == '.' || mark == 'e')
    requires (rest != "" ==> rest[0] !in "0123456789" && !IsWhite(rest[0])) && t == whole + ([mark] + more)
    ensures Parse(sign + t + rest, 0) ==
        if FitsDouble(t) then (Returned(Double(sign + t)), |sign + t|) else (Threw(OutOfRange), 0)
  {
    MarkedParts(whole, mark, more, t, [mark] + more);
    StodIs(sign, t);
    MarkedIsRead(sign, whole, mark, more, rest, t);
    DoubleGives(sign + t, rest);
  }

  lemma StodIs(sign: string, t: string)
    requires Sign(sign) && t != "" && IsDigit(t[0]) && DigitCount(t) > 0
    ensures Stod(sign + t) == if FitsDouble(t) then Converted else Failed(OutOfRange)
  {
    UnsignedIs(sign, t);
  }

  /** When the reader takes all of a text up to `rest` for a double. */
  lemma DoubleGives(text: string, rest: string)
    requires var s := text + rest; var e := Fired(DOUBLE_VALUE, 0, |text|);
      && NumberRun(s, 0) == Outcome(true, |text|, [e]) && s != "" && (s[0] == '+' || s[0] == '-' || IsDigit(s[0]))
    requires text != "" && (rest != "" ==> !IsWhite(rest[0]))
    ensures Parse(text + rest, 0) ==
      match Stod(text)
      case Converted => (Returned(Double(text)), |text|)
      case Failed(f) => (Threw(f), 0)
  {
    var s := text + rest;
    var e := Fired(DOUBLE_VALUE, 0, |text|);
    NumberStarts(s);
    var g := ParseIs(s, 0);
    assert Action(s, e) == DoubleValue(text) by { assert s[0..|text|] == text; }
    OneCall(s, g, e, |text|);
    if rest != "" { SpaceIsWhite(rest[0]); }
  }

  lemma MarkedIsRead(sign: string, whole: string, mark: char, more: string, rest: string, t: string)
    requires Sign(sign) && AllDigits(whole) && AllDigits(more) && (mark == '.' || mark == 'e')
    requires (rest != "" ==> rest[0] !in "0123456789") && t == whole + ([mark] + more)
    ensures var s, n := sign + t + rest, |sign + t|;
      && NumberRun(s, 0) == Outcome(true, n, [Fired(DOUBLE_VALUE, 0, n)])
      && s != "" && (s[0] == '+' || s[0] == '-' || IsDigit(s[0]))
  {
    var s := sign + t + rest;
    var start := sign + whole + [mark];
    assert s == sign + whole + ([mark] + more + rest) && s == start + more + rest;
    DigitsThere(sign, whole, [mark] + more + rest);
    assert s[|sign + whole|] == mark;
    AfterMark(start, more, rest);
  }

  lemma AfterMark(start: string, more: string, rest: string)
    requires AllDigits(more) && (rest != "" ==> rest[0] !in "0123456789")
    ensures RunEnd(Digit, start + more + rest, |start|) == |start + more|
  {
    var s := start + more + rest;
    DigitsAre(more);
    if rest != "" {
      DigitIs(rest[0]);
      assert s[|start + more|] == rest[0];
    }
    forall i | |start| <= i < |start + more| ensures IsDigit(s[i]) {
      assert s[i] == more[i - |start|] && more[i - |start|] in more;
    }
    DigitsEnd(s, |start|, |start + more|);
  }

  lemma Regroup(a: string, b: string, c: string, d: string)
    ensures a + b + c + d == a + (b + (c + d))
  {
  }

  /** A number with a fraction is read up to the first character that is no digit, an exponent after it
      left alone, when it is in the range of a double; otherwise it raises. */
  lemma FractionParses(sign: string, whole: string, frac: string, rest: string)
    requires Sign(sign) && AllDigits(whole) && AllDigits(frac)
    requires rest != "" ==> rest[0] !in "0123456789" && !IsWhite(rest[0])
    ensures (forall ch :: ch in whole + frac ==> IsDigit(ch)) && Power(10, |frac|) > 0
    ensures var text := sign + whole + "." + frac;
      Parse(text + rest, 0) ==
        if InRange(Digits(whole + frac), Power(10, |frac|)) then (Returned(Double(text)), |text|)
        else (Threw(OutOfRange), 0)
  {
    var t := whole + (['.'] + frac);
    FitsFraction(whole, frac, t);
    MarkedGives(sign, whole, '.', frac, rest, t);
    Regroup(sign, whole, ".", frac);
  }

  /** So is a whole number with an exponent. */
  lemma ExponentParses(sign: string, whole: string, exp: string, rest: string)
    requires Sign(sign) && AllDigits(whole) && AllDigits(exp)
    requires rest != "" ==> rest[0] !in "0123456789" && !IsWhite(rest[0])
    ensures (forall ch :: ch in whole ==> IsDigit(ch)) && (forall ch :: ch in exp ==> IsDigit(ch))
    ensures var text := sign + whole + "e" + exp;
      Parse(text + rest, 0) ==
        if Digits(whole) * Power(10, Digits(exp)) < Power(2, 1024) - Power(2, 970) then (Returned(Double(text)), |text|)
        else (Threw(OutOfRange), 0)
  {
    var t := whole + (['e'] + exp);
    FitsExponent(whole, exp, t);
    MarkedGives(sign, whole, 'e', exp, rest, t);
    Regroup(sign, whole, "e", exp);
  }
}
