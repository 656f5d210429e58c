/**
 * A declarative description of the tokens of every category, written by
 * character positions rather than by scanning, and the proof that each
 * pattern accepts a whole token exactly when it has that shape.
 */
module Shapes {
  import opened Chars
  import opened Patterns

  /** An optional group separator of length `g` at position `p` of `t`. */
  predicate GapAt(t: string, p: nat, g: nat) {
    g <= 1 && p + g <= |t| && (g == 1 ==> IsGap(t[p]))
  }

  /** After a digit group that ends at `p`, a gap of the length that `SkipGap` finds. */
  lemma SkipGapAt(t: string, p: nat, g: nat, n: nat)
    requires GapAt(t, p, g) && n > 0 && ClassRun(Digit, t, p + g, n)
    ensures SkipGap(t, p) == p + g
  {
    assert IsDigit(t[p + g]);
  }

  // ---- SSN ----

  /** Three, two and four digits with gaps of length `g` and `h` (0 or 1), and nothing else. */
  predicate SsnLayout(t: string, g: nat, h: nat) {
    && g <= 1 && h <= 1
    && |t| == 9 + g + h
    && ClassRun(Digit, t, 0, 3)
    && GapAt(t, 3, g)
    && ClassRun(Digit, t, 3 + g, 2)
    && GapAt(t, 5 + g, h)
    && ClassRun(Digit, t, 5 + g + h, 4)
  }

  predicate SsnShape(t: string) {
    exists g: nat, h: nat | g <= 1 && h <= 1 :: SsnLayout(t, g, h)
  }

  lemma SsnLayoutMatches(t: string, g: nat, h: nat)
    requires SsnLayout(t, g, h)
    ensures Matches(SSN, t)
  {
    HasRunIsClassRun(Digit, t, 0, 3);
    SkipGapAt(t, 3, g, 2);
    HasRunIsClassRun(Digit, t, 3 + g, 2);
    SkipGapAt(t, 5 + g, h, 4);
    HasRunIsClassRun(Digit, t, 5 + g + h, 4);
  }

  /** A whole token is an SSN exactly when it has the SSN layout. */
  lemma SsnShapeIff(t: string)
    ensures Matches(SSN, t) <==> SsnShape(t)
  {
    if Matches(SSN, t) {
      var b := SkipGap(t, 3);
      var d := SkipGap(t, b + 2);
      HasRunIsClassRun(Digit, t, 0, 3);
      HasRunIsClassRun(Digit, t, b, 2);
      HasRunIsClassRun(Digit, t, d, 4);
      assert SsnLayout(t, b - 3, d - b - 2);
    }
    if SsnShape(t) {
      var g: nat, h: nat :| g <= 1 && h <= 1 && SsnLayout(t, g, h);
      SsnLayoutMatches(t, g, h);
    }
  }

  // ---- PHONE ----

  /** The length of the area code: "(ddd)" or "ddd". */
  function AreaLength(paren: bool): nat {
    if paren then 5 else 3
  }

  predicate AreaLayout(t: string, paren: bool) {
    if paren then |t| >= 5 && t[0] == '(' && ClassRun(Digit, t, 1, 3) && t[4] == ')'
    else ClassRun(Digit, t, 0, 3)
  }

  /** An area code, then three and four digits, with gaps of length `g` and `h` (0 or 1), and nothing else. */
  predicate PhoneLayout(t: string, paren: bool, g: nat, h: nat) {
    var a := AreaLength(paren);
    && g <= 1 && h <= 1
    && |t| == a + g + h + 7
    && AreaLayout(t, paren)
    && GapAt(t, a, g)
    && ClassRun(Digit, t, a + g, 3)
    && GapAt(t, a + g + 3, h)
    && ClassRun(Digit, t, a + g + 3 + h, 4)
  }

  predicate PhoneShape(t: string) {
    exists paren: bool, g: nat, h: nat | g <= 1 && h <= 1 :: PhoneLayout(t, paren, g, h)
  }

  lemma AreaLayoutParses(t: string, paren: bool)
    requires |t| >= AreaLength(paren) && AreaLayout(t, paren)
    ensures AreaCodeEnd(t, 0) == Some(AreaLength(paren))
  {
    if paren {
      HasRunIsClassRun(Digit, t, 1, 3);
    } else {
      assert IsDigit(t[0]);
      HasRunIsClassRun(Digit, t, 0, 3);
    }
  }

  lemma AreaCodeHasLayout(t: string)
    requires AreaCodeEnd(t, 0).Some?
    ensures var a := AreaCodeEnd(t, 0).value;
      a == AreaLength(a == 5) && AreaLayout(t, a == 5)
  {
    HasRunIsClassRun(Digit, t, 0, 3);
    if 0 < |t| {
      HasRunIsClassRun(Digit, t, 1, 3);
    }
  }

  lemma PhoneLayoutMatches(t: string, paren: bool, g: nat, h: nat)
    requires PhoneLayout(t, paren, g, h)
    ensures Matches(PHONE, t)
  {
    var a := AreaLength(paren);
    AreaLayoutParses(t, paren);
    SkipGapAt(t, a, g, 3);
    HasRunIsClassRun(Digit, t, a + g, 3);
    SkipGapAt(t, a + g + 3, h, 4);
    HasRunIsClassRun(Digit, t, a + g + 3 + h, 4);
  }

  /** A whole token is a phone number exactly when it has the phone layout. */
  lemma PhoneShapeIff(t: string)
    ensures Matches(PHONE, t) <==> PhoneShape(t)
  {
    if Matches(PHONE, t) {
      AreaCodeHasLayout(t);
      var a := AreaCodeEnd(t, 0).value;
      var b := SkipGap(t, a);
      var c := SkipGap(t, b + 3);
      HasRunIsClassRun(Digit, t, b, 3);
      HasRunIsClassRun(Digit, t, c, 4);
      assert PhoneLayout(t, a == 5, b - a, c - b - 3);
    }
    if PhoneShape(t) {
      var paren: bool, g: nat, h: nat :| g <= 1 && h <= 1 && PhoneLayout(t, paren, g, h);
      PhoneLayoutMatches(t, paren, g, h);
    }
  }

  // ---- DATE ----

  /**
   * Month and day of `m` and `d` digits (1 or 2), each followed by '/', '.' or ' ',
   * then a year of `y` digits (2 or 4), and nothing else.
   */
  predicate DateLayout(t: string, m: nat, d: nat, y: nat) {
    && 1 <= m <= 2 && 1 <= d <= 2 && (y == 2 || y == 4)
    && |t| == m + d + y + 2
    && ClassRun(Digit, t, 0, m) && IsDateSep(t[m])
    && ClassRun(Digit, t, m + 1, d) && IsDateSep(t[m + 1 + d])
    && ClassRun(Digit, t, m + d + 2, y)
  }

  predicate DateShape(t: string) {
    exists m: nat, d: nat, y: nat | m <= 2 && d <= 2 && y <= 4 :: DateLayout(t, m, d, y)
  }

  /** A date field of `n` digits and its separator, as `DateFieldEnd` reads it. */
  lemma DateFieldParses(t: string, p: nat, n: nat)
    requires 1 <= n <= 2 && ClassRun(Digit, t, p, n) && p + n < |t| && IsDateSep(t[p + n])
    ensures DateFieldEnd(t, p) == Some(p + n + 1)
  {
    ClassRunEnd(Digit, t, p, n);
  }

  lemma DateFieldHasLayout(t: string, p: nat)
    requires p <= |t| && DateFieldEnd(t, p).Some?
    ensures var n := DateFieldEnd(t, p).value - p - 1;
      1 <= n <= 2 && ClassRun(Digit, t, p, n) && IsDateSep(t[p + n])
  {
    RunEndIsMaximalRun(Digit, t, p);
  }

  lemma DateLayoutMatches(t: string, m: nat, d: nat, y: nat)
    requires DateLayout(t, m, d, y)
    ensures Matches(DATE, t)
  {
    DateFieldParses(t, 0, m);
    DateFieldParses(t, m + 1, d);
    HasRunIsClassRun(Digit, t, m + d + 2, y);
    HasRunIsClassRun(Digit, t, m + d + 2, 4);
  }

  /** A whole token is a date exactly when it has the date layout. */
  lemma DateShapeIff(t: string)
    ensures Matches(DATE, t) <==> DateShape(t)
  {
    if Matches(DATE, t) {
      DateFieldHasLayout(t, 0);
      var p := DateFieldEnd(t, 0).value;
      DateFieldHasLayout(t, p);
      var q := DateFieldEnd(t, p).value;
      HasRunIsClassRun(Digit, t, q, 4);
      HasRunIsClassRun(Digit, t, q, 2);
      var y := if HasRun(Digit, t, q, 4) then 4 else 2;
      assert DateLayout(t, p - 1, q - p - 1, y);
    }
    if DateShape(t) {
      var m: nat, d: nat, y: nat :| m <= 2 && d <= 2 && y <= 4 && DateLayout(t, m, d, y);
      DateLayoutMatches(t, m, d, y);
    }
  }

  // ---- VIN ----

  /** Seventeen characters of the VIN alphabet, and nothing else. */
  predicate VinShape(t: string) {
    |t| == 17 && ClassRun(VinChar, t, 0, 17)
  }

  /** A whole token is a VIN exactly when it is seventeen VIN characters. */
  lemma VinShapeIff(t: string)
    ensures Matches(VIN, t) <==> VinShape(t)
  {
    HasRunIsClassRun(VinChar, t, 0, 17);
  }

  // ---- EMAIL ----

  /** From `p` to the end, `t` is a top-level label: at least two letters. */
  predicate TldAt(t: string, p: nat) {
    p + 2 <= |t| && ClassRun(Letter, t, p, |t| - p)
  }

  /**
   * From `a` to the end, `t` is a domain: a label of letters, digits and '-',
   * a dot, and then either the top-level label or another domain.
   */
  predicate DomainAt(t: string, a: nat)
    decreases |t| - a
  {
    exists j | a < j < |t| ::
      t[j] == '.' && ClassRun(LabelChar, t, a, j - a) && (TldAt(t, j + 1) || DomainAt(t, j + 1))
  }

  /** A local part free of whitespace and '@', an '@', and a domain, and nothing else. */
  predicate EmailShape(t: string) {
    exists q | 0 < q < |t| :: t[q] == '@' && ClassRun(LocalChar, t, 0, q) && DomainAt(t, q + 1)
  }

  /** The domain parse reaches the end of `t` exactly when the rest of `t` is a domain. */
  lemma DomainAtIff(t: string, a: nat)
    requires a <= |t|
    ensures DomainEnd(t, a) == Some(|t|) <==> DomainAt(t, a)
  {
    if DomainEnd(t, a) == Some(|t|) {
      DomainEndIsDomain(t, a);
    }
    if DomainAt(t, a) {
      DomainIsDomainEnd(t, a);
    }
  }

  lemma {:induction false} DomainEndIsDomain(t: string, a: nat)
    requires a <= |t| && DomainEnd(t, a) == Some(|t|)
    ensures DomainAt(t, a)
    decreases |t| - a
  {
    var e := RunEnd(LabelChar, t, a);
    DomainEndShape(t, a);
    HasRunIsClassRun(LabelChar, t, a, e - a);
    var b := e + 1;
    if DomainEnd(t, b).Some? {
      DomainEndIsDomain(t, b);
      DomainAtStep(t, a, e);
    } else {
      assert RunEnd(Letter, t, b) == |t|;
      HasRunIsClassRun(Letter, t, b, |t| - b);
      assert TldAt(t, b);
      DomainAtStep(t, a, e);
    }
  }

  /** Introduces `DomainAt` from its one step. */
  lemma DomainAtStep(t: string, a: nat, j: nat)
    requires a < j < |t| && t[j] == '.' && ClassRun(LabelChar, t, a, j - a) && (TldAt(t, j + 1) || DomainAt(t, j + 1))
    ensures DomainAt(t, a)
  {
  }

  lemma {:induction false} DomainIsDomainEnd(t: string, a: nat)
    requires a <= |t| && DomainAt(t, a)
    ensures DomainEnd(t, a) == Some(|t|)
    decreases |t| - a
  {
    var j := DomainAtDot(t, a);
    if DomainAt(t, j + 1) {
      DomainIsDomainEnd(t, j + 1);
      DomainEndAtLabel(t, a, j, j + 1);
    } else {
      TldIsDomainEnd(t, a, j);
    }
  }

  /** The dot that ends the first label of a domain. */
  lemma DomainAtDot(t: string, a: nat) returns (j: nat)
    requires a <= |t| && DomainAt(t, a)
    ensures a < j < |t| && t[j] == '.' && RunEnd(LabelChar, t, a) == j
    ensures TldAt(t, j + 1) || DomainAt(t, j + 1)
  {
    j :| a < j < |t| && t[j] == '.' && ClassRun(LabelChar, t, a, j - a) && (TldAt(t, j + 1) || DomainAt(t, j + 1));
    ClassRunEnd(LabelChar, t, a, j - a);
  }

  /** The last step of a domain: after the dot at `j` only the top-level label is left. */
  lemma TldIsDomainEnd(t: string, a: nat, j: nat)
    requires a < j < |t| && t[j] == '.' && RunEnd(LabelChar, t, a) == j && TldAt(t, j + 1)
    ensures DomainEnd(t, a) == Some(|t|)
  {
    ClassRunEnd(Letter, t, j + 1, |t| - (j + 1));
    LetterRunWithinLabelRun(t, j + 1);
    assert DomainEnd(t, j + 1) == None;
    DomainEndAtTld(t, a, j, j + 1);
  }

  /** A whole token is an email address exactly when it has the email layout. */
  lemma EmailShapeIff(t: string)
    ensures Matches(EMAIL, t) <==> EmailShape(t)
  {
    var q := RunEnd(LocalChar, t, 0);
    if Matches(EMAIL, t) {
      HasRunIsClassRun(LocalChar, t, 0, q);
      DomainAtIff(t, q + 1);
      assert t[q] == '@' && ClassRun(LocalChar, t, 0, q) && DomainAt(t, q + 1);
    }
    if EmailShape(t) {
      var p :| 0 < p < |t| && t[p] == '@' && ClassRun(LocalChar, t, 0, p) && DomainAt(t, p + 1);
      ClassRunEnd(LocalChar, t, 0, p);
      DomainAtIff(t, p + 1);
    }
  }

  /** An address whose domain is one label and the top-level label is an email address. */
  lemma EmailLayoutMatches(t: string, q: nat, j: nat)
    requires 0 < q && q + 1 < j && j + 3 <= |t| && t[q] == '@' && t[j] == '.'
    requires forall m | 0 <= m < q :: InClass(t[m], LocalChar)
    requires forall m | q + 1 <= m < j :: InClass(t[m], LabelChar)
    requires forall m | j + 1 <= m < |t| :: IsLetter(t[m])
    ensures Matches(EMAIL, t)
  {
    ClassRunEnd(LocalChar, t, 0, q);
    ClassRunEnd(LabelChar, t, q + 1, j - (q + 1));
    TldIsDomainEnd(t, q + 1, j);
  }
}
