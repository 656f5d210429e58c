/**
 * The pattern registry: the closed set of PII categories, their names, and for
 * each category a matcher that finds the longest match starting at a position.
 * A whole token belongs to a category when that category's match starting at
 * its first character covers all of it.
 */
module Patterns {
  import opened Chars

  datatype Option<T> = None | Some(value: T)

  datatype Category = SSN | PHONE | DATE | EMAIL | VIN

  /** The registered categories, in the order the engine reports them. */
  const Registry: seq<Category> := [SSN, PHONE, DATE, EMAIL, VIN]

  /** The identifier under which a category is reported and requested. */
  function Name(c: Category): string {
    match c
    case SSN => "SSN"
    case PHONE => "PHONE"
    case DATE => "DATE"
    case EMAIL => "EMAIL"
    case VIN => "VIN"
  }

  /** The category with the given identifier, if one is registered. */
  function ParseCategory(name: string): (r: Option<Category>)
    ensures r.Some? ==> Name(r.value) == name
  {
    if name == "SSN" then Some(SSN)
    else if name == "PHONE" then Some(PHONE)
    else if name == "DATE" then Some(DATE)
    else if name == "EMAIL" then Some(EMAIL)
    else if name == "VIN" then Some(VIN)
    else None
  }

  lemma RegistryComplete(c: Category)
    ensures c in Registry
    ensures ParseCategory(Name(c)) == Some(c)
  {
  }

  /** A separator between SSN or phone digit groups: '-' or ' '. */
  predicate IsGap(ch: char) {
    ch == '-' || ch == ' '
  }

  /** A separator between the fields of a date: '/', '.' or ' '. */
  predicate IsDateSep(ch: char) {
    ch == '/' || ch == '.' || ch == ' '
  }

  /** Steps over one optional group separator at position `p`. */
  function SkipGap(s: string, p: nat): (q: nat)
    requires p <= |s|
    ensures q <= |s|
    ensures q == p || (q == p + 1 && IsGap(s[p]))
  {
    if p < |s| && IsGap(s[p]) then p + 1 else p
  }

  /** SSN: three, two and four digits; each of the two gaps is '-', ' ' or nothing. */
  function SsnEnd(s: string, i: nat): (r: Option<nat>)
    requires i <= |s|
    ensures r.Some? ==> i < r.value <= |s|
  {
    if !HasRun(Digit, s, i, 3) then None
    else
      var b := SkipGap(s, i + 3);
      if !HasRun(Digit, s, b, 2) then None
      else
        var d := SkipGap(s, b + 2);
        if !HasRun(Digit, s, d, 4) then None
        else Some(d + 4)
  }

  /** The end of a phone area code at `i`: "ddd" or "(ddd)". */
  function AreaCodeEnd(s: string, i: nat): (r: Option<nat>)
    requires i <= |s|
    ensures r.Some? ==> i < r.value <= |s|
  {
    if i < |s| && s[i] == '(' then
      if HasRun(Digit, s, i + 1, 3) && i + 4 < |s| && s[i + 4] == ')' then Some(i + 5) else None
    else if HasRun(Digit, s, i, 3) then Some(i + 3)
    else None
  }

  /** PHONE: an area code, then three and four digits; each gap is '-', ' ' or nothing. */
  function PhoneEnd(s: string, i: nat): (r: Option<nat>)
    requires i <= |s|
    ensures r.Some? ==> i < r.value <= |s|
  {
    match AreaCodeEnd(s, i)
    case None => None
    case Some(a) =>
      var b := SkipGap(s, a);
      if !HasRun(Digit, s, b, 3) then None
      else
        var c := SkipGap(s, b + 3);
        if !HasRun(Digit, s, c, 4) then None
        else Some(c + 4)
  }

  /** The position after a 1- or 2-digit date field at `p` and the separator that follows it. */
  function DateFieldEnd(s: string, p: nat): (r: Option<nat>)
    requires p <= |s|
    ensures r.Some? ==> p + 2 <= r.value <= p + 3 && r.value <= |s|
  {
    var e := RunEnd(Digit, s, p);
    if e == p || e > p + 2 || e >= |s| || !IsDateSep(s[e]) then None else Some(e + 1)
  }

  /** DATE: month and day of 1 or 2 digits, each followed by '/', '.' or ' ', then a 4- or 2-digit year. */
  function DateEnd(s: string, i: nat): (r: Option<nat>)
    requires i <= |s|
    ensures r.Some? ==> i < r.value <= |s|
  {
    match DateFieldEnd(s, i)
    case None => None
    case Some(m) =>
      match DateFieldEnd(s, m)
      case None => None
      case Some(d) =>
        if HasRun(Digit, s, d, 4) then Some(d + 4)
        else if HasRun(Digit, s, d, 2) then Some(d + 2)
        else None
  }

  /**
   * The end of the longest domain at `a`: labels of letters, digits and '-',
   * separated by single dots, the last of them a top-level label of at least
   * two letters.
   */
  function DomainEnd(s: string, a: nat): (r: Option<nat>)
    requires a <= |s|
    ensures r.Some? ==> a + 4 <= r.value <= |s|
    decreases |s| - a
  {
    var e := RunEnd(LabelChar, s, a);
    if e == a || e >= |s| || s[e] != '.' then None
    else
      match DomainEnd(s, e + 1)
      case Some(r) => Some(r)
      case None =>
        var f := RunEnd(Letter, s, e + 1);
        if f >= e + 3 then Some(f) else None
  }

  /** EMAIL: a local part free of whitespace and '@', then '@', then a domain. */
  function EmailEnd(s: string, i: nat): (r: Option<nat>)
    requires i <= |s|
    ensures r.Some? ==> i < r.value <= |s|
  {
    var q := RunEnd(LocalChar, s, i);
    if q == i || q >= |s| || s[q] != '@' then None else DomainEnd(s, q + 1)
  }

  /** VIN: seventeen characters of the VIN alphabet. */
  function VinEnd(s: string, i: nat): (r: Option<nat>)
    requires i <= |s|
    ensures r.Some? ==> r.value == i + 17 <= |s|
  {
    if HasRun(VinChar, s, i, 17) then Some(i + 17) else None
  }

  /** The end of the longest match of category `c` in `s` that starts at `i`. */
  function MatchEnd(c: Category, s: string, i: nat): (r: Option<nat>)
    requires i <= |s|
    ensures r.Some? ==> i < r.value <= |s|
  {
    match c
    case SSN => SsnEnd(s, i)
    case PHONE => PhoneEnd(s, i)
    case DATE => DateEnd(s, i)
    case EMAIL => EmailEnd(s, i)
    case VIN => VinEnd(s, i)
  }

  /** The whole token `t` has the shape of category `c`. */
  predicate Matches(c: Category, t: string) {
    MatchEnd(c, t, 0) == Some(|t|)
  }

  // ---- A match found inside a text is a whole token of the category, and the longest one ----
  // The lemmas below compare a parse of `s` at `i` with a parse of a window `t` of `s` that starts at `i`.

  lemma SsnInWindow(s: string, t: string, i: nat)
    requires Window(t, s, i)
    ensures SsnEnd(s, i) == Some(i + |t|) <==> SsnEnd(t, 0) == Some(|t|)
  {
    HasRunInWindow(Digit, s, t, i, 0, 3);
    if HasRun(Digit, s, i, 3) && 3 <= |t| {
      var b := SkipGap(s, i + 3);
      var bt := SkipGap(t, 3);
      if 3 < |t| { assert t[3] == s[i + 3]; }
      if bt <= |t| { HasRunInWindow(Digit, s, t, i, bt, 2); }
      if b < i + |t| { assert bt == b - i; }
      if HasRun(Digit, s, b, 2) && b + 2 <= i + |t| {
        var d := SkipGap(s, b + 2);
        var dt := SkipGap(t, b + 2 - i);
        if b + 2 < i + |t| { assert t[b + 2 - i] == s[b + 2]; }
        HasRunInWindow(Digit, s, t, i, dt, 4);
        if d < i + |t| { assert dt == d - i; }
      }
    }
  }

  lemma AreaCodeInWindow(s: string, t: string, i: nat)
    requires Window(t, s, i)
    ensures AreaCodeEnd(s, i).Some? && AreaCodeEnd(s, i).value <= i + |t| ==> AreaCodeEnd(t, 0) == Some(AreaCodeEnd(s, i).value - i)
    ensures AreaCodeEnd(t, 0).Some? ==> AreaCodeEnd(s, i) == Some(AreaCodeEnd(t, 0).value + i)
  {
    if 0 < |t| {
      assert t[0] == s[i];
      HasRunInWindow(Digit, s, t, i, 1, 3);
    }
    if 4 < |t| { assert t[4] == s[i + 4]; }
    HasRunInWindow(Digit, s, t, i, 0, 3);
  }

  lemma PhoneInWindow(s: string, t: string, i: nat)
    requires Window(t, s, i)
    ensures PhoneEnd(s, i) == Some(i + |t|) <==> PhoneEnd(t, 0) == Some(|t|)
  {
    var k := i + |t|;
    AreaCodeInWindow(s, t, i);
    match AreaCodeEnd(s, i)
    case None =>
    case Some(a) =>
      if a <= k {
        var b := SkipGap(s, a);
        var bt := SkipGap(t, a - i);
        if a < k { assert t[a - i] == s[a]; }
        HasRunInWindow(Digit, s, t, i, bt, 3);
        if b < k { assert bt == b - i; }
        if HasRun(Digit, s, b, 3) && b + 3 <= k {
          var c := SkipGap(s, b + 3);
          var ct := SkipGap(t, b + 3 - i);
          if b + 3 < k { assert t[b + 3 - i] == s[b + 3]; }
          HasRunInWindow(Digit, s, t, i, ct, 4);
          if c < k { assert ct == c - i; }
        }
      }
  }

  lemma DateFieldInWindow(s: string, t: string, i: nat, p: nat)
    requires Window(t, s, i) && p <= |t|
    ensures DateFieldEnd(s, i + p).Some? && DateFieldEnd(s, i + p).value <= i + |t| ==> DateFieldEnd(t, p) == Some(DateFieldEnd(s, i + p).value - i)
    ensures DateFieldEnd(t, p).Some? ==> DateFieldEnd(s, i + p) == Some(DateFieldEnd(t, p).value + i)
  {
    RunEndInWindow(Digit, s, t, i, p, i + p);
    var e := RunEnd(Digit, s, i + p);
    if e < i + |t| { assert t[e - i] == s[e]; }
  }

  lemma DateSound(s: string, t: string, i: nat)
    requires Window(t, s, i) && DateEnd(s, i) == Some(i + |t|)
    ensures DateEnd(t, 0) == Some(|t|)
  {
    var m := DateFieldEnd(s, i).value;
    DateFieldInWindow(s, t, i, 0);
    var d := DateFieldEnd(s, m).value;
    DateFieldInWindow(s, t, i, m - i);
    assert DateFieldEnd(t, 0) == Some(m - i);
    assert DateFieldEnd(t, m - i) == Some(d - i);
    HasRunInWindow(Digit, s, t, i, d - i, 4);
    HasRunInWindow(Digit, s, t, i, d - i, 2);
  }

  lemma DateLongest(s: string, t: string, i: nat)
    requires Window(t, s, i) && DateEnd(t, 0) == Some(|t|)
    ensures DateEnd(s, i).Some? && i + |t| <= DateEnd(s, i).value
  {
    var mt := DateFieldEnd(t, 0).value;
    DateFieldInWindow(s, t, i, 0);
    assert DateFieldEnd(s, i) == Some(mt + i);
    var dt := DateFieldEnd(t, mt).value;
    DateFieldInWindow(s, t, i, mt);
    assert DateFieldEnd(s, mt + i) == Some(dt + i);
    HasRunInWindow(Digit, s, t, i, dt, 4);
    HasRunInWindow(Digit, s, t, i, dt, 2);
  }

  lemma VinInWindow(s: string, t: string, i: nat)
    requires Window(t, s, i)
    ensures VinEnd(s, i) == Some(i + |t|) <==> VinEnd(t, 0) == Some(|t|)
  {
    HasRunInWindow(VinChar, s, t, i, 0, 17);
  }

  /** A domain always reaches past its first label. */
  lemma {:induction false} DomainEndPastLabel(s: string, a: nat)
    requires a <= |s| && DomainEnd(s, a).Some?
    ensures RunEnd(LabelChar, s, a) < DomainEnd(s, a).value
    decreases |s| - a
  {
    var e := RunEnd(LabelChar, s, a);
    if DomainEnd(s, e + 1).Some? {
      DomainEndPastLabel(s, e + 1);
    }
  }

  /** The shape of a successful domain parse: a label, a dot, then more domain or the top-level label. */
  lemma DomainEndShape(s: string, a: nat)
    requires a <= |s| && DomainEnd(s, a).Some?
    ensures var e := RunEnd(LabelChar, s, a);
      && a < e < |s| && s[e] == '.'
      && (DomainEnd(s, e + 1).Some? ==> DomainEnd(s, a) == DomainEnd(s, e + 1))
      && (DomainEnd(s, e + 1).None? ==> DomainEnd(s, a) == Some(RunEnd(Letter, s, e + 1)) && RunEnd(Letter, s, e + 1) >= e + 3)
  {
  }

  /** One step of the domain parse: a label, a dot, and the top-level label at `b`. */
  lemma DomainEndAtTld(s: string, a: nat, e: nat, b: nat)
    requires a < e < |s| && b == e + 1 && RunEnd(LabelChar, s, a) == e && s[e] == '.'
    requires DomainEnd(s, b).None? && RunEnd(Letter, s, b) >= e + 3
    ensures DomainEnd(s, a) == Some(RunEnd(Letter, s, b))
  {
  }

  /** One step of the domain parse: a label, a dot, and a longer domain at `b`. */
  lemma DomainEndAtLabel(s: string, a: nat, e: nat, b: nat)
    requires a < e < |s| && b == e + 1 && RunEnd(LabelChar, s, a) == e && s[e] == '.'
    requires DomainEnd(s, b).Some?
    ensures DomainEnd(s, a) == DomainEnd(s, b)
  {
  }

  /** A label of `s` that starts inside a window, seen from the window. */
  lemma LabelInWindow(s: string, t: string, i: nat, a: nat, e: nat)
    requires Window(t, s, i) && i <= a <= i + |t| && e == RunEnd(LabelChar, s, a)
    ensures e < i + |t| <==> RunEnd(LabelChar, t, a - i) < |t|
    ensures e < i + |t| ==> RunEnd(LabelChar, t, a - i) == e - i && t[e - i] == s[e]
  {
    RunEndInWindow(LabelChar, s, t, i, a - i, a);
  }

  lemma {:induction false} DomainGrows(s: string, t: string, i: nat, a: nat)
    requires Window(t, s, i) && i <= a <= i + |t| && DomainEnd(t, a - i).Some?
    ensures DomainEnd(s, a).Some? && DomainEnd(t, a - i).value + i <= DomainEnd(s, a).value
    decreases |t| - (a - i), 1
  {
    DomainEndShape(t, a - i);
    var e := RunEnd(LabelChar, s, a);
    LabelInWindow(s, t, i, a, e);
    var bt := e - i + 1;
    if DomainEnd(t, bt).Some? {
      DomainGrowsAtLabel(s, t, i, a, e);
    } else {
      DomainGrowsAtTld(s, t, i, a, e);
    }
  }

  /** A step of `DomainGrows`: the domain of `t` goes on after the label that ends at `e`. */
  lemma {:induction false} DomainGrowsAtLabel(s: string, t: string, i: nat, a: nat, e: nat)
    requires Window(t, s, i) && i <= a < e < i + |t| && e == RunEnd(LabelChar, s, a) && s[e] == '.'
    requires RunEnd(LabelChar, t, a - i) == e - i && t[e - i] == '.'
    requires DomainEnd(t, e + 1 - i).Some?
    ensures DomainEnd(s, a).Some? && DomainEnd(t, a - i).value + i <= DomainEnd(s, a).value
    decreases |t| - (a - i), 0
  {
    var b := e + 1;
    assert b - i == e - i + 1;
    DomainGrows(s, t, i, b);
    DomainEndAtLabel(t, a - i, e - i, b - i);
    DomainEndAtLabel(s, a, e, b);
  }

  /** The last step of `DomainGrows`: the domain of `t` ends with the top-level label after `e`. */
  lemma DomainGrowsAtTld(s: string, t: string, i: nat, a: nat, e: nat)
    requires Window(t, s, i) && i <= a < e < i + |t| && e == RunEnd(LabelChar, s, a) && s[e] == '.'
    requires RunEnd(LabelChar, t, a - i) == e - i && t[e - i] == '.'
    requires DomainEnd(t, e + 1 - i).None? && RunEnd(Letter, t, e + 1 - i) >= e - i + 3
    ensures DomainEnd(s, a).Some? && DomainEnd(t, a - i).value + i <= DomainEnd(s, a).value
  {
    var b := e + 1;
    var bt := b - i;
    assert bt == e - i + 1;
    DomainEndAtTld(t, a - i, e - i, bt);
    RunEndInWindow(Letter, s, t, i, bt, b);
    var f := RunEnd(Letter, s, b);
    var ft := RunEnd(Letter, t, bt);
    assert ft + i <= f;
    assert DomainEnd(t, a - i) == Some(ft);
    if DomainEnd(s, b).Some? {
      DomainEndAtLabel(s, a, e, b);
      LetterRunWithinLabelRun(s, b);
      DomainEndPastLabel(s, b);
      var v := DomainEnd(s, b).value;
      assert DomainEnd(s, a) == Some(v);
    } else {
      DomainEndAtTld(s, a, e, b);
      assert DomainEnd(s, a) == Some(f);
    }
  }

  lemma {:induction false} DomainSound(s: string, t: string, i: nat, a: nat)
    requires Window(t, s, i) && i <= a <= i + |t| && DomainEnd(s, a) == Some(i + |t|)
    ensures DomainEnd(t, a - i) == Some(|t|)
    decreases |s| - a, 1
  {
    var e := RunEnd(LabelChar, s, a);
    DomainEndPastLabel(s, a);
    DomainEndShape(s, a);
    LabelInWindow(s, t, i, a, e);
    if DomainEnd(s, e + 1).Some? {
      DomainSoundAtLabel(s, t, i, a, e);
    } else {
      DomainSoundAtTld(s, t, i, a, e);
    }
  }

  /** A step of `DomainSound`: the domain of `s` goes on after the label that ends at `e`. */
  lemma {:induction false} DomainSoundAtLabel(s: string, t: string, i: nat, a: nat, e: nat)
    requires Window(t, s, i) && i <= a < e < i + |t| && e == RunEnd(LabelChar, s, a) && s[e] == '.'
    requires RunEnd(LabelChar, t, a - i) == e - i && t[e - i] == '.'
    requires DomainEnd(s, e + 1) == Some(i + |t|)
    ensures DomainEnd(t, a - i) == Some(|t|)
    decreases |s| - a, 0
  {
    DomainSound(s, t, i, e + 1);
    DomainEndAtLabel(t, a - i, e - i, e + 1 - i);
  }

  /** The last step of `DomainSound`: the domain of `s` ends with the top-level label after `e`. */
  lemma DomainSoundAtTld(s: string, t: string, i: nat, a: nat, e: nat)
    requires Window(t, s, i) && i <= a < e < i + |t| && e == RunEnd(LabelChar, s, a) && s[e] == '.'
    requires RunEnd(LabelChar, t, a - i) == e - i && t[e - i] == '.'
    requires DomainEnd(s, e + 1).None? && RunEnd(Letter, s, e + 1) == i + |t| && i + |t| >= e + 3
    ensures DomainEnd(t, a - i) == Some(|t|)
  {
    var b := e + 1;
    var bt := b - i;
    assert bt == e - i + 1;
    RunEndInWindow(Letter, s, t, i, bt, b);
    DomainShrinks(s, t, i, b);
    DomainEndAtTld(t, a - i, e - i, bt);
  }

  /** Where `s` has no domain, neither has a window of it. */
  lemma DomainShrinks(s: string, t: string, i: nat, b: nat)
    requires Window(t, s, i) && i <= b <= i + |t| && DomainEnd(s, b).None?
    ensures DomainEnd(t, b - i).None?
  {
    if DomainEnd(t, b - i).Some? {
      DomainGrows(s, t, i, b);
      assert false;
    }
  }

  lemma EmailSound(s: string, t: string, i: nat)
    requires Window(t, s, i) && EmailEnd(s, i) == Some(i + |t|)
    ensures EmailEnd(t, 0) == Some(|t|)
  {
    RunEndInWindow(LocalChar, s, t, i, 0, i);
    var q := RunEnd(LocalChar, s, i);
    assert t[q - i] == s[q];
    DomainSound(s, t, i, q + 1);
  }

  lemma EmailLongest(s: string, t: string, i: nat)
    requires Window(t, s, i) && EmailEnd(t, 0) == Some(|t|)
    ensures EmailEnd(s, i).Some? && i + |t| <= EmailEnd(s, i).value
  {
    RunEndInWindow(LocalChar, s, t, i, 0, i);
    var q := RunEnd(LocalChar, s, i);
    assert t[q - i] == s[q];
    DomainGrows(s, t, i, q + 1);
  }

  /** The text that the substring search finds at `i` is itself a token of category `c`. */
  lemma MatchIsToken(c: Category, s: string, i: nat)
    requires i <= |s| && MatchEnd(c, s, i).Some?
    ensures Matches(c, s[i..MatchEnd(c, s, i).value])
  {
    var j := MatchEnd(c, s, i).value;
    var t := s[i..j];
    SliceIsWindow(s, i, j);
    match c
    case SSN => SsnInWindow(s, t, i);
    case PHONE => PhoneInWindow(s, t, i);
    case DATE => DateSound(s, t, i);
    case EMAIL => EmailSound(s, t, i);
    case VIN => VinInWindow(s, t, i);
  }

  /** Every token of category `c` that starts at `i` is found there, and no longer one is missed. */
  lemma MatchIsLongest(c: Category, s: string, i: nat, k: nat)
    requires i <= k <= |s| && Matches(c, s[i..k])
    ensures MatchEnd(c, s, i).Some? && k <= MatchEnd(c, s, i).value
  {
    var t := s[i..k];
    SliceIsWindow(s, i, k);
    match c
    case SSN => SsnInWindow(s, t, i);
    case PHONE => PhoneInWindow(s, t, i);
    case DATE => DateLongest(s, t, i);
    case EMAIL => EmailLongest(s, t, i);
    case VIN => VinInWindow(s, t, i);
  }

  // ---- What a match needs ----

  /** The characters a match of each category can begin with. */
  predicate CanStart(c: Category, ch: char) {
    match c
    case SSN => IsDigit(ch)
    case PHONE => IsDigit(ch) || ch == '('
    case DATE => IsDigit(ch)
    case EMAIL => InClass(ch, LocalChar)
    case VIN => InClass(ch, VinChar)
  }

  /** A match begins inside the text, with a character its category can begin with. */
  lemma MatchStartsRight(c: Category, s: string, p: nat)
    requires p <= |s| && MatchEnd(c, s, p).Some?
    ensures p < |s| && CanStart(c, s[p])
  {
  }

  /** No email address starts before a whitespace character or the end of the text unless an '@' comes first. */
  lemma EmailBlocked(s: string, p: nat, w: nat)
    requires p <= w <= |s| && (w == |s| || IsSpace(s[w]))
    requires forall m | p <= m < w :: s[m] != '@'
    ensures EmailEnd(s, p) == None
  {
    RunEndIsMaximalRun(LocalChar, s, p);
  }

  /** No VIN starts less than seventeen characters before a character outside the VIN alphabet. */
  lemma VinBlocked(s: string, p: nat, w: nat)
    requires p <= w < |s| && w < p + 17 && !InClass(s[w], VinChar)
    ensures VinEnd(s, p) == None
  {
    RunEndIsMaximalRun(VinChar, s, p);
  }
}
