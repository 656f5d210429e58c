/** Character classes and maximal runs of them, the building blocks of every PII pattern. */
module Chars {

  /** ASCII whitespace, the part of the `\s` class that the model covers. */
  predicate IsSpace(ch: char) {
    ch == ' ' || ch == '\t' || ch == '\n' || ch == '\r'
  }

  predicate IsDigit(ch: char) {
    '0' <= ch <= '9'
  }

  predicate IsLetter(ch: char) {
    'A' <= ch <= 'Z' || 'a' <= ch <= 'z'
  }

  /** The character classes the patterns are made of. */
  datatype CharClass =
    | Digit       // 0-9
    | VinChar     // 0-9 and A-Z without I, O, Q
    | Letter      // A-Z, a-z
    | LabelChar   // a domain label character: letter, digit or '-'
    | LocalChar   // an email local-part character: neither whitespace nor '@'

  predicate InClass(ch: char, k: CharClass) {
    match k
    case Digit => IsDigit(ch)
    case VinChar => IsDigit(ch) || ('A' <= ch <= 'Z' && ch != 'I' && ch != 'O' && ch != 'Q')
    case Letter => IsLetter(ch)
    case LabelChar => IsLetter(ch) || IsDigit(ch) || ch == '-'
    case LocalChar => !IsSpace(ch) && ch != '@'
  }

  /** The end of the maximal run of class-`k` characters of `s` that starts at `p`. */
  function RunEnd(k: CharClass, s: string, p: nat): (q: nat)
    requires p <= |s|
    ensures p <= q <= |s|
    decreases |s| - p
  {
    if p < |s| && InClass(s[p], k) then RunEnd(k, s, p + 1) else p
  }

  /** The run is made of class-`k` characters and stops at the first one that is not. */
  lemma {:induction false} RunEndIsMaximalRun(k: CharClass, s: string, p: nat)
    requires p <= |s|
    ensures forall m :: p <= m < RunEnd(k, s, p) ==> InClass(s[m], k)
    ensures RunEnd(k, s, p) < |s| ==> !InClass(s[RunEnd(k, s, p)], k)
    decreases |s| - p
  {
    if p < |s| && InClass(s[p], k) {
      RunEndIsMaximalRun(k, s, p + 1);
    }
  }

  /** `s` holds at least `n` characters of class `k` from position `p` on. */
  predicate HasRun(k: CharClass, s: string, p: nat, n: nat) {
    p <= |s| && RunEnd(k, s, p) >= p + n
  }

  /** The run end is the first position at or after `p` that is not of class `k`. */
  lemma RunEndIsFirstMiss(k: CharClass, s: string, p: nat, q: nat)
    requires p <= q <= |s|
    requires forall m :: p <= m < q ==> InClass(s[m], k)
    requires q == |s| || !InClass(s[q], k)
    ensures RunEnd(k, s, p) == q
  {
    RunEndIsMaximalRun(k, s, p);
  }

  /** `t` is the stretch of `s` that starts at position `i`. */
  predicate Window(t: string, s: string, i: nat) {
    i + |t| <= |s| && forall m | 0 <= m < |t| :: t[m] == s[i + m]
  }

  lemma SliceIsWindow(s: string, i: nat, j: nat)
    requires i <= j <= |s|
    ensures Window(s[i..j], s, i)
  {
  }

  /** Where a run ends in a window: the run of `s` from `q`, cut at the window's end. `p` is `q` measured in `t`. */
  lemma RunEndInWindow(k: CharClass, s: string, t: string, i: nat, p: nat, q: nat)
    requires Window(t, s, i) && p <= |t| && q == i + p
    ensures RunEnd(k, s, q) < i + |t| ==> RunEnd(k, t, p) == RunEnd(k, s, q) - i
    ensures RunEnd(k, s, q) >= i + |t| ==> RunEnd(k, t, p) == |t|
  {
    var full := RunEnd(k, s, q);
    var cut := if full < i + |t| then full else i + |t|;
    RunEndIsMaximalRun(k, s, q);
    RunEndIsFirstMiss(k, t, p, cut - i);
  }

  /** Skipping a stretch of class-`k` characters does not change where the run ends. */
  lemma RunEndSkip(k: CharClass, s: string, p: nat, q: nat)
    requires p <= q <= |s|
    requires forall m | p <= m < q :: InClass(s[m], k)
    ensures RunEnd(k, s, p) == RunEnd(k, s, q)
    decreases q - p
  {
    if p < q {
      RunEndSkip(k, s, p + 1, q);
    }
  }

  /** Inside a window, a run of `n` is present exactly when it is present in `s` and fits in the window. */
  lemma HasRunInWindow(k: CharClass, s: string, t: string, i: nat, p: nat, n: nat)
    requires Window(t, s, i) && p <= |t|
    ensures HasRun(k, t, p, n) <==> HasRun(k, s, i + p, n) && p + n <= |t|
  {
    RunEndInWindow(k, s, t, i, p, i + p);
  }

  /** A run of letters never reaches past the run of label characters at the same position. */
  lemma {:induction false} LetterRunWithinLabelRun(s: string, p: nat)
    requires p <= |s|
    ensures RunEnd(Letter, s, p) <= RunEnd(LabelChar, s, p)
    decreases |s| - p
  {
    if p < |s| && IsLetter(s[p]) {
      LetterRunWithinLabelRun(s, p + 1);
    }
  }

  /** The `n` characters of `s` from position `p` on are all of class `k` (a declarative run). */
  predicate ClassRun(k: CharClass, s: string, p: nat, n: nat) {
    p + n <= |s| && forall m | p <= m < p + n :: InClass(s[m], k)
  }

  /** The operational and the declarative reading of a run agree. */
  lemma HasRunIsClassRun(k: CharClass, s: string, p: nat, n: nat)
    requires p <= |s|
    ensures HasRun(k, s, p, n) <==> ClassRun(k, s, p, n)
  {
    RunEndIsMaximalRun(k, s, p);
    if ClassRun(k, s, p, n) {
      RunEndSkip(k, s, p, p + n);
    }
  }

  /** A declarative run of exactly `n`, followed by the end of `s` or another class, is the maximal run. */
  lemma ClassRunEnd(k: CharClass, s: string, p: nat, n: nat)
    requires ClassRun(k, s, p, n) && (p + n == |s| || !InClass(s[p + n], k))
    ensures RunEnd(k, s, p) == p + n
  {
    RunEndIsFirstMiss(k, s, p, p + n);
  }

  /** Inside a block of class-`k` characters that ends at `b`, every run reaches `b`. */
  lemma ClassBlock(k: CharClass, s: string, a: nat, b: nat)
    requires a <= b <= |s|
    requires forall m | a <= m < b :: InClass(s[m], k)
    requires b == |s| || !InClass(s[b], k)
    ensures forall p | a <= p <= b :: RunEnd(k, s, p) == b
  {
    forall p | a <= p <= b ensures RunEnd(k, s, p) == b {
      RunEndIsFirstMiss(k, s, p, b);
    }
  }
}
