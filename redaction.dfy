/**
 * redactString: every eligible category scans the text for its occurrences,
 * the spans found are sorted and merged, and each merged stretch is replaced
 * by the literal placeholder while every other character is kept.
 */
module Redaction {
  import opened Chars
  import opened Patterns
  import opened Spans
  import Classifier

  /** The text that stands in for one redacted stretch. */
  const Placeholder: string := "[REDACTED]"

  // ---- Scanning one category ----

  /**
   * The occurrences of category `c` in `s` from position `i` on, leftmost
   * first, each the longest match at its start; the search resumes where the
   * previous occurrence ends, as a global regular-expression search does.
   */
  function Scan(c: Category, s: string, i: nat): seq<Span>
    requires i <= |s|
    decreases |s| - i
  {
    if i == |s| then []
    else
      match MatchEnd(c, s, i)
      case Some(j) => [Span(i, j)] + Scan(c, s, j)
      case None => Scan(c, s, i + 1)
  }

  /** Every span found lies in the text at or after `i` and holds at least one character. */
  lemma {:induction false} ScanInRange(c: Category, s: string, i: nat)
    requires i <= |s|
    ensures forall sp | sp in Scan(c, s, i) :: i <= sp.start < sp.end <= |s|
    decreases |s| - i
  {
    if i < |s| {
      match MatchEnd(c, s, i)
      case Some(j) => ScanInRange(c, s, j);
      case None => ScanInRange(c, s, i + 1);
    }
  }

  /** Every span found is a whole token of the category, and the longest one at its start. */
  lemma {:induction false} ScanSound(c: Category, s: string, i: nat, sp: Span)
    requires i <= |s| && sp in Scan(c, s, i)
    ensures i <= sp.start < sp.end <= |s| && Matches(c, s[sp.start..sp.end])
    ensures forall k | sp.start <= k <= |s| && Matches(c, s[sp.start..k]) :: k <= sp.end
    decreases |s| - i
  {
    ScanInRange(c, s, i);
    match MatchEnd(c, s, i)
    case Some(j) =>
      if sp == Span(i, j) {
        MatchIsToken(c, s, i);
        forall k | i <= k <= |s| && Matches(c, s[i..k]) ensures k <= j {
          MatchIsLongest(c, s, i, k);
        }
      } else {
        ScanSound(c, s, j, sp);
      }
    case None =>
      ScanSound(c, s, i + 1, sp);
  }

  /** Every occurrence of the category at or after `i` has its first position covered by a span found. */
  lemma {:induction false} ScanComplete(c: Category, s: string, i: nat, a: nat, b: nat)
    requires i <= a <= b <= |s| && Matches(c, s[a..b])
    ensures Covers(Scan(c, s, i), a)
    decreases |s| - i
  {
    match MatchEnd(c, s, i)
    case Some(j) =>
      CoversCons(Span(i, j), Scan(c, s, j), a);
      if j <= a {
        ScanComplete(c, s, j, a, b);
      }
    case None =>
      if i == a {
        MatchIsLongest(c, s, a, b);
        assert false;
      } else {
        ScanComplete(c, s, i + 1, a, b);
      }
  }

  /** Positions where no occurrence starts are stepped over. */
  lemma {:induction false} ScanSkip(c: Category, s: string, i: nat, j: nat)
    requires i <= j <= |s|
    requires forall p | i <= p < j :: MatchEnd(c, s, p) == None
    ensures Scan(c, s, i) == Scan(c, s, j)
    decreases j - i
  {
    if i < j {
      ScanSkip(c, s, i + 1, j);
    }
  }

  /** Positions whose character cannot begin an occurrence are stepped over. */
  lemma ScanPastNoStart(c: Category, s: string, i: nat, j: nat)
    requires i <= j <= |s|
    requires forall p | i <= p < j :: !CanStart(c, s[p])
    ensures Scan(c, s, i) == Scan(c, s, j)
  {
    forall p | i <= p < j ensures MatchEnd(c, s, p) == None {
      if MatchEnd(c, s, p).Some? {
        MatchStartsRight(c, s, p);
      }
    }
    ScanSkip(c, s, i, j);
  }

  // ---- Collecting the spans of the eligible categories ----

  /** Whether category `c` is scanned: all are without a restriction list, else those named in it. */
  predicate Eligible(only: Option<seq<string>>, c: Category) {
    only.None? || Name(c) in only.value
  }

  /** The spans category `c` contributes: its occurrences when it is eligible, none otherwise. */
  function Found(only: Option<seq<string>>, c: Category, s: string): seq<Span> {
    if Eligible(only, c) then Scan(c, s, 0) else []
  }

  /** The spans of every eligible category of `cs`, category after category. */
  function Collect(cs: seq<Category>, only: Option<seq<string>>, s: string): seq<Span> {
    if cs == [] then [] else Found(only, cs[0], s) + Collect(cs[1..], only, s)
  }

  /** Over the registry, the categories contribute in registry order. */
  lemma CollectRegistry(only: Option<seq<string>>, s: string)
    ensures Collect(Registry, only, s)
      == Found(only, SSN, s) + (Found(only, PHONE, s) + (Found(only, DATE, s) + (Found(only, EMAIL, s) + Found(only, VIN, s))))
  {
    assert Registry == [SSN] + [PHONE, DATE, EMAIL, VIN];
    assert [PHONE, DATE, EMAIL, VIN] == [PHONE] + [DATE, EMAIL, VIN];
    assert [DATE, EMAIL, VIN] == [DATE] + [EMAIL, VIN];
    assert [EMAIL, VIN] == [EMAIL] + [VIN];
    assert [VIN] == [VIN] + [];
    CollectCons(SSN, [PHONE, DATE, EMAIL, VIN], only, s);
    CollectCons(PHONE, [DATE, EMAIL, VIN], only, s);
    CollectCons(DATE, [EMAIL, VIN], only, s);
    CollectCons(EMAIL, [VIN], only, s);
    CollectCons(VIN, [], only, s);
    assert Found(only, VIN, s) + [] == Found(only, VIN, s);
  }

  lemma CollectCons(c: Category, cs: seq<Category>, only: Option<seq<string>>, s: string)
    ensures Collect([c] + cs, only, s) == Found(only, c, s) + Collect(cs, only, s)
  {
    assert ([c] + cs)[1..] == cs;
  }

  /** A span is collected exactly when an eligible category of `cs` finds it. */
  lemma {:induction false} CollectMember(cs: seq<Category>, only: Option<seq<string>>, s: string, sp: Span)
    ensures sp in Collect(cs, only, s) <==> exists c | c in cs :: Eligible(only, c) && sp in Scan(c, s, 0)
  {
    if cs != [] {
      CollectMember(cs[1..], only, s, sp);
      assert cs == [cs[0]] + cs[1..];
    }
  }

  /** Two restriction lists that make the same categories eligible collect the same spans. */
  lemma {:induction false} CollectSameEligible(cs: seq<Category>, o1: Option<seq<string>>, o2: Option<seq<string>>, s: string)
    requires forall c :: Eligible(o1, c) == Eligible(o2, c)
    ensures Collect(cs, o1, s) == Collect(cs, o2, s)
  {
    if cs != [] {
      CollectSameEligible(cs[1..], o1, o2, s);
    }
  }

  /** Every span lies inside positions [i, n). */
  predicate Within(spans: seq<Span>, i: nat, n: nat) {
    forall sp | sp in spans :: i <= sp.start && sp.end <= n
  }

  /** The collected spans are non-empty and inside the text. */
  lemma CollectWellFormed(s: string, only: Option<seq<string>>)
    ensures NonEmpty(Collect(Registry, only, s)) && Within(Collect(Registry, only, s), 0, |s|)
  {
    forall sp | sp in Collect(Registry, only, s) ensures sp.start < sp.end <= |s| {
      CollectMember(Registry, only, s, sp);
      var c :| c in Registry && Eligible(only, c) && sp in Scan(c, s, 0);
      ScanInRange(c, s, 0);
    }
  }

  /** Position `p` of the text lies in an occurrence that an eligible category's scan found. */
  predicate Flagged(text: string, only: Option<seq<string>>, p: nat) {
    Covers(Collect(Registry, only, text), p)
  }

  /** A flagged position lies inside a whole token of an eligible category. */
  lemma FlaggedSound(text: string, only: Option<seq<string>>, p: nat)
    requires Flagged(text, only, p)
    ensures exists c, a: nat, b: nat | a <= p < b <= |text| :: Eligible(only, c) && Matches(c, text[a..b])
  {
    var sp :| sp in Collect(Registry, only, text) && sp.start <= p < sp.end;
    CollectMember(Registry, only, text, sp);
    var c :| c in Registry && Eligible(only, c) && sp in Scan(c, text, 0);
    ScanSound(c, text, 0, sp);
  }

  /** The first position of every occurrence of an eligible category is flagged. */
  lemma FlaggedComplete(text: string, only: Option<seq<string>>, c: Category, a: nat, b: nat)
    requires Eligible(only, c) && a <= b <= |text| && Matches(c, text[a..b])
    ensures Flagged(text, only, a)
  {
    ScanComplete(c, text, 0, a, b);
    var sp :| sp in Scan(c, text, 0) && sp.start <= a < sp.end;
    RegistryComplete(c);
    CollectMember(Registry, only, text, sp);
  }

  // ---- Rebuilding the text ----

  /** Behind the first of separated spans, the rest are separated and start after its end. */
  lemma {:induction false} SeparatedTail(spans: seq<Span>)
    requires Separated(spans) && spans != []
    ensures Separated(spans[1..])
    ensures forall sp | sp in spans[1..] :: spans[0].end < sp.start
  {
    if |spans| > 1 {
      SeparatedTail(spans[1..]);
      assert spans[1..][1..] == spans[2..];
      assert spans[1] in spans;
      assert forall sp | sp in spans[1..] :: sp == spans[1] || sp in spans[2..];
    }
  }

  /** Copies the text from `i` on, putting the placeholder in place of each span. */
  function Rebuild(text: string, spans: seq<Span>, i: nat): string
    requires i <= |text| && Separated(spans) && Within(spans, i, |text|)
    decreases |spans|
  {
    if spans == [] then text[i..]
    else
      SeparatedTail(spans);
      assert spans[0] in spans;
      text[i..spans[0].start] + Placeholder + Rebuild(text, spans[1..], spans[0].end)
  }

  /**
   * The reference redaction: the text with each maximal stretch of positions
   * covered by `spans` replaced by one placeholder. `open` says that the
   * position before `i` was covered.
   */
  function Mask(text: string, spans: seq<Span>, i: nat, open: bool): string
    requires i <= |text|
    decreases |text| - i
  {
    if i == |text| then ""
    else if Covers(spans, i) then (if open then "" else Placeholder) + Mask(text, spans, i + 1, true)
    else [text[i]] + Mask(text, spans, i + 1, false)
  }

  /** Uncovered positions are copied as they are. */
  lemma {:induction false} MaskCopies(text: string, spans: seq<Span>, i: nat, j: nat)
    requires i <= j <= |text|
    requires forall p | i <= p < j :: !Covers(spans, p)
    ensures Mask(text, spans, i, false) == text[i..j] + Mask(text, spans, j, false)
    decreases j - i
  {
    if i < j {
      MaskCopies(text, spans, i + 1, j);
      assert [text[i]] + text[i + 1..j] == text[i..j];
    }
  }

  /** Inside a covered stretch nothing more is written. */
  lemma {:induction false} MaskAbsorbs(text: string, spans: seq<Span>, i: nat, j: nat)
    requires i <= j <= |text|
    requires forall p | i <= p < j :: Covers(spans, p)
    ensures Mask(text, spans, i, true) == Mask(text, spans, j, true)
    decreases j - i
  {
    if i < j {
      MaskAbsorbs(text, spans, i + 1, j);
    }
  }

  /** Two span lists that cover the same positions from `i` on give the same reference redaction. */
  lemma {:induction false} MaskSameCover(text: string, a: seq<Span>, b: seq<Span>, i: nat, open: bool)
    requires i <= |text|
    requires forall p | i <= p < |text| :: Covers(a, p) == Covers(b, p)
    ensures Mask(text, a, i, open) == Mask(text, b, i, open)
    decreases |text| - i
  {
    if i < |text| {
      MaskSameCover(text, a, b, i + 1, true);
      MaskSameCover(text, a, b, i + 1, false);
    }
  }

  /** How separated spans, all starting at or after `i`, cover the text around the first of them. */
  lemma FirstSpanCover(spans: seq<Span>, i: nat)
    requires Separated(spans) && spans != [] && forall sp | sp in spans :: i <= sp.start
    ensures forall p: nat | i <= p < spans[0].start :: !Covers(spans, p)
    ensures forall p: nat | spans[0].start <= p < spans[0].end :: Covers(spans, p)
    ensures !Covers(spans, spans[0].end)
    ensures forall p: nat | spans[0].end <= p :: Covers(spans, p) == Covers(spans[1..], p)
  {
    var sp, rest := spans[0], spans[1..];
    SeparatedTail(spans);
    assert spans == [sp] + rest;
    forall p: nat ensures Covers(spans, p) <==> sp.start <= p < sp.end || Covers(rest, p) {
      CoversCons(sp, rest, p);
    }
  }

  /** The reference redaction from `i` copies up to the first span, writes one placeholder and goes on behind it. */
  lemma MaskAtFirstSpan(text: string, spans: seq<Span>, i: nat)
    requires i <= |text| && Separated(spans) && spans != [] && Within(spans, i, |text|)
    ensures Mask(text, spans, i, false)
      == text[i..spans[0].start] + Placeholder + Mask(text, spans[1..], spans[0].end, false)
  {
    var sp := spans[0];
    assert sp in spans;
    FirstSpanCover(spans, i);
    MaskCopies(text, spans, i, sp.start);
    MaskAbsorbs(text, spans, sp.start + 1, sp.end);
    assert Mask(text, spans, sp.end, true) == Mask(text, spans, sp.end, false);
    MaskSameCover(text, spans, spans[1..], sp.end, false);
  }

  /** Rebuilding from separated spans is the reference redaction over those spans. */
  lemma {:induction false} RebuildIsMask(text: string, spans: seq<Span>, i: nat)
    requires i <= |text| && Separated(spans) && Within(spans, i, |text|)
    ensures Rebuild(text, spans, i) == Mask(text, spans, i, false)
    decreases |spans|
  {
    if spans == [] {
      MaskCopies(text, spans, i, |text|);
    } else {
      SeparatedTail(spans);
      assert spans[0] in spans;
      MaskAtFirstSpan(text, spans, i);
      RebuildIsMask(text, spans[1..], spans[0].end);
    }
  }

  // ---- redactString ----

  /** Normalized spans stay inside the text. */
  lemma NormalizeWithin(spans: seq<Span>, n: nat)
    requires NonEmpty(spans) && Within(spans, 0, n)
    ensures Within(Normalize(spans), 0, n)
  {
    NormalizeIsSeparatedCover(spans, 0);
    forall sp | sp in Normalize(spans) ensures sp.end <= n {
      NormalizeIsSeparatedCover(spans, sp.end - 1);
      assert Covers(Normalize(spans), sp.end - 1);
      var x :| x in spans && x.start <= sp.end - 1 < x.end;
    }
  }

  /**
   * redactString(text, only): the text with every occurrence of an eligible
   * category replaced, overlapping or touching occurrences by one placeholder.
   */
  function Redact(text: string, only: Option<seq<string>>): string {
    var found := Collect(Registry, only, text);
    CollectWellFormed(text, only);
    var merged := Normalize(found);
    NormalizeIsSeparatedCover(found, 0);
    NormalizeWithin(found, |text|);
    Rebuild(text, merged, 0)
  }

  /** The redacted text is the reference redaction of the flagged positions. */
  lemma RedactIsMask(text: string, only: Option<seq<string>>)
    ensures Redact(text, only) == Mask(text, Collect(Registry, only, text), 0, false)
  {
    var found := Collect(Registry, only, text);
    CollectWellFormed(text, only);
    NormalizeIsSeparatedCover(found, 0);
    NormalizeWithin(found, |text|);
    RebuildIsMask(text, Normalize(found), 0);
    forall p | 0 <= p < |text| ensures Covers(Normalize(found), p) == Covers(found, p) {
      NormalizeIsSeparatedCover(found, p);
    }
    MaskSameCover(text, Normalize(found), found, 0, false);
  }

  /** Redacting the empty text gives the empty text. */
  lemma RedactEmpty(only: Option<seq<string>>)
    ensures Redact("", only) == ""
  {
    RedactIsMask("", only);
  }

  /** A text none of whose positions is flagged is returned unchanged. */
  lemma RedactUnflagged(text: string, only: Option<seq<string>>)
    requires forall p | 0 <= p < |text| :: !Flagged(text, only, p)
    ensures Redact(text, only) == text
  {
    var found := Collect(Registry, only, text);
    forall p | 0 <= p < |text| ensures !Covers(found, p) {
      assert !Flagged(text, only, p);
    }
    RedactIsMask(text, only);
    MaskCopies(text, found, 0, |text|);
  }

  /** A text that holds no occurrence of an eligible category is returned unchanged. */
  lemma RedactNoPii(text: string, only: Option<seq<string>>)
    requires forall c, a: nat, b: nat | a <= b <= |text| && Eligible(only, c) :: !Matches(c, text[a..b])
    ensures Redact(text, only) == text
  {
    forall p | 0 <= p < |text| ensures !Flagged(text, only, p) {
      if Flagged(text, only, p) {
        FlaggedSound(text, only, p);
      }
    }
    RedactUnflagged(text, only);
  }

  /** Without a restriction list every supported category is scanned. */
  lemma RedactDefaultIsAllSupported(text: string)
    ensures Redact(text, None) == Redact(text, Some(Classifier.SupportedTypes()))
  {
    CollectSameEligible(Registry, None, Some(Classifier.SupportedTypes()), text);
  }

  /** A name in the restriction list that no category carries selects nothing. */
  lemma RedactIgnoresUnknown(text: string, names: seq<string>, n: string)
    requires ParseCategory(n) == None
    ensures Redact(text, Some(names + [n])) == Redact(text, Some(names))
  {
    forall c ensures Eligible(Some(names + [n]), c) == Eligible(Some(names), c) {
      RegistryComplete(c);
    }
    CollectSameEligible(Registry, Some(names + [n]), Some(names), text);
  }

  /** An empty restriction list scans no category, so the text is kept as it is. */
  lemma RedactNoneSelected(text: string)
    ensures Redact(text, Some([])) == text
  {
    RedactNoPii(text, Some([]));
  }
}
