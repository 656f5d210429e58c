/**
 * Match spans and the interval merge that turns the matches of all categories
 * into one ordered list of disjoint, non-touching stretches to redact.
 */
module Spans {

  /** The half-open stretch [start, end) of a text. */
  datatype Span = Span(start: nat, end: nat)

  /** Position `p` lies inside one of the spans. */
  predicate Covers(spans: seq<Span>, p: nat) {
    exists sp | sp in spans :: sp.start <= p < sp.end
  }

  /** Every span holds at least one character. */
  predicate NonEmpty(spans: seq<Span>) {
    forall sp | sp in spans :: sp.start < sp.end
  }

  /** Each span starts no earlier than the one before it. */
  predicate SortedByStart(spans: seq<Span>) {
    forall k | 0 <= k < |spans| - 1 :: spans[k].start <= spans[k + 1].start
  }

  /** Covering by a span followed by more spans. */
  lemma CoversCons(x: Span, spans: seq<Span>, p: nat)
    ensures Covers([x] + spans, p) <==> x.start <= p < x.end || Covers(spans, p)
  {
    if Covers([x] + spans, p) {
      var sp :| sp in [x] + spans && sp.start <= p < sp.end;
      assert sp == x || sp in spans;
    }
    if Covers(spans, p) {
      var sp :| sp in spans && sp.start <= p < sp.end;
      assert sp in [x] + spans;
    }
    if x.start <= p < x.end {
      assert x in [x] + spans;
    }
  }

  /**
   * Non-empty spans in increasing order, each separated from the next by at
   * least one position that no span covers.
   */
  predicate Separated(spans: seq<Span>) {
    && NonEmpty(spans)
    && forall k | 0 <= k < |spans| - 1 :: spans[k].end < spans[k + 1].start
  }

  // ---- Sorting by start ----

  /** Inserts `x` in front of the first span that does not start before it. */
  function InsertByStart(x: Span, spans: seq<Span>): (r: seq<Span>)
    ensures |r| == |spans| + 1
  {
    if spans == [] then [x]
    else if x.start <= spans[0].start then [x] + spans
    else [spans[0]] + InsertByStart(x, spans[1..])
  }

  /** Inserting into sorted spans keeps them sorted; the result begins with `x` or with the old first span. */
  lemma {:induction false} InsertKeepsSorted(x: Span, spans: seq<Span>)
    requires SortedByStart(spans)
    ensures SortedByStart(InsertByStart(x, spans))
    ensures InsertByStart(x, spans)[0] == x || (spans != [] && InsertByStart(x, spans)[0] == spans[0])
  {
    if spans != [] && x.start > spans[0].start {
      var r := InsertByStart(x, spans[1..]);
      InsertKeepsSorted(x, spans[1..]);
      assert spans[0].start <= r[0].start;
      assert forall k | 1 <= k < |r| :: ([spans[0]] + r)[k + 1] == r[k];
    }
  }

  /** Inserting adds exactly `x`. */
  lemma {:induction false} InsertAddsOne(x: Span, spans: seq<Span>)
    ensures multiset(InsertByStart(x, spans)) == multiset(spans) + multiset{x}
  {
    if spans != [] && x.start > spans[0].start {
      InsertAddsOne(x, spans[1..]);
      assert spans == [spans[0]] + spans[1..];
    }
  }

  /** Insertion sort on the start positions, as a permutation of the input. */
  function SortByStart(spans: seq<Span>): (r: seq<Span>)
    ensures multiset(r) == multiset(spans)
    ensures SortedByStart(r)
  {
    if spans == [] then []
    else
      var rest := SortByStart(spans[1..]);
      InsertKeepsSorted(spans[0], rest);
      InsertAddsOne(spans[0], rest);
      assert multiset(spans) == multiset(spans[1..]) + multiset{spans[0]} by {
        assert spans == [spans[0]] + spans[1..];
      }
      InsertByStart(spans[0], rest)
  }

  /** A permutation covers the same positions. */
  lemma PermutationCovers(a: seq<Span>, b: seq<Span>, p: nat)
    requires multiset(a) == multiset(b)
    ensures Covers(a, p) <==> Covers(b, p)
  {
    forall sp ensures sp in a <==> sp in b {
      assert sp in a <==> sp in multiset(a);
      assert sp in b <==> sp in multiset(b);
    }
  }

  // ---- Merging ----

  function Max(a: nat, b: nat): nat {
    if a < b then b else a
  }

  /** `cur` starts no later than the sorted spans `rest`; all are non-empty. */
  predicate MergeReady(cur: Span, rest: seq<Span>) {
    && cur.start < cur.end
    && NonEmpty(rest)
    && SortedByStart(rest)
    && (rest != [] ==> cur.start <= rest[0].start)
  }

  /** The spans after the first of a sorted list are ready to merge behind it. */
  lemma MergeReadyTail(cur: Span, rest: seq<Span>)
    requires MergeReady(cur, rest) && rest != []
    ensures MergeReady(rest[0], rest[1..])
    ensures rest[0].start <= cur.end ==> MergeReady(Span(cur.start, Max(cur.end, rest[0].end)), rest[1..])
  {
    assert rest[0] in rest;
  }

  /**
   * Merges the sorted spans `rest` into the running span `cur`: a span that
   * overlaps or touches the running one extends it, any other span closes it.
   */
  function MergeFrom(cur: Span, rest: seq<Span>): (r: seq<Span>)
    requires MergeReady(cur, rest)
    ensures |r| > 0 && r[0].start == cur.start
    decreases |rest|
  {
    if rest == [] then [cur]
    else
      MergeReadyTail(cur, rest);
      if rest[0].start <= cur.end then
        MergeFrom(Span(cur.start, Max(cur.end, rest[0].end)), rest[1..])
      else
        [cur] + MergeFrom(rest[0], rest[1..])
  }

  /** The merged spans are separated. */
  lemma {:induction false} MergeFromSeparated(cur: Span, rest: seq<Span>)
    requires MergeReady(cur, rest)
    ensures Separated(MergeFrom(cur, rest))
    decreases |rest|
  {
    if rest != [] {
      MergeReadyTail(cur, rest);
      if rest[0].start <= cur.end {
        MergeFromSeparated(Span(cur.start, Max(cur.end, rest[0].end)), rest[1..]);
      } else {
        MergeFromSeparated(rest[0], rest[1..]);
        var tail := MergeFrom(rest[0], rest[1..]);
        assert MergeFrom(cur, rest) == [cur] + tail;
        assert forall k | 1 <= k < |tail| :: ([cur] + tail)[k + 1] == tail[k];
      }
    }
  }

  /** The merged spans cover exactly the positions that `cur` or one of `rest` covers. */
  lemma {:induction false} MergeFromCovers(cur: Span, rest: seq<Span>, p: nat)
    requires MergeReady(cur, rest)
    ensures Covers(MergeFrom(cur, rest), p) <==> cur.start <= p < cur.end || Covers(rest, p)
    decreases |rest|
  {
    if rest == [] {
      CoversCons(cur, [], p);
      assert [cur] + [] == [cur];
    } else {
      MergeReadyTail(cur, rest);
      assert rest == [rest[0]] + rest[1..];
      CoversCons(rest[0], rest[1..], p);
      if rest[0].start <= cur.end {
        MergeFromCovers(Span(cur.start, Max(cur.end, rest[0].end)), rest[1..], p);
      } else {
        MergeFromCovers(rest[0], rest[1..], p);
        CoversCons(cur, MergeFrom(rest[0], rest[1..]), p);
      }
    }
  }

  /** Merges spans sorted by start. */
  function Merge(spans: seq<Span>): (r: seq<Span>)
    requires SortedByStart(spans) && NonEmpty(spans)
  {
    if spans == [] then [] else MergeFrom(spans[0], spans[1..])
  }

  /** Merging yields separated spans that cover what the sorted spans cover. */
  lemma MergeIsSeparatedCover(spans: seq<Span>, p: nat)
    requires SortedByStart(spans) && NonEmpty(spans)
    ensures Separated(Merge(spans))
    ensures Covers(Merge(spans), p) <==> Covers(spans, p)
  {
    if spans != [] {
      MergeFromSeparated(spans[0], spans[1..]);
      MergeFromCovers(spans[0], spans[1..], p);
      assert spans == [spans[0]] + spans[1..];
      CoversCons(spans[0], spans[1..], p);
    }
  }

  /** A permutation of non-empty spans holds only non-empty spans. */
  lemma PermutationNonEmpty(a: seq<Span>, b: seq<Span>)
    requires multiset(a) == multiset(b) && NonEmpty(b)
    ensures NonEmpty(a)
  {
    forall sp | sp in a ensures sp.start < sp.end {
      assert sp in multiset(b);
    }
  }

  /** Sorting and merging: the spans to redact. */
  function Normalize(spans: seq<Span>): (r: seq<Span>)
    requires NonEmpty(spans)
  {
    var sorted := SortByStart(spans);
    PermutationNonEmpty(sorted, spans);
    Merge(sorted)
  }

  /** The normalized spans are separated and cover exactly what the input covers. */
  lemma NormalizeIsSeparatedCover(spans: seq<Span>, p: nat)
    requires NonEmpty(spans)
    ensures Separated(Normalize(spans))
    ensures Covers(Normalize(spans), p) <==> Covers(spans, p)
  {
    var sorted := SortByStart(spans);
    PermutationNonEmpty(sorted, spans);
    PermutationCovers(sorted, spans, p);
    MergeIsSeparatedCover(sorted, p);
  }

  /** A single span is already normal. */
  lemma NormalizeSingle(sp: Span)
    requires sp.start < sp.end
    ensures Normalize([sp]) == [sp]
  {
  }
}
