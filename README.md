# PII classifier and redactor

This project models the engine of a small PII (personally identifiable information) helper. The engine knows five categories: SSN, PHONE, DATE, EMAIL and VIN. It offers three operations:

- `getTokenTypes(token)` returns every category whose pattern covers the whole token. A token may belong to several categories.
- `getSupportedTypes()` lists the category names.
- `redactString(text, categories?)` searches the text for occurrences of the eligible categories. Each stretch of positions covered by the occurrences the search found, where found occurrences overlap or touch, becomes one literal `[REDACTED]`; every other character is kept. The search resumes after each match, so an occurrence that overlaps an earlier match of the same category is only partly found (see `Redaction.FlaggedComplete` under "Left out"). An optional list of names restricts which categories are searched.

The behaviour is pinned down by the Jest suite `src/Helper.test.js`. The implementation it loads, `Helper.gs`, is not part of this model. The model is therefore built from what the suite asserts, with the category layouts written out below.

## Modules

- `Chars` (chars.dfy) defines the character classes. `RunEnd` finds the end of a maximal run of one class, and lemmas relate runs to plain character-class facts.
- `Patterns` (patterns.dfy) holds the registry and one deterministic prefix parser per category. Each parser, such as `SsnEnd`, yields the end of the longest match at a position.
  - `MatchEnd` dispatches on the category.
  - `Matches(c, t)` states that the parser covers all of `t`.
  - The window lemmas show that a match found inside a longer text is a whole token of the category, and that no longer token starts there.
- `Shapes` (shapes.dfy) describes each category declaratively, by character positions: the layouts in the table below. It proves that the parser accepts a whole token exactly when the token has that layout.
- `Classifier` (classifier.dfy) defines `TokenTypes` (getTokenTypes) and `SupportedTypes` (getSupportedTypes).
- `Spans` (spans.dfy) handles match spans: insertion sort by start, merging of overlapping or touching spans, and the proof that the result is ordered, separated and covers the same positions.
- `Redaction` (redaction.dfy) provides the scan and the redaction:
  - `Scan` is a leftmost-longest search per category, resuming after each match, as a global regular-expression search does.
  - `Collect` gathers the spans of the eligible categories. `Normalize` sorts and merges them, and `Rebuild` writes the output.
  - `Redact` is redactString. `Mask` is a reference definition that works position by position, and `RedactIsMask` proves that the two agree.
- `Examples` (examples.dfy) restates every assertion of the suite on the suite's own literals.

Category layouts; each one accepts every fixture of the suite:

| category | layout |
|---|---|
| SSN | 3, 2 and 4 digits. Each of the two gaps is independently `-`, a space, or nothing. |
| PHONE | An area code of 3 digits, optionally as `(ddd)`, then 3 and 4 digits. Each of the two gaps is independently `-`, a space, or nothing. |
| DATE | Month and day of 1-2 digits and a year of 2 or 4 digits. Each separator is independently `/`, `.` or a space. |
| EMAIL | A local part of characters other than whitespace and `@`. Then `@`, one or more labels of letters, digits and `-`, each followed by a dot, and a top-level label of at least two letters. |
| VIN | 17 characters from the digits and the capital letters other than I, O and Q. |

A restriction list holds category names. A name that names no category selects nothing. An empty list selects no category, so the text comes back unchanged. Without a list, every category is searched.

## Model

| member | source | states |
|---|---|---|
| Shapes.SsnShapeIff | src/Helper.test.js:4-23 | A whole token matches SSN exactly when it is 3-2-4 digits, with each gap `-`, a space, or absent |
| Shapes.PhoneShapeIff | src/Helper.test.js:26-42 | A whole token matches PHONE exactly when it is a 3-digit area code (optionally parenthesised) then 3 and 4 digits, with each gap `-`, a space, or absent |
| Shapes.DateShapeIff | src/Helper.test.js:45-62 | A whole token matches DATE exactly when it is 1-2, 1-2 and 2 or 4 digits, with each separator `/`, `.` or a space |
| Shapes.EmailShapeIff | src/Helper.test.js:65-77 | A whole token matches EMAIL exactly when it is a local part, `@`, and a domain of dotted labels that ends in a top-level label of two or more letters |
| Shapes.DomainAtIff | src/Helper.test.js:65-77 | The domain parser reaches the end of the token exactly when the rest of the token is a dotted domain |
| Shapes.EmailLayoutMatches | src/Helper.test.js:65-77 | A local part, `@`, one label, a dot and a top-level label of at least two letters makes an email address |
| Shapes.VinShapeIff | src/Helper.test.js:80-93 | A whole token matches VIN exactly when it is 17 characters of the VIN alphabet |
| Patterns.ParseCategory | src/Helper.test.js:125-128 | A name in a restriction list that parses names the category that carries that name |
| Patterns.MatchIsToken | src/Helper.test.js:106-110 | What the search finds at a position of a text is, on its own, a whole token of the category |
| Patterns.MatchIsLongest | src/Helper.test.js:106-110 | Every token of the category that starts at a position of a text is found there, and the match found is at least as long |
| Classifier.MatchingNamesComplete | src/Helper.test.js:18-21 | A category's name is in the classification exactly when the category is listed and covers the whole token |
| Classifier.MatchingNamesDistinct | src/Helper.test.js:18-21 | A registry without repeated categories yields a classification without repeated names |
| Classifier.TokenTypes | src/Helper.test.js:4-93 | `Name(c)` is in the result exactly when category `c` matches the whole token; every name listed parses back to a matching category; no name is listed twice |
| Classifier.RegistryNames | src/Helper.test.js:96-99 | The k-th listed name is the name of the k-th registered category |
| Classifier.SupportedNames | src/Helper.test.js:96-99 | Every category's name is listed, each listed name parses to a category, and no name is listed twice |
| Classifier.SupportedTypes | src/Helper.test.js:96-99 | The supported names are exactly the names of all categories, each once |
| Redaction.ScanInRange | src/Helper.test.js:106-110 | Every span found lies inside the text, at or after the start of the search, and is non-empty |
| Redaction.ScanSound | src/Helper.test.js:106-110 | Every span the search finds is a whole token of the category, and no longer token starts where it starts |
| Redaction.ScanComplete | src/Helper.test.js:106-110 | The first position of every occurrence of the category is covered by a span found |
| Redaction.FlaggedSound | src/Helper.test.js:118-122 | A position that is redacted lies inside an occurrence of an eligible category |
| Redaction.FlaggedComplete | src/Helper.test.js:118-122 | The first position of every occurrence of an eligible category is redacted |
| Redaction.CollectMember | src/Helper.test.js:124-128 | A span is collected from a list of categories exactly when an eligible category of the list finds it |
| Spans.SortByStart | src/Helper.test.js:112-116 | The sorted spans are a permutation of the input and ordered by start |
| Spans.NormalizeIsSeparatedCover | src/Helper.test.js:112-116 | After sorting and merging, the spans are non-empty, ordered and separated by uncovered positions, and they cover exactly the positions the found spans cover |
| Spans.MergeIsSeparatedCover | src/Helper.test.js:112-116 | Merging sorted spans yields separated spans that cover the same positions |
| Redaction.RebuildIsMask | src/Helper.test.js:118-122 | Rebuilding from separated spans copies uncovered characters verbatim and writes one placeholder per maximal covered stretch |
| Redaction.RedactIsMask | src/Helper.test.js:106-128 | redactString equals the reference redaction: uncovered characters are kept in order, and each maximal stretch of positions covered by an occurrence the search found (a span of `Collect`) becomes one `[REDACTED]` |
| Redaction.RedactEmpty | src/Helper.test.js:101-104 | The empty text redacts to the empty text, whatever the restriction list |
| Redaction.RedactUnflagged | src/Helper.test.js:106-110 | A text none of whose positions is covered by an eligible occurrence is returned unchanged |
| Redaction.RedactNoPii | src/Helper.test.js:106-110 | A text that holds no occurrence of an eligible category is returned unchanged |
| Redaction.RedactDefaultIsAllSupported | src/Helper.test.js:118-128 | Omitting the restriction list is the same as listing every supported name |
| Redaction.RedactIgnoresUnknown | src/Helper.test.js:124-128 | Adding a name that names no category to the restriction list changes nothing |
| Redaction.RedactNoneSelected | src/Helper.test.js:124-128 | An empty restriction list leaves the text unchanged |
| Examples.ValidSsnClassified | src/Helper.test.js:4-23 | Each of the eleven SSN fixtures has SSN among its types |
| Examples.ValidPhoneClassified | src/Helper.test.js:26-42 | Each of the eight phone fixtures has PHONE among its types |
| Examples.ValidDateClassified | src/Helper.test.js:45-62 | Each of the nine date fixtures has DATE among its types |
| Examples.ValidEmailClassified | src/Helper.test.js:65-77 | Each of the four email fixtures has EMAIL among its types |
| Examples.ValidVinClassified | src/Helper.test.js:80-93 | Each of the five VIN fixtures has VIN among its types |
| Examples.SupportedTypesListed | src/Helper.test.js:96-99 | The supported names include SSN, PHONE and EMAIL |
| Examples.RedactsEmptyText | src/Helper.test.js:101-104 | Redacting `""` gives a text of length 0 |
| Examples.RedactsEmbeddedPhone | src/Helper.test.js:106-110 | `"Hello world (123)456-7890"` redacts to `"Hello world [REDACTED]"` |
| Examples.RedactsDigitRunOnce | src/Helper.test.js:112-116 | `"Hello world 1234567890"`, whose digits hold both an SSN and a phone number, redacts to `"Hello world [REDACTED]"` with one placeholder |
| Examples.RedactsTwoOccurrences | src/Helper.test.js:118-122 | The text with a digit run and an email address redacts to `"Hello world [REDACTED] and my email is [REDACTED]"` |
| Examples.RedactsOnlyRequested | src/Helper.test.js:124-128 | Restricted to `["EMAIL"]`, the same text redacts to `"Hello world 1234567890 and my email is [REDACTED]"` |

## Left out

- `Helper.gs` is not part of this model. The layouts, the search and the merge come from the suite's assertions and the category descriptions above, not from the implementation's regular expressions.
- JavaScript regular-expression semantics. Each category is an explicit parser that finds the longest match at a position. The patterns have no word-boundary anchors. So inside `1234567890` the SSN search finds the first nine digits and the PHONE search finds all ten; the merge makes one placeholder of them either way.
- Whitespace is space, tab, newline and carriage return only. Form feed (`\f`), vertical tab (`\v`) and the Unicode spaces of the `\s` class are not modelled.
- The Jest harness and the Google Apps Script host are foreign runtime, not engine logic.
- Rejections. No assertion of the suite says a token is not matched, so no rejection is claimed beyond what the layouts imply.
- A lookup failure for an unregistered category cannot arise: categories are a closed datatype.
- Unknown and empty restriction lists. An unknown name is ignored, and an empty list selects nothing. The suite does not exercise either case; this is the documented policy.
- Idempotence of redacting an already redacted text is not stated. The suite does not exercise it, and a proof would need a case analysis of how the placeholder's characters can combine with their neighbours.
- Redaction.FlaggedComplete: only the first position of every occurrence is promised to be redacted. A leftmost-longest search resumes after each match, so an occurrence that overlaps an earlier match of the same category is covered only up to where that match ends, as with a global regular-expression replace.
- Classifier.TokenTypes: the order of the names is registry order. The suite compares with `arrayContaining`, so only membership is asserted.
