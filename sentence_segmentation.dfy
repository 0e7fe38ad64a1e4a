/**
 * `SentenceGrabber` of utils/strUtils.js: abbreviation-aware sentence segmentation.
 *
 * The grabber scans the text once. A divider (`.`, `!`, `?`) at index `i` ends a sentence when
 * the next character is a space, a double quote or `[` (or `i` is the last index) and the last
 * space-separated word of the text scanned since the previous boundary is not an abbreviation.
 * The slice since the previous boundary, trimmed, is the sentence; whatever follows the last
 * boundary is never emitted.
 */
module SentenceSegmentation {
  import opened Wrappers
  import opened JsText

  /**
   * An element of the `Abbreviations` array. It starts as an array of strings, but
   * `extendAbbreviations` assigns `true` through arbitrary keys, and an index key past the end
   * leaves holes.
   */
  datatype Element = Str(s: string) | BoolTrue | Hole

  /** The fixed abbreviation list, in the order `Object.keys` yields it. */
  const DefaultAbbreviations: seq<Element> := [
    Str("a.m"), Str("p.m"), Str("etc"), Str("vol"), Str("inc"), Str("jr"), Str("dr"), Str("tex"),
    Str("co"), Str("prof"), Str("rev"), Str("revd"), Str("hon"), Str("v.s"), Str("ie"), Str("eg"),
    Str("et al"), Str("st"), Str("ph.d"), Str("capt"), Str("mr"), Str("mrs"), Str("ms"),
    Str("e.o.d."), Str("jan"), Str("feb"), Str("mar"), Str("apr"), Str("jun"), Str("jul"),
    Str("aug"), Str("sept"), Str("nov"), Str("dec"), Str("sun."), Str("mon."), Str("tue."),
    Str("thur"), Str("fri"), Str("sat.")
  ]

  /** `Dividers.includes(c)`. */
  predicate IsDivider(c: char) {
    c == '.' || c == '!' || c == '?'
  }

  /** `Abbreviations.includes(word)`: only string elements can be equal to a string. */
  predicate Listed(abbreviations: seq<Element>, word: string) {
    Str(word) in abbreviations
  }

  /**
   * Whether some part of `t.split(".")` is at most two code units long, scanning from index `k`
   * with the current part `run` code units long so far.
   */
  function ShortPartFrom(t: string, k: nat, run: nat): bool
    requires k <= |t|
    decreases |t| - k
  {
    if k == |t| then run <= 2
    else if t[k] == '.' then run <= 2 || ShortPartFrom(t, k + 1, 0)
    else ShortPartFrom(t, k + 1, run + Utf16Width(t[k]))
  }

  /** The word with one trailing `.` removed, as `_isAbbreviation` prepares it for splitting. */
  function WithoutFinalDot(word: string): string {
    if |word| > 0 && word[|word| - 1] == '.' then word[..|word| - 1] else word
  }

  /**
   * The dotted-token heuristic of `_isAbbreviation`: drop one trailing `.`, split on `.`, and
   * accept when there are at least two parts and one of them is at most two code units long.
   */
  predicate HasShortDottedPart(word: string) {
    var t := WithoutFinalDot(word);
    '.' in t && ShortPartFrom(t, 0, 0)
  }

  /** Some part among the first `m` is at most two code units long. */
  predicate SomeShortPart(parts: seq<string>, m: nat)
    requires m <= |parts|
  {
    m > 0 && (Utf16Length(parts[m - 1]) <= 2 || SomeShortPart(parts, m - 1))
  }

  /** `SomeShortPart` is the existential it abbreviates. */
  lemma {:induction false} SomeShortPartMeaning(parts: seq<string>, m: nat)
    requires m <= |parts|
    ensures SomeShortPart(parts, m) <==> exists j :: 0 <= j < m && Utf16Length(parts[j]) <= 2
    decreases m
  {
    if m > 0 {
      SomeShortPartMeaning(parts, m - 1);
    }
  }

  /** Parts that agree below `m` agree on `SomeShortPart` below `m`. */
  lemma {:induction false} SomeShortPartAgree(p: seq<string>, q: seq<string>, m: nat)
    requires m <= |p| && m <= |q|
    requires forall j :: 0 <= j < m ==> p[j] == q[j]
    ensures SomeShortPart(p, m) == SomeShortPart(q, m)
    decreases m
  {
    if m > 0 {
      SomeShortPartAgree(p, q, m - 1);
    }
  }

  /** The scan's state before index `k`: the current run and the parts already closed. */
  predicate ShortPartState(t: string, k: nat)
    requires k <= |t|
  {
    var p := SplitPrefix(t, '.', k);
    ShortPartFrom(t, k, Utf16Length(p[|p| - 1])) || SomeShortPart(p, |p| - 1)
  }

  /** A `.` closes the current part and starts an empty one. */
  lemma ShortPartStepDot(t: string, k: nat)
    requires k < |t| && t[k] == '.'
    ensures ShortPartState(t, k) <==> ShortPartState(t, k + 1)
  {
    var p := SplitPrefix(t, '.', k);
    var q := SplitPrefix(t, '.', k + 1);
    assert q == p + [""];
    SomeShortPartAgree(p, q, |p|);
  }

  /** Any other character extends the current part. */
  lemma ShortPartStepChar(t: string, k: nat)
    requires k < |t| && t[k] != '.'
    ensures ShortPartState(t, k) <==> ShortPartState(t, k + 1)
  {
    var p := SplitPrefix(t, '.', k);
    var last := |p| - 1;
    var q := SplitPrefix(t, '.', k + 1);
    assert q == p[..last] + [p[last] + [t[k]]];
    assert |q| == |p| && q[last] == p[last] + [t[k]];
    Utf16LengthSnoc(p[last], t[k]);
    assert ShortPartFrom(t, k, Utf16Length(p[last])) == ShortPartFrom(t, k + 1, Utf16Length(q[last]));
    SomeShortPartAgree(p, q, last);
  }

  /** The scan decides the split formulation: the last part of a prefix is the current run. */
  lemma {:induction false} ShortPartFromSplit(t: string, k: nat)
    requires k <= |t|
    ensures var parts := Split(t, '.');
            ShortPartState(t, k) <==> SomeShortPart(parts, |parts|)
    decreases |t| - k
  {
    if k < |t| {
      ShortPartFromSplit(t, k + 1);
      if t[k] == '.' {
        ShortPartStepDot(t, k);
      } else {
        ShortPartStepChar(t, k);
      }
    }
  }

  /**
   * The heuristic, stated on the split: `t.split(".")` has more than one part and some part
   * is at most two code units long.
   */
  lemma HasShortDottedPartBySplit(word: string)
    ensures var parts := Split(WithoutFinalDot(word), '.');
            HasShortDottedPart(word) <==> |parts| > 1 && exists j :: 0 <= j < |parts| && Utf16Length(parts[j]) <= 2
  {
    var t := WithoutFinalDot(word);
    ShortPartFromSplit(t, 0);
    SomeShortPartMeaning(Split(t, '.'), |Split(t, '.')|);
    SplitPrefixCount(t, '.', |t|);
    assert t[..|t|] == t;
  }

  /**
   * `_isAbbreviation(word)`: the lowercased word, or the lowercased word without its last
   * character, is listed, or the dotted-token heuristic accepts it.
   */
  predicate IsAbbreviation(abbreviations: seq<Element>, word: string) {
    var low := Lower(word);
    // `low.substring(0, text.length - 1)` is the empty string when the word is empty; when the
    // last character is outside the Basic Multilingual Plane it ends in half a surrogate pair,
    // which no listed string does
    var shorterListed :=
      if |word| == 0 then Listed(abbreviations, "")
      else Utf16Width(word[|word| - 1]) == 1 && Listed(abbreviations, low[..|word| - 1]);
    Listed(abbreviations, low) || shorterListed || HasShortDottedPart(word)
  }

  /** `checkNext`: the character after the divider qualifies, or the divider is last. */
  predicate NextQualifies(text: string, i: nat)
    requires i < |text|
  {
    i >= |text| - 1 || text[i + 1] == ' ' || text[i + 1] == '"' || text[i + 1] == '['
  }

  /** Where the space-free run of `text[pos..k]` that ends at `k` starts. */
  function WordStart(text: string, pos: nat, k: nat): (r: nat)
    requires pos <= k <= |text|
    ensures pos <= r <= k
    decreases k
  {
    if k > pos && text[k - 1] != ' ' then WordStart(text, pos, k - 1) else k
  }

  /**
   * The word examined at index `i` when the current sentence starts at `pos`: the characters
   * after the last space of `text[pos..end]`, where `end` is `i + 1` except at the last index,
   * where it is `i`, so that the final character is left out.
   */
  function ExaminedWord(text: string, pos: nat, i: nat): string
    requires pos <= i < |text|
  {
    var end := if |text| - 1 < i + 1 then |text| - 1 else i + 1;
    text[WordStart(text, pos, end)..end]
  }

  lemma {:induction false} WordStartInSlice(text: string, pos: nat, end: nat, k: nat)
    requires pos + k <= end <= |text|
    ensures WordStart(text, pos, pos + k) == pos + LastPartStart(text[pos..end], ' ', k)
    decreases k
  {
    if k > 0 {
      assert text[pos..end][k - 1] == text[pos + k - 1];
      WordStartInSlice(text, pos, end, k - 1);
    }
  }

  /** The examined word is `text.slice(pos, end).split(" ").at(-1)`. */
  lemma ExaminedWordIsLastWord(text: string, pos: nat, i: nat)
    requires pos <= i < |text|
    ensures var end := if |text| - 1 < i + 1 then |text| - 1 else i + 1;
            var words := Split(text[pos..end], ' ');
            ExaminedWord(text, pos, i) == words[|words| - 1]
  {
    var end := if |text| - 1 < i + 1 then |text| - 1 else i + 1;
    var s := text[pos..end];
    WordStartInSlice(text, pos, end, |s|);
    LastPartOfSplit(s, ' ');
    assert text[WordStart(text, pos, end)..end] == s[LastPartStart(s, ' ', |s|)..];
  }

  /** Index `i` ends the sentence that starts at `pos`. */
  predicate Accepted(abbreviations: seq<Element>, text: string, pos: nat, i: nat)
    requires pos <= i < |text|
  {
    IsDivider(text[i]) && NextQualifies(text, i) && !IsAbbreviation(abbreviations, ExaminedWord(text, pos, i))
  }

  /** The boundary test of one abbreviation array and text: index `j` ends the sentence started at `p`. */
  function Boundary(abbreviations: seq<Element>, text: string): (nat, nat) -> bool {
    (p: nat, j: nat) => p <= j < |text| && Accepted(abbreviations, text, p, j)
  }

  /**
   * The spans a left-to-right scan of `n` characters closes from index `i` on, while the current
   * sentence starts at `pos`: an index `i` that `accepts` closes `[pos, i + 1)`, and the next
   * sentence starts after it.
   */
  function Scan(accepts: (nat, nat) -> bool, n: nat, pos: nat, i: nat): seq<Span>
    requires pos <= i <= n
    decreases n - i
  {
    if i == n then []
    else if accepts(pos, i) then [Span(pos, i + 1)] + Scan(accepts, n, i + 1, i + 1)
    else Scan(accepts, n, pos, i + 1)
  }

  /** The spans of the sentences `grabSentences` finds. */
  function SentenceSpans(abbreviations: seq<Element>, text: string): seq<Span> {
    Scan(Boundary(abbreviations, text), |text|, 0, 0)
  }

  /** `text.slice(start, end)` for the spans of a scan, which always lie within the text. */
  function Slice(text: string, span: Span): string {
    if span.start <= span.end <= |text| then text[span.start..span.end] else ""
  }

  /** The trimmed text of each span: the sentences. */
  function SentencesOf(text: string, spans: seq<Span>): seq<string> {
    seq(|spans|, k requires 0 <= k < |spans| => Trim(Slice(text, spans[k])))
  }

  /** What `grabSentences(text)` returns for an abbreviation array. */
  function Segment(abbreviations: seq<Element>, text: string): seq<string> {
    SentencesOf(text, SentenceSpans(abbreviations, text))
  }

  lemma SentencesOfCons(text: string, first: Span, rest: seq<Span>)
    ensures SentencesOf(text, [first] + rest) == [Trim(Slice(text, first))] + SentencesOf(text, rest)
  {
    var spans := [first] + rest;
    assert forall k :: 1 <= k < |spans| ==> spans[k] == rest[k - 1];
  }

  /** One index of the scan: accepting it emits the slice `[pos, i + 1)` and restarts after it. */
  lemma ScanAdvance(abbreviations: seq<Element>, text: string, pos: nat, i: nat)
    requires pos <= i < |text|
    ensures var accepts := Boundary(abbreviations, text);
            (SentencesOf(text, Scan(accepts, |text|, pos, i))
             == if Accepted(abbreviations, text, pos, i)
                then [Trim(text[pos..i + 1])] + SentencesOf(text, Scan(accepts, |text|, i + 1, i + 1))
                else SentencesOf(text, Scan(accepts, |text|, pos, i + 1)))
  {
    var accepts := Boundary(abbreviations, text);
    if accepts(pos, i) {
      SentencesOfCons(text, Span(pos, i + 1), Scan(accepts, |text|, i + 1, i + 1));
    }
  }

  // ---------------------------------------------------------------------------------------
  // What the scan finds

  /** No index in `[lo, hi)` ends the sentence that starts at `pos`. */
  predicate NoBoundary(accepts: (nat, nat) -> bool, pos: nat, lo: nat, hi: int) {
    forall j: nat :: lo <= j < hi ==> !accepts(pos, j)
  }

  /** Each span lies within `n` characters and ends at an index accepted for the span's own start. */
  predicate ClosedSpans(accepts: (nat, nat) -> bool, n: nat, spans: seq<Span>) {
    forall k :: 0 <= k < |spans| ==>
      spans[k].start < spans[k].end <= n && accepts(spans[k].start, spans[k].end - 1)
  }

  /** Each span starts where the one before it ends. */
  predicate Consecutive(spans: seq<Span>) {
    forall k :: 0 <= k < |spans| - 1 ==> spans[k].end == spans[k + 1].start
  }

  /** A closed span put in front of closed spans that start where it ends keeps both properties. */
  lemma ConsSpans(accepts: (nat, nat) -> bool, n: nat, first: Span, rest: seq<Span>)
    requires first.start < first.end <= n && accepts(first.start, first.end - 1)
    requires ClosedSpans(accepts, n, rest) && Consecutive(rest)
    requires |rest| > 0 ==> rest[0].start == first.end
    ensures ClosedSpans(accepts, n, [first] + rest) && Consecutive([first] + rest)
  {
    var spans := [first] + rest;
    assert forall k :: 1 <= k < |spans| ==> spans[k] == rest[k - 1];
  }

  /**
   * The scan from `i` only emits spans that close at an accepted index; they follow each other
   * without gap or overlap, the first one starting at `pos` and closing after `i`.
   */
  lemma {:induction false} ScanSound(accepts: (nat, nat) -> bool, n: nat, pos: nat, i: nat)
    requires pos <= i <= n
    ensures var spans := Scan(accepts, n, pos, i);
            && ClosedSpans(accepts, n, spans)
            && Consecutive(spans)
            && (|spans| > 0 ==> spans[0].start == pos && i < spans[0].end)
    decreases n - i
  {
    if i < n {
      if accepts(pos, i) {
        ScanSound(accepts, n, i + 1, i + 1);
        ConsSpans(accepts, n, Span(pos, i + 1), Scan(accepts, n, i + 1, i + 1));
      } else {
        ScanSound(accepts, n, pos, i + 1);
      }
    }
  }

  /** A span put in front of complete spans that start where it ends leaves later spans complete. */
  lemma ConsComplete(accepts: (nat, nat) -> bool, n: nat, first: Span, rest: seq<Span>)
    requires |rest| > 0 ==> rest[0].start == first.end && NoBoundary(accepts, first.end, first.end, rest[0].end - 1)
    requires forall k :: 1 <= k < |rest| ==> NoBoundary(accepts, rest[k].start, rest[k].start, rest[k].end - 1)
    requires |rest| == 0 ==> NoBoundary(accepts, first.end, first.end, n)
    requires |rest| > 0 ==> NoBoundary(accepts, rest[|rest| - 1].end, rest[|rest| - 1].end, n)
    ensures var spans := [first] + rest;
            && (forall k :: 1 <= k < |spans| ==> NoBoundary(accepts, spans[k].start, spans[k].start, spans[k].end - 1))
            && NoBoundary(accepts, spans[|spans| - 1].end, spans[|spans| - 1].end, n)
  {
    var spans := [first] + rest;
    assert forall k :: 1 <= k < |spans| ==> spans[k] == rest[k - 1];
  }

  /**
   * The scan from `i` misses no boundary: nothing from `i` up to the end of the first span is
   * accepted (nothing up to `n` when there is no span), nothing inside a later span is accepted
   * for its start, and nothing after the last span is accepted for it either.
   */
  lemma {:induction false} ScanComplete(accepts: (nat, nat) -> bool, n: nat, pos: nat, i: nat)
    requires pos <= i <= n
    ensures var spans := Scan(accepts, n, pos, i);
            && (|spans| == 0 ==> NoBoundary(accepts, pos, i, n))
            && (|spans| > 0 ==> NoBoundary(accepts, pos, i, spans[0].end - 1))
            && (forall k :: 1 <= k < |spans| ==> NoBoundary(accepts, spans[k].start, spans[k].start, spans[k].end - 1))
            && (|spans| > 0 ==> NoBoundary(accepts, spans[|spans| - 1].end, spans[|spans| - 1].end, n))
    decreases n - i
  {
    if i < n {
      if accepts(pos, i) {
        var rest := Scan(accepts, n, i + 1, i + 1);
        assert Scan(accepts, n, pos, i) == [Span(pos, i + 1)] + rest;
        ScanComplete(accepts, n, i + 1, i + 1);
        ScanSound(accepts, n, i + 1, i + 1);
        ConsComplete(accepts, n, Span(pos, i + 1), rest);
      } else {
        assert Scan(accepts, n, pos, i) == Scan(accepts, n, pos, i + 1);
        ScanComplete(accepts, n, pos, i + 1);
      }
    }
  }

  /** The end of the text that the spans cover, when the first one starts at `pos`. */
  function CoveredEnd(spans: seq<Span>, pos: nat): nat {
    if |spans| == 0 then pos else spans[|spans| - 1].end
  }

  /** The untrimmed slices of the spans. */
  function SlicesOf(text: string, spans: seq<Span>): seq<string> {
    seq(|spans|, k requires 0 <= k < |spans| => Slice(text, spans[k]))
  }

  /** Putting the slice `text[pos..mid]` in front of spans that cover `text[mid..e]` covers `text[pos..e]`. */
  lemma ConsSliceConcat(text: string, pos: nat, mid: nat, rest: seq<Span>)
    requires pos <= mid <= CoveredEnd(rest, mid) <= |text|
    requires Join(SlicesOf(text, rest), "") == text[mid..CoveredEnd(rest, mid)]
    ensures var spans := [Span(pos, mid)] + rest;
            && CoveredEnd(spans, pos) == CoveredEnd(rest, mid)
            && Join(SlicesOf(text, spans), "") == text[pos..CoveredEnd(rest, mid)]
  {
    var spans := [Span(pos, mid)] + rest;
    var e := CoveredEnd(rest, mid);
    assert SlicesOf(text, spans) == [text[pos..mid]] + SlicesOf(text, rest);
    ConcatCons(text[pos..mid], SlicesOf(text, rest));
    assert text[pos..e] == text[pos..mid] + text[mid..e];
  }

  /** Concatenating the slices of the scan from `i` gives the text from `pos` to the covered end. */
  lemma {:induction false} ScanSlicesConcat(accepts: (nat, nat) -> bool, text: string, pos: nat, i: nat)
    requires pos <= i <= |text|
    ensures var spans := Scan(accepts, |text|, pos, i);
            && pos <= CoveredEnd(spans, pos) <= |text|
            && Join(SlicesOf(text, spans), "") == text[pos..CoveredEnd(spans, pos)]
    decreases |text| - i
  {
    if i < |text| {
      if accepts(pos, i) {
        ScanSlicesConcat(accepts, text, i + 1, i + 1);
        ConsSliceConcat(text, pos, i + 1, Scan(accepts, |text|, i + 1, i + 1));
      } else {
        ScanSlicesConcat(accepts, text, pos, i + 1);
      }
    }
  }


  /** When every accepted index satisfies `good`, every span of the scan closes at such an index. */
  lemma ScanClosesAt(accepts: (nat, nat) -> bool, n: nat, pos: nat, i: nat, good: int -> bool)
    requires pos <= i <= n
    requires forall p: nat, j: nat :: accepts(p, j) ==> good(j)
    ensures var spans := Scan(accepts, n, pos, i);
            forall k :: 0 <= k < |spans| ==> spans[k].start < spans[k].end <= n && good(spans[k].end - 1)
  {
    ScanSound(accepts, n, pos, i);
  }

  /** An accepted index holds a divider followed by a space, a double quote, `[` or nothing. */
  predicate DividerAt(text: string, j: int) {
    0 <= j < |text| && IsDivider(text[j]) && (j + 1 == |text| || text[j + 1] in {' ', '"', '['})
  }

  /**
   * Every sentence is non-empty and ends in the divider that closed it, and that divider is
   * followed in the text by a space, a double quote or `[`, or by nothing.
   */
  lemma SentencesEndInDivider(abbreviations: seq<Element>, text: string)
    ensures var spans := SentenceSpans(abbreviations, text);
            var sentences := Segment(abbreviations, text);
            && |sentences| == |spans|
            && forall k :: 0 <= k < |sentences| ==>
                 && DividerAt(text, spans[k].end - 1)
                 && |sentences[k]| > 0
                 && IsDivider(sentences[k][|sentences[k]| - 1])
  {
    var spans := SentenceSpans(abbreviations, text);
    var sentences := Segment(abbreviations, text);
    var good := (j: int) => DividerAt(text, j);
    ScanClosesAt(Boundary(abbreviations, text), |text|, 0, 0, good);
    forall k | 0 <= k < |sentences|
      ensures DividerAt(text, spans[k].end - 1)
      ensures |sentences[k]| > 0 && IsDivider(sentences[k][|sentences[k]| - 1])
    {
      var sp := spans[k];
      assert spans == Scan(Boundary(abbreviations, text), |text|, 0, 0);
      assert sp.start < sp.end <= |text|;
      assert good(sp.end - 1);
      var slice := text[sp.start..sp.end];
      assert slice[|slice| - 1] == text[sp.end - 1];
      assert sentences[k] == Trim(slice);
      TrimKeepsLast(slice);
    }
  }

  /** No sentence starts or ends with whitespace. */
  lemma SentencesAreTrimmed(abbreviations: seq<Element>, text: string)
    ensures var sentences := Segment(abbreviations, text);
            forall k :: 0 <= k < |sentences| ==>
              |sentences[k]| > 0 && !IsWhitespace(sentences[k][0]) && !IsWhitespace(sentences[k][|sentences[k]| - 1])
  {
    var spans := SentenceSpans(abbreviations, text);
    var sentences := Segment(abbreviations, text);
    SentencesEndInDivider(abbreviations, text);
    forall k | 0 <= k < |sentences|
      ensures !IsWhitespace(sentences[k][0]) && !IsWhitespace(sentences[k][|sentences[k]| - 1])
    {
      var slice := Slice(text, spans[k]);
      assert sentences[k] == Trim(slice);
      TrimMeaning(slice);
    }
  }

  /**
   * The untrimmed slices put back together are the text up to the last boundary, and no index
   * after that boundary closes a sentence: the text after it is never emitted.
   */
  lemma SegmentCoversPrefix(abbreviations: seq<Element>, text: string)
    ensures var spans := SentenceSpans(abbreviations, text);
            var e := CoveredEnd(spans, 0);
            && e <= |text|
            && Join(SlicesOf(text, spans), "") == text[..e]
            && NoBoundary(Boundary(abbreviations, text), e, e, |text|)
  {
    var accepts := Boundary(abbreviations, text);
    ScanSlicesConcat(accepts, text, 0, 0);
    ScanComplete(accepts, |text|, 0, 0);
  }

  // ---------------------------------------------------------------------------------------
  // extendAbbreviations: `Abbreviations[key] = true` on an array

  predicate IsDigit(c: char) {
    '0' <= c <= '9'
  }

  function DecimalValue(s: string): nat
    requires forall k :: 0 <= k < |s| ==> IsDigit(s[k])
  {
    if s == [] then 0
    else
      assert IsDigit(s[|s| - 1]);
      DecimalValue(s[..|s| - 1]) * 10 + (s[|s| - 1] as int - '0' as int)
  }

  /** The largest array index, 2^32 - 2. */
  const MaxArrayIndex: nat := 4294967294

  /** A property key that names an element of an array: a canonical decimal up to 2^32 - 2. */
  predicate IsArrayIndex(key: string) {
    && |key| > 0
    && (forall k :: 0 <= k < |key| ==> IsDigit(key[k]))
    && (key[0] != '0' || |key| == 1)
    && DecimalValue(key) <= MaxArrayIndex
  }

  /**
   * The elements of an array after `array[key] = true`. An index key writes the element (past
   * the end it leaves holes before it); "length" sets the length to `Number(true)`, that is 1;
   * every other key makes a named property, which leaves the elements as they were.
   */
  function AssignTrue(elements: seq<Element>, key: string): seq<Element> {
    if IsArrayIndex(key) then
      var k := DecimalValue(key);
      if k < |elements| then elements[k := BoolTrue]
      else elements + seq(k - |elements|, _ => Hole) + [BoolTrue]
    else if key == "length" then
      if |elements| >= 1 then elements[..1] else [Hole]
    else elements
  }

  /**
   * Assigning `true` never makes a string element appear, so `extendAbbreviations` never adds
   * a listed abbreviation; with a key that is no index and not "length" the elements stay as
   * they were.
   */
  lemma AssignTrueNeverLists(elements: seq<Element>, key: string, word: string)
    ensures Listed(AssignTrue(elements, key), word) ==> Listed(elements, word)
    ensures !IsArrayIndex(key) && key != "length" ==> AssignTrue(elements, key) == elements
  {
    var after := AssignTrue(elements, key);
    if Listed(after, word) {
      var j :| 0 <= j < |after| && after[j] == Str(word);
      if IsArrayIndex(key) {
        var k := DecimalValue(key);
        if k >= |elements| {
          assert j < |elements|;
          assert elements[j] == after[j];
        } else {
          assert elements[j] == after[j];
        }
      } else if key == "length" {
        assert elements[j] == after[j];
      }
    }
  }

  /** A word that is an abbreviation after extending was one before. */
  lemma ExtendNeverAddsAbbreviation(elements: seq<Element>, key: string, word: string)
    ensures IsAbbreviation(AssignTrue(elements, key), word) ==> IsAbbreviation(elements, word)
  {
    var low := Lower(word);
    AssignTrueNeverLists(elements, key, low);
    if |word| > 0 {
      AssignTrueNeverLists(elements, key, low[..|word| - 1]);
    } else {
      AssignTrueNeverLists(elements, key, "");
    }
  }

  /**
   * Part lengths are counted in code units: in "a\U{1F600}.bcd" both parts are three code units
   * long, so the heuristic does not take the word for an abbreviation.
   */
  lemma WideCharacterMakesLongPart()
    ensures !HasShortDottedPart("a\U{1F600}.bcd")
  {
    var t := "a\U{1F600}.bcd";
    assert WithoutFinalDot(t) == t;
    assert t[0] == 'a' && t[1] == '\U{1F600}' && t[2] == '.' && t[3] == 'b' && t[4] == 'c' && t[5] == 'd';
    assert !ShortPartFrom(t, 3, 0);
    assert !ShortPartFrom(t, 0, 0);
  }

  /** "Dr." never ends a sentence: without its last character it is the listed "dr". */
  lemma DrIsAbbreviation()
    ensures IsAbbreviation(DefaultAbbreviations, "Dr.")
  {
    assert Lower("Dr.") == "dr.";
    assert "dr."[..2] == "dr";
    assert DefaultAbbreviations[6] == Str("dr");
  }

  /**
   * At the last index the examined word leaves out the final character, so a text ending in
   * "a.m." examines the listed "a.m" and its final divider is no boundary.
   */
  lemma FinalAbbreviationNotAccepted()
    ensures ExaminedWord("at 10 a.m.", 0, 9) == "a.m"
    ensures !Accepted(DefaultAbbreviations, "at 10 a.m.", 0, 9)
  {
    assert WordStart("at 10 a.m.", 0, 9) == 6;
    assert "at 10 a.m."[6..9] == "a.m";
    assert Lower("a.m") == "a.m";
    assert DefaultAbbreviations[0] == Str("a.m");
  }

  lemma TimeIsAbbreviation()
    ensures IsAbbreviation(DefaultAbbreviations, "a.m.")
  {
    assert "a."[..1] == "a";
    assert "a.m"[..2] == "a.";
    assert "a.m."[..3] == "a.m";
    assert Lower("a") == "a";
    assert Lower("a.") == "a.";
    assert Lower("a.m") == "a.m";
    assert Lower("a.m.") == "a.m.";
    assert DefaultAbbreviations[0] == Str("a.m");
  }

  /**
   * A time such as "10 a.m." does not end a sentence even when a space and a new sentence
   * follow: the word examined at its last period is "a.m.", whose prefix "a.m" is listed.
   */
  lemma TimeAbbreviationContinuesSentence()
    ensures ExaminedWord("at 10 a.m. Then", 0, 9) == "a.m."
    ensures !Accepted(DefaultAbbreviations, "at 10 a.m. Then", 0, 9)
  {
    assert WordStart("at 10 a.m. Then", 0, 10) == 6;
    assert "at 10 a.m. Then"[6..10] == "a.m.";
    TimeIsAbbreviation();
  }

  /** The static state of `SentenceGrabber`: the `Abbreviations` array. */
  class SentenceGrabber {
    /** The array's elements, which is all that `Abbreviations.includes` looks at. */
    var abbreviations: seq<Element>
    /** Named (non-index) properties assigned through `extendAbbreviations`. */
    var properties: set<string>

    constructor ()
      ensures abbreviations == DefaultAbbreviations && properties == {}
    {
      abbreviations := DefaultAbbreviations;
      properties := {};
    }

    /** `extendAbbreviations(newAbbreviation)`: `Abbreviations[key] = true` for the trimmed, lowercased key. */
    method ExtendAbbreviations(newAbbreviation: string)
      modifies this
      ensures var key := Trim(Lower(newAbbreviation));
              && abbreviations == AssignTrue(old(abbreviations), key)
              && properties == if IsArrayIndex(key) || key == "length" then old(properties)
                               else old(properties) + {key}
    {
      var key := Trim(Lower(newAbbreviation));
      if IsArrayIndex(key) || key == "length" {
        abbreviations := AssignTrue(abbreviations, key);
      } else {
        properties := properties + {key};
      }
    }

    /** `grabSentences(text)`: one pass over the text, pushing each accepted sentence. */
    method GrabSentences(text: string) returns (sentences: seq<string>)
      ensures sentences == Segment(abbreviations, text)
    {
      var abbrevs := abbreviations;
      sentences := [];
      var pos := 0;
      for i := 0 to |text|
        invariant pos <= i
        invariant sentences + SentencesOf(text, Scan(Boundary(abbrevs, text), |text|, pos, i)) == Segment(abbrevs, text)
      {
        ScanAdvance(abbrevs, text, pos, i);
        var isPunctuation := IsDivider(text[i]);
        var checkNext := NextQualifies(text, i);
        var lastIsAbbreviation := IsAbbreviation(abbrevs, ExaminedWord(text, pos, i));
        if isPunctuation && checkNext && !lastIsAbbreviation {
          var sliceEnd := if |text| < i + 1 then |text| else i + 1;
          var sentence := Trim(text[pos..sliceEnd]);
          PushThenRest(sentences, sentence, SentencesOf(text, Scan(Boundary(abbrevs, text), |text|, i + 1, i + 1)));
          sentences := sentences + [sentence];
          pos := i + 1;
        }
      }
    }
  }
}
