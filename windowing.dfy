/**
 * Token estimation and greedy windowing of sentences (`estTokens` and `windowSentences` in
 * utils/strUtils.js): consecutive sentences are packed, without separators, into windows whose
 * estimated token count stays within a budget; after a window closes the cursor moves back by
 * the overlap so that the next window repeats the last sentences of the previous one.
 */
module Windowing {
  import opened JsText

  /**
   * `estTokens(txt)`: `Math.ceil(0.25 * txt.length)`, the least count of four-code-unit tokens
   * covering the text (`txt.length` counts UTF-16 code units).
   */
  function EstTokens(txt: string): (r: nat)
    ensures 4 * r >= Utf16Length(txt)
    ensures 4 * r < Utf16Length(txt) + 4
  {
    (Utf16Length(txt) + 3) / 4
  }

  /** Three characters outside the Basic Multilingual Plane are six code units, hence two tokens. */
  lemma EstTokensCountsCodeUnits()
    ensures EstTokens("\U{1F600}\U{1F600}\U{1F600}") == 2
  {
    var s := "\U{1F600}\U{1F600}\U{1F600}";
    assert s[..2][..1][..0] == [];
    assert Utf16Length(s[..2][..1]) == 2;
    assert Utf16Length(s[..2]) == 4;
  }

  /** The estimated tokens of the sentences `ss[a..e]`. */
  function Tokens(ss: seq<string>, a: nat, e: nat): nat
    requires a <= e <= |ss|
    decreases e - a
  {
    if a == e then 0 else Tokens(ss, a, e - 1) + EstTokens(ss[e - 1])
  }

  /** The sentences `ss[a..e]` concatenated with no separator. */
  function Concat(ss: seq<string>, a: nat, e: nat): string
    requires a <= e <= |ss|
    decreases e - a
  {
    if a == e then "" else Concat(ss, a, e - 1) + ss[e - 1]
  }

  /** `Concat` is `ss[a..e].join("")`. */
  lemma {:induction false} ConcatIsJoin(ss: seq<string>, a: nat, e: nat)
    requires a <= e <= |ss|
    ensures Concat(ss, a, e) == Join(ss[a..e], "")
    decreases e - a
  {
    if a < e {
      ConcatIsJoin(ss, a, e - 1);
      assert ss[a..e] == ss[a..e - 1] + [ss[e - 1]];
      ConcatSnoc(ss[a..e - 1], ss[e - 1]);
    }
  }

  lemma {:induction false} TokensMonotone(ss: seq<string>, a: nat, e: nat, m: nat)
    requires a <= e <= m <= |ss|
    ensures Tokens(ss, a, e) <= Tokens(ss, a, m)
    decreases m - e
  {
    if e < m {
      TokensMonotone(ss, a, e, m - 1);
    }
  }

  /**
   * Where the window that starts at sentence `a` closes, continuing a scan that has reached `e`:
   * the first index whose sentence no longer fits, or the end of the sentences.
   */
  function GreedyEnd(ss: seq<string>, maxWindowTokens: int, a: nat, e: nat): (r: nat)
    requires a <= e <= |ss|
    ensures e <= r <= |ss|
    decreases |ss| - e
  {
    if e == |ss| || Tokens(ss, a, e) + EstTokens(ss[e]) > maxWindowTokens then e
    else GreedyEnd(ss, maxWindowTokens, a, e + 1)
  }

  /** The greedy end keeps the window within the budget and is maximal: the next sentence would exceed it. */
  lemma {:induction false} GreedyEndMeaning(ss: seq<string>, maxWindowTokens: int, a: nat, e: nat)
    requires a <= e <= |ss|
    ensures var r := GreedyEnd(ss, maxWindowTokens, a, e);
            && (Tokens(ss, a, e) <= maxWindowTokens ==> Tokens(ss, a, r) <= maxWindowTokens)
            && (r < |ss| ==> Tokens(ss, a, r) + EstTokens(ss[r]) > maxWindowTokens)
    decreases |ss| - e
  {
    if !(e == |ss| || Tokens(ss, a, e) + EstTokens(ss[e]) > maxWindowTokens) {
      GreedyEndMeaning(ss, maxWindowTokens, a, e + 1);
    }
  }

  /** The greedy end reaches every index up to which the window still fits. */
  lemma {:induction false} GreedyEndReaches(ss: seq<string>, maxWindowTokens: int, a: nat, e: nat, m: nat)
    requires a <= e <= m <= |ss|
    requires Tokens(ss, a, m) <= maxWindowTokens
    ensures GreedyEnd(ss, maxWindowTokens, a, e) >= m
    decreases m - e
  {
    if e < m {
      TokensMonotone(ss, a, e + 1, m);
      GreedyEndReaches(ss, maxWindowTokens, a, e + 1, m);
    }
  }

  /** Where the cursor goes when a window closes at `e`: back by the overlap only while that stays above index 0. */
  function Next(e: nat, sentenceOverlap: int): nat {
    if e - sentenceOverlap > 0 then e - sentenceOverlap else e
  }

  /** How many sentences every window must be able to hold for the cursor to advance. */
  function RunLength(sentenceOverlap: int): nat {
    if sentenceOverlap > 0 then sentenceOverlap + 1 else 1
  }

  function RunEnd(ss: seq<string>, j: nat, sentenceOverlap: int): nat {
    if j + RunLength(sentenceOverlap) <= |ss| then j + RunLength(sentenceOverlap) else |ss|
  }

  /**
   * Every run of `RunLength` consecutive sentences (cut at the end) fits the budget. Under this
   * condition `windowSentences` terminates; without it one sentence above the budget makes it
   * push empty windows forever.
   */
  predicate RunsFit(ss: seq<string>, maxWindowTokens: int, sentenceOverlap: int) {
    forall j :: 0 <= j < |ss| ==> j <= RunEnd(ss, j, sentenceOverlap) && Tokens(ss, j, RunEnd(ss, j, sentenceOverlap)) <= maxWindowTokens
  }

  /** Under `RunsFit` every window holds a sentence, and the cursor after a closed window is past its start. */
  lemma WindowProgress(ss: seq<string>, maxWindowTokens: int, sentenceOverlap: int, a: nat)
    requires RunsFit(ss, maxWindowTokens, sentenceOverlap)
    requires a < |ss|
    ensures var e := GreedyEnd(ss, maxWindowTokens, a, a);
            && a < e
            && (e < |ss| ==> a < Next(e, sentenceOverlap))
  {
    var m := RunEnd(ss, a, sentenceOverlap);
    assert Tokens(ss, a, m) <= maxWindowTokens;
    GreedyEndReaches(ss, maxWindowTokens, a, a, m);
  }

  /** A first sentence above the budget closes an empty window, and a non-negative overlap never moves the cursor past it. */
  lemma OversizedSentenceStalls(ss: seq<string>, maxWindowTokens: int, sentenceOverlap: int, a: nat)
    requires a < |ss| && EstTokens(ss[a]) > maxWindowTokens
    requires sentenceOverlap >= 0
    ensures GreedyEnd(ss, maxWindowTokens, a, a) == a
    ensures Concat(ss, a, a) == ""
    ensures Next(a, sentenceOverlap) <= a
  {
  }

  /** The sentence ranges of the windows pushed from window start `a` on. */
  function WindowSpansFrom(ss: seq<string>, maxWindowTokens: int, sentenceOverlap: int, a: nat): seq<Span>
    requires RunsFit(ss, maxWindowTokens, sentenceOverlap)
    decreases |ss| - a
  {
    if a >= |ss| then []
    else
      var e := GreedyEnd(ss, maxWindowTokens, a, a);
      if e == |ss| then
        if |Concat(ss, a, e)| > 0 then [Span(a, e)] else []
      else
        WindowProgress(ss, maxWindowTokens, sentenceOverlap, a);
        [Span(a, e)] + WindowSpansFrom(ss, maxWindowTokens, sentenceOverlap, Next(e, sentenceOverlap))
  }

  /** The text of a window over the sentence range `sp` (empty for a range outside the sentences). */
  function WindowText(ss: seq<string>, sp: Span): string {
    if sp.start <= sp.end <= |ss| then Concat(ss, sp.start, sp.end) else ""
  }

  function Texts(ss: seq<string>, spans: seq<Span>): seq<string> {
    seq(|spans|, k requires 0 <= k < |spans| => WindowText(ss, spans[k]))
  }

  function WindowSpans(ss: seq<string>, maxWindowTokens: int, sentenceOverlap: int): seq<Span>
    requires RunsFit(ss, maxWindowTokens, sentenceOverlap)
  {
    WindowSpansFrom(ss, maxWindowTokens, sentenceOverlap, 0)
  }

  /** The result of `windowSentences(ss, maxWindowTokens, sentenceOverlap)`. */
  function Windows(ss: seq<string>, maxWindowTokens: int, sentenceOverlap: int): seq<string>
    requires RunsFit(ss, maxWindowTokens, sentenceOverlap)
  {
    Texts(ss, WindowSpans(ss, maxWindowTokens, sentenceOverlap))
  }

  /** One window's range: inside the sentences, non-empty, within the budget and greedily maximal. */
  predicate GreedyWindow(ss: seq<string>, maxWindowTokens: int, sp: Span) {
    && sp.start < sp.end <= |ss|
    && Tokens(ss, sp.start, sp.end) <= maxWindowTokens
    && (sp.end < |ss| ==> Tokens(ss, sp.start, sp.end) + EstTokens(ss[sp.end]) > maxWindowTokens)
  }

  /**
   * Nothing remains to be windowed from cursor `c`: the cursor is past the last sentence, or the
   * window opened there takes every remaining sentence and its text is empty.
   */
  predicate NothingLeft(ss: seq<string>, maxWindowTokens: int, c: int) {
    c >= |ss| || (0 <= c && GreedyEnd(ss, maxWindowTokens, c, c) == |ss| && Concat(ss, c, |ss|) == "")
  }

  /**
   * Every window is the concatenation of consecutive sentences that fits the budget and could not
   * take the next sentence; each window after the first starts where the cursor was rewound to;
   * only the last window can end at the last sentence, and it is pushed only when non-empty.
   */
  lemma {:induction false} WindowSpansFromMeaning(ss: seq<string>, maxWindowTokens: int, sentenceOverlap: int, a: nat)
    requires RunsFit(ss, maxWindowTokens, sentenceOverlap)
    ensures var spans := WindowSpansFrom(ss, maxWindowTokens, sentenceOverlap, a);
            && (|spans| > 0 ==> spans[0].start == a)
            && (forall k :: 0 <= k < |spans| ==> GreedyWindow(ss, maxWindowTokens, spans[k]))
            && (forall k :: 0 <= k < |spans| - 1 ==>
                  spans[k].end < |ss| && spans[k + 1].start == Next(spans[k].end, sentenceOverlap))
            && (|spans| > 0 && spans[|spans| - 1].end == |ss| ==> |WindowText(ss, spans[|spans| - 1])| > 0)
    decreases |ss| - a
  {
    if a < |ss| {
      var e := GreedyEnd(ss, maxWindowTokens, a, a);
      WindowProgress(ss, maxWindowTokens, sentenceOverlap, a);
      GreedyEndMeaning(ss, maxWindowTokens, a, a);
      if e < |ss| {
        var b := Next(e, sentenceOverlap);
        WindowSpansFromMeaning(ss, maxWindowTokens, sentenceOverlap, b);
        var rest := WindowSpansFrom(ss, maxWindowTokens, sentenceOverlap, b);
        var spans := [Span(a, e)] + rest;
        assert spans == WindowSpansFrom(ss, maxWindowTokens, sentenceOverlap, a);
        assert GreedyWindow(ss, maxWindowTokens, spans[0]);
        forall k | 1 <= k < |spans|
          ensures GreedyWindow(ss, maxWindowTokens, spans[k])
        {
          assert spans[k] == rest[k - 1];
        }
        forall k | 0 <= k < |spans| - 1
          ensures spans[k].end < |ss| && spans[k + 1].start == Next(spans[k].end, sentenceOverlap)
        {
          if k > 0 {
            assert spans[k] == rest[k - 1] && spans[k + 1] == rest[k];
          }
        }
      }
    }
  }

  /**
   * The windows reach the end: when the last window stops short of the last sentence (or there
   * is none), nothing is left from the cursor after it.
   */
  lemma {:induction false} WindowSpansFromReachEnd(ss: seq<string>, maxWindowTokens: int, sentenceOverlap: int, a: nat)
    requires RunsFit(ss, maxWindowTokens, sentenceOverlap)
    ensures var spans := WindowSpansFrom(ss, maxWindowTokens, sentenceOverlap, a);
            && (|spans| == 0 ==> NothingLeft(ss, maxWindowTokens, a))
            && (|spans| > 0 && spans[|spans| - 1].end < |ss| ==>
                  NothingLeft(ss, maxWindowTokens, Next(spans[|spans| - 1].end, sentenceOverlap)))
    decreases |ss| - a
  {
    if a < |ss| {
      var e := GreedyEnd(ss, maxWindowTokens, a, a);
      WindowProgress(ss, maxWindowTokens, sentenceOverlap, a);
      if e < |ss| {
        var b := Next(e, sentenceOverlap);
        WindowSpansFromReachEnd(ss, maxWindowTokens, sentenceOverlap, b);
        var rest := WindowSpansFrom(ss, maxWindowTokens, sentenceOverlap, b);
        var spans := [Span(a, e)] + rest;
        assert spans == WindowSpansFrom(ss, maxWindowTokens, sentenceOverlap, a);
        if |rest| > 0 {
          assert spans[|spans| - 1] == rest[|rest| - 1];
        }
      }
    }
  }

  lemma WindowsMeaning(ss: seq<string>, maxWindowTokens: int, sentenceOverlap: int)
    requires RunsFit(ss, maxWindowTokens, sentenceOverlap)
    ensures var spans := WindowSpans(ss, maxWindowTokens, sentenceOverlap);
            var windows := Windows(ss, maxWindowTokens, sentenceOverlap);
            && |windows| == |spans|
            && (forall k :: 0 <= k < |spans| ==>
                  GreedyWindow(ss, maxWindowTokens, spans[k])
                  && windows[k] == Join(ss[spans[k].start..spans[k].end], ""))
            && (|spans| > 0 ==> spans[0].start == 0)
            && (forall k :: 0 <= k < |spans| - 1 ==>
                  spans[k].end < |ss| && spans[k + 1].start == Next(spans[k].end, sentenceOverlap))
            && (|spans| > 0 && spans[|spans| - 1].end == |ss| ==> |windows[|spans| - 1]| > 0)
            && (|spans| == 0 ==> NothingLeft(ss, maxWindowTokens, 0))
            && (|spans| > 0 && spans[|spans| - 1].end < |ss| ==>
                  NothingLeft(ss, maxWindowTokens, Next(spans[|spans| - 1].end, sentenceOverlap)))
  {
    var spans := WindowSpans(ss, maxWindowTokens, sentenceOverlap);
    WindowSpansFromMeaning(ss, maxWindowTokens, sentenceOverlap, 0);
    WindowSpansFromReachEnd(ss, maxWindowTokens, sentenceOverlap, 0);
    forall k | 0 <= k < |spans|
      ensures Windows(ss, maxWindowTokens, sentenceOverlap)[k] == Join(ss[spans[k].start..spans[k].end], "")
    {
      assert GreedyWindow(ss, maxWindowTokens, spans[k]);
      ConcatIsJoin(ss, spans[k].start, spans[k].end);
    }
  }

  lemma TextsCons(ss: seq<string>, sp: Span, rest: seq<Span>)
    ensures Texts(ss, [sp] + rest) == [WindowText(ss, sp)] + Texts(ss, rest)
  {
  }

  /** A window that closes at `i` is followed by the windows from the rewound cursor. */
  lemma WindowCloses(ss: seq<string>, maxWindowTokens: int, sentenceOverlap: int, a: nat, i: nat)
    requires RunsFit(ss, maxWindowTokens, sentenceOverlap)
    requires a <= i < |ss|
    requires GreedyEnd(ss, maxWindowTokens, a, i) == GreedyEnd(ss, maxWindowTokens, a, a)
    requires Tokens(ss, a, i) + EstTokens(ss[i]) > maxWindowTokens
    ensures a < Next(i, sentenceOverlap)
    ensures Texts(ss, WindowSpansFrom(ss, maxWindowTokens, sentenceOverlap, a))
            == [Concat(ss, a, i)] + Texts(ss, WindowSpansFrom(ss, maxWindowTokens, sentenceOverlap, Next(i, sentenceOverlap)))
  {
    WindowProgress(ss, maxWindowTokens, sentenceOverlap, a);
    TextsCons(ss, Span(a, i), WindowSpansFrom(ss, maxWindowTokens, sentenceOverlap, Next(i, sentenceOverlap)));
  }

  /** A sentence that fits extends the window, its token count and nothing else. */
  lemma WindowGrows(ss: seq<string>, maxWindowTokens: int, a: nat, i: nat)
    requires a <= i < |ss|
    requires Tokens(ss, a, i) + EstTokens(ss[i]) <= maxWindowTokens
    ensures GreedyEnd(ss, maxWindowTokens, a, i + 1) == GreedyEnd(ss, maxWindowTokens, a, i)
    ensures Concat(ss, a, i + 1) == Concat(ss, a, i) + ss[i]
    ensures Tokens(ss, a, i + 1) == Tokens(ss, a, i) + EstTokens(ss[i])
  {
  }

  /** Once the cursor reaches the end, only the current window is left, and only if it is non-empty. */
  lemma WindowsAtEnd(ss: seq<string>, maxWindowTokens: int, sentenceOverlap: int, a: nat)
    requires RunsFit(ss, maxWindowTokens, sentenceOverlap)
    requires a <= |ss|
    requires GreedyEnd(ss, maxWindowTokens, a, |ss|) == GreedyEnd(ss, maxWindowTokens, a, a)
    ensures Texts(ss, WindowSpansFrom(ss, maxWindowTokens, sentenceOverlap, a))
            == if |Concat(ss, a, |ss|)| > 0 then [Concat(ss, a, |ss|)] else []
  {
    if a < |ss| && |Concat(ss, a, |ss|)| > 0 {
      TextsCons(ss, Span(a, |ss|), []);
    }
  }

  /** `windowSentences(sentences, maxWindowTokens, sentenceOverlap)`. */
  method WindowSentences(sentences: seq<string>, maxWindowTokens: int, sentenceOverlap: int := 2)
    returns (windows: seq<string>)
    requires RunsFit(sentences, maxWindowTokens, sentenceOverlap)
    ensures windows == Windows(sentences, maxWindowTokens, sentenceOverlap)
  {
    windows := [];
    var window := "";
    var i: nat := 0;
    var currTokens := 0;
    // the sentence the current window started at
    ghost var a: nat := 0;
    ghost var all := Windows(sentences, maxWindowTokens, sentenceOverlap);
    while i < |sentences|
      invariant a <= i
      invariant i <= |sentences| || (a == i && window == "")
      invariant i <= |sentences| ==> window == Concat(sentences, a, i) && currTokens == Tokens(sentences, a, i)
      invariant i <= |sentences| ==>
                  GreedyEnd(sentences, maxWindowTokens, a, i) == GreedyEnd(sentences, maxWindowTokens, a, a)
      invariant windows + Texts(sentences, WindowSpansFrom(sentences, maxWindowTokens, sentenceOverlap, a))
                == all
      decreases |sentences| - a, |sentences| - i
    {
      var newTokens := EstTokens(sentences[i]);
      if currTokens + newTokens > maxWindowTokens {
        WindowCloses(sentences, maxWindowTokens, sentenceOverlap, a, i);
        ghost var b := Next(i, sentenceOverlap);
        PushThenRest(windows, window, Texts(sentences, WindowSpansFrom(sentences, maxWindowTokens, sentenceOverlap, b)));
        windows := windows + [window];
        window := "";
        currTokens := 0;
        if i - sentenceOverlap > 0 {
          i := i - sentenceOverlap;
        }
        assert i == b;
        a := i;
      } else {
        WindowGrows(sentences, maxWindowTokens, a, i);
        currTokens := currTokens + newTokens;
        window := window + sentences[i];
        i := i + 1;
      }
    }
    if i == |sentences| {
      WindowsAtEnd(sentences, maxWindowTokens, sentenceOverlap, a);
    }
    if |window| > 0 {
      windows := windows + [window];
    }
  }
}
