/**
 * The older word-by-word sentence splitter (`getSentences` in utils/strUtils.js): the text is
 * split on single spaces, words are collected until one ends in `.`, `?` or `!`, and words left
 * over at the end become a last sentence closed with " .".
 */
module LegacySplitter {
  import opened JsText

  /**
   * `words[w].at(-1)` is `.`, `?` or `!`. The source also accepts an end character equal to "",
   * which `at(-1)` never returns (an empty word gives `undefined`), so empty words never end a
   * sentence.
   */
  predicate EndsSentence(word: string) {
    |word| > 0 && (word[|word| - 1] == '.' || word[|word| - 1] == '?' || word[|word| - 1] == '!')
  }

  /** The pending sentence after collecting `words[a..e]`: each word followed by one space. */
  function Spaced(words: seq<string>, a: nat, e: nat): string
    requires a <= e <= |words|
    decreases e - a
  {
    if a == e then "" else Spaced(words, a, e - 1) + words[e - 1] + " "
  }

  /** The sentences produced from word `w` on, with the pending sentence holding `words[a..w]`. */
  function GroupFrom(words: seq<string>, a: nat, w: nat): seq<string>
    requires a <= w <= |words|
    decreases |words| - w
  {
    if w == |words| then
      if a < w then [Spaced(words, a, w) + "."] else []
    else if EndsSentence(words[w]) then
      [Spaced(words, a, w) + words[w]] + GroupFrom(words, w + 1, w + 1)
    else GroupFrom(words, a, w + 1)
  }

  /** The result of `getSentences(text)`. */
  function LegacySentences(text: string): seq<string> {
    GroupFrom(Split(text, ' '), 0, 0)
  }

  /** Text that does not end a sentence gets " ." appended. */
  function Closing(words: seq<string>): string {
    if |words| > 0 && EndsSentence(words[|words| - 1]) then "" else " ."
  }

  lemma EndsSentenceAfter(prefix: string, x: string)
    requires EndsSentence(x)
    ensures EndsSentence(prefix + x)
  {
    assert (prefix + x)[|prefix + x| - 1] == x[|x| - 1];
  }

  /** Every sentence ends in `.`, `?` or `!`. */
  lemma {:induction false} GroupFromEnds(words: seq<string>, a: nat, w: nat)
    requires a <= w <= |words|
    ensures forall k :: 0 <= k < |GroupFrom(words, a, w)| ==> EndsSentence(GroupFrom(words, a, w)[k])
    decreases |words| - w
  {
    if w == |words| {
      EndsSentenceAfter(Spaced(words, a, w), ".");
    } else if EndsSentence(words[w]) {
      GroupFromEnds(words, w + 1, w + 1);
      EndsSentenceAfter(Spaced(words, a, w), words[w]);
      var rest := GroupFrom(words, w + 1, w + 1);
      var g := [Spaced(words, a, w) + words[w]] + rest;
      assert g == GroupFrom(words, a, w);
      forall k | 0 <= k < |g|
        ensures EndsSentence(g[k])
      {
        if k > 0 {
          assert g[k] == rest[k - 1];
        }
      }
    } else {
      GroupFromEnds(words, a, w + 1);
    }
  }

  lemma {:induction false} GroupFromNonEmpty(words: seq<string>, a: nat, w: nat)
    requires a <= w < |words|
    ensures |GroupFrom(words, a, w)| > 0
    decreases |words| - w
  {
    if !EndsSentence(words[w]) && w + 1 < |words| {
      GroupFromNonEmpty(words, a, w + 1);
    }
  }

  lemma Regroup(p: string, x: string, r: string, c: string)
    ensures (p + x + " ") + (r + c) == p + (x + " " + r) + c
    ensures (p + x + " ") + r + c == p + (x + " " + r) + c
  {
  }

  /** Closing at word `w`: the sentence `pending + words[w]` comes first. */
  lemma GroupFromJoinEnds(words: seq<string>, a: nat, w: nat)
    requires a <= w && w + 1 < |words| && EndsSentence(words[w])
    requires Join(GroupFrom(words, w + 1, w + 1), " ") == Join(words[w + 1..], " ") + Closing(words)
    ensures Join(GroupFrom(words, a, w), " ") == Spaced(words, a, w) + Join(words[w..], " ") + Closing(words)
  {
    var pending := Spaced(words, a, w);
    var rest := GroupFrom(words, w + 1, w + 1);
    GroupFromNonEmpty(words, w + 1, w + 1);
    JoinCons(pending + words[w], rest, " ");
    assert words[w..] == [words[w]] + words[w + 1..];
    JoinCons(words[w], words[w + 1..], " ");
    Regroup(pending, words[w], Join(words[w + 1..], " "), Closing(words));
  }

  /** Collecting word `w` into the pending sentence. */
  lemma GroupFromJoinCollect(words: seq<string>, a: nat, w: nat)
    requires a <= w && w + 1 < |words| && !EndsSentence(words[w])
    requires Join(GroupFrom(words, a, w + 1), " ")
             == Spaced(words, a, w + 1) + Join(words[w + 1..], " ") + Closing(words)
    ensures Join(GroupFrom(words, a, w), " ") == Spaced(words, a, w) + Join(words[w..], " ") + Closing(words)
  {
    assert words[w..] == [words[w]] + words[w + 1..];
    JoinCons(words[w], words[w + 1..], " ");
    Regroup(Spaced(words, a, w), words[w], Join(words[w + 1..], " "), Closing(words));
  }

  /** At the last word. */
  lemma GroupFromJoinLast(words: seq<string>, a: nat)
    requires a < |words|
    ensures var w := |words| - 1;
            Join(GroupFrom(words, a, w), " ") == Spaced(words, a, w) + Join(words[w..], " ") + Closing(words)
  {
    var w := |words| - 1;
    assert words[w..] == [words[w]];
    var pending := Spaced(words, a, w);
    if EndsSentence(words[w]) {
      assert GroupFrom(words, a, w) == [pending + words[w]];
      assert pending + words[w] + "" == pending + words[w];
    } else {
      assert GroupFrom(words, a, w) == [pending + words[w] + " " + "."];
      assert pending + words[w] + " " + "." == pending + words[w] + " .";
    }
  }

  /**
   * Joining the sentences from word `w` with single spaces gives the pending words, the
   * remaining words joined with single spaces, and " ." when the last word ends no sentence.
   */
  lemma {:induction false} GroupFromJoin(words: seq<string>, a: nat, w: nat)
    requires a <= w < |words|
    ensures Join(GroupFrom(words, a, w), " ") == Spaced(words, a, w) + Join(words[w..], " ") + Closing(words)
    decreases |words| - w
  {
    if w == |words| - 1 {
      GroupFromJoinLast(words, a);
    } else if EndsSentence(words[w]) {
      GroupFromJoin(words, w + 1, w + 1);
      assert Spaced(words, w + 1, w + 1) == "";
      assert "" + Join(words[w + 1..], " ") == Join(words[w + 1..], " ");
      GroupFromJoinEnds(words, a, w);
    } else {
      GroupFromJoin(words, a, w + 1);
      GroupFromJoinCollect(words, a, w);
    }
  }

  /**
   * `getSentences(text)` joined with single spaces is the text itself when its last
   * space-separated word ends in `.`, `?` or `!`, and the text followed by " ." otherwise.
   */
  lemma LegacySentencesJoin(text: string)
    ensures Join(LegacySentences(text), " ") == text + (if EndsSentence(LastPart(text, ' ')) then "" else " .")
  {
    var words := Split(text, ' ');
    SplitPrefixJoin(text, ' ', |text|);
    assert text[..|text|] == text;
    LastPartOfSplit(text, ' ');
    GroupFromJoin(words, 0, 0);
    assert words[0..] == words;
    assert "" + text == text;
  }

  /** Every sentence `getSentences` returns ends in `.`, `?` or `!`. */
  lemma LegacySentencesEnd(text: string)
    ensures forall k :: 0 <= k < |LegacySentences(text)| ==> EndsSentence(LegacySentences(text)[k])
  {
    GroupFromEnds(Split(text, ' '), 0, 0);
  }

  /** `getSentences(text)`. */
  method GetSentences(text: string) returns (sentences: seq<string>)
    ensures sentences == LegacySentences(text)
  {
    var words := Split(text, ' ');
    sentences := [];
    var sentence := "";
    var w := 0;
    // the word the pending sentence started at
    ghost var a := 0;
    while w < |words|
      invariant a <= w <= |words|
      invariant sentence == Spaced(words, a, w)
      invariant sentences + GroupFrom(words, a, w) == LegacySentences(text)
    {
      if EndsSentence(words[w]) {
        assert sentences + GroupFrom(words, a, w) == (sentences + [sentence + words[w]]) + GroupFrom(words, w + 1, w + 1);
        sentences := sentences + [sentence + words[w]];
        sentence := "";
        a := w + 1;
      } else {
        sentence := sentence + words[w] + " ";
      }
      w := w + 1;
    }
    if |sentence| > 0 {
      sentences := sentences + [sentence + "."];
    }
  }
}
