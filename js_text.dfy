/**
 * The JavaScript string operations the pipeline relies on, over `string` (a sequence of
 * characters): `trim`, `split` on a one-character separator, `Array.prototype.join` and an
 * ASCII `toLowerCase`.
 */
module JsText {

  /** A half-open index range `[start, end)` into a sequence. */
  datatype Span = Span(start: nat, end: nat)

  /** The WhiteSpace and LineTerminator code points, which `String.prototype.trim` removes. */
  predicate IsWhitespace(c: char) {
    || c == ' ' || c == '\t' || c == '\n' || c == '\r' || c == '\U{B}' || c == '\U{C}'
    || c == '\U{A0}' || c == '\U{1680}' || ('\U{2000}' <= c <= '\U{200A}')
    || c == '\U{2028}' || c == '\U{2029}' || c == '\U{202F}' || c == '\U{205F}'
    || c == '\U{3000}' || c == '\U{FEFF}'
  }

  /** The first index at or after `k` that holds no whitespace, or `|s|`. */
  function TrimStart(s: string, k: nat): (r: nat)
    requires k <= |s|
    ensures k <= r <= |s|
    decreases |s| - k
  {
    if k < |s| && IsWhitespace(s[k]) then TrimStart(s, k + 1) else k
  }

  /** The end of the text before the whitespace that ends `s[lo..k]`. */
  function TrimEnd(s: string, lo: nat, k: nat): (r: nat)
    requires lo <= k <= |s|
    ensures lo <= r <= k
    decreases k
  {
    if k > lo && IsWhitespace(s[k - 1]) then TrimEnd(s, lo, k - 1) else k
  }

  /** `s.trim()`: whitespace removed from both ends. */
  function Trim(s: string): string {
    var a := TrimStart(s, 0);
    s[a..TrimEnd(s, a, |s|)]
  }

  /** `TrimStart` skips only whitespace and stops at the first other character. */
  lemma {:induction false} TrimStartMeaning(s: string, k: nat)
    requires k <= |s|
    ensures var r := TrimStart(s, k);
            && (forall j :: k <= j < r ==> IsWhitespace(s[j]))
            && (r < |s| ==> !IsWhitespace(s[r]))
    decreases |s| - k
  {
    if k < |s| && IsWhitespace(s[k]) {
      TrimStartMeaning(s, k + 1);
    }
  }

  /** `TrimEnd` drops only whitespace and stops after the last other character. */
  lemma {:induction false} TrimEndMeaning(s: string, lo: nat, k: nat)
    requires lo <= k <= |s|
    ensures var r := TrimEnd(s, lo, k);
            && (forall j :: r <= j < k ==> IsWhitespace(s[j]))
            && (r > lo ==> !IsWhitespace(s[r - 1]))
    decreases k
  {
    if k > lo && IsWhitespace(s[k - 1]) {
      TrimEndMeaning(s, lo, k - 1);
    }
  }

  /**
   * `trim` keeps one contiguous part `s[a..b]` of the string, removes only whitespace around
   * it, and leaves no whitespace at either end of what it keeps.
   */
  lemma TrimMeaning(s: string)
    ensures var a := TrimStart(s, 0);
            var b := TrimEnd(s, a, |s|);
            && Trim(s) == s[a..b]
            && (forall k :: 0 <= k < a ==> IsWhitespace(s[k]))
            && (forall k :: b <= k < |s| ==> IsWhitespace(s[k]))
            && (a < b ==> !IsWhitespace(s[a]) && !IsWhitespace(s[b - 1]))
  {
    var a := TrimStart(s, 0);
    TrimStartMeaning(s, 0);
    TrimEndMeaning(s, a, |s|);
  }

  /** A string that ends in a non-whitespace character still ends in it once trimmed. */
  lemma TrimKeepsLast(s: string)
    requires |s| > 0 && !IsWhitespace(s[|s| - 1])
    ensures |Trim(s)| > 0 && Trim(s)[|Trim(s)| - 1] == s[|s| - 1]
  {
    TrimStartMeaning(s, 0);
  }

  /** `parts.join(sep)`; the empty array joins to the empty string. */
  function Join(parts: seq<string>, sep: string): string
    decreases |parts|
  {
    if |parts| == 0 then ""
    else if |parts| == 1 then parts[0]
    else Join(parts[..|parts| - 1], sep) + sep + parts[|parts| - 1]
  }

  lemma JoinSnoc(parts: seq<string>, x: string, sep: string)
    requires |parts| > 0
    ensures Join(parts + [x], sep) == Join(parts, sep) + sep + x
  {
    assert (parts + [x])[..|parts|] == parts;
  }

  lemma ConcatSnoc(parts: seq<string>, x: string)
    ensures Join(parts + [x], "") == Join(parts, "") + x
  {
    if |parts| > 0 {
      JoinSnoc(parts, x, "");
    }
  }

  /** Concatenation (joining with no separator) distributes over a leading part. */
  lemma {:induction false} ConcatCons(x: string, parts: seq<string>)
    ensures Join([x] + parts, "") == x + Join(parts, "")
    decreases |parts|
  {
    if |parts| > 0 {
      var front := parts[..|parts| - 1];
      var last := parts[|parts| - 1];
      assert parts == front + [last];
      assert [x] + parts == ([x] + front) + [last];
      ConcatSnoc([x] + front, last);
      ConcatSnoc(front, last);
      ConcatCons(x, front);
    }
  }

  /** Joining distributes over a leading part when more parts follow. */
  lemma {:induction false} JoinCons(x: string, parts: seq<string>, sep: string)
    requires |parts| > 0
    ensures Join([x] + parts, sep) == x + sep + Join(parts, sep)
    decreases |parts|
  {
    if |parts| > 1 {
      var front := parts[..|parts| - 1];
      var last := parts[|parts| - 1];
      assert parts == front + [last];
      assert [x] + parts == ([x] + front) + [last];
      JoinSnoc([x] + front, last, sep);
      JoinSnoc(front, last, sep);
      JoinCons(x, front, sep);
    } else {
      assert [x] + parts == [x] + [] + [parts[0]];
      JoinSnoc([x], parts[0], sep);
    }
  }

  /** Appending to the last part appends to the joined string. */
  lemma JoinExtendLast(parts: seq<string>, t: string, x: string, sep: string)
    ensures Join(parts + [t + x], sep) == Join(parts + [t], sep) + x
  {
    if |parts| > 0 {
      JoinSnoc(parts, t + x, sep);
      JoinSnoc(parts, t, sep);
    }
  }

  /** Pushing a string and then following with more is following with the string and more. */
  lemma PushThenRest(done: seq<string>, x: string, rest: seq<string>)
    ensures (done + [x]) + rest == done + ([x] + rest)
  {
  }

  /** The pieces of `s[..k].split(sep)` for a one-character separator. */
  function SplitPrefix(s: string, sep: char, k: nat): (parts: seq<string>)
    requires k <= |s|
    ensures |parts| >= 1
    decreases k
  {
    if k == 0 then [""]
    else
      var init := SplitPrefix(s, sep, k - 1);
      if s[k - 1] == sep then init + [""]
      else init[..|init| - 1] + [init[|init| - 1] + [s[k - 1]]]
  }

  /** `s.split(sep)`: the pieces between separators. */
  function Split(s: string, sep: char): seq<string> {
    SplitPrefix(s, sep, |s|)
  }

  /** No piece of `SplitPrefix` contains the separator. */
  lemma {:induction false} SplitPrefixNoSeparator(s: string, sep: char, k: nat)
    requires k <= |s|
    ensures forall j :: 0 <= j < |SplitPrefix(s, sep, k)| ==> sep !in SplitPrefix(s, sep, k)[j]
    decreases k
  {
    if k > 0 {
      var init := SplitPrefix(s, sep, k - 1);
      SplitPrefixNoSeparator(s, sep, k - 1);
      if s[k - 1] != sep {
        var front := init[..|init| - 1];
        var parts := front + [init[|init| - 1] + [s[k - 1]]];
        assert parts == SplitPrefix(s, sep, k);
        forall j | 0 <= j < |parts|
          ensures sep !in parts[j]
        {
          if j < |front| {
            assert parts[j] == init[j];
          } else {
            assert parts[j] == init[|init| - 1] + [s[k - 1]];
            assert sep !in init[|init| - 1];
          }
        }
      }
    }
  }

  /** Joining the pieces of `SplitPrefix` with the separator gives back `s[..k]`. */
  lemma {:induction false} SplitPrefixJoin(s: string, sep: char, k: nat)
    requires k <= |s|
    ensures Join(SplitPrefix(s, sep, k), [sep]) == s[..k]
    decreases k
  {
    if k > 0 {
      var init := SplitPrefix(s, sep, k - 1);
      SplitPrefixJoin(s, sep, k - 1);
      var c := s[k - 1];
      assert s[..k] == s[..k - 1] + [c];
      if c == sep {
        JoinSnoc(init, "", [sep]);
      } else {
        var front := init[..|init| - 1];
        assert init == front + [init[|init| - 1]];
        JoinExtendLast(front, init[|init| - 1], [c], [sep]);
      }
    }
  }

  /** `SplitPrefix` has more than one piece exactly when the separator occurs in `s[..k]`. */
  lemma {:induction false} SplitPrefixCount(s: string, sep: char, k: nat)
    requires k <= |s|
    ensures |SplitPrefix(s, sep, k)| > 1 <==> sep in s[..k]
    decreases k
  {
    if k > 0 {
      SplitPrefixCount(s, sep, k - 1);
      assert s[..k] == s[..k - 1] + [s[k - 1]];
    }
  }

  /** `Split` inverts joining with the separator, and splits exactly where the separator occurs. */
  lemma SplitMeaning(s: string, sep: char)
    ensures var parts := Split(s, sep);
            && |parts| >= 1
            && (forall j :: 0 <= j < |parts| ==> sep !in parts[j])
            && Join(parts, [sep]) == s
            && (|parts| > 1 <==> sep in s)
  {
    SplitPrefixNoSeparator(s, sep, |s|);
    SplitPrefixJoin(s, sep, |s|);
    SplitPrefixCount(s, sep, |s|);
    assert s[..|s|] == s;
  }

  /** Where the run of non-separator characters that ends at `k` starts. */
  function LastPartStart(s: string, sep: char, k: nat): (r: nat)
    requires k <= |s|
    ensures r <= k
    decreases k
  {
    if k > 0 && s[k - 1] != sep then LastPartStart(s, sep, k - 1) else k
  }

  /** The characters after the last separator: what `s.split(sep).at(-1)` reads. */
  function LastPart(s: string, sep: char): string {
    s[LastPartStart(s, sep, |s|)..]
  }

  /** `LastPart` is the last element of `Split`. */
  lemma {:induction false} LastPartOfSplitPrefix(s: string, sep: char, k: nat)
    requires k <= |s|
    ensures var parts := SplitPrefix(s, sep, k);
            parts[|parts| - 1] == s[LastPartStart(s, sep, k)..k]
    decreases k
  {
    if k > 0 && s[k - 1] != sep {
      LastPartOfSplitPrefix(s, sep, k - 1);
      assert s[LastPartStart(s, sep, k)..k] == s[LastPartStart(s, sep, k - 1)..k - 1] + [s[k - 1]];
    }
  }

  lemma LastPartOfSplit(s: string, sep: char)
    ensures var parts := Split(s, sep);
            parts[|parts| - 1] == LastPart(s, sep)
  {
    LastPartOfSplitPrefix(s, sep, |s|);
  }

  function LowerChar(c: char): char {
    if 'A' <= c <= 'Z' then (c as int + 32) as char else c
  }

  /** `s.toLowerCase()` on the ASCII letters. */
  function Lower(s: string): (r: string)
    ensures |r| == |s|
    decreases |s|
  {
    if s == [] then [] else Lower(s[..|s| - 1]) + [LowerChar(s[|s| - 1])]
  }

  /** The number of UTF-16 code units of a character: two for one outside the Basic Multilingual Plane. */
  function Utf16Width(c: char): nat {
    if c as int > 0xFFFF then 2 else 1
  }

  /** `s.length` in JavaScript: the number of UTF-16 code units of `s`. */
  function Utf16Length(s: string): nat
    decreases |s|
  {
    if s == [] then 0 else Utf16Length(s[..|s| - 1]) + Utf16Width(s[|s| - 1])
  }

  /** A string has at least one and at most two code units per character. */
  lemma {:induction false} Utf16LengthBounds(s: string)
    ensures |s| <= Utf16Length(s) <= 2 * |s|
    decreases |s|
  {
    if s != [] {
      Utf16LengthBounds(s[..|s| - 1]);
    }
  }

  /** Appending a character adds its code units. */
  lemma Utf16LengthSnoc(s: string, c: char)
    ensures Utf16Length(s + [c]) == Utf16Length(s) + Utf16Width(c)
  {
    assert (s + [c])[..|s|] == s;
  }

  /** The code-unit length is the character count exactly when every character is in the Basic Multilingual Plane. */
  lemma {:induction false} Utf16LengthIsCount(s: string)
    ensures Utf16Length(s) == |s| <==> forall i :: 0 <= i < |s| ==> s[i] as int <= 0xFFFF
    decreases |s|
  {
    if s != [] {
      var init := s[..|s| - 1];
      Utf16LengthIsCount(init);
      Utf16LengthBounds(init);
      if forall i :: 0 <= i < |s| ==> s[i] as int <= 0xFFFF {
        forall i | 0 <= i < |init|
          ensures init[i] as int <= 0xFFFF
        {
          assert init[i] == s[i];
        }
      } else {
        var i :| 0 <= i < |s| && s[i] as int > 0xFFFF;
        if i < |init| {
          assert init[i] == s[i];
        }
      }
    }
  }
}
