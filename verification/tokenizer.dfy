/**
  The read-aloud page's tokenizer, `text.split(/(\s+)/)`: splitting on runs of
  white space with a capturing group keeps every run as a token of its own, so
  word runs and white-space runs alternate and nothing of the text is lost.
 */
module Tokenizer {
  import opened JsRuntime

  /** Length of the longest prefix of `s` without white space. */
  function WordRun(s: string): (n: nat)
    ensures n <= |s| && NoSpace(s[..n])
    ensures forall i :: 0 <= i < n ==> !IsSpace(s[i])
    ensures n < |s| ==> IsSpace(s[n])
  {
    if |s| == 0 || IsSpace(s[0]) then 0
    else
      var n := 1 + WordRun(s[1..]);
      assert s[..n] == [s[0]] + s[1..][..n - 1];
      n
  }

  /** Length of the longest prefix of `s` made only of white space. */
  function SpaceRun(s: string): (n: nat)
    ensures n <= |s| && AllSpace(s[..n])
    ensures forall i :: 0 <= i < n ==> IsSpace(s[i])
    ensures n < |s| ==> !IsSpace(s[n])
  {
    if |s| == 0 || !IsSpace(s[0]) then 0
    else
      var n := 1 + SpaceRun(s[1..]);
      assert s[..n] == [s[0]] + s[1..][..n - 1];
      n
  }

  /**
    `text.split(/(\s+)/)`: the word run before the first white-space run, that
    run itself, then the split of the rest. A text without white space, the
    empty text included, is a single token.
   */
  function Split(text: string): (tokens: seq<string>)
    ensures |tokens| >= 1
    decreases |text|
  {
    var w := WordRun(text);
    if w == |text| then [text]
    else
      var k := SpaceRun(text[w..]);
      [text[..w], text[w..w + k]] + Split(text[w + k..])
  }

  /** `tokens.join('')`. */
  function Concat(tokens: seq<string>): string {
    if |tokens| == 0 then "" else tokens[0] + Concat(tokens[1..])
  }

  /**
    The shape `split` with a capturing white-space pattern always produces: an
    odd number of tokens, white-space-free tokens at even positions (only the
    first and the last may be empty), non-empty white-space runs at odd positions.
   */
  ghost predicate Alternating(tokens: seq<string>) {
    && |tokens| % 2 == 1
    && (forall i :: 0 <= i < |tokens| && i % 2 == 0 ==> NoSpace(tokens[i]))
    && (forall i :: 0 <= i < |tokens| && i % 2 == 1 ==> tokens[i] != [] && AllSpace(tokens[i]))
    && (forall i :: 0 < i < |tokens| - 1 && i % 2 == 0 ==> tokens[i] != [])
  }

  /** Joining the tokens gives back the text exactly. */
  lemma {:induction false} ConcatSplit(text: string)
    ensures Concat(Split(text)) == text
    decreases |text|
  {
    var w := WordRun(text);
    if w == |text| {
      assert Split(text) == [text];
      assert Concat([text]) == text + Concat([]);
    } else {
      var k := SpaceRun(text[w..]);
      ConcatSplit(text[w + k..]);
    }
  }

  /** The empty text is the single empty token. */
  lemma SplitEmpty()
    ensures Split("") == [""]
  {
  }

  /** The first token is the leading word run. */
  lemma SplitHead(text: string)
    ensures Split(text)[0] == text[..WordRun(text)]
  {
  }

  /** Prepending a word run and a white-space run keeps the alternating shape. */
  lemma AlternatingCons(ts: seq<string>)
    requires |ts| >= 3 && NoSpace(ts[0]) && ts[1] != [] && AllSpace(ts[1])
    requires Alternating(ts[2..]) && (|ts| > 3 ==> ts[2] != [])
    ensures Alternating(ts)
  {
    forall i | 2 <= i < |ts| ensures ts[i] == ts[2..][i - 2] { }
  }

  /** Every split has the alternating shape, so its token count is odd. */
  lemma {:induction false} SplitAlternating(text: string)
    ensures Alternating(Split(text))
    decreases |text|
  {
    var w := WordRun(text);
    if w == |text| {
      assert Split(text) == [text];
    } else {
      var k := SpaceRun(text[w..]);
      var rest := text[w + k..];
      var ts := Split(text);
      assert ts[0] == text[..w];
      assert ts[1] == text[w..][..k];
      assert ts[2..] == Split(rest);
      SplitAlternating(rest);
      SplitHead(rest);
      if rest != [] {
        assert rest[0] == text[w..][k];
      }
      AlternatingCons(ts);
    }
  }

  /** The word run is the only prefix length that is space-free and stops at a space or the end. */
  lemma WordRunUnique(s: string, m: nat)
    requires m <= |s| && NoSpace(s[..m]) && (m < |s| ==> IsSpace(s[m]))
    ensures WordRun(s) == m
  {
    assert forall i :: 0 <= i < m ==> !IsSpace(s[i]) by {
      forall i | 0 <= i < m ensures !IsSpace(s[i]) { assert s[..m][i] == s[i]; }
    }
  }

  /** The space run is the only prefix length that is all white space and stops at a non-space or the end. */
  lemma SpaceRunUnique(s: string, m: nat)
    requires m <= |s| && AllSpace(s[..m]) && (m < |s| ==> !IsSpace(s[m]))
    ensures SpaceRun(s) == m
  {
    assert forall i :: 0 <= i < m ==> IsSpace(s[i]) by {
      forall i | 0 <= i < m ensures IsSpace(s[i]) { assert s[..m][i] == s[i]; }
    }
  }

  lemma ConcatFirstChar(tokens: seq<string>)
    requires |tokens| >= 1 && tokens[0] != []
    ensures Concat(tokens) != [] && Concat(tokens)[0] == tokens[0][0]
  {
  }

  /** Two token sequences agreeing on their first two tokens and on the rest are equal. */
  lemma EqualByFirstTwo(x: seq<string>, y: seq<string>)
    requires |x| >= 2 && |y| >= 2 && x[0] == y[0] && x[1] == y[1] && x[2..] == y[2..]
    ensures x == y
  {
    assert |x| == |y|;
    forall i | 2 <= i < |x| ensures x[i] == y[i] {
      assert x[i] == x[2..][i - 2];
    }
  }

  /** A word followed by white space: the split's first token is that word. */
  lemma WordRunCons(a: string, t: string)
    requires NoSpace(a) && t != [] && IsSpace(t[0])
    ensures WordRun(a + t) == |a|
  {
    var text := a + t;
    assert text[..|a|] == a;
    assert text[|a|] == t[0];
    WordRunUnique(text, |a|);
  }

  /** A white-space run followed by nothing or by a non-space: the space run is exactly that run. */
  lemma SpaceRunCons(b: string, t: string)
    requires AllSpace(b) && (t == [] || !IsSpace(t[0]))
    ensures SpaceRun(b + t) == |b|
  {
    var text := b + t;
    assert text[..|b|] == b;
    assert |b| < |text| ==> text[|b|] == t[0];
    SpaceRunUnique(text, |b|);
  }

  /** A word, a white-space run and a tail starting with a non-space: the split takes the word and the run first. */
  lemma SplitCons(a: string, b: string, tail: string)
    requires NoSpace(a) && b != [] && AllSpace(b) && (tail == [] || !IsSpace(tail[0]))
    ensures |Split(a + b + tail)| >= 3
    ensures Split(a + b + tail)[0] == a && Split(a + b + tail)[1] == b
    ensures Split(a + b + tail)[2..] == Split(tail)
  {
    var text := a + b + tail;
    assert text == a + (b + tail);
    WordRunCons(a, b + tail);
    var w := |a|;
    assert text[..w] == a;
    assert text[w..] == b + tail;
    SpaceRunCons(b, tail);
    assert text[w..][..|b|] == b;
    assert text[w + |b|..] == tail;
  }

  /** The single-token case: a text without white space is its own split. */
  lemma SplitNoSpace(text: string)
    requires NoSpace(text)
    ensures Split(text) == [text]
  {
    assert text[..|text|] == text;
    WordRunUnique(text, |text|);
  }

  /**
    Uniqueness: any alternating token sequence that joins to `text` is the
    split of `text`. With SplitAlternating and ConcatSplit this says that the
    split is exactly the alternating tokenization of the text.
   */
  lemma {:induction false} AlternatingIsSplit(tokens: seq<string>, text: string)
    requires Alternating(tokens) && Concat(tokens) == text
    ensures tokens == Split(text)
    decreases |tokens|
  {
    if |tokens| == 1 {
      assert tokens[1..] == [];
      assert text == tokens[0];
      assert NoSpace(tokens[0]);
      SplitNoSpace(text);
      assert tokens == [tokens[0]];
    } else {
      var a, b, rest := tokens[0], tokens[1], tokens[2..];
      AlternatingTail(tokens);
      var tail := Concat(rest);
      assert tokens[1..][0] == b && tokens[1..][1..] == rest;
      assert text == a + b + tail;
      if rest[0] != [] {
        ConcatFirstChar(rest);
      } else {
        assert tail == rest[0] + Concat([]);
      }
      SplitCons(a, b, tail);
      AlternatingIsSplit(rest, tail);
      EqualByFirstTwo(tokens, Split(text));
    }
  }

  /** Dropping the first word and white-space run keeps the alternating shape. */
  lemma AlternatingTail(tokens: seq<string>)
    requires Alternating(tokens) && |tokens| >= 3
    ensures Alternating(tokens[2..])
    ensures |tokens| > 3 ==> tokens[2] != []
  {
    var rest := tokens[2..];
    forall i | 0 <= i < |rest| ensures rest[i] == tokens[i + 2] { }
  }
}
