/** Python's `str.split()` with no argument, and words joined by single spaces. */
module PyText {
  import opened PyInt

  /** The longest prefix of `s` that holds no whitespace. */
  function LeadingWord(s: string): (w: string)
    ensures |w| <= |s| && w == s[..|w|]
    ensures |w| < |s| ==> IsSpace(s[|w|])
    ensures forall i :: 0 <= i < |w| ==> !IsSpace(w[i])
    decreases |s|
  {
    if |s| == 0 || IsSpace(s[0]) then [] else [s[0]] + LeadingWord(s[1..])
  }

  /** A non-empty string without whitespace: what `split()` yields. */
  predicate IsWord(w: string) {
    |w| > 0 && forall i :: 0 <= i < |w| ==> !IsSpace(w[i])
  }

  /** `s.split()`: the maximal runs of non-whitespace characters, in order. */
  function Split(s: string): (words: seq<string>)
    ensures forall k :: 0 <= k < |words| ==> IsWord(words[k])
    decreases |s|
  {
    if |s| == 0 then []
    else if IsSpace(s[0]) then Split(s[1..])
    else
      var w := LeadingWord(s);
      [w] + Split(s[|w|..])
  }

  /** The words joined by single spaces, with no space at either end. */
  function Join(words: seq<string>): string
    decreases |words|
  {
    if |words| == 0 then ""
    else if |words| == 1 then words[0]
    else words[0] + " " + Join(words[1..])
  }

  /** Joining one more word appends a space and the word. */
  lemma {:induction false} JoinSnoc(words: seq<string>, w: string)
    requires |words| > 0
    ensures Join(words + [w]) == Join(words) + " " + w
    decreases |words|
  {
    if |words| > 1 {
      JoinSnoc(words[1..], w);
      assert (words + [w])[1..] == words[1..] + [w];
    }
  }

  /** The leading word of a word followed by a space is that word. */
  lemma {:induction false} LeadingWordOf(w: string, rest: string)
    requires IsWord(w)
    requires |rest| > 0 ==> IsSpace(rest[0])
    ensures LeadingWord(w + rest) == w
    decreases |w|
  {
    if |w| > 1 {
      LeadingWordOf(w[1..], rest);
      assert (w + rest)[1..] == w[1..] + rest;
    } else {
      assert (w + rest)[1..] == rest;
    }
  }

  /** Splitting words joined by single spaces gives the words back. */
  lemma {:induction false} SplitJoin(words: seq<string>)
    requires forall k :: 0 <= k < |words| ==> IsWord(words[k])
    ensures Split(Join(words)) == words
    decreases |words|
  {
    if |words| == 1 {
      var w := words[0];
      LeadingWordOf(w, "");
      assert w + "" == w;
      assert w[|w|..] == [];
    } else if |words| > 1 {
      var w, rest := words[0], " " + Join(words[1..]);
      LeadingWordOf(w, rest);
      var s := w + rest;
      assert s == Join(words);
      assert s[|w|..] == rest;
      assert IsSpace(' ');
      assert rest[1..] == Join(words[1..]);
      SplitJoin(words[1..]);
      assert words == [w] + words[1..];
    }
  }

  /** Joined words neither start nor end with whitespace. */
  lemma {:induction false} JoinEnds(words: seq<string>)
    requires forall k :: 0 <= k < |words| ==> IsWord(words[k])
    ensures var s := Join(words); |s| > 0 ==> !IsSpace(s[0]) && !IsSpace(s[|s| - 1])
    ensures |words| > 0 ==> |Join(words)| > 0
    decreases |words|
  {
    if |words| > 1 {
      JoinEnds(words[1..]);
      var s := Join(words);
      var tail := Join(words[1..]);
      assert s == words[0] + " " + tail;
      assert s[0] == words[0][0];
      assert s[|s| - 1] == tail[|tail| - 1];
    }
  }
}
