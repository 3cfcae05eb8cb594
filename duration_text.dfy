/**
 * The text form of a duration list: `+9024 -4512 +564 ...`, an explicit sign by position
 * (`+` at even, `-` at odd indices) and single spaces between entries.
 */
module DurationText {
  import opened Results
  import opened PyInt
  import opened PyText

  /** One entry of the text: the sign its position gives, then `str(v)`. */
  function Token(i: nat, v: int): string {
    (if i % 2 == 0 then "+" else "-") + IntToString(v)
  }

  /** The entries of `data` as they appear from position `k` on. */
  function TokensFrom(data: seq<int>, k: nat): seq<string> {
    seq(|data|, i requires 0 <= i < |data| => Token(k + i, data[i]))
  }

  /** The text `format_durations(data)` builds. */
  function Formatted(data: seq<int>): string {
    Join(TokensFrom(data, 0))
  }

  /** `format_durations`, as the source computes it: a string grown in a loop. */
  method FormatDurations(data: seq<int>) returns (result: string)
    ensures result == Formatted(data)
  {
    result := "";
    for i := 0 to |data|
      invariant result == Formatted(data[..i])
      invariant |result| > 0 <==> i > 0
    {
      var tokens := TokensFrom(data[..i], 0);
      assert TokensFrom(data[..i + 1], 0) == tokens + [Token(i, data[i])];
      if |result| > 0 {
        JoinSnoc(tokens, Token(i, data[i]));
        result := result + " ";
      } else {
        assert tokens == [];
      }
      result := result + Token(i, data[i]);
    }
    assert data[..|data|] == data;
  }

  /** `abs(n)`. */
  function Abs(n: int): nat {
    if n < 0 then -n else n
  }

  /** `[abs(int(s)) for s in tokens]`; the first token `int()` refuses is the error. */
  function ParseTokens(tokens: seq<string>): (r: Result<seq<int>, ValueError>)
    ensures r.Ok? ==> |r.value| == |tokens| && forall j :: 0 <= j < |r.value| ==> r.value[j] >= 0
    ensures r.Err? ==> exists j :: 0 <= j < |tokens| && IntBase10(tokens[j]).Err?
    ensures r.Ok? <==> forall j :: 0 <= j < |tokens| ==> IntBase10(tokens[j]).Ok?
    ensures r.Ok? ==> forall j :: 0 <= j < |tokens| ==> r.value[j] == Abs(IntBase10(tokens[j]).value)
    decreases |tokens|
  {
    if |tokens| == 0 then Ok([])
    else
      match IntBase10(tokens[0])
      case Err(e) => Err(e)
      case Ok(v) =>
        match ParseTokens(tokens[1..])
        case Err(e) => assert tokens[1..][0] == tokens[1]; Err(e)
        case Ok(rest) => Ok([Abs(v)] + rest)
  }

  /**
   * `parse_durations(s)`: the magnitudes of the whitespace-separated integers of `s`. It
   * fails exactly when some word of `s` is no integer literal.
   */
  function ParseDurations(s: string): (r: Result<seq<int>, ValueError>)
    ensures r.Ok? ==> forall j :: 0 <= j < |Split(s)| ==> IntBase10(Split(s)[j]).Ok?
    ensures (forall j :: 0 <= j < |Split(s)| ==> IntBase10(Split(s)[j]).Ok?) ==> r.Ok?
    ensures r.Ok? ==>
      |r.value| == |Split(s)|
      && forall j :: 0 <= j < |r.value| ==> r.value[j] == Abs(IntBase10(Split(s)[j]).value)
  {
    ParseTokens(Split(s))
  }

  /** Every entry of the text is a word: no whitespace, not empty. */
  lemma TokenIsWord(i: nat, v: int)
    ensures IsWord(Token(i, v))
  {
    var m: nat := Abs(v);
    DigitsAreDigits(m, 10);
    var d := Digits(m, 10);
    var prefix := (if i % 2 == 0 then "+" else "-") + (if v < 0 then "-" else "");
    var t := Token(i, v);
    assert t == prefix + d;
    forall j | 0 <= j < |t| ensures !IsSpace(t[j]) {
      if j < |prefix| {
        assert t[j] == '+' || t[j] == '-';
      } else {
        assert t[j] == d[j - |prefix|];
        DigitIsNotSpace(d[j - |prefix|]);
      }
    }
  }

  /** An entry parses back to the magnitude of a non-negative value; a negative one is refused. */
  lemma ParseToken(i: nat, v: int)
    ensures v >= 0 ==> IntBase10(Token(i, v)) == Ok(if i % 2 == 0 then v else -v)
    ensures v < 0 ==> IntBase10(Token(i, v)).Err?
  {
    var sign := if i % 2 == 0 then "+" else "-";
    if v >= 0 {
      IntOfSignedDigits(sign, v);
    } else {
      assert Token(i, v) == [sign[0]] + "-" + Digits(-v, 10);
      IntOfDoubleSign(sign[0], -v);
    }
  }

  /** Parsing the entries from position `k` on gives back non-negative values; a negative one fails. */
  lemma ParseTokensFrom(data: seq<int>, k: nat)
    ensures (forall j :: 0 <= j < |data| ==> data[j] >= 0) ==> ParseTokens(TokensFrom(data, k)) == Ok(data)
    ensures (exists j :: 0 <= j < |data| && data[j] < 0) ==> ParseTokens(TokensFrom(data, k)).Err?
  {
    var tokens := TokensFrom(data, k);
    forall j | 0 <= j < |data|
      ensures data[j] >= 0 ==> IntBase10(tokens[j]).Ok? && Abs(IntBase10(tokens[j]).value) == data[j]
      ensures data[j] < 0 ==> IntBase10(tokens[j]).Err?
    {
      ParsedEntry(tokens[j], k + j, data[j]);
    }
    ParsedValues(tokens, data);
  }

  /** An entry reads back as its value up to sign when it is non-negative, and is refused otherwise. */
  lemma ParsedEntry(t: string, i: nat, v: int)
    requires t == Token(i, v)
    ensures v >= 0 ==> IntBase10(t).Ok? && Abs(IntBase10(t).value) == v
    ensures v < 0 ==> IntBase10(t).Err?
  {
    ParseToken(i, v);
  }

  /** Tokens that `int()` reads as `data`'s values, up to sign, parse to `data`; one it refuses fails the parse. */
  lemma ParsedValues(tokens: seq<string>, data: seq<int>)
    requires |tokens| == |data|
    requires forall j :: 0 <= j < |data| && data[j] >= 0 ==>
      IntBase10(tokens[j]).Ok? && Abs(IntBase10(tokens[j]).value) == data[j]
    requires forall j :: 0 <= j < |data| && data[j] < 0 ==> IntBase10(tokens[j]).Err?
    ensures (forall j :: 0 <= j < |data| ==> data[j] >= 0) ==> ParseTokens(tokens) == Ok(data)
    ensures (exists j :: 0 <= j < |data| && data[j] < 0) ==> ParseTokens(tokens).Err?
  {
    var r := ParseTokens(tokens);
    if forall j :: 0 <= j < |data| ==> data[j] >= 0 {
      assert r.value == data;
    }
  }

  /**
   * `parse_durations(format_durations(d)) == d` for every list of non-negative integers;
   * a negative entry is formatted as `+-5` or `--5`, which `int()` refuses.
   */
  lemma ParseFormatted(data: seq<int>)
    ensures (forall j :: 0 <= j < |data| ==> data[j] >= 0) ==> ParseDurations(Formatted(data)) == Ok(data)
    ensures (exists j :: 0 <= j < |data| && data[j] < 0) ==> ParseDurations(Formatted(data)).Err?
  {
    var tokens := TokensFrom(data, 0);
    forall k | 0 <= k < |tokens| ensures IsWord(tokens[k]) {
      TokenIsWord(k, data[k]);
    }
    SplitJoin(tokens);
    ParseTokensFrom(data, 0);
  }

  /** The text is the entries joined by single spaces, in order. */
  lemma FormattedWords(data: seq<int>)
    ensures Split(Formatted(data)) == TokensFrom(data, 0)
    ensures |Formatted(data)| > 0 ==> !IsSpace(Formatted(data)[0]) && !IsSpace(Formatted(data)[|Formatted(data)| - 1])
  {
    var tokens := TokensFrom(data, 0);
    forall k | 0 <= k < |tokens| ensures IsWord(tokens[k]) {
      TokenIsWord(k, data[k]);
    }
    SplitJoin(tokens);
    JoinEnds(tokens);
  }
}
