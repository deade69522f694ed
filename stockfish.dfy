/** The text side of the engine wrapper (hubble/src/stockfish.rs and the
    older src/stockfish.rs, which agree on `read_output`, `parse_eval` and
    `eval_fen`; only the older one has `parse_score`): the command sent for
    a position, which engine output is accepted, and how a centipawn score
    is read from it. */
module Stockfish {
  import opened Wrappers
  import Text

  /** `words.iter().position(|x| x == w)`: the first index holding `w`. */
  function Position(words: seq<string>, w: string): (r: Option<nat>)
    ensures r.Some? ==> r.value < |words| && words[r.value] == w
    ensures r.Some? ==> forall j :: 0 <= j < r.value ==> words[j] != w
    ensures r.None? <==> w !in words
    decreases |words|
  {
    if |words| == 0 then None
    else if words[0] == w then Some(0)
    else match Position(words[1..], w)
      case None => None
      case Some(i) => Some(i + 1)
  }

  /** The words of an engine line, split on single spaces. */
  function Words(output: string): seq<string>
  {
    Text.Split(output, ' ')
  }

  /** `parse_eval` reads the word after the first "cp" without a bounds
      check: it panics when "cp" is the last word. */
  predicate EvalReadable(output: string)
  {
    var p := Position(Words(output), "cp");
    p.Some? ==> p.value + 1 < |Words(output)|
  }

  /** `parse_eval`: the number after the first word "cp", or `None` when
      there is no such word or the number does not parse. */
  function ParseEval(output: string): (r: Option<int>)
    requires EvalReadable(output)
    ensures "cp" !in Words(output) ==> r.None?
  {
    var words := Words(output);
    match Position(words, "cp")
    case None => None
    case Some(i) => Text.ParseInt(words[i + 1])
  }

  /** A rendered number holds no space. */
  lemma SpaceFreeShowInt(n: int)
    ensures ' ' !in Text.ShowInt(n)
  {
    var s := Text.ShowInt(n);
    Text.ShowNatDigits(if n < 0 then -n else n);
    forall k | 0 <= k < |s|
      ensures s[k] != ' '
    {
      if n >= 0 {
        assert Text.IsDigit(s[k]);
      } else if k > 0 {
        assert s[k] == Text.ShowNat(-n)[k - 1];
      }
    }
  }

  /** An engine line whose first "cp" is followed by a rendered number
      evaluates to that number. */
  lemma {:induction false} ParseEvalOfInfo(before: seq<string>, n: int, after: seq<string>)
    requires forall k :: 0 <= k < |before| ==> ' ' !in before[k]
    requires forall k :: 0 <= k < |after| ==> ' ' !in after[k]
    requires "cp" !in before
    ensures var line := Text.Join(before + ["cp", Text.ShowInt(n)] + after, ' ');
            EvalReadable(line) && ParseEval(line) == Some(n)
  {
    var parts := before + ["cp", Text.ShowInt(n)] + after;
    SpaceFreeShowInt(n);
    forall k | 0 <= k < |parts|
      ensures ' ' !in parts[k]
    {
      if k >= |before| + 2 {
        assert parts[k] == after[k - |before| - 2];
      }
    }
    Text.SplitJoin(parts, ' ');
    PositionAfter(before, "cp", parts);
    Text.ParseShowInt(n);
  }

  /** The first occurrence of `w` after a prefix without it. */
  lemma {:induction false} PositionAfter(before: seq<string>, w: string, words: seq<string>)
    requires |before| < |words| && words[..|before|] == before && words[|before|] == w
    requires w !in before
    ensures Position(words, w) == Some(|before|)
    decreases |before|
  {
    if |before| > 0 {
      assert words[0] == before[0];
      PositionAfter(before[1..], w, words[1..]);
    }
  }

  /** The non-empty words, in order (`filter(|x| x.len() > 0)`). */
  function NonEmpty(words: seq<string>): (r: seq<string>)
    ensures |r| <= |words|
    ensures forall k :: 0 <= k < |r| ==> |r[k]| > 0 && r[k] in words
    decreases |words|
  {
    if |words| == 0 then []
    else if |words[0]| > 0 then [words[0]] + NonEmpty(words[1..])
    else NonEmpty(words[1..])
  }

  lemma {:induction false} NonEmptyKeeps(words: seq<string>)
    requires forall k :: 0 <= k < |words| ==> |words[k]| > 0
    ensures NonEmpty(words) == words
    decreases |words|
  {
    if |words| > 0 {
      NonEmptyKeeps(words[1..]);
    }
  }

  /** `parse_score` reads the third non-empty word without a bounds check. */
  predicate ScoreReadable(eval: string)
  {
    |NonEmpty(Words(eval))| >= 3
  }

  /** `parse_score`: the third non-empty word with every '+' and '-'
      deleted, as a number. The sign is lost, so the result is never
      negative. */
  function ParseScore(eval: string): (r: Option<int>)
    requires ScoreReadable(eval)
    ensures r.Some? ==> r.value >= 0
  {
    var words := NonEmpty(Words(eval));
    var cleaned := Text.Remove(Text.Remove(words[2], '+'), '-');
    Text.UnsignedParse(cleaned);
    Text.ParseInt(cleaned)
  }

  /** The sign of the score is dropped: a line whose third word renders `n`
      reads as the magnitude of `n`. */
  lemma {:induction false} ParseScoreDropsSign(first: string, second: string, n: int, rest: seq<string>)
    requires |first| > 0 && ' ' !in first && |second| > 0 && ' ' !in second
    requires forall k :: 0 <= k < |rest| ==> |rest[k]| > 0 && ' ' !in rest[k]
    ensures var line := Text.Join([first, second, Text.ShowInt(n)] + rest, ' ');
            ScoreReadable(line) && ParseScore(line) == Some(if n < 0 then -n else n)
  {
    var parts := [first, second, Text.ShowInt(n)] + rest;
    SpaceFreeShowInt(n);
    forall k | 0 <= k < |parts|
      ensures |parts[k]| > 0 && ' ' !in parts[k]
    {
      if k >= 3 {
        assert parts[k] == rest[k - 3];
      }
    }
    Text.SplitJoin(parts, ' ');
    NonEmptyKeeps(parts);
    var m: nat := if n < 0 then -n else n;
    var digits := Text.ShowNat(m);
    Text.ShowNatDigits(m);
    assert '+' !in digits && '-' !in digits by {
      forall k | 0 <= k < |digits|
        ensures digits[k] != '+' && digits[k] != '-'
      {
        assert Text.IsDigit(digits[k]);
      }
    }
    Text.RemoveAbsent(digits, '-');
    if n < 0 {
      var shown := Text.ShowInt(n);
      assert shown == "-" + digits;
      assert shown[1..] == digits;
      Text.RemoveAbsent(shown, '+');
      assert Text.Remove(shown, '-') == Text.Remove(digits, '-');
    } else {
      Text.RemoveAbsent(digits, '+');
    }
    Text.ParseShowInt(m);
  }

  /** `read_output` accepts a chunk of engine output only when it reports a
      depth-20 line with a centipawn score. */
  predicate Accepts(chunk: string)
  {
    Text.Contains(chunk, "info depth 20") && Text.Contains(chunk, "score cp")
  }

  /** The first accepted chunk among the successive reads. */
  function FirstAccepted(chunks: seq<string>): (r: string)
    requires exists k :: 0 <= k < |chunks| && Accepts(chunks[k])
    ensures Accepts(r) && Text.Contains(r, "score cp")
    ensures exists i :: 0 <= i < |chunks| && chunks[i] == r && forall j :: 0 <= j < i ==> !Accepts(chunks[j])
    decreases |chunks|
  {
    if Accepts(chunks[0]) then chunks[0]
    else
      var r := FirstAccepted(chunks[1..]);
      assert forall i :: 0 <= i < |chunks| - 1 ==> chunks[1..][i] == chunks[i + 1];
      r
  }

  /** `read_output`: keeps reading until a chunk is accepted. The reads are
      given as `chunks`; one of them must be accepted, since the source loops
      for ever otherwise. */
  method ReadOutput(chunks: seq<string>) returns (output: string)
    requires exists k :: 0 <= k < |chunks| && Accepts(chunks[k])
    ensures output == FirstAccepted(chunks)
  {
    var i := 0;
    while true
      invariant 0 <= i < |chunks|
      invariant exists k :: i <= k < |chunks| && Accepts(chunks[k])
      invariant FirstAccepted(chunks) == FirstAccepted(chunks[i..])
      decreases |chunks| - i
    {
      var outputString := chunks[i];
      if Text.Contains(outputString, "info depth 20") && Text.Contains(outputString, "score cp") {
        return outputString;
      }
      assert chunks[i..][1..] == chunks[i + 1..];
      i := i + 1;
    }
  }

  /** The text `eval_fen` writes: `writeln!` of the formatted command, so
      the command ends in a blank line. */
  function EvalCommand(fen: string): string
  {
    "position fen " + fen + "\ngo depth " + "20" + "\n" + "\n"
  }

  /** For a FEN without line breaks the command is exactly the two lines
      "position fen <fen>" and "go depth 20", then an empty line. */
  lemma EvalCommandLines(fen: string)
    requires '\n' !in fen
    ensures Text.Split(EvalCommand(fen), '\n') == ["position fen " + fen, "go depth 20", "", ""]
  {
    var lines := ["position fen " + fen, "go depth 20", "", ""];
    assert '\n' !in lines[0];
    assert Text.Join(lines[2..], '\n') == "\n";
    assert Text.Join(lines[1..], '\n') == "go depth 20\n\n";
    assert Text.Join(lines, '\n') == EvalCommand(fen);
    Text.SplitJoin(lines, '\n');
  }

  /** `eval_fen`: sends the command, then reads and parses the first
      accepted output. */
  method EvalFen(fen: string, chunks: seq<string>) returns (sent: string, score: Option<int>)
    requires exists k :: 0 <= k < |chunks| && Accepts(chunks[k])
    requires EvalReadable(FirstAccepted(chunks))
    ensures sent == EvalCommand(fen)
    ensures score == ParseEval(FirstAccepted(chunks))
  {
    sent := "position fen " + fen + "\ngo depth " + "20" + "\n" + "\n";
    var output := ReadOutput(chunks);
    score := ParseEval(output);
  }
}
