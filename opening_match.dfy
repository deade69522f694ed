/** The opening catalogue entry and `match_length`, which walks a catalogue
    line against the moves of a game (hubble/src/analysis/opening.rs; the
    backend route keeps a verbatim copy). */
module OpeningMatch {
  import opened Wrappers
  import opened Chess
  import Text

  /** A catalogue opening: its ECO code, its name and its moves as PGN text
      (e.g. "1. e4 e5 2. Nf3"). */
  datatype Opening = Opening(eco: string, name: string, pgn: string)

  /** The catalogue line as tokens: every '.' removed, then split on single
      spaces. */
  function Tokens(pgn: string): (r: seq<string>)
    ensures forall k :: 0 <= k < |r| ==> '.' !in r[k] && ' ' !in r[k]
  {
    var cleaned := Text.Remove(pgn, '.');
    Text.SplitPieces(cleaned, ' ');
    Text.SplitChars(cleaned, ' ');
    Text.Split(cleaned, ' ')
  }

  /** How a game's move is written for the comparison: the move's display
      ("e2-e4", "Ng1-f3") with every '-' removed. */
  function Written(rules: Rules, m: Move): string
  {
    Text.Remove(rules.show(m), '-')
  }

  /** The walk of `match_length` from `board` over `tokens`, with `idx`
      moves of the game matched so far. Tokens of length 1 (move numbers)
      are skipped; the walk stops at the first token that is not a legal
      move on the board; every legal move is played, and it counts only
      when it is the game's next unmatched move. `None` is the out-of-bounds
      panic: a legal catalogue move after the game's moves ran out. */
  function Matched(rules: Rules, board: Pos, tokens: seq<string>, moves: seq<string>, idx: nat): (r: Option<nat>)
    requires idx <= |moves|
    ensures r.Some? ==> idx <= r.value <= |moves|
    ensures r.Some? ==> r.value - idx <= |tokens|
    decreases |tokens|, 1
  {
    if |tokens| == 0 then Some(idx) else MatchedFrom(rules, board, tokens, moves, idx)
  }

  /** `Matched` on a non-empty list of tokens: the first token decides. */
  function MatchedFrom(rules: Rules, board: Pos, tokens: seq<string>, moves: seq<string>, idx: nat): (r: Option<nat>)
    requires idx <= |moves| && |tokens| > 0
    ensures r.Some? ==> idx <= r.value <= |moves|
    ensures r.Some? ==> r.value - idx <= |tokens|
    decreases |tokens|, 0
  {
    if |tokens[0]| == 1 then Matched(rules, board, tokens[1..], moves, idx)
    else match rules.toMove(board, tokens[0])
      case None => Some(idx)
      case Some(m) =>
        var next := rules.play(board, m);
        if idx == |moves| then None
        else if moves[idx] == Written(rules, m) then Matched(rules, next, tokens[1..], moves, idx + 1)
        else Matched(rules, next, tokens[1..], moves, idx)
  }

  /** The number of the game's moves matched, in order, by the catalogue
      line from the standard starting position; `None` when it panics. */
  function Length(rules: Rules, opening: Opening, moves: seq<string>): Option<nat>
  {
    Matched(rules, rules.start, Tokens(opening.pgn), moves, 0)
  }

  /** `match_length` */
  method MatchLength(rules: Rules, opening: Opening, moves: seq<string>) returns (r: Option<nat>)
    ensures r == Length(rules, opening, moves)
    ensures r.Some? ==> r.value <= |moves|
  {
    var splits := Tokens(opening.pgn);
    var length := 0;
    var idx := 0;
    var board := rules.start;
    var k := 0;
    while k < |splits|
      invariant 0 <= k <= |splits|
      invariant length == idx <= |moves|
      invariant Matched(rules, rules.start, splits, moves, 0) == Matched(rules, board, splits[k..], moves, idx)
    {
      var mv := splits[k];
      assert splits[k..][1..] == splits[k + 1..];
      if |mv| == 1 {
        k := k + 1;
        continue;
      }
      var parsed := rules.toMove(board, mv);
      if parsed.None? {
        break;
      }
      board := rules.play(board, parsed.value);
      if idx == |moves| {
        return None;
      }
      if moves[idx] == Written(rules, parsed.value) {
        length := length + 1;
        idx := idx + 1;
      }
      k := k + 1;
    }
    return Some(length);
  }

  /** Every move counted is one the game and the catalogue line have in
      common, in the same order: the matched moves of the game are a
      subsequence of the catalogue's legal moves as written. */
  function Walked(rules: Rules, board: Pos, tokens: seq<string>): (r: seq<string>)
    decreases |tokens|
  {
    if |tokens| == 0 then []
    else if |tokens[0]| == 1 then Walked(rules, board, tokens[1..])
    else match rules.toMove(board, tokens[0])
      case None => []
      case Some(m) => [Written(rules, m)] + Walked(rules, rules.play(board, m), tokens[1..])
  }

  /** `a` occurs in `b` as a subsequence. */
  predicate Subsequence(a: seq<string>, b: seq<string>)
    decreases |b|
  {
    |a| == 0 || (|b| > 0 && if a[0] == b[0] then Subsequence(a[1..], b[1..]) else Subsequence(a, b[1..]))
  }

  /** The matched moves of the game form a subsequence of the catalogue
      line's moves, so a match counts moves in order. */
  lemma {:induction false} MatchedIsSubsequence(rules: Rules, board: Pos, tokens: seq<string>, moves: seq<string>, idx: nat)
    requires idx <= |moves|
    requires Matched(rules, board, tokens, moves, idx).Some?
    ensures Subsequence(moves[idx..Matched(rules, board, tokens, moves, idx).value], Walked(rules, board, tokens))
    decreases |tokens|
  {
    var n := Matched(rules, board, tokens, moves, idx).value;
    if |tokens| == 0 {
    } else if |tokens[0]| == 1 {
      MatchedIsSubsequence(rules, board, tokens[1..], moves, idx);
    } else {
      match rules.toMove(board, tokens[0]) {
        case None =>
        case Some(m) =>
          var next := rules.play(board, m);
          var rest := Walked(rules, next, tokens[1..]);
          assert Walked(rules, board, tokens) == [Written(rules, m)] + rest;
          if moves[idx] == Written(rules, m) {
            MatchedIsSubsequence(rules, next, tokens[1..], moves, idx + 1);
            if idx < n {
              assert moves[idx..n][1..] == moves[idx + 1..n];
            }
          } else {
            MatchedIsSubsequence(rules, next, tokens[1..], moves, idx);
            SubsequenceOfTail(moves[idx..n], rest, Written(rules, m));
          }
      }
    }
  }

  lemma {:induction false} SubsequenceOfTail(a: seq<string>, b: seq<string>, x: string)
    requires Subsequence(a, b)
    ensures Subsequence(a, [x] + b)
    decreases |b|, 1
  {
    var xb := [x] + b;
    assert xb[1..] == b;
    if |a| > 0 && a[0] == x {
      SubsequenceDropFirst(a, b);
    }
  }

  lemma {:induction false} SubsequenceDropFirst(a: seq<string>, b: seq<string>)
    requires |a| > 0 && Subsequence(a, b)
    ensures Subsequence(a[1..], b)
    decreases |b|, 0
  {
    if a[0] == b[0] {
      if |a[1..]| > 0 {
        SubsequenceDropFirst(a[1..], b[1..]);
        SubsequenceOfTail(a[1..][1..], b[1..], b[0]);
        assert [b[0]] + b[1..] == b;
      }
    } else {
      SubsequenceDropFirst(a, b[1..]);
      if |a[1..]| > 0 {
        SubsequenceOfTail(a[1..], b[1..], b[0]);
        assert [b[0]] + b[1..] == b;
      }
    }
  }

  /** When the game starts with every legal move of the catalogue line, in
      order, the whole line matches. */
  lemma {:induction false} FollowedLineMatches(rules: Rules, board: Pos, tokens: seq<string>, moves: seq<string>, idx: nat)
    requires idx <= |moves|
    requires |Walked(rules, board, tokens)| <= |moves| - idx
    requires moves[idx..idx + |Walked(rules, board, tokens)|] == Walked(rules, board, tokens)
    ensures Matched(rules, board, tokens, moves, idx) == Some(idx + |Walked(rules, board, tokens)|)
    decreases |tokens|
  {
    if |tokens| == 0 {
    } else if |tokens[0]| == 1 {
      FollowedLineMatches(rules, board, tokens[1..], moves, idx);
    } else {
      match rules.toMove(board, tokens[0]) {
        case None =>
        case Some(m) =>
          var w := Walked(rules, board, tokens);
          var rest := Walked(rules, rules.play(board, m), tokens[1..]);
          assert w == [Written(rules, m)] + rest;
          assert moves[idx] == w[0];
          assert moves[idx + 1..idx + 1 + |rest|] == w[1..];
          FollowedLineMatches(rules, rules.play(board, m), tokens[1..], moves, idx + 1);
      }
    }
  }
}
