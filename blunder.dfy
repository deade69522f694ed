/** `find_blunder` (hubble/src/analysis/blunder.rs, threshold 300, and
    hubble_backend/src/analysis/blunder.rs, threshold 200): the moves after
    which the evaluation fell by more than the threshold. Scores are the
    decimal strings a replay stores, so they are parsed as integers. */
module Blunder {
  import opened Wrappers
  import Text
  import GameRecord

  const HubbleThreshold: nat := 300
  const BackendThreshold: nat := 200

  /** The number of moves examined: `zip` stops at the shorter list. */
  function Examined(game: GameRecord.Game): nat
  {
    if |game.moves| <= |game.scores| then |game.moves| else |game.scores|
  }

  /** Every examined score parses (`unwrap` panics otherwise). */
  predicate Readable(game: GameRecord.Game)
  {
    forall k :: 0 <= k < Examined(game) ==> Text.ParseInt(game.scores[k]).Some?
  }

  function Score(game: GameRecord.Game, k: nat): int
    requires Readable(game) && k < Examined(game)
  {
    Text.ParseInt(game.scores[k]).value
  }

  /** The score before move `k`: 0 before the first move, then the score
      of the move before. */
  function Previous(game: GameRecord.Game, k: nat): int
    requires Readable(game) && k < Examined(game)
  {
    if k == 0 then 0 else Score(game, k - 1)
  }

  /** Move `k` is a blunder when the score fell by strictly more than the
      threshold. */
  predicate Flagged(game: GameRecord.Game, threshold: nat, k: nat)
    requires Readable(game) && k < Examined(game)
  {
    Previous(game, k) - Score(game, k) > threshold
  }

  /** The blunders among the first `n` examined moves, in move order. */
  function BlundersUpTo(game: GameRecord.Game, threshold: nat, n: nat): seq<(nat, string)>
    requires Readable(game) && n <= Examined(game)
  {
    if n == 0 then []
    else BlundersUpTo(game, threshold, n - 1) + (if Flagged(game, threshold, n - 1) then [(n - 1, game.moves[n - 1])] else [])
  }

  /** `find_blunder` with the given threshold. */
  method FindBlunder(game: GameRecord.Game, threshold: nat) returns (blunders: seq<(nat, string)>)
    requires Readable(game)
    ensures blunders == BlundersUpTo(game, threshold, Examined(game))
  {
    var prevScore := 0;
    var isWhite := true;
    blunders := [];
    var idx := 0;
    while idx < |game.moves| && idx < |game.scores|
      invariant 0 <= idx <= Examined(game)
      invariant prevScore == if idx == 0 then 0 else Score(game, idx - 1)
      invariant blunders == BlundersUpTo(game, threshold, idx)
    {
      var score := Text.ParseInt(game.scores[idx]).value;
      if prevScore - score > threshold {
        blunders := blunders + [(idx, game.moves[idx])];
      }
      prevScore := score;
      isWhite := !isWhite;
      idx := idx + 1;
    }
  }

  /** The list is exactly the flagged moves, each with its own move text, in
      strictly increasing order of index. */
  lemma {:induction false} BlundersExact(game: GameRecord.Game, threshold: nat, n: nat)
    requires Readable(game) && n <= Examined(game)
    ensures |BlundersUpTo(game, threshold, n)| <= n
    ensures forall e :: e in BlundersUpTo(game, threshold, n) ==>
              e.0 < n && e.1 == game.moves[e.0] && Flagged(game, threshold, e.0)
    ensures forall k :: 0 <= k < n && Flagged(game, threshold, k) ==> (k, game.moves[k]) in BlundersUpTo(game, threshold, n)
    ensures forall i, j :: 0 <= i < j < |BlundersUpTo(game, threshold, n)| ==>
              BlundersUpTo(game, threshold, n)[i].0 < BlundersUpTo(game, threshold, n)[j].0
  {
    if n > 0 {
      BlundersExact(game, threshold, n - 1);
      var before := BlundersUpTo(game, threshold, n - 1);
      var after := BlundersUpTo(game, threshold, n);
      assert forall e :: e in before ==> e.0 < n - 1;
      if Flagged(game, threshold, n - 1) {
        assert after == before + [(n - 1, game.moves[n - 1])];
        forall i, j | 0 <= i < j < |after|
          ensures after[i].0 < after[j].0
        {
          if j == |after| - 1 {
            assert after[i] in before;
          }
        }
      } else {
        assert after == before;
      }
    }
  }

  /** The first move is a blunder exactly when its score is below minus the
      threshold (the running score starts at 0). */
  lemma FirstMoveFlagged(game: GameRecord.Game, threshold: nat)
    requires Readable(game) && Examined(game) > 0
    ensures Flagged(game, threshold, 0) <==> Score(game, 0) < -(threshold as int)
  {
  }

  /** A smaller threshold flags every move a larger one flags: the backend's
      200 finds every blunder the 300 of the analysis crate finds. */
  lemma {:induction false} ThresholdMonotone(game: GameRecord.Game, n: nat)
    requires Readable(game) && n <= Examined(game)
    ensures forall e :: e in BlundersUpTo(game, HubbleThreshold, n) ==> e in BlundersUpTo(game, BackendThreshold, n)
  {
    BlundersExact(game, HubbleThreshold, n);
    BlundersExact(game, BackendThreshold, n);
  }

  /** Only the examined prefix matters: moves beyond the shorter list are
      never reported, whatever they are. */
  lemma {:induction false} OnlyExaminedMoves(game: GameRecord.Game, threshold: nat)
    requires Readable(game)
    ensures forall e :: e in BlundersUpTo(game, threshold, Examined(game)) ==> e.0 < |game.moves| && e.0 < |game.scores|
  {
    BlundersExact(game, threshold, Examined(game));
  }
}
