/** The move list of the front end (hubble_frontend/src/components/MovePicker.jsx):
    `pairs` groups a game's moves two by two, one group per move number, and
    each shown move gets the index `2 * group + position`, which decides
    whether it is marked as a blunder. */
module MovePicker {
  import Blunder
  import GameRecord

  function Min(a: nat, b: nat): nat
  {
    if a <= b then a else b
  }

  /** Group `g` of the intended grouping: the moves `2g` and `2g + 1`, the
      slice clamped to the end as JavaScript's `slice` clamps. */
  function Group<T>(arr: seq<T>, g: nat): (r: seq<T>)
    requires 2 * g < |arr|
    ensures 1 <= |r| <= 2
  {
    arr[2 * g..Min(2 * g + 2, |arr|)]
  }

  /** The intended grouping: one group per even index, so every move
      appears exactly once. */
  function Grouped<T>(arr: seq<T>): (r: seq<seq<T>>)
    ensures |r| == (|arr| + 1) / 2
  {
    seq((|arr| + 1) / 2, g requires 0 <= g < (|arr| + 1) / 2 => Group(arr, g))
  }

  /** What `pairs` returns: the intended grouping, plus, when the length is
      even and not zero, the extra group `[last]` pushed for the odd last
      index. */
  function Paired<T>(arr: seq<T>): (r: seq<seq<T>>)
  {
    if |arr| > 0 && |arr| % 2 == 0 then Grouped(arr) + [[arr[|arr| - 1]]] else Grouped(arr)
  }

  /** `pairs`: the `reduce` over the indices of `arr`, pushing onto `result`. */
  method Pairs<T>(arr: seq<T>) returns (result: seq<seq<T>>)
    ensures result == Paired(arr)
  {
    result := [];
    var index := 0;
    while index < |arr|
      invariant 0 <= index <= |arr|
      invariant |result| == (index + 1) / 2 + (if index == |arr| && index > 0 && index % 2 == 0 then 1 else 0)
      invariant forall g :: 0 <= g < (index + 1) / 2 ==> result[g] == Group(arr, g)
      invariant index == |arr| && index > 0 && index % 2 == 0 ==> result[index / 2] == [arr[index - 1]]
    {
      var value := arr[index];
      if index % 2 == 0 {
        var end := if index + 2 <= |arr| then index + 2 else |arr|;
        result := result + [arr[index..end]];
      } else if index == |arr| - 1 {
        result := result + [[value]];
      }
      index := index + 1;
    }
    var groups := Grouped(arr);
    assert result[..|groups|] == groups;
    if |arr| > 0 && |arr| % 2 == 0 {
      assert result == result[..|groups|] + [result[|groups|]];
    } else {
      assert result == result[..|groups|];
    }
  }

  /** The moves of the groups, in order. */
  function Flatten<T>(groups: seq<seq<T>>): (r: seq<T>)
    decreases |groups|
  {
    if |groups| == 0 then [] else Flatten(groups[..|groups| - 1]) + groups[|groups| - 1]
  }

  lemma {:induction false} FlattenAppend<T>(groups: seq<seq<T>>, last: seq<T>)
    ensures Flatten(groups + [last]) == Flatten(groups) + last
  {
    assert (groups + [last])[..|groups|] == groups;
  }

  /** The first `m` intended groups hold exactly the first `2m` moves. */
  lemma {:induction false} FlattenGroupedPrefix<T>(arr: seq<T>, m: nat)
    requires m <= (|arr| + 1) / 2
    ensures Flatten(Grouped(arr)[..m]) == arr[..Min(2 * m, |arr|)]
    decreases m
  {
    if m > 0 {
      var groups := Grouped(arr);
      FlattenGroupedPrefix(arr, m - 1);
      assert groups[..m] == groups[..m - 1] + [groups[m - 1]];
      FlattenAppend(groups[..m - 1], groups[m - 1]);
      var start, end := 2 * (m - 1), Min(2 * m, |arr|);
      assert Min(2 * (m - 1), |arr|) == start < end;
      assert groups[m - 1] == arr[start..end];
      assert arr[..end] == arr[..start] + arr[start..end];
    }
  }

  /** The intended grouping shows every move once, in order. */
  lemma FlattenGrouped<T>(arr: seq<T>)
    ensures Flatten(Grouped(arr)) == arr
  {
    var groups := Grouped(arr);
    FlattenGroupedPrefix(arr, |groups|);
    assert groups[..|groups|] == groups;
    assert arr[..Min(2 * |groups|, |arr|)] == arr;
  }

  /** The index a shown move carries (`mvIdx`). */
  function MoveIndex(g: nat, i: nat): nat
  {
    2 * g + i
  }

  /** In the intended grouping every shown move carries its own index. */
  lemma GroupedIndex<T>(arr: seq<T>, g: nat, i: nat)
    requires g < |Grouped(arr)| && i < |Grouped(arr)[g]|
    ensures MoveIndex(g, i) < |arr| && Grouped(arr)[g][i] == arr[MoveIndex(g, i)]
  {
  }

  /** `pairs` as written: for an even, non-empty length the last move is
      shown twice, and the second copy carries the index `|arr|`, one past
      the last move. */
  lemma {:induction false} PairedDuplicatesLast<T>(arr: seq<T>)
    requires |arr| > 0 && |arr| % 2 == 0
    ensures Flatten(Paired(arr)) == arr + [arr[|arr| - 1]]
    ensures |Paired(arr)| == |arr| / 2 + 1
    ensures Paired(arr)[|arr| / 2] == [arr[|arr| - 1]] && MoveIndex(|arr| / 2, 0) == |arr|
  {
    FlattenGrouped(arr);
    FlattenAppend(Grouped(arr), [arr[|arr| - 1]]);
  }

  /** For an odd length `pairs` is the intended grouping, whose last group
      is the single last move. */
  lemma PairedOdd<T>(arr: seq<T>)
    requires |arr| % 2 == 1
    ensures Paired(arr) == Grouped(arr)
    ensures Flatten(Paired(arr)) == arr
    ensures Paired(arr)[|Paired(arr)| - 1] == [arr[|arr| - 1]]
  {
    FlattenGrouped(arr);
  }

  /** The smallest case of the duplicate: two moves give `[[a, b], [b]]`. */
  lemma TwoMovesShowThree(a: string, b: string)
    ensures Paired([a, b]) == [[a, b], [b]]
    ensures Flatten(Paired([a, b])) == [a, b, b]
  {
    var arr := [a, b];
    assert Group(arr, 0) == arr[0..2] == [a, b];
    assert Grouped(arr) == [[a, b]];
    PairedDuplicatesLast([a, b]);
  }

  /** `blunders.map((x) => x[0])`: the indices of the reported blunders. */
  function Indices(blunders: seq<(nat, string)>): (r: seq<nat>)
    ensures |r| == |blunders|
    ensures forall k :: 0 <= k < |r| ==> r[k] == blunders[k].0
  {
    seq(|blunders|, k requires 0 <= k < |blunders| => blunders[k].0)
  }

  /** `isBlunder`: the move's index is one of the reported indices. */
  predicate Marked(blunders: seq<(nat, string)>, mvIdx: nat)
  {
    mvIdx in Indices(blunders)
  }

  /** With the list `find_blunder` reports for the game, a shown move is
      marked exactly when that move is a blunder; moves beyond the examined
      ones are never marked. */
  lemma MarkedIffFlagged(game: GameRecord.Game, threshold: nat, g: nat, i: nat)
    requires Blunder.Readable(game)
    requires g < |Grouped(game.moves)| && i < |Grouped(game.moves)[g]|
    ensures var blunders := Blunder.BlundersUpTo(game, threshold, Blunder.Examined(game));
            Marked(blunders, MoveIndex(g, i)) <==>
              MoveIndex(g, i) < Blunder.Examined(game) && Blunder.Flagged(game, threshold, MoveIndex(g, i))
  {
    var blunders := Blunder.BlundersUpTo(game, threshold, Blunder.Examined(game));
    var idx := MoveIndex(g, i);
    Blunder.BlundersExact(game, threshold, Blunder.Examined(game));
    if Marked(blunders, idx) {
      var k :| 0 <= k < |blunders| && Indices(blunders)[k] == idx;
      assert blunders[k] in blunders;
    }
    if idx < Blunder.Examined(game) && Blunder.Flagged(game, threshold, idx) {
      var e := (idx, game.moves[idx]);
      assert e in blunders;
      var k :| 0 <= k < |blunders| && blunders[k] == e;
      assert Indices(blunders)[k] == idx;
    }
  }
}
