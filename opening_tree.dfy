/** The move-frequency table (`OpeningTree`): a PGN visitor that counts, for
    every position reached in the mainlines of a set of games, how often each
    move was played from it; and the walk that follows the most popular move
    from the starting position. */
module OpeningTree {
  import opened Wrappers
  import opened Chess
  import Pgn
  import Seqs
  import Selection

  /** One move seen in a position (its UCI string) and how often. */
  datatype MoveEntry = MoveEntry(mv: string, n: nat)

  /** The number of entries for `mv`. */
  function Occurrences(moves: seq<MoveEntry>, mv: string): nat
    decreases |moves|
  {
    if |moves| == 0 then 0
    else Occurrences(moves[..|moves| - 1], mv) + (if moves[|moves| - 1].mv == mv then 1 else 0)
  }

  /** How often `mv` has been counted: the sum of the counts of its entries. */
  function CountOf(moves: seq<MoveEntry>, mv: string): nat
    decreases |moves|
  {
    if |moves| == 0 then 0
    else CountOf(moves[..|moves| - 1], mv) + (if moves[|moves| - 1].mv == mv then moves[|moves| - 1].n else 0)
  }

  /** The sum of all counts. */
  function Total(moves: seq<MoveEntry>): nat
    decreases |moves|
  {
    if |moves| == 0 then 0 else Total(moves[..|moves| - 1]) + moves[|moves| - 1].n
  }

  /** No move has two entries. */
  predicate Distinct(moves: seq<MoveEntry>)
  {
    forall i, j :: 0 <= i < j < |moves| ==> moves[i].mv != moves[j].mv
  }

  /** Some entry is for `mv`. */
  predicate Known(moves: seq<MoveEntry>, mv: string)
  {
    exists i :: 0 <= i < |moves| && moves[i].mv == mv
  }

  /** An entry with its count raised by one if it is for `mv`. */
  function Bump(e: MoveEntry, mv: string): MoveEntry
  {
    if e.mv == mv then e.(n := e.n + 1) else e
  }

  /** Every entry for `mv` has its count raised by one. */
  function Bumped(moves: seq<MoveEntry>, mv: string): (r: seq<MoveEntry>)
    ensures |r| == |moves|
    ensures forall i :: 0 <= i < |r| ==> r[i].mv == moves[i].mv
    ensures forall i :: 0 <= i < |r| ==> r[i].n == if moves[i].mv == mv then moves[i].n + 1 else moves[i].n
    decreases |moves|
  {
    if |moves| == 0 then [] else Bumped(moves[..|moves| - 1], mv) + [Bump(moves[|moves| - 1], mv)]
  }

  /** The list after `insert_move`: the known move counted once more in
      every entry for it, or an unknown move appended with count 1. */
  function Inserted(moves: seq<MoveEntry>, mv: string): seq<MoveEntry>
  {
    if Known(moves, mv) then Bumped(moves, mv) else moves + [MoveEntry(mv, 1)]
  }

  /** `insert_move`. */
  method InsertMove(moves: seq<MoveEntry>, mv: string) returns (r: seq<MoveEntry>)
    ensures r == Inserted(moves, mv)
    ensures Known(moves, mv) ==>
              && |r| == |moves|
              && forall i :: 0 <= i < |r| ==> r[i] == if moves[i].mv == mv then moves[i].(n := moves[i].n + 1) else moves[i]
    ensures !Known(moves, mv) ==> r == moves + [MoveEntry(mv, 1)]
  {
    var found := false;
    r := moves;
    var i := 0;
    while i < |r|
      invariant 0 <= i <= |r| == |moves|
      invariant forall j :: 0 <= j < i ==> r[j] == Bump(moves[j], mv)
      invariant forall j :: i <= j < |r| ==> r[j] == moves[j]
      invariant found <==> exists j :: 0 <= j < i && moves[j].mv == mv
    {
      if r[i].mv == mv {
        r := r[i := r[i].(n := r[i].n + 1)];
        found := true;
      }
      i := i + 1;
    }
    if !found {
      r := r + [MoveEntry(mv, 1)];
    } else {
      assert r == Bumped(moves, mv);
    }
  }

  lemma {:induction false} KnownOccurs(moves: seq<MoveEntry>, mv: string)
    ensures Known(moves, mv) <==> Occurrences(moves, mv) > 0
    decreases |moves|
  {
    if |moves| > 0 {
      var init := moves[..|moves| - 1];
      KnownOccurs(init, mv);
      if Known(init, mv) {
        var i :| 0 <= i < |init| && init[i].mv == mv;
        assert moves[i].mv == mv;
      }
      if Known(moves, mv) && moves[|moves| - 1].mv != mv {
        var i :| 0 <= i < |moves| && moves[i].mv == mv;
        assert init[i].mv == mv;
      }
    }
  }

  lemma {:induction false} DistinctOccursOnce(moves: seq<MoveEntry>, mv: string)
    requires Distinct(moves)
    ensures Occurrences(moves, mv) <= 1
    decreases |moves|
  {
    if |moves| > 0 {
      var init := moves[..|moves| - 1];
      DistinctOccursOnce(init, mv);
      if moves[|moves| - 1].mv == mv {
        forall i | 0 <= i < |init|
          ensures init[i].mv != mv
        {
          assert moves[i].mv != moves[|moves| - 1].mv;
        }
        KnownOccurs(init, mv);
      }
    }
  }

  lemma {:induction false} BumpedCounts(moves: seq<MoveEntry>, mv: string, x: string)
    ensures CountOf(Bumped(moves, mv), x) == CountOf(moves, x) + (if x == mv then Occurrences(moves, mv) else 0)
    ensures Total(Bumped(moves, mv)) == Total(moves) + Occurrences(moves, mv)
    decreases |moves|
  {
    if |moves| > 0 {
      var init := moves[..|moves| - 1];
      BumpedCounts(init, mv, x);
      var b := Bumped(moves, mv);
      assert b[..|b| - 1] == Bumped(init, mv);
    }
  }

  lemma AppendedCounts(moves: seq<MoveEntry>, e: MoveEntry, x: string)
    ensures CountOf(moves + [e], x) == CountOf(moves, x) + (if e.mv == x then e.n else 0)
    ensures Total(moves + [e]) == Total(moves) + e.n
  {
    assert (moves + [e])[..|moves|] == moves;
  }

  /** With distinct entries, `insert_move` counts `mv` once more and
      nothing else, so the sum of all counts grows by exactly one. */
  lemma InsertedCounts(moves: seq<MoveEntry>, mv: string, x: string)
    requires Distinct(moves)
    ensures CountOf(Inserted(moves, mv), x) == CountOf(moves, x) + (if x == mv then 1 else 0)
    ensures Total(Inserted(moves, mv)) == Total(moves) + 1
  {
    KnownOccurs(moves, mv);
    DistinctOccursOnce(moves, mv);
    if Known(moves, mv) {
      BumpedCounts(moves, mv, x);
    } else {
      AppendedCounts(moves, MoveEntry(mv, 1), x);
    }
  }

  /** `insert_move` keeps the entries distinct. */
  lemma InsertedDistinct(moves: seq<MoveEntry>, mv: string)
    requires Distinct(moves)
    ensures Distinct(Inserted(moves, mv))
  {
    if !Known(moves, mv) {
      var r := moves + [MoveEntry(mv, 1)];
      forall i, j | 0 <= i < j < |r|
        ensures r[i].mv != r[j].mv
      {
        if j == |moves| {
          assert moves[i].mv != mv;
        }
      }
    }
  }

  /** The counts of a position's entries, in order. */
  function Counts(moves: seq<MoveEntry>): (r: seq<nat>)
    ensures |r| == |moves|
    ensures forall i :: 0 <= i < |r| ==> r[i] == moves[i].n
  {
    seq(|moves|, i requires 0 <= i < |moves| => moves[i].n)
  }

  /** The move `find_most_popular` returns: that of the first entry with the
      greatest count, or "e2e4" when there is no entry or every count is 0. */
  function Choice(moves: seq<MoveEntry>): string
  {
    match Selection.Longest(Counts(moves))
    case None => "e2e4"
    case Some(i) => moves[i].mv
  }

  /** `find_most_popular`: a running maximum with a strict comparison. */
  method FindMostPopular(moves: seq<MoveEntry>) returns (pop: string)
    ensures pop == Choice(moves)
  {
    var nMax := 0;
    pop := "e2e4";
    var i := 0;
    ghost var counts := Counts(moves);
    while i < |moves|
      invariant 0 <= i <= |moves|
      invariant nMax == Selection.Best(counts[..i])
      invariant pop == match Selection.Longest(counts[..i]) case None => "e2e4" case Some(k) => moves[k].mv
    {
      Selection.LongestOneMore(counts, i);
      if moves[i].n > nMax {
        pop := moves[i].mv;
        nMax := moves[i].n;
      }
      i := i + 1;
    }
    assert counts[..i] == counts;
  }

  /** How often `mv` has been counted in the position with key `key`. */
  function Tally(stat: map<string, seq<MoveEntry>>, key: string, mv: string): nat
  {
    if key in stat then CountOf(stat[key], mv) else 0
  }

  /** How many times the pair (`key`, `mv`) occurs in `pairs`. */
  function Times(pairs: seq<(string, string)>, key: string, mv: string): nat
    decreases |pairs|
  {
    if |pairs| == 0 then 0
    else Times(pairs[..|pairs| - 1], key, mv) + (if pairs[|pairs| - 1] == (key, mv) then 1 else 0)
  }

  lemma {:induction false} TimesConcat(a: seq<(string, string)>, b: seq<(string, string)>, key: string, mv: string)
    ensures Times(a + b, key, mv) == Times(a, key, mv) + Times(b, key, mv)
    decreases |b|
  {
    if |b| == 0 {
      assert a + b == a;
    } else {
      var b0 := b[..|b| - 1];
      TimesConcat(a, b0, key, mv);
      assert (a + b)[..|a + b| - 1] == a + b0;
    }
  }

  /** The (position key, UCI) pairs a replayed line counts, in order. */
  function Observed(rules: Rules, from: seq<Pos>, moves: seq<Move>): (r: seq<(string, string)>)
    requires |from| == |moves|
    ensures |r| == |moves|
    decreases |moves|
  {
    if |moves| == 0 then []
    else Observed(rules, from[..|from| - 1], moves[..|moves| - 1])
         + [(rules.epd(from[|from| - 1]), rules.uci(Standard, moves[|moves| - 1]))]
  }

  lemma ObservedOneMore(rules: Rules, from: seq<Pos>, moves: seq<Move>, i: nat)
    requires |from| == |moves| && i < |moves|
    ensures Observed(rules, from[..i + 1], moves[..i + 1])
            == Observed(rules, from[..i], moves[..i]) + [(rules.epd(from[i]), rules.uci(Standard, moves[i]))]
  {
    assert from[..i + 1][..i] == from[..i];
    assert moves[..i + 1][..i] == moves[..i];
  }

  /** The table after `count_position` counts `uci` under `key`: that
      position's list as `insert_move` leaves it, or a new list holding the
      move once; every other position's list is kept. */
  function WithMove(stat: map<string, seq<MoveEntry>>, key: string, uci: string): (r: map<string, seq<MoveEntry>>)
    ensures r.Keys == stat.Keys + {key}
    ensures forall k :: k in stat && k != key ==> r[k] == stat[k]
  {
    stat[key := if key in stat then Inserted(stat[key], uci) else [MoveEntry(uci, 1)]]
  }

  /** The table after counting each (position key, UCI) pair of `pairs` in
      turn, starting from `stat`. */
  function Table(stat: map<string, seq<MoveEntry>>, pairs: seq<(string, string)>): map<string, seq<MoveEntry>>
    decreases |pairs|
  {
    if |pairs| == 0 then stat
    else
      var n := |pairs| - 1;
      WithMove(Table(stat, pairs[..n]), pairs[n].0, pairs[n].1)
  }

  lemma TableOneMore(stat: map<string, seq<MoveEntry>>, pairs: seq<(string, string)>, p: (string, string))
    ensures Table(stat, pairs + [p]) == WithMove(Table(stat, pairs), p.0, p.1)
  {
    assert (pairs + [p])[..|pairs|] == pairs;
  }

  /** Every position's entries are distinct. */
  predicate AllDistinct(stat: map<string, seq<MoveEntry>>)
  {
    forall key :: key in stat ==> Distinct(stat[key])
  }

  /** Counting one pair keeps every position's entries distinct and raises
      that pair's count by one. */
  lemma WithMoveTally(stat: map<string, seq<MoveEntry>>, k: string, u: string, key: string, mv: string)
    requires AllDistinct(stat)
    ensures AllDistinct(WithMove(stat, k, u))
    ensures Tally(WithMove(stat, k, u), key, mv) == Tally(stat, key, mv) + (if (k, u) == (key, mv) then 1 else 0)
  {
    if k in stat {
      InsertedDistinct(stat[k], u);
      InsertedCounts(stat[k], u, mv);
    } else {
      AppendedCounts([], MoveEntry(u, 1), mv);
      assert [] + [MoveEntry(u, 1)] == [MoveEntry(u, 1)];
    }
  }

  /** Counting a run of pairs keeps every position's entries distinct and
      raises the count of each (position, move) by the number of times the
      run holds it. */
  lemma {:induction false} TableTally(stat: map<string, seq<MoveEntry>>, pairs: seq<(string, string)>, key: string, mv: string)
    requires AllDistinct(stat)
    ensures AllDistinct(Table(stat, pairs))
    ensures Tally(Table(stat, pairs), key, mv) == Tally(stat, key, mv) + Times(pairs, key, mv)
    decreases |pairs|
  {
    if |pairs| > 0 {
      var n := |pairs| - 1;
      TableTally(stat, pairs[..n], key, mv);
      WithMoveTally(Table(stat, pairs[..n]), pairs[n].0, pairs[n].1, key, mv);
    }
  }

  /** A table that counts `counted0` and then counts `counted0 + seen` has
      grown by exactly the pairs of `seen`. */
  lemma TallyGrows(before: map<string, seq<MoveEntry>>, after: map<string, seq<MoveEntry>>,
                   counted0: seq<(string, string)>, seen: seq<(string, string)>, counted1: seq<(string, string)>)
    requires forall key, mv :: Tally(before, key, mv) == Times(counted0, key, mv)
    requires forall key, mv :: Tally(after, key, mv) == Times(counted1, key, mv)
    requires counted1 == counted0 + seen
    ensures forall key, mv :: Tally(after, key, mv) == Tally(before, key, mv) + Times(seen, key, mv)
  {
    forall key, mv
      ensures Tally(after, key, mv) == Tally(before, key, mv) + Times(seen, key, mv)
    {
      TimesConcat(counted0, seen, key, mv);
    }
  }

  /** Two different moves counted once each from one position are listed in
      the order they were first seen, so the first one wins the tie. */
  lemma TieGoesToFirstSeen(key: string, a: string, b: string)
    requires a != b
    ensures Table(map[], [(key, a), (key, b)])[key] == [MoveEntry(a, 1), MoveEntry(b, 1)]
    ensures Choice(Table(map[], [(key, a), (key, b)])[key]) == a
  {
    TableOneMore(map[], [], (key, a));
    TableOneMore(map[], [(key, a)], (key, b));
    assert [] + [(key, a)] == [(key, a)] && [(key, a)] + [(key, b)] == [(key, a), (key, b)];
    assert !Known([MoveEntry(a, 1)], b);
    var counts := Counts([MoveEntry(a, 1), MoveEntry(b, 1)]);
    assert counts[0] == 1 && counts[1] == 1;
  }

  /** The (position key, UCI) pairs one game contributes: those of its
      replayed mainline when every FEN header sets up a legal position, and
      none otherwise. */
  function GameSeen(rules: Rules, g: Pgn.Game): seq<(string, string)>
  {
    if FensValid(rules, g.headers) then
      var line := ReplayFrom(rules, HeaderStart(rules, g.headers, rules.start), g.sans);
      Observed(rules, line.from, line.moves)
    else []
  }

  /** The line `parse_common_moves` prints: the UCI strings printed, the
      positions they were chosen in, the position reached, and whether the
      walk ended in a panic (an `unwrap` of a string that is not UCI, or of
      a move that is not legal in the position). */
  datatype Walk = Walk(printed: seq<string>, visited: seq<Pos>, last: Pos, panicked: bool)

  /** The popular-line walk from `pos` for at most `fuel` plies. */
  function WalkFrom(rules: Rules, stats: map<string, seq<MoveEntry>>, pos: Pos, fuel: nat): (w: Walk)
    ensures |w.printed| == |w.visited| <= fuel
    decreases fuel
  {
    if fuel == 0 then Walk([], [], pos, false)
    else
      var key := rules.epd(pos);
      if key !in stats then Walk([], [], pos, false)
      else
        var pop := Choice(stats[key]);
        if !rules.uciSyntax(pop) then Walk([], [], pos, true)
        else match rules.uciToMove(pos, pop)
          case None => Walk([pop], [pos], pos, true)
          case Some(m) =>
            var rest := WalkFrom(rules, stats, rules.play(pos, m), fuel - 1);
            Walk([pop] + rest.printed, [pos] + rest.visited, rest.last, rest.panicked)
  }

  /** The number of plies the popular line is followed for. */
  const WalkPlies := 80

  /** Every printed move is the most popular one of the position it was
      chosen in, and the walk starts at `pos`. */
  lemma {:induction false} WalkFollowsChoices(rules: Rules, stats: map<string, seq<MoveEntry>>, pos: Pos, fuel: nat)
    ensures var w := WalkFrom(rules, stats, pos, fuel);
            && (|w.visited| > 0 ==> w.visited[0] == pos)
            && (forall i :: 0 <= i < |w.visited| ==>
                  rules.epd(w.visited[i]) in stats && w.printed[i] == Choice(stats[rules.epd(w.visited[i])]))
    decreases fuel
  {
    var w := WalkFrom(rules, stats, pos, fuel);
    if fuel > 0 && rules.epd(pos) in stats && rules.uciSyntax(Choice(stats[rules.epd(pos)])) {
      var pop := Choice(stats[rules.epd(pos)]);
      if rules.uciToMove(pos, pop).Some? {
        var m := rules.uciToMove(pos, pop).value;
        var rest := WalkFrom(rules, stats, rules.play(pos, m), fuel - 1);
        WalkFollowsChoices(rules, stats, rules.play(pos, m), fuel - 1);
        assert w.visited == [pos] + rest.visited && w.printed == [pop] + rest.printed;
        forall i | 0 < i < |w.visited|
          ensures rules.epd(w.visited[i]) in stats && w.printed[i] == Choice(stats[rules.epd(w.visited[i])])
        {
          assert w.visited[i] == rest.visited[i - 1] && w.printed[i] == rest.printed[i - 1];
        }
      }
    }
  }

  /** A walk that neither panicked nor used up its plies stopped at a
      position the table does not know. */
  lemma {:induction false} WalkStopsOffTable(rules: Rules, stats: map<string, seq<MoveEntry>>, pos: Pos, fuel: nat)
    ensures var w := WalkFrom(rules, stats, pos, fuel);
            !w.panicked && |w.printed| < fuel ==> rules.epd(w.last) !in stats
    decreases fuel
  {
    if fuel > 0 && rules.epd(pos) in stats && rules.uciSyntax(Choice(stats[rules.epd(pos)])) {
      var pop := Choice(stats[rules.epd(pos)]);
      if rules.uciToMove(pos, pop).Some? {
        WalkStopsOffTable(rules, stats, rules.play(pos, rules.uciToMove(pos, pop).value), fuel - 1);
      }
    }
  }

  /** One ply of the walk: the popular move is printed and played, and the
      walk goes on from the position it reaches; the part of the line still
      to print is what follows the popular move. */
  lemma WalkStep(rules: Rules, stats: map<string, seq<MoveEntry>>, whole: Walk, printed: seq<string>, pos: Pos, fuel: nat, m: Move)
    requires fuel > 0 && rules.epd(pos) in stats
    requires rules.uciSyntax(Choice(stats[rules.epd(pos)]))
    requires rules.uciToMove(pos, Choice(stats[rules.epd(pos)])) == Some(m)
    requires whole.printed == printed + WalkFrom(rules, stats, pos, fuel).printed
    requires whole.panicked == WalkFrom(rules, stats, pos, fuel).panicked
    ensures var rest := WalkFrom(rules, stats, rules.play(pos, m), fuel - 1);
            whole.printed == (printed + [Choice(stats[rules.epd(pos)])]) + rest.printed && whole.panicked == rest.panicked
  {
    var rest := WalkFrom(rules, stats, rules.play(pos, m), fuel - 1);
    Seqs.Assoc(printed, [Choice(stats[rules.epd(pos)])], rest.printed);
  }

  /** The walk of `parse_common_moves` over a finished table: from the
      standard starting position, print the most popular move and play it,
      for at most 80 plies or until the position is not in the table. */
  method PopularLine(rules: Rules, stats: map<string, seq<MoveEntry>>) returns (printed: seq<string>, panicked: bool)
    ensures var w := WalkFrom(rules, stats, rules.start, WalkPlies);
            printed == w.printed && panicked == w.panicked
  {
    printed, panicked := FollowPopular(rules, stats, WalkPlies);
  }

  /** The loop of `parse_common_moves`, for a given number of plies. */
  method FollowPopular(rules: Rules, stats: map<string, seq<MoveEntry>>, plies: nat) returns (printed: seq<string>, panicked: bool)
    ensures var w := WalkFrom(rules, stats, rules.start, plies);
            printed == w.printed && panicked == w.panicked
  {
    ghost var whole := WalkFrom(rules, stats, rules.start, plies);
    var pos := rules.start;
    printed, panicked := [], false;
    var k := 0;
    while k < plies
      invariant 0 <= k <= plies
      invariant whole.printed == printed + WalkFrom(rules, stats, pos, plies - k).printed
      invariant whole.panicked == WalkFrom(rules, stats, pos, plies - k).panicked
    {
      var fen := rules.epd(pos);
      if fen !in stats {
        break;
      }
      var mostPopular := FindMostPopular(stats[fen]);
      if !rules.uciSyntax(mostPopular) {
        panicked := true;
        return;
      }
      var m := rules.uciToMove(pos, mostPopular);
      if m.None? {
        printed := printed + [mostPopular];
        panicked := true;
        return;
      }
      WalkStep(rules, stats, whole, printed, pos, plies - k, m.value);
      printed := printed + [mostPopular];
      pos := rules.play(pos, m.value);
      k := k + 1;
    }
  }

  class OpeningTree {
    const rules: Rules
    var games: nat
    var pos: Pos
    var success: bool
    var moveStat: map<string, seq<MoveEntry>>
    /** Every (position key, UCI) pair counted so far, over all games. */
    ghost var counted: seq<(string, string)>

    /** Each position's entries are distinct, and the table counts every
        counted move exactly once. */
    ghost predicate Valid()
      reads this
    {
      && (forall key :: key in moveStat ==> Distinct(moveStat[key]))
      && (forall key, mv :: Tally(moveStat, key, mv) == Times(counted, key, mv))
    }

    /** `OpeningTree::new`. */
    constructor (rules: Rules)
      ensures Valid()
      ensures this.rules == rules && games == 0 && pos == rules.start && success
      ensures moveStat == map[] && counted == []
    {
      this.rules := rules;
      games := 0;
      pos := rules.start;
      success := true;
      moveStat := map[];
      counted := [];
    }

    /** `count_position`: the move is counted under the key of the current
        position, as its standard-castling UCI string. */
    method CountPosition(mv: Move)
      requires Valid()
      modifies this`moveStat, this`counted
      ensures Valid()
      ensures counted == old(counted) + [(rules.epd(pos), rules.uci(Standard, mv))]
      ensures moveStat == WithMove(old(moveStat), rules.epd(pos), rules.uci(Standard, mv))
    {
      var fen := rules.epd(pos);
      var uci := rules.uci(Standard, mv);
      if fen in moveStat {
        InsertedDistinct(moveStat[fen], uci);
        var entries := InsertMove(moveStat[fen], uci);
        moveStat := moveStat[fen := entries];
      } else {
        moveStat := moveStat[fen := [MoveEntry(uci, 1)]];
      }
      counted := counted + [(fen, uci)];
      forall key, x
        ensures Tally(moveStat, key, x) == Times(counted, key, x)
      {
        assert counted[..|counted| - 1] == old(counted);
        if key == fen {
          if fen in old(moveStat) {
            InsertedCounts(old(moveStat)[fen], uci, x);
          } else {
            AppendedCounts([], MoveEntry(uci, 1), x);
            assert [] + [MoveEntry(uci, 1)] == [MoveEntry(uci, 1)];
          }
        }
      }
    }

    /** `begin_game`: counts the game and starts a fresh replay. */
    method BeginGame()
      requires Valid()
      modifies this`games, this`pos, this`success
      ensures Valid()
      ensures games == old(games) + 1 && pos == rules.start && success
    {
      games := games + 1;
      pos := rules.start;
      success := true;
    }

    /** `header`: only a FEN header matters. One that does not parse or does
        not set up a legal position clears `success` and keeps the position. */
    method Header(key: string, value: Pgn.RawHeader)
      modifies this`pos, this`success
      ensures key == "FEN" && FenPosition(rules, value).None? ==> !success && pos == old(pos)
      ensures key == "FEN" && FenPosition(rules, value).Some? ==> success == old(success) && pos == FenPosition(rules, value).value
      ensures key != "FEN" ==> success == old(success) && pos == old(pos)
    {
      if key == "FEN" {
        var fen := rules.parseFen(value);
        if fen.None? {
          success := false;
          return;
        }
        var p := rules.setup(fen.value);
        if p.None? {
          success := false;
          return;
        }
        pos := p.value;
      }
    }

    /** `end_headers`: the moves of a game whose headers failed are skipped. */
    method EndHeaders() returns (skip: Pgn.Skip)
      ensures skip.skip <==> !success
    {
      skip := Pgn.Skip(!success);
    }

    /** `begin_variation`: only the mainline is counted. */
    method BeginVariation() returns (skip: Pgn.Skip)
      ensures skip.skip
    {
      skip := Pgn.Skip(true);
    }

    /** `san`. While the replay is healthy, a legal move is counted under the
        key of the position it is played from, then played; an illegal move
        clears `success` and counts nothing; once `success` is clear, nothing
        changes. */
    method San(san: string)
      requires Valid()
      modifies this`pos, this`success, this`moveStat, this`counted
      ensures Valid()
      ensures !old(success) || rules.toMove(old(pos), san).None? ==>
                pos == old(pos) && moveStat == old(moveStat) && counted == old(counted)
      ensures !old(success) ==> !success
      ensures old(success) && rules.toMove(old(pos), san).None? ==> !success
      ensures old(success) && rules.toMove(old(pos), san).Some? ==>
                var m := rules.toMove(old(pos), san).value;
                && success && pos == rules.play(old(pos), m)
                && counted == old(counted) + [(rules.epd(old(pos)), rules.uci(Standard, m))]
                && moveStat == WithMove(old(moveStat), rules.epd(old(pos)), rules.uci(Standard, m))
    {
      if success {
        match rules.toMove(pos, san) {
          case Some(m) =>
            CountPosition(m);
            pos := rules.play(pos, m);
          case None =>
            success := false;
        }
      }
    }

    /** `end_game`: whether the game replayed without error. */
    method EndGame() returns (r: bool)
      ensures r == success
    {
      r := success;
    }

    /** The headers of a game, in order. */
    method ReadHeaders(headers: seq<(string, Pgn.RawHeader)>)
      modifies this`pos, this`success
      ensures success == (old(success) && FensValid(rules, headers))
      ensures pos == HeaderStart(rules, headers, old(pos))
    {
      var k := 0;
      while k < |headers|
        invariant 0 <= k <= |headers|
        invariant success == (old(success) && FensValid(rules, headers[..k]))
        invariant pos == HeaderStart(rules, headers[..k], old(pos))
      {
        HeadersOneMore(rules, headers, k, old(pos));
        Header(headers[k].0, headers[k].1);
        k := k + 1;
      }
      assert headers[..k] == headers;
    }

    /** How far the replay of `line` has got after its first `i` tokens,
        starting from the pairs `counted0` and the table `stat0`. */
    ghost predicate Progress(line: Replay, i: nat, counted0: seq<(string, string)>, stat0: map<string, seq<MoveEntry>>)
      reads this
      requires |line.moves| == |line.from|
    {
      && (success ==> i <= |line.moves| && pos == Reached(line, i) &&
                      counted == counted0 + Observed(rules, line.from[..i], line.moves[..i]) &&
                      moveStat == Table(stat0, Observed(rules, line.from[..i], line.moves[..i])))
      && (!success ==> line.stopped && counted == counted0 + Observed(rules, line.from, line.moves) &&
                       moveStat == Table(stat0, Observed(rules, line.from, line.moves)))
    }

    /** The `i`-th mainline token of a replay in progress. */
    method ReadMove(ghost origin: Pos, sans: seq<string>, i: nat, ghost counted0: seq<(string, string)>,
                    ghost stat0: map<string, seq<MoveEntry>>)
      requires Valid() && i < |sans|
      requires Progress(ReplayFrom(rules, origin, sans), i, counted0, stat0)
      modifies this`pos, this`success, this`moveStat, this`counted
      ensures Valid()
      ensures Progress(ReplayFrom(rules, origin, sans), i + 1, counted0, stat0)
    {
      ghost var line := ReplayFrom(rules, origin, sans);
      ghost var wasSuccess := success;
      San(sans[i]);
      if wasSuccess && i < |line.moves| {
        ReplayStep(rules, origin, sans, i);
        ObservedOneMore(rules, line.from, line.moves, i);
        Seqs.Assoc(counted0, Observed(rules, line.from[..i], line.moves[..i]), [(rules.epd(line.from[i]), rules.uci(Standard, line.moves[i]))]);
        TableOneMore(stat0, Observed(rules, line.from[..i], line.moves[..i]), (rules.epd(line.from[i]), rules.uci(Standard, line.moves[i])));
      } else if wasSuccess {
        assert line.moves[..i] == line.moves && line.from[..i] == line.from;
      }
    }

    /** The mainline SANs of a game from a healthy state: every legal move
        up to the first illegal token is counted, in order. */
    method ReadMoves(sans: seq<string>)
      requires Valid() && success
      modifies this`pos, this`success, this`moveStat, this`counted
      ensures Valid()
      ensures var line := ReplayFrom(rules, old(pos), sans);
              && success == !line.stopped
              && counted == old(counted) + Observed(rules, line.from, line.moves)
              && moveStat == Table(old(moveStat), Observed(rules, line.from, line.moves))
    {
      ghost var line := ReplayFrom(rules, pos, sans);
      assert line.moves[..0] == [] && line.from[..0] == [];
      var i := 0;
      while i < |sans|
        invariant 0 <= i <= |sans|
        invariant Valid()
        invariant Progress(line, i, old(counted), old(moveStat))
      {
        ReadMove(old(pos), sans, i, old(counted), old(moveStat));
        i := i + 1;
      }
      if success {
        assert |line.moves| == i;
        assert line.moves[..i] == line.moves && line.from[..i] == line.from;
      } else {
        assert line.stopped;
      }
    }

    /** One game through the visitor. If every FEN header sets up a legal
        position, each legal mainline move up to the first illegal token is
        counted once under the position it was played from, and the result
        says whether there was no illegal token; otherwise nothing is
        counted and the result is false. The game is counted either way. */
    method ReadGame(g: Pgn.Game) returns (r: bool)
      requires Valid()
      modifies this
      ensures Valid()
      ensures games == old(games) + 1
      ensures r == (FensValid(rules, g.headers) && !ReplayFrom(rules, HeaderStart(rules, g.headers, rules.start), g.sans).stopped)
      ensures counted == old(counted) + GameSeen(rules, g)
      ensures moveStat == Table(old(moveStat), GameSeen(rules, g))
      ensures forall key, mv :: Tally(moveStat, key, mv) == Tally(old(moveStat), key, mv) + Times(GameSeen(rules, g), key, mv)
    {
      ghost var origin := HeaderStart(rules, g.headers, rules.start);
      ghost var line := ReplayFrom(rules, origin, g.sans);
      ghost var seen := GameSeen(rules, g);
      BeginGame();
      ReadHeaders(g.headers);
      var skip := EndHeaders();
      if !skip.skip {
        ReadMoves(g.sans);
        assert moveStat == Table(old(moveStat), seen);
      } else {
        assert seen == [];
        assert counted == old(counted) + seen && moveStat == Table(old(moveStat), seen);
      }
      r := EndGame();
      TallyGrows(old(moveStat), moveStat, old(counted), seen, counted);
    }
  }
}
