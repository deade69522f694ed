/** The opening statistics visitor (hubble/src/analysis/opening_counter.rs):
    for every game of one player it finds the catalogue opening that matches
    most of the game's moves and counts the game, from the player's side, as
    won, tied or lost under that opening's name. */
module OpeningCounter {
  import opened Wrappers
  import Pgn
  import Selection
  import Seqs
  import OpeningMatch

  type Opening = OpeningMatch.Opening

  /** `OpeningResult`: the games won, tied and lost under one opening. */
  datatype OpeningResult = OpeningResult(won: nat, tie: nat, lost: nat)

  const Fresh := OpeningResult(0, 0, 0)

  function Total(r: OpeningResult): nat
  {
    r.won + r.tie + r.lost
  }

  /** One game counted: a draw ("1/2-1/2") is a tie; otherwise the game is
      won when "white won" (a result of exactly "1-0") agrees with the player
      having had white, and lost when it does not. So an unfinished game
      ("*") counts as a win for a player with black. */
  function Scored(r: OpeningResult, result: string, isWhite: bool): (s: OpeningResult)
    ensures Total(s) == Total(r) + 1
    ensures s.tie == r.tie + 1 <==> Drawn(result)
    ensures s.won == r.won + 1 <==> !Drawn(result) && WhiteWon(result) == isWhite
    ensures s.lost == r.lost + 1 <==> !Drawn(result) && WhiteWon(result) != isWhite
  {
    if Drawn(result) then r.(tie := r.tie + 1)
    else if WhiteWon(result) == isWhite then r.(won := r.won + 1)
    else r.(lost := r.lost + 1)
  }

  predicate Drawn(result: string) { result == "1/2-1/2" }

  predicate WhiteWon(result: string) { result == "1-0" }

  /** Decisive results counted from the player's side: a game the player
      won with either colour is a win, and one they lost is a loss. */
  lemma ScoredFromPlayerSide(r: OpeningResult, isWhite: bool)
    ensures Scored(r, if isWhite then "1-0" else "0-1", isWhite) == r.(won := r.won + 1)
    ensures Scored(r, if isWhite then "0-1" else "1-0", isWhite) == r.(lost := r.lost + 1)
  {
  }

  /** The catalogue filed by ECO code, in load order (`OpeningCounter::new`). */
  function Grouped(catalogue: seq<Opening>): map<string, seq<Opening>>
    decreases |catalogue|
  {
    if |catalogue| == 0 then map[]
    else
      var ecos := Grouped(catalogue[..|catalogue| - 1]);
      var op := catalogue[|catalogue| - 1];
      if op.eco in ecos then ecos[op.eco := ecos[op.eco] + [op]] else ecos[op.eco := [op]]
  }

  /** The catalogue openings with ECO code `eco`, in load order. */
  function WithEco(catalogue: seq<Opening>, eco: string): seq<Opening>
    decreases |catalogue|
  {
    if |catalogue| == 0 then []
    else
      var rest := WithEco(catalogue[..|catalogue| - 1], eco);
      if catalogue[|catalogue| - 1].eco == eco then rest + [catalogue[|catalogue| - 1]] else rest
  }

  /** Every catalogue opening is filed under its own ECO code and under no
      other, in load order: the list for a code is exactly the catalogue's
      openings with that code, and a code has a list exactly when some
      opening carries it. */
  lemma {:induction false} GroupedByEco(catalogue: seq<Opening>, eco: string)
    ensures eco in Grouped(catalogue) <==> |WithEco(catalogue, eco)| > 0
    ensures eco in Grouped(catalogue) ==> Grouped(catalogue)[eco] == WithEco(catalogue, eco)
    decreases |catalogue|
  {
    if |catalogue| > 0 {
      GroupedByEco(catalogue[..|catalogue| - 1], eco);
    }
  }

  /** A code's list holds exactly the openings of the catalogue that carry it. */
  lemma {:induction false} WithEcoMembers(catalogue: seq<Opening>, eco: string, op: Opening)
    ensures op in WithEco(catalogue, eco) <==> op in catalogue && op.eco == eco
    decreases |catalogue|
  {
    if |catalogue| > 0 {
      var init := catalogue[..|catalogue| - 1];
      WithEcoMembers(init, eco, op);
      assert catalogue == init + [catalogue[|catalogue| - 1]];
    }
  }

  /** The `match_length_sans` score of each candidate against the moves. */
  function Lengths(ops: seq<Opening>, moves: seq<string>, matchLength: (Opening, seq<string>) -> nat): (r: seq<nat>)
    ensures |r| == |ops| && forall k :: 0 <= k < |ops| ==> r[k] == matchLength(ops[k], moves)
  {
    seq(|ops|, k requires 0 <= k < |ops| => matchLength(ops[k], moves))
  }

  /** The opening a game is counted under: none for a game without moves or
      with an ECO code outside the catalogue; otherwise the first of the
      openings filed under its code with the strictly greatest match
      length, and none when every length is 0. */
  function Chosen(ecos: map<string, seq<Opening>>, eco: string, moves: seq<string>,
                  matchLength: (Opening, seq<string>) -> nat): (r: Option<Opening>)
    ensures r.Some? ==> |moves| > 0 && eco in ecos
    ensures r.Some? ==> exists i :: 0 <= i < |ecos[eco]| && ecos[eco][i] == r.value && Best(ecos[eco], moves, matchLength, i)
    ensures r.None? <==> |moves| == 0 || eco !in ecos || forall k :: 0 <= k < |ecos[eco]| ==> matchLength(ecos[eco][k], moves) == 0
  {
    if |moves| == 0 || eco !in ecos then None
    else
      var ls := Lengths(ecos[eco], moves, matchLength);
      match Selection.Longest(ls)
      case None => None
      case Some(i) =>
        assert Best(ecos[eco], moves, matchLength, i);
        Some(ecos[eco][i])
  }

  /** The chosen opening is the one the running maximum settles on. */
  lemma ChosenByLongest(ecos: map<string, seq<Opening>>, eco: string, moves: seq<string>,
                        matchLength: (Opening, seq<string>) -> nat)
    requires |moves| > 0 && eco in ecos
    ensures Chosen(ecos, eco, moves, matchLength) ==
              match Selection.Longest(Lengths(ecos[eco], moves, matchLength))
              case None => None
              case Some(i) => Some(ecos[eco][i])
  {
  }

  /** Candidate `i` matches at least one move, none matches more, and every
      earlier one matches fewer. */
  ghost predicate Best(ops: seq<Opening>, moves: seq<string>, matchLength: (Opening, seq<string>) -> nat, i: int)
  {
    && 0 <= i < |ops|
    && matchLength(ops[i], moves) > 0
    && (forall k :: 0 <= k < |ops| ==> matchLength(ops[k], moves) <= matchLength(ops[i], moves))
    && (forall k :: 0 <= k < i ==> matchLength(ops[k], moves) < matchLength(ops[i], moves))
  }

  /** `entry(name).or_insert(OpeningResult::new())`: the name's counters, or
      zeros for a name not yet in the table. */
  function Entry(openings: map<string, OpeningResult>, name: string): OpeningResult
  {
    if name in openings then openings[name] else Fresh
  }

  /** The table after counting a game under `chosen` (nothing changes when no
      opening was chosen or its name is empty). */
  function Tallied(openings: map<string, OpeningResult>, chosen: Option<Opening>, result: string, isWhite: bool): (r: map<string, OpeningResult>)
    ensures forall name :: (chosen.None? || name != chosen.value.name) ==>
              (name in r <==> name in openings) && (name in r ==> r[name] == openings[name])
    ensures chosen.Some? && chosen.value.name != "" ==>
              chosen.value.name in r && r[chosen.value.name] == Scored(Entry(openings, chosen.value.name), result, isWhite)
    ensures chosen.None? || chosen.value.name == "" ==> r == openings
  {
    match chosen
    case None => openings
    case Some(op) =>
      if op.name == "" then openings
      else openings[op.name := Scored(Entry(openings, op.name), result, isWhite)]
  }

  /** A counted game adds exactly one to its opening's games. */
  lemma TalliedCountsOneGame(openings: map<string, OpeningResult>, op: Opening, result: string, isWhite: bool)
    requires op.name != ""
    ensures Total(Tallied(openings, Some(op), result, isWhite)[op.name]) == Total(Entry(openings, op.name)) + 1
  {
  }

  /** What the headers read so far have set: the ECO code, whether the player
      has white, and the result. */
  datatype Seen = Seen(eco: string, isWhite: bool, result: string)

  /** One header's effect; a value that is not UTF-8 is ignored. */
  function HeaderSeen(player: string, s: Seen, key: string, value: Pgn.RawHeader): (r: Seen)
    ensures value.NotUtf8? ==> r == s
    ensures value.Utf8? && key == "ECO" ==> r == s.(eco := value.text)
    ensures value.Utf8? && key == "White" ==> r == s.(isWhite := value.text == player)
    ensures value.Utf8? && key == "Result" ==> r == s.(result := value.text)
    ensures key !in {"ECO", "White", "Result"} ==> r == s
  {
    match value
    case NotUtf8 => s
    case Utf8(text) =>
      if key == "ECO" then s.(eco := text)
      else if key == "White" then s.(isWhite := text == player)
      else if key == "Result" then s.(result := text)
      else s
  }

  /** The effect of a run of headers, in order. */
  function HeadersSeen(player: string, s: Seen, headers: seq<(string, Pgn.RawHeader)>): Seen
    decreases |headers|
  {
    if |headers| == 0 then s
    else
      var (key, value) := headers[|headers| - 1];
      HeaderSeen(player, HeadersSeen(player, s, headers[..|headers| - 1]), key, value)
  }

  /** Whether `end_headers` skips a game's moves, as written: with a colour
      chosen, the games in which the player has THAT colour are skipped. */
  function SkipAsWritten(whiteOnly: Option<bool>, isWhite: bool): bool
  {
    whiteOnly.Some? && whiteOnly.value == isWhite
  }

  /** The games the `white_only` setting describes: all games when unset,
      the player's white games for `Some(true)`, black games for `Some(false)`. */
  predicate Wanted(whiteOnly: Option<bool>, isWhite: bool)
  {
    whiteOnly.None? || whiteOnly.value == isWhite
  }

  /** As written, a colour setting skips exactly the games it asks for. */
  lemma SkipAsWrittenInverted(whiteOnly: Option<bool>, isWhite: bool)
    requires whiteOnly.Some?
    ensures SkipAsWritten(whiteOnly, isWhite) <==> Wanted(whiteOnly, isWhite)
  {
  }

  /** A concrete case: with white only chosen, a game the player had white in
      is skipped. */
  lemma WhiteGameSkippedUnderWhiteOnly()
    ensures SkipAsWritten(Some(true), true)
    ensures !Wanted(Some(false), true) && !SkipAsWritten(Some(false), true)
  {
  }

  /** The skip the setting's description calls for. */
  function SkipIntended(whiteOnly: Option<bool>, isWhite: bool): (r: bool)
    ensures !r <==> Wanted(whiteOnly, isWhite)
    ensures whiteOnly.None? ==> !r
  {
    whiteOnly.Some? && whiteOnly.value != isWhite
  }

  class OpeningCounter {
    var openings: map<string, OpeningResult>
    const ecos: map<string, seq<Opening>>
    var currentEco: string
    var currentMoves: seq<string>
    var isWhite: bool
    var result: string
    const player: string
    const whiteOnly: Option<bool>
    /** `match_length_sans`, which is not part of this model. */
    const matchLength: (Opening, seq<string>) -> nat

    function State(): Seen
      reads this
    {
      Seen(currentEco, isWhite, result)
    }

    /** `OpeningCounter::new`, given the catalogue the database returns. */
    constructor(catalogue: seq<Opening>, player: string, whiteOnly: Option<bool>, matchLength: (Opening, seq<string>) -> nat)
      ensures ecos == Grouped(catalogue)
      ensures openings == map[] && currentEco == "" && currentMoves == [] && isWhite && result == ""
      ensures this.player == player && this.whiteOnly == whiteOnly && this.matchLength == matchLength
    {
      var grouped: map<string, seq<Opening>> := map[];
      var i := 0;
      while i < |catalogue|
        invariant 0 <= i <= |catalogue|
        invariant grouped == Grouped(catalogue[..i])
      {
        var op := catalogue[i];
        assert catalogue[..i + 1][..i] == catalogue[..i];
        if op.eco in grouped {
          grouped := grouped[op.eco := grouped[op.eco] + [op]];
        } else {
          grouped := grouped[op.eco := [op]];
        }
        i := i + 1;
      }
      assert catalogue[..i] == catalogue;
      openings := map[];
      ecos := grouped;
      currentEco := "";
      currentMoves := [];
      isWhite := true;
      result := "";
      this.player := player;
      this.whiteOnly := whiteOnly;
      this.matchLength := matchLength;
    }

    /** Starts a game; the ECO code of the previous game is kept. */
    method BeginGame()
      modifies this`currentMoves, this`result, this`isWhite
      ensures currentMoves == [] && result == "" && isWhite
    {
      currentMoves := [];
      result := "";
      isWhite := true;
    }

    method Header(key: string, value: Pgn.RawHeader)
      modifies this`currentEco, this`isWhite, this`result
      ensures State() == HeaderSeen(player, old(State()), key, value)
    {
      if value.Utf8? {
        if key == "ECO" {
          currentEco := value.text;
        } else if key == "White" {
          isWhite := value.text == player;
        } else if key == "Result" {
          result := value.text;
        }
      }
    }

    method EndHeaders() returns (s: Pgn.Skip)
      ensures s.skip == SkipAsWritten(whiteOnly, isWhite)
    {
      match whiteOnly {
        case Some(val) => s := Pgn.Skip(val == isWhite);
        case None => s := Pgn.Skip(false);
      }
    }

    method BeginVariation() returns (s: Pgn.Skip)
      ensures s.skip
    {
      s := Pgn.Skip(true);
    }

    method San(token: string)
      modifies this`currentMoves
      ensures currentMoves == old(currentMoves) + [token]
    {
      currentMoves := currentMoves + [token];
    }

    /** Counts the finished game under its opening and never stops the reader. */
    method EndGame() returns (r: bool)
      modifies this`openings
      ensures !r
      ensures openings == Tallied(old(openings), Chosen(ecos, currentEco, currentMoves, matchLength), result, isWhite)
    {
      r := false;
      if |currentMoves| == 0 {
        return;
      }
      if currentEco !in ecos {
        return;
      }
      var relevant := ecos[currentEco];
      ghost var all := Lengths(relevant, currentMoves, matchLength);
      ghost var ls: seq<nat> := [];
      ghost var chosen: Option<nat> := None;
      var longest := 0;
      var openingName := "";
      var i := 0;
      while i < |relevant|
        invariant 0 <= i <= |relevant| && ls == all[..i]
        invariant openings == old(openings)
        invariant chosen == Selection.Longest(ls) && longest == Selection.Best(ls)
        invariant chosen.None? ==> openingName == ""
        invariant chosen.Some? ==> chosen.value < i && openingName == relevant[chosen.value].name
      {
        var length := matchLength(relevant[i], currentMoves);
        Selection.LongestAppend(ls, length);
        Seqs.Extend(all, i);
        ls := ls + [length];
        if length > longest {
          longest := length;
          openingName := relevant[i].name;
          chosen := Some(i);
        }
        i := i + 1;
      }
      assert ls == all;
      ChosenByLongest(ecos, currentEco, currentMoves, matchLength);
      if openingName != "" {
        CountGame(openingName);
      }
    }

    /** The counting step of `end_game`: one more game under `name`, a tie,
        a win or a loss for the player. */
    method CountGame(name: string)
      modifies this`openings
      ensures openings == old(openings)[name := Scored(Entry(old(openings), name), result, isWhite)]
    {
      var count := Entry(openings, name);
      ghost var scored := Scored(count, result, isWhite);
      var whiteWon := result == "1-0";
      if result == "1/2-1/2" {
        count := count.(tie := count.tie + 1);
      } else if whiteWon == isWhite {
        count := count.(won := count.won + 1);
      } else {
        count := count.(lost := count.lost + 1);
      }
      assert count == scored;
      openings := openings[name := count];
    }

    method ReadHeaders(headers: seq<(string, Pgn.RawHeader)>)
      modifies this`currentEco, this`isWhite, this`result
      ensures State() == HeadersSeen(player, old(State()), headers)
    {
      var k := 0;
      while k < |headers|
        invariant 0 <= k <= |headers|
        invariant State() == HeadersSeen(player, old(State()), headers[..k])
      {
        assert headers[..k + 1][..k] == headers[..k];
        Header(headers[k].0, headers[k].1);
        k := k + 1;
      }
      assert headers[..k] == headers;
    }

    /** One game, from `begin_game` to `end_game`: a game whose moves
        `end_headers` skips reaches `end_game` with no moves and is not
        counted. */
    method ReadGame(g: Pgn.Game) returns (r: bool)
      modifies this`currentEco, this`currentMoves, this`isWhite, this`result, this`openings
      ensures !r
      ensures var seen := HeadersSeen(player, Seen(old(currentEco), true, ""), g.headers);
              var moves := if SkipAsWritten(whiteOnly, seen.isWhite) then [] else g.sans;
              && State() == seen
              && currentMoves == moves
              && openings == Tallied(old(openings), Chosen(ecos, seen.eco, moves, matchLength), seen.result, seen.isWhite)
    {
      BeginGame();
      ReadHeaders(g.headers);
      var skip := EndHeaders();
      if !skip.skip {
        ghost var seen, table := State(), openings;
        var i := 0;
        while i < |g.sans|
          invariant 0 <= i <= |g.sans| && currentMoves == g.sans[..i]
          invariant State() == seen && openings == table
        {
          San(g.sans[i]);
          assert g.sans[..i + 1] == g.sans[..i] + [g.sans[i]];
          i := i + 1;
        }
        assert g.sans[..i] == g.sans;
      }
      r := EndGame();
    }
  }
}
