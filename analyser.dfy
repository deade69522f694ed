/** The game-replay visitor of the `hubble` crate (`GameAnalyser`): it
    replays the mainline of one game, asks the engine for a score after every
    move, fills a `Game` record, and notes the move indices at which the
    middle game and the end game start. */
module Analyser {
  import opened Wrappers
  import opened Chess
  import Pgn
  import Seqs
  import Text
  import GameRecord

  /** The engine's verdict (`uciengine::analysis::Score`): centipawns, or a
      forced mate in the given number of moves. */
  datatype Score = Cp(cp: int) | Mate(moves: int)

  const MateScore: int := 100_000

  /** The score mapping of `eval_move`: centipawns as they are, a mate in
      `n` as `100000 - n`. The sign of `n` is not looked at, so a negative
      `n` scores above 100000. */
  function ScoreValue(s: Score): (v: int)
    ensures s.Cp? ==> v == s.cp
    ensures s.Mate? ==> v == MateScore - s.moves
    ensures s.Mate? && s.moves > 0 ==> v < MateScore
    ensures s.Mate? && s.moves < 0 ==> v > MateScore
  {
    match s
    case Cp(value) => value
    case Mate(n) => MateScore - n
  }

  /** The test of `is_middle_game`: at most 10 pieces other than kings and
      pawns, or fewer than 4 pieces on the first or on the eighth rank. */
  predicate MiddleGameReached(rules: Rules, p: Pos)
  {
    rules.minorMajor(p) <= 10 || rules.rank1(p) < 4 || rules.rank8(p) < 4
  }

  /** The test of `is_end_game`: at most 6 pieces other than kings and pawns. */
  predicate EndGameReached(rules: Rules, p: Pos)
  {
    rules.minorMajor(p) <= 6
  }

  /** The score string stored for a move. */
  function ScoreText(engine: (Pos, Move) -> Score, p: Pos, m: Move): string
  {
    Text.ShowInt(ScoreValue(engine(p, m)))
  }

  /** The UCI string stored for a move played from `p`. */
  function UciText(rules: Rules, p: Pos, m: Move): string
  {
    rules.uci(rules.castlingMode(p), m)
  }

  /** The record holds, move by move, the UCI string and the score of each
      replayed move from the position it was played in. */
  ghost predicate Recorded(rules: Rules, engine: (Pos, Move) -> Score, moves: seq<string>, scores: seq<string>,
                           played: seq<Move>, from: seq<Pos>)
  {
    && |moves| == |played| && |scores| == |played| && |from| == |played|
    && forall i :: 0 <= i < |played| ==>
         moves[i] == UciText(rules, from[i], played[i]) && scores[i] == ScoreText(engine, from[i], played[i])
  }

  lemma RecordedOneMore(rules: Rules, engine: (Pos, Move) -> Score, moves: seq<string>, scores: seq<string>,
                        played: seq<Move>, from: seq<Pos>, p: Pos, m: Move)
    requires Recorded(rules, engine, moves, scores, played, from)
    ensures Recorded(rules, engine, moves + [UciText(rules, p, m)], scores + [ScoreText(engine, p, m)], played + [m], from + [p])
  {
  }

  /** What `header` unwraps: the UTF-8 decoding of the `White` and `Black`
      values, and the fourth '/'-separated segment of a `Site` or
      `LichessURL` value. */
  predicate HeaderReadable(key: string, value: Pgn.RawHeader)
  {
    && (key == "White" || key == "Black" ==> value.Utf8?)
    && ((key == "LichessURL" || key == "Site") && value.Utf8? ==> |Text.Split(value.text, '/')| >= 4)
  }

  /** What a non-FEN header does to the game record: `White`, `Black`, the
      two ratings (when they parse as an `i32`), the game id (the fourth
      '/'-separated segment of the URL), the opening and the winner (named
      by the players known when `Result` is read); any other key leaves the
      record alone, and the moves, scores and phases are never touched. */
  function HeaderRecord(g: GameRecord.Game, key: string, value: Pgn.RawHeader): (r: GameRecord.Game)
    requires HeaderReadable(key, value)
    ensures r.moves == g.moves && r.scores == g.scores
    ensures r.middleGame == g.middleGame && r.endGame == g.endGame
    ensures r.white == if key == "White" then value.text else g.white
    ensures r.black == if key == "Black" then value.text else g.black
    ensures r.whiteRating ==
              if key == "WhiteElo" && value.Utf8? && Text.ParseI32(value.text).Some?
              then Text.ParseI32(value.text) else g.whiteRating
    ensures r.blackRating ==
              if key == "BlackElo" && value.Utf8? && Text.ParseI32(value.text).Some?
              then Text.ParseI32(value.text) else g.blackRating
    ensures r.id ==
              if (key == "LichessURL" || key == "Site") && value.Utf8?
              then Text.Split(value.text, '/')[3] else g.id
    ensures r.openingId == if key == "ECO" && value.Utf8? then Some(value.text) else g.openingId
    ensures r.winner ==
              if key == "Result" && value.Utf8? then
                (if value.text == "1-0" then Some(g.white)
                 else if value.text == "0-1" then Some(g.black)
                 else None)
              else g.winner
  {
    if key == "White" then g.(white := value.text)
    else if key == "Black" then g.(black := value.text)
    else if key == "WhiteElo" && value.Utf8? && Text.ParseI32(value.text).Some? then
      g.(whiteRating := Text.ParseI32(value.text))
    else if key == "BlackElo" && value.Utf8? && Text.ParseI32(value.text).Some? then
      g.(blackRating := Text.ParseI32(value.text))
    else if (key == "LichessURL" || key == "Site") && value.Utf8? then
      g.(id := Text.Split(value.text, '/')[3])
    else if key == "ECO" && value.Utf8? then g.(openingId := Some(value.text))
    else if key == "Result" && value.Utf8? then
      g.(winner := if value.text == "1-0" then Some(g.white) else if value.text == "0-1" then Some(g.black) else None)
    else g
  }

  /** Every header of a run is one `header` reads without panicking. */
  predicate HeadersReadable(headers: seq<(string, Pgn.RawHeader)>)
  {
    forall k :: 0 <= k < |headers| ==> HeaderReadable(headers[k].0, headers[k].1)
  }

  /** The record after a run of headers, starting from `g`: each header in
      turn acts as `HeaderRecord` says (a FEN header leaves the record). */
  function HeadersRecord(g: GameRecord.Game, headers: seq<(string, Pgn.RawHeader)>): (r: GameRecord.Game)
    requires HeadersReadable(headers)
    ensures r.moves == g.moves && r.scores == g.scores
    ensures r.middleGame == g.middleGame && r.endGame == g.endGame
    decreases |headers|
  {
    if |headers| == 0 then g
    else
      var n := |headers| - 1;
      var before := HeadersRecord(g, headers[..n]);
      if headers[n].0 == "FEN" then before else HeaderRecord(before, headers[n].0, headers[n].1)
  }

  lemma HeadersRecordOneMore(g: GameRecord.Game, headers: seq<(string, Pgn.RawHeader)>, k: nat)
    requires HeadersReadable(headers) && k < |headers|
    ensures HeadersReadable(headers[..k]) && HeadersReadable(headers[..k + 1])
    ensures HeadersRecord(g, headers[..k + 1]) ==
              if headers[k].0 == "FEN" then HeadersRecord(g, headers[..k])
              else HeaderRecord(HeadersRecord(g, headers[..k]), headers[k].0, headers[k].1)
  {
    assert headers[..k + 1][..k] == headers[..k];
  }

  /** The part of the record the headers fill: everything but the moves
      and scores. */
  function HeaderFields(g: GameRecord.Game): GameRecord.Game
  {
    g.(moves := [], scores := [])
  }

  /** The position reached by the `j`-th replayed move. */
  function After(rules: Rules, from: seq<Pos>, moves: seq<Move>, j: nat): Pos
    requires j < |from| == |moves|
  {
    rules.play(from[j], moves[j])
  }

  /** The phase indices after the move with index `n` reached `next`: the
      middle-game test while no middle game is recorded, then the end-game
      test while no end game is. */
  function PhaseStep(rules: Rules, phases: (Option<nat>, Option<nat>), n: nat, next: Pos): (Option<nat>, Option<nat>)
  {
    (if phases.0.None? && MiddleGameReached(rules, next) then Some(n) else phases.0,
     if phases.0.Some? && phases.1.None? && EndGameReached(rules, next) then Some(n) else phases.1)
  }

  /** The (middle game, end game) indices a replay of `moves`, played from
      `from`, leaves behind. */
  function Phases(rules: Rules, from: seq<Pos>, moves: seq<Move>): (Option<nat>, Option<nat>)
    requires |from| == |moves|
    decreases |moves|
  {
    if |moves| == 0 then (None, None)
    else
      var n := |moves| - 1;
      PhaseStep(rules, Phases(rules, from[..n], moves[..n]), n, After(rules, from, moves, n))
  }

  lemma PhasesOneMore(rules: Rules, from: seq<Pos>, moves: seq<Move>, p: Pos, m: Move)
    requires |from| == |moves|
    ensures Phases(rules, from + [p], moves + [m]) == PhaseStep(rules, Phases(rules, from, moves), |moves|, rules.play(p, m))
  {
    assert (from + [p])[..|moves|] == from && (moves + [m])[..|moves|] == moves;
  }

  /** The middle game starts at the first move that reaches a middle-game
      position; the end game starts at the first later move that reaches an
      end-game position; each index is `None` when there is no such move. */
  lemma {:induction false} PhasesFirst(rules: Rules, from: seq<Pos>, moves: seq<Move>)
    requires |from| == |moves|
    ensures var (mid, end) := Phases(rules, from, moves);
            && (mid.Some? ==> mid.value < |moves| && MiddleGameReached(rules, After(rules, from, moves, mid.value)))
            && (forall j :: 0 <= j < |moves| && (mid.None? || j < mid.value) ==>
                  !MiddleGameReached(rules, After(rules, from, moves, j)))
            && (end.Some? ==> mid.Some? && mid.value < end.value < |moves| && EndGameReached(rules, After(rules, from, moves, end.value)))
            && (mid.Some? ==> forall j :: mid.value < j < |moves| && (end.None? || j < end.value) ==>
                  !EndGameReached(rules, After(rules, from, moves, j)))
    decreases |moves|
  {
    if |moves| > 0 {
      var n := |moves| - 1;
      PhasesFirst(rules, from[..n], moves[..n]);
      forall j | 0 <= j < n
        ensures After(rules, from[..n], moves[..n], j) == After(rules, from, moves, j)
      {
      }
    }
  }

  class GameAnalyser {
    const rules: Rules
    /** The engine's score for the position reached by playing a move from a
        position (the `GoJob` of `eval_move`, with the engine I/O left out). */
    const engine: (Pos, Move) -> Score
    var success: bool
    var pos: Pos
    var game: GameRecord.Game
    var middleGameStart: Option<nat>
    var endGameStart: Option<nat>
    var moveCounter: nat
    /** The moves replayed since `begin_game`, and the position each was
        played from. */
    ghost var played: seq<Move>
    ghost var playedFrom: seq<Pos>

    /** Moves and scores stay as long as the move counter, and each entry is
        the UCI string and the engine's score of a move actually replayed; the
        phase indices are those the replayed moves determine, and neither
        index is ever copied into the record. */
    ghost predicate Valid()
      reads this
    {
      && |played| == moveCounter
      && Recorded(rules, engine, game.moves, game.scores, played, playedFrom)
      && (middleGameStart, endGameStart) == Phases(rules, playedFrom, played)
      && game.middleGame.None? && game.endGame.None?
    }

    /** `GameAnalyser::new`, with the engine given rather than started. */
    constructor (rules: Rules, engine: (Pos, Move) -> Score)
      ensures Valid()
      ensures this.rules == rules && this.engine == engine
      ensures success && pos == rules.start && game == GameRecord.Empty()
      ensures middleGameStart.None? && endGameStart.None? && moveCounter == 0
      ensures played == [] && playedFrom == []
    {
      this.rules := rules;
      this.engine := engine;
      success := true;
      pos := rules.start;
      game := GameRecord.Empty();
      middleGameStart := None;
      endGameStart := None;
      moveCounter := 0;
      played, playedFrom := [], [];
    }

    /** `is_end_game`: records the current move index when the end-game
        test holds. */
    method CheckEndGame()
      modifies this`endGameStart
      ensures endGameStart == if EndGameReached(rules, pos) then Some(moveCounter) else old(endGameStart)
    {
      if rules.minorMajor(pos) <= 6 {
        endGameStart := Some(moveCounter);
      }
    }

    /** `is_middle_game`: records the current move index when the
        middle-game test holds. */
    method CheckMiddleGame()
      modifies this`middleGameStart
      ensures middleGameStart == if MiddleGameReached(rules, pos) then Some(moveCounter) else old(middleGameStart)
    {
      var numMinorMajor := rules.minorMajor(pos);
      var whiteBackrankCount := rules.rank1(pos);
      var blackBackrankCount := rules.rank8(pos);
      if numMinorMajor <= 10 || whiteBackrankCount < 4 || blackBackrankCount < 4 {
        middleGameStart := Some(moveCounter);
      }
    }

    /** The phase test `san` runs after a move: the middle-game test until it
        has fired, then the end-game test until it has fired. */
    method AdvancePhase()
      modifies this`middleGameStart, this`endGameStart
      ensures (middleGameStart, endGameStart) == PhaseStep(rules, (old(middleGameStart), old(endGameStart)), moveCounter, pos)
    {
      if middleGameStart.None? {
        CheckMiddleGame();
      } else if endGameStart.None? {
        CheckEndGame();
      }
    }

    /** `begin_game`: whatever the state, a fresh replay. */
    method BeginGame()
      modifies this
      ensures Valid()
      ensures success && pos == rules.start && game == GameRecord.Empty()
      ensures middleGameStart.None? && endGameStart.None? && moveCounter == 0
      ensures played == [] && playedFrom == []
    {
      success := true;
      pos := rules.start;
      game := GameRecord.Empty();
      middleGameStart := None;
      endGameStart := None;
      moveCounter := 0;
      played, playedFrom := [], [];
    }

    /** `header`. A FEN header that does not parse or does not set up a legal
        position clears `success` and keeps the position; the other known
        keys fill the record. `White` and `Black` unwrap the UTF-8 decoding,
        and `Site`/`LichessURL` unwrap the fourth '/'-separated segment, so
        those must be present. */
    method Header(key: string, value: Pgn.RawHeader)
      requires Valid()
      requires HeaderReadable(key, value)
      modifies this
      ensures Valid()
      ensures moveCounter == old(moveCounter) && played == old(played) && playedFrom == old(playedFrom)
      ensures middleGameStart == old(middleGameStart) && endGameStart == old(endGameStart)
      ensures key == "FEN" && FenPosition(rules, value).None? ==> !success && pos == old(pos)
      ensures key == "FEN" && FenPosition(rules, value).Some? ==> success == old(success) && pos == FenPosition(rules, value).value
      ensures key != "FEN" ==> success == old(success) && pos == old(pos)
      ensures game == if key == "FEN" then old(game) else HeaderRecord(old(game), key, value)
    {
      if key == "FEN" {
        var fen := rules.parseFen(value);
        if fen.None? {
          success := false;
          return;
        }
        var p := rules.setup(fen.value);
        if p.None? {
          success := false;
          return;
        }
        pos := p.value;
      } else if key == "White" {
        game := game.(white := value.text);
      } else if key == "Black" {
        game := game.(black := value.text);
      } else if key == "WhiteElo" {
        if value.Utf8? {
          var rating := Text.ParseI32(value.text);
          if rating.Some? {
            game := game.(whiteRating := rating);
          }
        }
      } else if key == "BlackElo" {
        if value.Utf8? {
          var rating := Text.ParseI32(value.text);
          if rating.Some? {
            game := game.(blackRating := rating);
          }
        }
      } else if key == "LichessURL" || key == "Site" {
        if value.Utf8? {
          game := game.(id := Text.Split(value.text, '/')[3]);
        }
      } else if key == "ECO" {
        if value.Utf8? {
          game := game.(openingId := Some(value.text));
        }
      } else if key == "Result" {
        if value.Utf8? {
          var winner := if value.text == "1-0" then Some(game.white)
                        else if value.text == "0-1" then Some(game.black)
                        else None;
          game := game.(winner := winner);
        }
      }
    }

    /** `end_headers`: the moves of a game whose headers failed are skipped. */
    method EndHeaders() returns (skip: Pgn.Skip)
      ensures skip.skip <==> !success
    {
      skip := Pgn.Skip(!success);
    }

    /** `begin_variation`: only the mainline is replayed. */
    method BeginVariation() returns (skip: Pgn.Skip)
      ensures skip.skip
    {
      skip := Pgn.Skip(true);
    }

    /** The legal-move half of `san`: appends the move's UCI string and the
        engine's score for the position it reaches, moves the board on, runs
        the phase test that is still open (middle game first, then end game)
        and counts the move. */
    method PlayMove(mv: Move)
      requires Valid()
      modifies this
      ensures Valid()
      ensures var next := rules.play(old(pos), mv);
              && success == old(success) && pos == next
              && game == old(game).(moves := old(game.moves) + [UciText(rules, old(pos), mv)],
                                    scores := old(game.scores) + [ScoreText(engine, old(pos), mv)])
              && moveCounter == old(moveCounter) + 1
              && played == old(played) + [mv] && playedFrom == old(playedFrom) + [old(pos)]
              && (middleGameStart, endGameStart) == PhaseStep(rules, (old(middleGameStart), old(endGameStart)), old(moveCounter), next)
    {
      var uci := rules.uci(rules.castlingMode(pos), mv);
      assert uci == UciText(rules, old(pos), mv);
      game := game.(moves := game.moves + [uci]);
      var score := ScoreValue(engine(pos, mv));
      assert Text.ShowInt(score) == ScoreText(engine, old(pos), mv);
      played, playedFrom := played + [mv], playedFrom + [pos];
      pos := rules.play(pos, mv);
      AdvancePhase();
      game := game.(scores := game.scores + [Text.ShowInt(score)]);
      moveCounter := moveCounter + 1;
      RecordedOneMore(rules, engine, old(game.moves), old(game.scores), old(played), old(playedFrom), old(pos), mv);
      PhasesOneMore(rules, old(playedFrom), old(played), old(pos), mv);
    }

    /** `san`. While the replay is healthy, a legal move is played as
        `PlayMove` says; an illegal move clears `success` and changes nothing
        else; once `success` is clear, nothing changes. */
    method San(san: string)
      requires Valid()
      modifies this
      ensures Valid()
      ensures !old(success) || rules.toMove(old(pos), san).None? ==>
                pos == old(pos) && game == old(game) && moveCounter == old(moveCounter) &&
                played == old(played) && playedFrom == old(playedFrom) &&
                middleGameStart == old(middleGameStart) && endGameStart == old(endGameStart)
      ensures !old(success) ==> !success
      ensures old(success) && rules.toMove(old(pos), san).None? ==> !success
      ensures old(success) && rules.toMove(old(pos), san).Some? ==>
                var m := rules.toMove(old(pos), san).value;
                var next := rules.play(old(pos), m);
                && success && pos == next
                && game == old(game).(moves := old(game.moves) + [UciText(rules, old(pos), m)],
                                      scores := old(game.scores) + [ScoreText(engine, old(pos), m)])
                && moveCounter == old(moveCounter) + 1
                && played == old(played) + [m] && playedFrom == old(playedFrom) + [old(pos)]
                && (middleGameStart, endGameStart) == PhaseStep(rules, (old(middleGameStart), old(endGameStart)), old(moveCounter), next)
    {
      if success {
        var m := rules.toMove(pos, san);
        match m {
          case Some(mv) =>
            PlayMove(mv);
          case None =>
            success := false;
        }
      }
    }

    /** `end_game`: the visitor's result is always false; the record stays
        in `game` for the caller. */
    method EndGame() returns (r: bool)
      ensures !r
    {
      r := false;
    }

    /** The state after the run `headers` of headers, from a state that was
        healthy when `healthy`, at `origin`, with the record `record`. */
    ghost predicate HeadersRead(headers: seq<(string, Pgn.RawHeader)>, healthy: bool, origin: Pos, record: GameRecord.Game)
      reads this
      requires HeadersReadable(headers)
    {
      && success == (healthy && FensValid(rules, headers))
      && pos == HeaderStart(rules, headers, origin)
      && game == HeadersRecord(record, headers)
    }

    /** The `k`-th header of a run in progress. */
    method ReadHeader(headers: seq<(string, Pgn.RawHeader)>, k: nat, ghost healthy: bool, ghost origin: Pos, ghost record: GameRecord.Game)
      requires Valid() && HeadersReadable(headers) && k < |headers|
      requires HeadersReadable(headers[..k]) && HeadersRead(headers[..k], healthy, origin, record)
      modifies this
      ensures Valid()
      ensures HeadersReadable(headers[..k + 1]) && HeadersRead(headers[..k + 1], healthy, origin, record)
      ensures moveCounter == old(moveCounter) && played == old(played) && playedFrom == old(playedFrom)
      ensures middleGameStart == old(middleGameStart) && endGameStart == old(endGameStart)
    {
      HeadersOneMore(rules, headers, k, origin);
      HeadersRecordOneMore(record, headers, k);
      Header(headers[k].0, headers[k].1);
    }

    /** The headers of a game, in order: `success` survives only if every
        FEN header sets up a legal position, the position is the one the
        last good FEN header set up, the record is filled header by header,
        and no move or phase is recorded. */
    method ReadHeaders(headers: seq<(string, Pgn.RawHeader)>)
      requires Valid()
      requires HeadersReadable(headers)
      modifies this
      ensures Valid()
      ensures success == (old(success) && FensValid(rules, headers))
      ensures pos == HeaderStart(rules, headers, old(pos))
      ensures game == HeadersRecord(old(game), headers)
      ensures moveCounter == old(moveCounter) && played == old(played) && playedFrom == old(playedFrom)
      ensures middleGameStart == old(middleGameStart) && endGameStart == old(endGameStart)
    {
      var k := 0;
      while k < |headers|
        invariant 0 <= k <= |headers|
        invariant Valid()
        invariant HeadersReadable(headers[..k]) && HeadersRead(headers[..k], old(success), old(pos), old(game))
        invariant moveCounter == old(moveCounter) && played == old(played) && playedFrom == old(playedFrom)
        invariant middleGameStart == old(middleGameStart) && endGameStart == old(endGameStart)
      {
        ReadHeader(headers, k, old(success), old(pos), old(game));
        k := k + 1;
      }
      assert headers[..k] == headers;
    }

    /** How far the replay of `line` has got after its first `i` tokens,
        starting from the moves `played0` played from `from0`: while healthy,
        the first `i` moves of `line` are played and the position is the one
        they reach; once poisoned, the whole of `line` is played and it was
        cut short by an illegal token. */
    ghost predicate Progress(line: Replay, i: nat, played0: seq<Move>, from0: seq<Pos>)
      reads this
      requires |line.moves| == |line.from|
    {
      && (success ==> i <= |line.moves| && played == played0 + line.moves[..i] && playedFrom == from0 + line.from[..i] && pos == Reached(line, i))
      && (!success ==> line.stopped && played == played0 + line.moves && playedFrom == from0 + line.from)
    }

    /** The `i`-th mainline token of a replay in progress. */
    method ReadMove(ghost origin: Pos, sans: seq<string>, i: nat, ghost played0: seq<Move>, ghost from0: seq<Pos>)
      requires Valid() && i < |sans|
      requires Progress(ReplayFrom(rules, origin, sans), i, played0, from0)
      modifies this
      ensures Valid()
      ensures Progress(ReplayFrom(rules, origin, sans), i + 1, played0, from0)
      ensures HeaderFields(game) == HeaderFields(old(game))
    {
      ghost var line := ReplayFrom(rules, origin, sans);
      ghost var wasSuccess := success;
      San(sans[i]);
      if wasSuccess && i < |line.moves| {
        ReplayStep(rules, origin, sans, i);
        Seqs.TakeOneMore(played0, line.moves, i);
        Seqs.TakeOneMore(from0, line.from, i);
      } else if wasSuccess {
        assert line.moves[..i] == line.moves && line.from[..i] == line.from;
      }
    }

    /** The mainline SANs of a game from a healthy state: the moves up to
        the first illegal token are replayed and recorded, and `success`
        says whether there was no illegal token. */
    method ReadMoves(sans: seq<string>)
      requires Valid() && success
      modifies this
      ensures Valid()
      ensures var line := ReplayFrom(rules, old(pos), sans);
              && success == !line.stopped
              && played == old(played) + line.moves
              && playedFrom == old(playedFrom) + line.from
              && (middleGameStart, endGameStart) == Phases(rules, playedFrom, played)
      ensures HeaderFields(game) == HeaderFields(old(game))
    {
      ghost var line := ReplayFrom(rules, pos, sans);
      assert line.moves[..0] == [] && line.from[..0] == [];
      var i := 0;
      while i < |sans|
        invariant 0 <= i <= |sans|
        invariant Valid()
        invariant Progress(line, i, old(played), old(playedFrom))
        invariant HeaderFields(game) == HeaderFields(old(game))
      {
        ReadMove(old(pos), sans, i, old(played), old(playedFrom));
        i := i + 1;
      }
      if success {
        assert |line.moves| == i;
        assert line.moves[..i] == line.moves && line.from[..i] == line.from;
      } else {
        assert line.stopped;
      }
    }

    /** One game through the visitor, in the order the PGN reader calls it:
        `begin_game`, every header, `end_headers`, then (unless told to
        skip) every mainline SAN, and `end_game`. If every FEN header sets up
        a legal position, the record holds one UCI string and one score per
        move of the mainline up to the first illegal token, and `success`
        says whether there was none; otherwise the record has no moves. The
        other fields of the record are those the headers fill in, and the
        phase indices are those of the replayed moves. */
    method ReadGame(g: Pgn.Game) returns (r: bool)
      requires HeadersReadable(g.headers)
      modifies this
      ensures Valid() && !r
      ensures HeaderFields(game) == HeaderFields(HeadersRecord(GameRecord.Empty(), g.headers))
      ensures var origin := HeaderStart(rules, g.headers, rules.start);
              var line := ReplayFrom(rules, origin, g.sans);
              if FensValid(rules, g.headers) then
                && success == !line.stopped && played == line.moves && playedFrom == line.from
                && (middleGameStart, endGameStart) == Phases(rules, line.from, line.moves)
              else
                && !success && played == [] && game.moves == [] && game.scores == []
                && middleGameStart.None? && endGameStart.None?
    {
      BeginGame();
      ReadHeaders(g.headers);
      var skip := EndHeaders();
      if !skip.skip {
        ReadMoves(g.sans);
      }
      r := EndGame();
    }
  }
}
