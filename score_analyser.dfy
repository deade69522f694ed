/** The older game-replay visitor (`GameAnalyser` of the first snapshot, and
    its copy in the backend crate): it replays the mainline of a game and
    pushes the engine's evaluation of every position reached. */
module ScoreAnalyser {
  import opened Wrappers
  import opened Chess
  import Pgn
  import Seqs

  /** The score pushed after a move: the engine's evaluation of the EPD of
      the position the move reaches. */
  function ScoreAfter(rules: Rules, evalFen: string -> Option<int>, p: Pos, m: Move): Option<int>
  {
    evalFen(rules.epd(rules.play(p, m)))
  }

  /** `header` unwraps the UTF-8 decoding of every `White` and `Black` value. */
  predicate NamesReadable(headers: seq<(string, Pgn.RawHeader)>)
  {
    forall k :: 0 <= k < |headers| && (headers[k].0 == "White" || headers[k].0 == "Black") ==> headers[k].1.Utf8?
  }

  /** The players' names (white, black) after a run of headers, starting
      from `names`: a `White` or `Black` header replaces that name, and any
      other header leaves both. */
  function HeaderNames(names: (string, string), headers: seq<(string, Pgn.RawHeader)>): (string, string)
    requires NamesReadable(headers)
    decreases |headers|
  {
    if |headers| == 0 then names
    else
      var n := |headers| - 1;
      var before := HeaderNames(names, headers[..n]);
      var (key, value) := headers[n];
      if key == "White" then (value.text, before.1)
      else if key == "Black" then (before.0, value.text)
      else before
  }

  /** The name of the player with colour `key` ("White" or "Black"). */
  function NameOf(names: (string, string), key: string): string
  {
    if key == "White" then names.0 else names.1
  }

  /** A colour's name is the value of the last header for that colour. */
  lemma {:induction false} NameFromLastHeader(names: (string, string), headers: seq<(string, Pgn.RawHeader)>, key: string, k: nat)
    requires NamesReadable(headers) && (key == "White" || key == "Black")
    requires k < |headers| && headers[k].0 == key
    requires forall j :: k < j < |headers| ==> headers[j].0 != key
    ensures NameOf(HeaderNames(names, headers), key) == headers[k].1.text
    decreases |headers|
  {
    var n := |headers| - 1;
    if k < n {
      NameFromLastHeader(names, headers[..n], key, k);
    }
  }

  /** Without a header for a colour, that colour's name is kept. */
  lemma {:induction false} NameWithoutHeader(names: (string, string), headers: seq<(string, Pgn.RawHeader)>, key: string)
    requires NamesReadable(headers) && (key == "White" || key == "Black")
    requires forall j :: 0 <= j < |headers| ==> headers[j].0 != key
    ensures NameOf(HeaderNames(names, headers), key) == NameOf(names, key)
    decreases |headers|
  {
    if |headers| > 0 {
      NameWithoutHeader(names, headers[..|headers| - 1], key);
    }
  }

  class GameAnalyser {
    const rules: Rules
    /** `Stockfish::eval_fen` with the process I/O left out: the score the
        engine reports for a position, if it parses. */
    const evalFen: string -> Option<int>
    var currentId: string
    var scores: seq<Option<int>>
    var success: bool
    var pos: Pos
    var black: string
    var white: string
    /** The moves replayed since `begin_game`, and the position each was
        played from. */
    ghost var played: seq<Move>
    ghost var playedFrom: seq<Pos>

    /** One score per replayed move, and it is the evaluation of the position
        that move reached. */
    ghost predicate Valid()
      reads this
    {
      && |scores| == |played| == |playedFrom|
      && forall i {:trigger scores[i]} :: 0 <= i < |scores| ==> scores[i] == ScoreAfter(rules, evalFen, playedFrom[i], played[i])
    }

    /** `GameAnalyser::new`, with the engine given rather than started. */
    constructor (rules: Rules, evalFen: string -> Option<int>)
      ensures Valid()
      ensures this.rules == rules && this.evalFen == evalFen
      ensures currentId == "" && scores == [] && success && pos == rules.start
      ensures black == "" && white == "" && played == []
    {
      this.rules := rules;
      this.evalFen := evalFen;
      currentId := "";
      scores := [];
      success := true;
      pos := rules.start;
      black := "";
      white := "";
      played, playedFrom := [], [];
    }

    /** `analyse_position`: pushes the engine's score for the current position. */
    method AnalysePosition()
      modifies this`scores
      ensures scores == old(scores) + [evalFen(rules.epd(pos))]
    {
      var fen := rules.epd(pos);
      var score := evalFen(fen);
      scores := scores + [score];
    }

    /** `begin_game`: whatever the state, a fresh replay. */
    method BeginGame()
      modifies this
      ensures Valid()
      ensures currentId == "" && success && scores == [] && black == "" && white == ""
      ensures pos == rules.start && played == []
    {
      currentId := "";
      success := true;
      scores := [];
      black := "";
      white := "";
      pos := rules.start;
      played, playedFrom := [], [];
    }

    /** `header`. A FEN header that does not parse or does not set up a legal
        position clears `success` and keeps the position; `White` and
        `Black` set the names (unwrapping the UTF-8 decoding); other keys are
        ignored. */
    method Header(key: string, value: Pgn.RawHeader)
      requires Valid()
      requires key == "White" || key == "Black" ==> value.Utf8?
      modifies this
      ensures Valid()
      ensures scores == old(scores) && played == old(played) && playedFrom == old(playedFrom)
      ensures currentId == old(currentId)
      ensures key == "FEN" && FenPosition(rules, value).None? ==> !success && pos == old(pos)
      ensures key == "FEN" && FenPosition(rules, value).Some? ==> success == old(success) && pos == FenPosition(rules, value).value
      ensures key != "FEN" ==> success == old(success) && pos == old(pos)
      ensures white == if key == "White" then value.text else old(white)
      ensures black == if key == "Black" then value.text else old(black)
    {
      if key == "FEN" {
        var fen := rules.parseFen(value);
        if fen.None? {
          success := false;
          return;
        }
        var p := rules.setup(fen.value);
        if p.None? {
          success := false;
          return;
        }
        pos := p.value;
      } else if key == "White" {
        white := value.text;
      } else if key == "Black" {
        black := value.text;
      }
    }

    /** `end_headers`: the moves of a game whose headers failed are skipped. */
    method EndHeaders() returns (skip: Pgn.Skip)
      ensures skip.skip <==> !success
    {
      skip := Pgn.Skip(!success);
    }

    /** `begin_variation`: only the mainline is replayed. */
    method BeginVariation() returns (skip: Pgn.Skip)
      ensures skip.skip
    {
      skip := Pgn.Skip(true);
    }

    /** `san`. While the replay is healthy, a legal move is played and the
        engine's score for the position it reaches is pushed; an illegal
        move clears `success` and pushes nothing; once `success` is clear,
        nothing changes. */
    method San(san: string)
      requires Valid()
      modifies this
      ensures Valid()
      ensures white == old(white) && black == old(black) && currentId == old(currentId)
      ensures !old(success) || rules.toMove(old(pos), san).None? ==>
                pos == old(pos) && scores == old(scores) && played == old(played) && playedFrom == old(playedFrom)
      ensures !old(success) ==> !success
      ensures old(success) && rules.toMove(old(pos), san).None? ==> !success
      ensures old(success) && rules.toMove(old(pos), san).Some? ==>
                var m := rules.toMove(old(pos), san).value;
                && success && pos == rules.play(old(pos), m)
                && scores == old(scores) + [ScoreAfter(rules, evalFen, old(pos), m)]
                && played == old(played) + [m] && playedFrom == old(playedFrom) + [old(pos)]
    {
      if success {
        var m := rules.toMove(pos, san);
        match m {
          case Some(mv) =>
            pos := rules.play(pos, mv);
            AnalysePosition();
            played, playedFrom := played + [mv], playedFrom + [old(pos)];
          case None =>
            success := false;
        }
      }
    }

    /** `end_game`: the visitor's result is always false. */
    method EndGame() returns (r: bool)
      ensures !r
    {
      r := false;
    }

    /** The headers of a game, in order: `success` survives only if every
        FEN header sets up a legal position, and the position is the one the
        last good FEN header set up. */
    method ReadHeaders(headers: seq<(string, Pgn.RawHeader)>)
      requires Valid()
      requires NamesReadable(headers)
      modifies this
      ensures Valid()
      ensures success == (old(success) && FensValid(rules, headers))
      ensures pos == HeaderStart(rules, headers, old(pos))
      ensures (white, black) == HeaderNames((old(white), old(black)), headers) && currentId == old(currentId)
      ensures scores == old(scores) && played == old(played) && playedFrom == old(playedFrom)
    {
      var k := 0;
      while k < |headers|
        invariant 0 <= k <= |headers|
        invariant Valid()
        invariant success == (old(success) && FensValid(rules, headers[..k]))
        invariant pos == HeaderStart(rules, headers[..k], old(pos))
        invariant (white, black) == HeaderNames((old(white), old(black)), headers[..k]) && currentId == old(currentId)
        invariant scores == old(scores) && played == old(played) && playedFrom == old(playedFrom)
      {
        HeadersOneMore(rules, headers, k, old(pos));
        assert headers[..k + 1][..k] == headers[..k];
        Header(headers[k].0, headers[k].1);
        k := k + 1;
      }
      assert headers[..k] == headers;
    }

    /** How far the replay of `line` has got after its first `i` tokens,
        starting from the moves `played0` played from `from0`: while healthy,
        the first `i` moves of `line` are played and the position is the one
        they reach; once poisoned, the whole of `line` is played and it was
        cut short by an illegal token. */
    ghost predicate Progress(line: Replay, i: nat, played0: seq<Move>, from0: seq<Pos>)
      reads this
      requires |line.moves| == |line.from|
    {
      && (success ==> i <= |line.moves| && played == played0 + line.moves[..i] && playedFrom == from0 + line.from[..i] && pos == Reached(line, i))
      && (!success ==> line.stopped && played == played0 + line.moves && playedFrom == from0 + line.from)
    }

    /** The `i`-th mainline token of a replay in progress. */
    method ReadMove(ghost origin: Pos, sans: seq<string>, i: nat, ghost played0: seq<Move>, ghost from0: seq<Pos>)
      requires Valid() && i < |sans|
      requires Progress(ReplayFrom(rules, origin, sans), i, played0, from0)
      modifies this
      ensures Valid()
      ensures Progress(ReplayFrom(rules, origin, sans), i + 1, played0, from0)
      ensures white == old(white) && black == old(black) && currentId == old(currentId)
    {
      ghost var line := ReplayFrom(rules, origin, sans);
      ghost var wasSuccess := success;
      San(sans[i]);
      if wasSuccess && i < |line.moves| {
        ReplayStep(rules, origin, sans, i);
        Seqs.TakeOneMore(played0, line.moves, i);
        Seqs.TakeOneMore(from0, line.from, i);
      } else if wasSuccess {
        assert line.moves[..i] == line.moves && line.from[..i] == line.from;
      }
    }

    /** The mainline SANs of a game from a healthy state: the moves up to
        the first illegal token are replayed and scored, and `success` says
        whether there was no illegal token. */
    method ReadMoves(sans: seq<string>)
      requires Valid() && success
      modifies this
      ensures Valid()
      ensures var line := ReplayFrom(rules, old(pos), sans);
              && success == !line.stopped
              && played == old(played) + line.moves
              && playedFrom == old(playedFrom) + line.from
      ensures white == old(white) && black == old(black) && currentId == old(currentId)
    {
      ghost var line := ReplayFrom(rules, pos, sans);
      assert line.moves[..0] == [] && line.from[..0] == [];
      var i := 0;
      while i < |sans|
        invariant 0 <= i <= |sans|
        invariant Valid()
        invariant Progress(line, i, old(played), old(playedFrom))
        invariant white == old(white) && black == old(black) && currentId == old(currentId)
      {
        ReadMove(old(pos), sans, i, old(played), old(playedFrom));
        i := i + 1;
      }
      if success {
        assert line.moves[..i] == line.moves && line.from[..i] == line.from;
      }
    }

    /** One game through the visitor, in the order the PGN reader calls it.
        If every FEN header sets up a legal position, there is one score per
        move of the mainline up to the first illegal token, each the
        evaluation of the position that move reached; otherwise there are
        none. */
    method ReadGame(g: Pgn.Game) returns (r: bool)
      requires NamesReadable(g.headers)
      modifies this
      ensures Valid() && !r
      ensures (white, black) == HeaderNames(("", ""), g.headers) && currentId == ""
      ensures var origin := HeaderStart(rules, g.headers, rules.start);
              var line := ReplayFrom(rules, origin, g.sans);
              if FensValid(rules, g.headers) then
                success == !line.stopped && played == line.moves && playedFrom == line.from
              else
                !success && scores == []
    {
      BeginGame();
      ReadHeaders(g.headers);
      var skip := EndHeaders();
      if !skip.skip {
        ReadMoves(g.sans);
      }
      r := EndGame();
    }
  }
}
