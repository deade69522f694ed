/** The chess layer the modelled code relies on (the shakmaty crate). No
    chess rule is modelled: a position, a move and a parsed FEN are abstract,
    and every operation the code calls on them is a field of `Rules`, so each
    lemma holds for every implementation of the rules. */
module Chess {
  import opened Wrappers
  import Pgn

  /** A board position (`shakmaty::Chess`). */
  type Pos
  /** A legal move in some position (`shakmaty::Move`). */
  type Move
  /** A parsed but not yet validated FEN (`shakmaty::fen::Fen`). */
  type Fen

  datatype CastlingMode = Standard | Chess960

  datatype Rules = Rules(
    /** `Chess::default()`, the standard starting position. */
    start: Pos,
    /** `Fen::from_ascii` on a header value. */
    parseFen: Pgn.RawHeader -> Option<Fen>,
    /** `fen.position(CastlingMode::Chess960)`: fails when the setup is illegal. */
    setup: Fen -> Option<Pos>,
    /** Parse a SAN token and find the legal move it denotes (`str::parse::<San>`
        followed by `San::to_move`); `None` when either step fails. */
    toMove: (Pos, string) -> Option<Move>,
    /** `play_unchecked`: the position after a move. */
    play: (Pos, Move) -> Pos,
    /** `pos.castles().mode()` */
    castlingMode: Pos -> CastlingMode,
    /** `Uci::from_move(m, mode).to_string()`, e.g. "e2e4". */
    uci: (CastlingMode, Move) -> string,
    /** `Move`'s `Display`, e.g. "e2-e4" or "Ng1-f3". */
    show: Move -> string,
    /** Whether a string parses as UCI move notation (`str::parse::<Uci>`). */
    uciSyntax: string -> bool,
    /** `Uci::to_move` on the parsed UCI move: `None` when it is not legal
        in the position. */
    uciToMove: (Pos, string) -> Option<Move>,
    /** `fen::epd`: the position's key, without move counters. */
    epd: Pos -> string,
    /** Pieces on the board other than kings and pawns. */
    minorMajor: Pos -> nat,
    /** Pieces (of either colour) on the first rank. */
    rank1: Pos -> nat,
    /** Pieces (of either colour) on the eighth rank. */
    rank8: Pos -> nat
  )

  /** The position a FEN header sets up, or `None` when it does not parse or
      does not describe a legal position. */
  function FenPosition(rules: Rules, value: Pgn.RawHeader): (r: Option<Pos>)
    ensures r.Some? <==> rules.parseFen(value).Some? && rules.setup(rules.parseFen(value).value).Some?
  {
    match rules.parseFen(value)
    case None => None
    case Some(fen) => rules.setup(fen)
  }

  /** Whether every FEN header among `headers` sets up a legal position. */
  predicate FensValid(rules: Rules, headers: seq<(string, Pgn.RawHeader)>)
  {
    forall k :: 0 <= k < |headers| && headers[k].0 == "FEN" ==> FenPosition(rules, headers[k].1).Some?
  }

  /** The position the headers leave a visitor in, starting from `pos`: each
      FEN header that sets up a legal position replaces it, and one that
      does not leaves it as it was. */
  function HeaderStart(rules: Rules, headers: seq<(string, Pgn.RawHeader)>, pos: Pos): Pos
    decreases |headers|
  {
    if |headers| == 0 then pos
    else
      var before := HeaderStart(rules, headers[..|headers| - 1], pos);
      var (key, value) := headers[|headers| - 1];
      if key == "FEN" && FenPosition(rules, value).Some? then FenPosition(rules, value).value else before
  }

  /** Reading one more header: the FEN check and the position it leaves. */
  lemma HeadersOneMore(rules: Rules, headers: seq<(string, Pgn.RawHeader)>, k: nat, pos: Pos)
    requires k < |headers|
    ensures FensValid(rules, headers[..k + 1]) <==>
              FensValid(rules, headers[..k]) && (headers[k].0 == "FEN" ==> FenPosition(rules, headers[k].1).Some?)
    ensures HeaderStart(rules, headers[..k + 1], pos) ==
              if headers[k].0 == "FEN" && FenPosition(rules, headers[k].1).Some? then FenPosition(rules, headers[k].1).value
              else HeaderStart(rules, headers[..k], pos)
  {
    var longer, shorter := headers[..k + 1], headers[..k];
    assert longer[..k] == shorter;
    if FensValid(rules, shorter) && (headers[k].0 == "FEN" ==> FenPosition(rules, headers[k].1).Some?) {
      forall j | 0 <= j < |longer| && longer[j].0 == "FEN"
        ensures FenPosition(rules, longer[j].1).Some?
      {
        if j < k {
          assert longer[j] == shorter[j];
        }
      }
    }
  }

  /** The mainline a list of SAN tokens denotes from `pos`, up to (not
      including) the first token that is not a legal move: each move, the
      position it was played from, the position reached, and whether an
      illegal token cut the list short. */
  datatype Replay = Replay(moves: seq<Move>, from: seq<Pos>, last: Pos, stopped: bool)

  function ReplayFrom(rules: Rules, pos: Pos, sans: seq<string>): (r: Replay)
    ensures |r.moves| == |r.from| <= |sans|
    ensures !r.stopped ==> |r.moves| == |sans|
    ensures r.stopped ==> |r.moves| < |sans| && rules.toMove(r.last, sans[|r.moves|]).None?
    ensures forall i {:trigger sans[i]} :: 0 <= i < |r.moves| ==> rules.toMove(r.from[i], sans[i]) == Some(r.moves[i])
    ensures |r.moves| == 0 ==> r.last == pos
    ensures |r.moves| > 0 ==> r.from[0] == pos && r.last == rules.play(r.from[|r.moves| - 1], r.moves[|r.moves| - 1])
    ensures forall i {:trigger r.moves[i]} :: 0 <= i < |r.moves| - 1 ==> r.from[i + 1] == rules.play(r.from[i], r.moves[i])
    decreases |sans|
  {
    if |sans| == 0 then Replay([], [], pos, false)
    else match rules.toMove(pos, sans[0])
      case None => Replay([], [], pos, true)
      case Some(m) =>
        var rest := ReplayFrom(rules, rules.play(pos, m), sans[1..]);
        Replay([m] + rest.moves, [pos] + rest.from, rest.last, rest.stopped)
  }

  /** The position a replay has reached after its first `i` moves. */
  function Reached(line: Replay, i: nat): Pos
    requires |line.moves| == |line.from| && i <= |line.moves|
  {
    if i < |line.moves| then line.from[i] else line.last
  }

  /** Each replayed move leads from the position it was played in to the
      one the next move is played in (or to the last position). */
  lemma ReplayStep(rules: Rules, pos: Pos, sans: seq<string>, i: nat)
    requires i < |ReplayFrom(rules, pos, sans).moves|
    ensures var line := ReplayFrom(rules, pos, sans);
            rules.play(line.from[i], line.moves[i]) == Reached(line, i + 1)
  {
  }
}

/** The PGN reader's side of the visitor protocol (the pgn_reader crate). */
module Pgn {

  /** A header value: the raw bytes, seen through `std::str::from_utf8`. */
  datatype RawHeader = Utf8(text: string) | NotUtf8

  /** `Skip(true)` tells the reader to skip what follows (the moves after
      `end_headers`, a variation after `begin_variation`). */
  datatype Skip = Skip(skip: bool)

  /** One game as the reader presents it to a visitor: the header pairs in
      order, then the mainline SAN tokens. */
  datatype Game = Game(headers: seq<(string, RawHeader)>, sans: seq<string>)
}
