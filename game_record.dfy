/** The stored game record (hubble-db's `Game`) and its database row form
    (`GameRaw`), whose move and score lists are JSON objects
    `{"data": [...]}`. */
module GameRecord {
  import opened Wrappers

  /** A JSON value (`serde_json::Value`); objects map keys to values. */
  datatype Json =
    | Null
    | Bool(b: bool)
    | Number(n: int)
    | Str(s: string)
    | Array(items: seq<Json>)
    | Object(fields: map<string, Json>)

  /** A replayed game. Ratings and phase indices are `i32` in the source. */
  datatype Game = Game(
    id: string,
    openingId: Option<string>,
    moves: seq<string>,
    scores: seq<string>,
    white: string,
    black: string,
    whiteRating: Option<int>,
    blackRating: Option<int>,
    winner: Option<string>,
    middleGame: Option<int>,
    endGame: Option<int>)

  /** The database row: the same fields, with `moves` and `scores` as JSON. */
  datatype GameRaw = GameRaw(
    id: string,
    openingId: Option<string>,
    moves: Json,
    scores: Json,
    white: string,
    black: string,
    whiteRating: Option<int>,
    blackRating: Option<int>,
    winner: Option<string>,
    middleGame: Option<int>,
    endGame: Option<int>)

  /** `Game::empty()`: the record a replay starts from. */
  function Empty(): (g: Game)
    ensures g.id == "" && g.white == "" && g.black == ""
    ensures g.moves == [] && g.scores == []
    ensures g.openingId.None? && g.whiteRating.None? && g.blackRating.None?
    ensures g.winner.None? && g.middleGame.None? && g.endGame.None?
  {
    Game("", None, [], [], "", "", None, None, None, None, None)
  }

  /** A list of strings as a JSON array (`json!` on a `Vec<String>`). */
  function StrArray(xs: seq<string>): (j: seq<Json>)
    ensures |j| == |xs|
  {
    if |xs| == 0 then [] else [Str(xs[0])] + StrArray(xs[1..])
  }

  /** What `serde_json::from_str::<Vec<String>>` makes of a JSON value: the
      strings of an array whose every element is a string, and an error for
      anything else. */
  function Strings(j: Json): Option<seq<string>>
  {
    match j
    case Array(items) => StringItems(items)
    case _ => None
  }

  function StringItems(items: seq<Json>): Option<seq<string>>
  {
    if |items| == 0 then Some([])
    else if !items[0].Str? then None
    else match StringItems(items[1..])
      case None => None
      case Some(rest) => Some([items[0].s] + rest)
  }

  /** `GameRaw::read_json`: the string list under "data", or the empty list
      when the key is missing or its value is not an array of strings. */
  function ReadJson(key: Json): (r: seq<string>)
    ensures key.Object? && "data" in key.fields && Strings(key.fields["data"]).Some? ==>
              r == Strings(key.fields["data"]).value
    ensures !(key.Object? && "data" in key.fields && Strings(key.fields["data"]).Some?) ==> r == []
  {
    match key
    case Object(fields) =>
      if "data" in fields then Strings(fields["data"]).GetOr([]) else []
    case _ => []
  }

  /** `json!({"data": xs})` */
  function Wrap(xs: seq<string>): Json
  {
    Object(map["data" := Array(StrArray(xs))])
  }

  /** `Game::into_raw` */
  function IntoRaw(g: Game): (raw: GameRaw)
    ensures raw.moves == Wrap(g.moves) && raw.scores == Wrap(g.scores)
  {
    GameRaw(g.id, g.openingId, Wrap(g.moves), Wrap(g.scores), g.white, g.black,
            g.whiteRating, g.blackRating, g.winner, g.middleGame, g.endGame)
  }

  /** `GameRaw::to_game` */
  function ToGame(raw: GameRaw): (g: Game)
    ensures g.moves == ReadJson(raw.moves) && g.scores == ReadJson(raw.scores)
  {
    Game(raw.id, raw.openingId, ReadJson(raw.moves), ReadJson(raw.scores), raw.white, raw.black,
         raw.whiteRating, raw.blackRating, raw.winner, raw.middleGame, raw.endGame)
  }

  /** An array of strings decodes to the strings. */
  lemma {:induction false} StringsOfStrArray(xs: seq<string>)
    ensures StringItems(StrArray(xs)) == Some(xs)
  {
    if |xs| > 0 {
      StringsOfStrArray(xs[1..]);
      assert StrArray(xs)[1..] == StrArray(xs[1..]);
      assert [xs[0]] + xs[1..] == xs;
    }
  }

  /** Wrapping a string list and reading it back gives the list. */
  lemma ReadWrap(xs: seq<string>)
    ensures ReadJson(Wrap(xs)) == xs
  {
    StringsOfStrArray(xs);
  }

  /** Storing a game and loading it back gives the same game. */
  lemma RoundTrip(g: Game)
    ensures ToGame(IntoRaw(g)) == g
  {
    ReadWrap(g.moves);
    ReadWrap(g.scores);
  }
}
