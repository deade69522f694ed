# hubble in Dafny

hubble collects a chess player's games, replays them with the shakmaty rules
and the Stockfish engine, and reports on them: the score after every move,
the moves where the score fell sharply (blunders), the catalogue opening each
game follows, and how often each move is played in each position. This
project models the core of that pipeline:

- the game-replay visitors that walk a PGN game's mainline: `GameAnalyser`
  of the `hubble` crate, which fills a `Game` record with UCI moves, scores
  and the middle-game and end-game indices (module `Analyser`); the older
  `GameAnalyser` of the first snapshot and of the backend crate, which
  pushes one engine evaluation per position (module `ScoreAnalyser`); and
  `OpeningTree`, which counts, per position key, how often each move is
  played, and then follows the most popular line (module `OpeningTree`);
- `OpeningCounter`, which files each of a player's games under the
  catalogue opening it matches best and counts wins, ties and losses
  (module `OpeningCounter`);
- `match_length` and the `find_opening` route (modules `OpeningMatch` and
  `OpeningRoute`), with the shared "first strictly longest" selection rule
  (module `Selection`);
- `find_blunder` with both thresholds (module `Blunder`), the stored `Game`
  record and its JSON row form (module `GameRecord`), the text side of the
  Stockfish wrapper (module `Stockfish`), the catalogue loader
  `parse_openings` (module `ParseOpenings`), and the move list of the front
  end, `MovePicker.jsx` (module `MovePicker`).

The chess rules themselves (shakmaty) are a parameter: `Chess.Rules` bundles
the starting position, FEN parsing and setup, SAN and UCI move lookup, move
play, move rendering and the piece counts the phase tests use, so every
result holds for any implementation of them. The PGN reader (pgn_reader) is
modelled by the order in which it calls a visitor: `begin_game`, each header,
`end_headers`, each mainline SAN unless told to skip, `end_game`
(`ReadGame` in each visitor class). The engine is a function parameter.

Visitors whose fields the source updates in place are classes with those
fields; the loops of the source (`find_blunder`, `insert_move`,
`find_most_popular`, the 80-ply walk, `find_opening`, `match_length`,
`read_output`, `insert_file`, `pairs`, the tally of `end_game`) are methods
with loop invariants, each proved against a function that specifies it.
Panics of the source are either preconditions (an `unwrap` on input the
callers always supply) or an explicit outcome (`OpeningRoute.Reply.Panic`
when `match_length` indexes past the end of a game's moves).

## Model

| member | source | states |
|---|---|---|
| Text.Split | parse_openings/src/main.rs:10 | splitting on one character never gives an empty list |
| Text.JoinSplit | parse_openings/src/main.rs:10 | joining the pieces of a split with the separator gives the string back |
| Text.SplitPieces | parse_openings/src/main.rs:10 | a split has one more piece than the string has separators, and no piece holds the separator |
| Text.SplitJoin | parse_openings/src/main.rs:10 | splitting a join of separator-free pieces gives back exactly those pieces |
| Text.Remove | src/stockfish.rs:48-50 | deleting a character leaves a string without it, no longer than before, made of the original characters |
| Text.RemoveAbsent | src/stockfish.rs:48-50 | deleting a character that does not occur changes nothing |
| Text.ParseI32 | hubble/src/analysis/analyser.rs:126-139 | `parse::<i32>` succeeds exactly on integer syntax whose value lies between -2^31 and 2^31-1, and then gives that value |
| Text.UnsignedParse | src/stockfish.rs:48-51 | a string with no sign character never parses to a negative number |
| Text.ShowNatDigits | hubble/src/analysis/analyser.rs:186 | the rendering of a natural number is all decimal digits |
| Text.DigitsShowNat | hubble/src/analysis/analyser.rs:186 | reading back the digits of a rendered natural number gives the number |
| Text.ParseShowInt | hubble/src/analysis/analyser.rs:186 | a score rendered with `to_string` parses back to the same integer, so stored scores are readable by `find_blunder` |
| Selection.Longest | hubble-web/src/routes/opening.rs:29-43 | the selection of a strict running maximum starting at 0: the first of the greatest values when some value is positive, and none exactly when all are 0 |
| Selection.LongestOneMore | hubble-web/src/routes/opening.rs:32-38 | one loop step: the choice moves to the new index exactly when its value beats the running maximum |
| Selection.LongestAppend | hubble/src/analysis/opening_counter.rs:117-123 | the same step stated for a list with one more value |
| Chess.FenPosition | hubble/src/analysis/analyser.rs:101-117 | a FEN header sets up a position exactly when it parses and the setup is legal |
| Chess.ReplayFrom | hubble/src/analysis/analyser.rs:172-192 | the mainline replay: each replayed move is the legal move its SAN denotes in the position it is played from, positions follow by playing the moves, and the replay stops exactly at the first SAN that is not a legal move |
| GameRecord.Empty | hubble-db/src/models/game.rs:76-91 | the empty record has empty names and id, no moves, no scores and no optional field set |
| GameRecord.StrArray | hubble-db/src/models/game.rs:94-95 | a string list becomes a JSON array of the same length |
| GameRecord.ReadJson | hubble-db/src/models/game.rs:29-37 | the string list under "data" when the value is an object whose "data" is an array of strings, and the empty list otherwise |
| GameRecord.IntoRaw | hubble-db/src/models/game.rs:93-113 | the row stores moves and scores as `{"data": [...]}` |
| GameRecord.ToGame | hubble-db/src/models/game.rs:39-56 | the game reads moves and scores back with `read_json` |
| GameRecord.StringsOfStrArray | hubble-db/src/models/game.rs:31 | decoding a JSON array of strings gives the strings |
| GameRecord.ReadWrap | hubble-db/src/models/game.rs:29-37 | reading back a wrapped string list gives the list |
| GameRecord.RoundTrip | hubble-db/src/models/game.rs:39-56 | storing a game with `into_raw` and loading it with `to_game` gives the same game |
| Analyser.ScoreValue | hubble/src/analysis/analyser.rs:29-32 | a centipawn score is kept; a mate in n moves is exactly `100000 - n`, so below 100000 for a positive n and above it for a negative n |
| Analyser.HeaderRecord | hubble/src/analysis/analyser.rs:118-159 | the effect of each non-FEN header on the record: names, ratings only when they parse as `i32`, id from the URL, opening, and the winner named by the players known at that point; moves, scores and phases untouched |
| Analyser.GameAnalyser.constructor | hubble/src/analysis/analyser.rs:46-56 | a fresh analyser: healthy, at the start position, with the empty record and no phase indices |
| Analyser.GameAnalyser.CheckEndGame | hubble/src/analysis/analyser.rs:58-68 | the end-game index becomes the move counter exactly when at most 6 pieces other than kings and pawns remain |
| Analyser.GameAnalyser.CheckMiddleGame | hubble/src/analysis/analyser.rs:70-83 | the middle-game index becomes the move counter exactly when at most 10 such pieces remain or a back rank holds fewer than 4 pieces |
| Analyser.GameAnalyser.AdvancePhase | hubble/src/analysis/analyser.rs:181-185 | the middle-game test runs until it fires, then the end-game test, never both after one move |
| Analyser.GameAnalyser.BeginGame | hubble/src/analysis/analyser.rs:90-97 | whatever the state, a fresh replay with the empty record |
| Analyser.GameAnalyser.Header | hubble/src/analysis/analyser.rs:99-162 | a bad FEN header clears `success` and keeps the position, a good one sets it; other headers update the record as `HeaderRecord` says; moves, scores and phases stay |
| Analyser.GameAnalyser.EndHeaders | hubble/src/analysis/analyser.rs:164-166 | a game's moves are skipped exactly when a header failed |
| Analyser.GameAnalyser.BeginVariation | hubble/src/analysis/analyser.rs:168-170 | variations are always skipped |
| Analyser.GameAnalyser.PlayMove | hubble/src/analysis/analyser.rs:176-187 | a legal move appends its UCI string and its score to the record, moves the position on, advances the phase tests and the counter, and keeps the record's moves and scores and the phase indices in step with the replayed moves |
| Analyser.GameAnalyser.San | hubble/src/analysis/analyser.rs:172-194 | a legal move in a healthy replay is played as `PlayMove` says; an illegal one clears `success` and changes nothing else; after that nothing changes |
| Analyser.GameAnalyser.EndGame | hubble/src/analysis/analyser.rs:196-202 | the visitor's result is always false |
| Analyser.GameAnalyser.ReadHeaders | hubble/src/analysis/analyser.rs:99-117 | after a run of headers `success` holds exactly when every FEN header set up a position, the position is the one the last good FEN set up, the record is the one `HeadersRecord` builds header by header, and the phase indices stay |
| Analyser.GameAnalyser.ReadHeader | hubble/src/analysis/analyser.rs:99-162 | one more header extends the run's `success`, position and record as `FensValid`, `HeaderStart` and `HeadersRecord` say, and leaves moves and phases alone |
| Analyser.GameAnalyser.ReadMove | hubble/src/analysis/analyser.rs:172-194 | one SAN keeps the replay in step with `ReplayFrom` and leaves the record's header fields alone |
| Analyser.GameAnalyser.ReadMoves | hubble/src/analysis/analyser.rs:172-194 | the mainline is replayed up to the first illegal SAN, `success` says whether there was none, the phase indices are `Phases` of the replayed moves, and the record's header fields stay |
| Analyser.GameAnalyser.ReadGame | hubble/src/analysis/analyser.rs:90-202 | one game: with legal FEN headers the record holds one UCI string and one score per replayed move up to the first illegal SAN and the phase indices are `Phases` of that replay; otherwise no move and no phase is recorded; the other fields are those the headers fill into the empty record |
| Analyser.HeadersRecord | hubble/src/analysis/analyser.rs:99-162 | a run of headers acts header by header as `header` does on the record and never touches its moves, scores or phases |
| Analyser.PhasesFirst | hubble/src/analysis/analyser.rs:176-187 | the middle game starts at the first move that reaches a middle-game position (none if no move does); the end game starts at the first later move that reaches an end-game position (none if none does) |
| ScoreAnalyser.GameAnalyser.constructor | src/analyser.rs:20-30 | a fresh analyser: healthy, at the start position, no scores, empty names |
| ScoreAnalyser.GameAnalyser.AnalysePosition | src/analyser.rs:32-37 | pushes the engine's score for the key of the current position |
| ScoreAnalyser.GameAnalyser.BeginGame | src/analyser.rs:43-50 | whatever the state, a fresh replay |
| ScoreAnalyser.GameAnalyser.Header | src/analyser.rs:52-75 | a bad FEN header clears `success` and keeps the position, a good one sets it; `White` and `Black` set the names; scores stay |
| ScoreAnalyser.GameAnalyser.EndHeaders | src/analyser.rs:77-79 | a game's moves are skipped exactly when a header failed |
| ScoreAnalyser.GameAnalyser.BeginVariation | src/analyser.rs:81-83 | variations are always skipped |
| ScoreAnalyser.GameAnalyser.San | src/analyser.rs:85-99 | a legal move is played and the score of the position it reaches is pushed; an illegal one clears `success`; after that nothing changes |
| ScoreAnalyser.GameAnalyser.EndGame | hubble_backend/src/analyser.rs:97-99 | the visitor's result is always false |
| ScoreAnalyser.GameAnalyser.ReadHeaders | hubble_backend/src/analyser.rs:49-72 | after a run of headers `success` holds exactly when every FEN header set up a position, the names are those `HeaderNames` takes from the `White` and `Black` headers, and `current_id` stays |
| ScoreAnalyser.GameAnalyser.ReadMove | hubble_backend/src/analyser.rs:82-95 | one SAN keeps the scores in step with `ReplayFrom` and leaves the names and `current_id` alone |
| ScoreAnalyser.GameAnalyser.ReadMoves | hubble_backend/src/analyser.rs:82-95 | one score per move of the mainline up to the first illegal SAN, each the evaluation of the position that move reaches; names and `current_id` stay |
| ScoreAnalyser.GameAnalyser.ReadGame | hubble_backend/src/analyser.rs:40-99 | one game: with legal FEN headers, one score per replayed move; otherwise none; the names are those of the game's `White` and `Black` headers and `current_id` is empty |
| ScoreAnalyser.NameFromLastHeader | hubble_backend/src/analyser.rs:67-70 | after a run of headers a player's name is the value of the last header with that key |
| ScoreAnalyser.NameWithoutHeader | hubble_backend/src/analyser.rs:67-70 | a name that no header sets keeps the value it had |
| OpeningTree.Bumped | src/opening_tree.rs:15-20 | every entry for the move has its count raised by one, the others and the order are kept |
| OpeningTree.InsertMove | src/opening_tree.rs:12-28 | a known move is counted once more in its entries; an unknown one is appended with count 1 |
| OpeningTree.KnownOccurs | src/opening_tree.rs:16-18 | `found` is set exactly when some entry is for the move |
| OpeningTree.DistinctOccursOnce | src/opening_tree.rs:12-28 | with distinct entries a known move has exactly one entry |
| OpeningTree.BumpedCounts | src/opening_tree.rs:15-20 | raising the entries for a move adds their number to that move's count and to the total |
| OpeningTree.InsertedCounts | src/opening_tree.rs:12-28 | with distinct entries `insert_move` counts the move once more and every other move as before, so the total grows by one |
| OpeningTree.InsertedDistinct | src/opening_tree.rs:22-27 | `insert_move` keeps a position's entries distinct |
| OpeningTree.FindMostPopular | src/opening_tree.rs:30-41 | the move of the first entry with the greatest count, or "e2e4" when no count is positive |
| OpeningTree.WalkFollowsChoices | src/opening_tree.rs:166-174 | the popular line starts at the given position and every printed move is the most popular one of the position it was chosen in |
| OpeningTree.WalkStopsOffTable | src/opening_tree.rs:168-177 | a walk that did not panic and did not use up its plies stopped at a position the table does not know |
| OpeningTree.PopularLine | src/opening_tree.rs:163-179 | the 80-ply walk from the start position prints exactly the popular line and panics exactly when it does |
| OpeningTree.FollowPopular | src/opening_tree.rs:166-179 | the walk loop for any number of plies prints the popular line of that length |
| OpeningTree.OpeningTree.constructor | src/opening_tree.rs:57-64 | an empty table, no game, healthy, at the start position |
| OpeningTree.OpeningTree.CountPosition | src/opening_tree.rs:66-79 | the table becomes `WithMove` of the current position's key and the move's UCI string (the `insert_move` update, or a new one-entry list) and nothing else changes, so the table keeps counting every pair seen |
| OpeningTree.WithMove | src/opening_tree.rs:66-79 | counting one pair adds its key if new and leaves every other position's list as it was |
| OpeningTree.WithMoveTally | src/opening_tree.rs:66-79 | counting one pair keeps each position's entries distinct and raises exactly that pair's count by one |
| OpeningTree.TableTally | src/opening_tree.rs:66-79 | counting a run of pairs keeps the entries distinct and raises each (position, move) count by how often the run holds it |
| OpeningTree.TieGoesToFirstSeen | src/opening_tree.rs:22-41 | two moves seen once each from a position are listed in the order seen, so `find_most_popular` returns the first |
| OpeningTree.OpeningTree.BeginGame | src/opening_tree.rs:85-89 | counts the game and starts a fresh, healthy replay |
| OpeningTree.OpeningTree.Header | src/opening_tree.rs:91-118 | a bad FEN header clears `success` and keeps the position, a good one sets it, others change nothing |
| OpeningTree.OpeningTree.EndHeaders | src/opening_tree.rs:120-122 | a game's moves are skipped exactly when a header failed |
| OpeningTree.OpeningTree.BeginVariation | src/opening_tree.rs:124-126 | variations are always skipped |
| OpeningTree.OpeningTree.San | src/opening_tree.rs:128-141 | a legal move is counted in its position exactly as `WithMove` says (entry order included) and played; an illegal one clears `success`; after that nothing changes |
| OpeningTree.OpeningTree.EndGame | src/opening_tree.rs:143-145 | the result is whether the game replayed without error |
| OpeningTree.OpeningTree.ReadHeaders | src/opening_tree.rs:91-118 | after a run of headers `success` holds exactly when every FEN header set up a position |
| OpeningTree.OpeningTree.ReadMove | src/opening_tree.rs:128-141 | one SAN keeps the counted pairs and the table, as `Table` of those pairs, in step with `ReplayFrom` |
| OpeningTree.OpeningTree.ReadMoves | src/opening_tree.rs:128-141 | every legal move of the mainline up to the first illegal SAN is counted once in the position it was played from, and the table is `Table` of the old one and those pairs, in order |
| OpeningTree.OpeningTree.ReadGame | src/opening_tree.rs:85-145 | one game: with legal FEN headers, each (position key, move) pair of the replayed mainline is counted once more and nothing else; the table is `Table` of the old one and the game's pairs, entry order included; the result is whether the whole mainline was legal |
| OpeningMatch.Tokens | hubble/src/analysis/opening.rs:5-6 | the catalogue line's tokens hold no '.' and no space |
| OpeningMatch.Matched | hubble/src/analysis/opening.rs:12-29 | the walk over the tokens never moves the game index backwards, past the game's moves or further than one step per token |
| OpeningMatch.MatchLength | hubble/src/analysis/opening.rs:4-32 | `match_length`: the walk's count, at most the number of game moves, or none where indexing the game's moves panics |
| OpeningMatch.MatchedIsSubsequence | hubble/src/analysis/opening.rs:12-29 | the matched moves of the game occur, in order, among the catalogue line's legal moves |
| OpeningMatch.FollowedLineMatches | hubble/src/analysis/opening.rs:12-29 | a game that starts with every legal move of the catalogue line matches the whole line |
| OpeningRoute.Lengths | hubble-web/src/routes/opening.rs:32-33 | the match length of every candidate, or none exactly when some candidate panics |
| OpeningRoute.Answer | hubble-web/src/routes/opening.rs:28-47 | the route answers with the first candidate of strictly greatest positive match length, 404 exactly when the ECO code is unknown or nothing matches, and panics exactly when scoring some candidate panics |
| OpeningRoute.AnswerScored | hubble-web/src/routes/opening.rs:29-44 | once every candidate is scored, the answer is the one the running maximum settles on |
| OpeningRoute.AnswerPanics | hubble_backend/src/routes/opening.rs:38-66 | one candidate whose scoring indexes past the game's moves makes the whole answer a panic |
| OpeningRoute.FindOpening | hubble_backend/src/routes/opening.rs:53-81 | `find_opening` gives the answer `Answer` describes |
| OpeningCounter.Scored | hubble/src/analysis/opening_counter.rs:130-137 | one game adds exactly one to an opening's games: a tie for "1/2-1/2", otherwise a win exactly when "1-0" agrees with the player having white |
| OpeningCounter.ScoredFromPlayerSide | hubble/src/analysis/opening_counter.rs:130-137 | a decisive game the player won with either colour counts as won, and one they lost as lost |
| OpeningCounter.GroupedByEco | hubble/src/analysis/opening_counter.rs:45-53 | every catalogue opening is filed under its own ECO code, in load order, and a code has a list exactly when some opening carries it |
| OpeningCounter.WithEcoMembers | hubble/src/analysis/opening_counter.rs:45-53 | a code's list holds exactly the catalogue openings carrying that code |
| OpeningCounter.Lengths | hubble/src/analysis/opening_counter.rs:118 | the match length of every candidate |
| OpeningCounter.Chosen | hubble/src/analysis/opening_counter.rs:110-123 | no opening for a game without moves, an unknown code, or all lengths 0; otherwise a candidate of the code's list with greatest positive length, earlier candidates all shorter |
| OpeningCounter.ChosenByLongest | hubble/src/analysis/opening_counter.rs:114-123 | the chosen opening is the one the running maximum settles on |
| OpeningCounter.Tallied | hubble/src/analysis/opening_counter.rs:125-138 | counting a game changes only the chosen opening's counters, creating them at zero first, and nothing when no named opening was chosen |
| OpeningCounter.TalliedCountsOneGame | hubble/src/analysis/opening_counter.rs:125-138 | a counted game adds exactly one to its opening's games |
| OpeningCounter.HeaderSeen | hubble/src/analysis/opening_counter.rs:77-92 | a UTF-8 `ECO`, `White` or `Result` header sets the code, the player's colour or the result; anything else changes nothing |
| OpeningCounter.SkipAsWrittenInverted | hubble/src/analysis/opening_counter.rs:94-99 | as written, a colour setting skips exactly the games of the colour it asks for |
| OpeningCounter.WhiteGameSkippedUnderWhiteOnly | hubble/src/analysis/opening_counter.rs:96 | with `Some(true)`, a game the player had white in is skipped, and with `Some(false)` it is kept |
| OpeningCounter.SkipIntended | hubble/src/analysis/opening_counter.rs:40 | the skip the `white_only` comment describes: a game is kept exactly when it is one the setting asks for, and all are kept when it is unset |
| OpeningCounter.OpeningCounter.constructor | hubble/src/analysis/opening_counter.rs:44-65 | the catalogue filed by ECO code, an empty table and a fresh game state |
| OpeningCounter.OpeningCounter.BeginGame | hubble/src/analysis/opening_counter.rs:71-75 | no moves, no result, player assumed white; the previous ECO code is kept |
| OpeningCounter.OpeningCounter.Header | hubble/src/analysis/opening_counter.rs:77-92 | the game state changes as `HeaderSeen` says |
| OpeningCounter.OpeningCounter.EndHeaders | hubble/src/analysis/opening_counter.rs:94-99 | the skip as written: with a colour set, games where the player has that colour are skipped |
| OpeningCounter.OpeningCounter.BeginVariation | hubble/src/analysis/opening_counter.rs:101-103 | variations are always skipped |
| OpeningCounter.OpeningCounter.San | hubble/src/analysis/opening_counter.rs:105-107 | the token is appended to the game's moves |
| OpeningCounter.OpeningCounter.EndGame | hubble/src/analysis/opening_counter.rs:109-141 | the table becomes `Tallied` for the chosen opening and the result is false |
| OpeningCounter.OpeningCounter.CountGame | hubble/src/analysis/opening_counter.rs:126-137 | the named opening's counters, created at zero if new, gain the game as `Scored` says |
| OpeningCounter.OpeningCounter.ReadHeaders | hubble/src/analysis/opening_counter.rs:77-92 | a run of headers changes the game state as `HeadersSeen` says |
| OpeningCounter.OpeningCounter.ReadGame | hubble/src/analysis/opening_counter.rs:71-141 | one game: a skipped game reaches `end_game` with no moves and is not counted; otherwise it is counted under the opening chosen for its code and moves |
| Blunder.FindBlunder | hubble/src/analysis/blunder.rs:3-20 | the blunders among the moves that have a score, in move order |
| Blunder.BlundersExact | hubble/src/analysis/blunder.rs:9-17 | the list holds exactly the moves whose score fell by more than the threshold from the previous one (0 before the first), each with its own move text, in strictly increasing index order |
| Blunder.FirstMoveFlagged | hubble/src/analysis/blunder.rs:4 | the first move is a blunder exactly when its score is below minus the threshold |
| Blunder.ThresholdMonotone | hubble_backend/src/analysis/blunder.rs:11 | the backend's threshold 200 reports every blunder the threshold 300 reports |
| Blunder.OnlyExaminedMoves | hubble/src/analysis/blunder.rs:9 | only moves that have both a move and a score are reported |
| Stockfish.Position | hubble/src/stockfish.rs:50 | the index of the first occurrence of a word, and none exactly when it does not occur |
| Stockfish.ParseEval | hubble/src/stockfish.rs:48-57 | no score for output without the word "cp" |
| Stockfish.SpaceFreeShowInt | hubble/src/stockfish.rs:49 | a rendered number holds no space, so it is one word of the engine's line |
| Stockfish.ParseEvalOfInfo | hubble/src/stockfish.rs:48-57 | an engine line whose first "cp" is followed by a rendered number evaluates to that number |
| Stockfish.NonEmpty | src/stockfish.rs:47 | the non-empty words, each from the input |
| Stockfish.NonEmptyKeeps | src/stockfish.rs:47 | dropping empty words leaves a list of non-empty words as it is |
| Stockfish.ParseScore | src/stockfish.rs:46-57 | `parse_score` never gives a negative score |
| Stockfish.ParseScoreDropsSign | src/stockfish.rs:46-57 | a line whose third word renders n reads as the magnitude of n: the sign is lost |
| Stockfish.FirstAccepted | hubble/src/stockfish.rs:37-46 | the first chunk of output that reports depth 20 with a centipawn score |
| Stockfish.ReadOutput | hubble/src/stockfish.rs:37-46 | `read_output` returns the first accepted chunk |
| Stockfish.EvalCommandLines | hubble/src/stockfish.rs:67 | for a FEN without line breaks the command is the lines "position fen <fen>" and "go depth 20" followed by an empty line |
| Stockfish.EvalFen | hubble/src/stockfish.rs:66-70 | sends that command and returns the evaluation of the first accepted output |
| ParseOpenings.FormatRow | parse_openings/src/main.rs:9-11 | a line's fields: one more than its tabs, tab-free, and joining them with tabs gives the line back |
| ParseOpenings.OpenFile | parse_openings/src/main.rs:13-23 | one row per line of the file (one more than its line breaks), each the fields of that line |
| ParseOpenings.ToOpening | parse_openings/src/main.rs:34-38 | the opening's code, name and moves are the row's first three fields |
| ParseOpenings.InsertFile | parse_openings/src/main.rs:25-39 | the openings of the kept rows, in row order |
| ParseOpenings.OpeningsConcat | parse_openings/src/main.rs:29-39 | loading two runs of rows in turn is loading them together |
| ParseOpenings.OpeningsFromKeptRows | parse_openings/src/main.rs:29-39 | every loaded opening comes from a row with at least three fields and a first field other than "eco", and every such row gives one |
| ParseOpenings.SkippedLines | parse_openings/src/main.rs:30-32 | the empty line after a final line break and the header line are never loaded |
| ParseOpenings.LineRoundTrip | parse_openings/src/main.rs:9-38 | a well-formed catalogue line loads as the opening it spells out |
| MovePicker.Group | hubble_frontend/src/components/MovePicker.jsx:7 | a group holds one or two moves |
| MovePicker.Grouped | hubble_frontend/src/components/MovePicker.jsx:4-13 | the intended grouping has one group per move number |
| MovePicker.Pairs | hubble_frontend/src/components/MovePicker.jsx:4-13 | `pairs` gives the intended grouping plus, for an even non-empty length, an extra group holding the last move |
| MovePicker.FlattenGroupedPrefix | hubble_frontend/src/components/MovePicker.jsx:4-13 | the first m intended groups hold exactly the first 2m moves |
| MovePicker.FlattenGrouped | hubble_frontend/src/components/MovePicker.jsx:4-13 | the intended grouping shows every move once, in order |
| MovePicker.GroupedIndex | hubble_frontend/src/components/MovePicker.jsx:26-27 | in the intended grouping every shown move carries its own index |
| MovePicker.PairedDuplicatesLast | hubble_frontend/src/components/MovePicker.jsx:6-9 | for an even non-empty length `pairs` shows the last move twice, and the copy carries an index one past the last move |
| MovePicker.PairedOdd | hubble_frontend/src/components/MovePicker.jsx:6-9 | for an odd length `pairs` is the intended grouping, ending with the single last move |
| MovePicker.TwoMovesShowThree | hubble_frontend/src/components/MovePicker.jsx:6-9 | two moves are shown as `[[a, b], [b]]`, three moves in all |
| MovePicker.Indices | hubble_frontend/src/components/MovePicker.jsx:21 | the reported blunders' move indices, in order |
| MovePicker.MarkedIffFlagged | hubble_frontend/src/components/MovePicker.jsx:21-28 | with the list `find_blunder` reports, a shown move is marked exactly when it is a blunder |

## Left out

- Process and file I/O, the engine process, the database and HTTP: the engine is a function parameter (`Analyser.GameAnalyser.engine`, `ScoreAnalyser.GameAnalyser.evalFen`), the database's catalogue and rows are parameters, and `read_output`'s reads are given as a list of chunks.
- The chess rules (shakmaty) and PGN tokenising (pgn_reader) are abstract; SAN tokens are strings and `SanPlus`'s display is taken to be the token itself.
- `get_engine`, `is_ready`, `flush` and `kill` only talk to the engine process.
- `Stockfish.ReadOutput`: the fixed 3920-byte buffer, its zero padding and the UTF-8 `unwrap` are not modelled; a chunk is the text read. Its precondition that some chunk is accepted stands for the source's endless loop otherwise.
- `Stockfish.ParseEval`, `Stockfish.ParseScore` and `Blunder.Readable` read `f32` in the source; the model reads integers only (`Text.ParseInt`), which is what the analyser stores, so decimals, exponents, "inf" and "NaN" are not modelled.
- `Stockfish.EvalReadable`, `Stockfish.ScoreReadable`, `Blunder.Readable`, `Analyser.HeaderReadable` and `ScoreAnalyser.NamesReadable` are the preconditions under which the source does not panic (`words[idx + 1]`, `words[2]`, the score `unwrap`, the UTF-8 and URL-segment `unwrap`s of `header`, and the UTF-8 `unwrap`s of the `White` and `Black` headers at src/analyser.rs:71 and 73); the panics themselves are not modelled.
- `Analyser.ScoreValue`: `eval_move`'s result is `i32`, and `100_000 - n` could overflow for a mate count near -2^31; integers here are unbounded.
- `Analyser.GameAnalyser` counts moves with a `nat` (`usize` in the source) and the ids and phase indices have no width limit.
- `OpeningCounter.OpeningResult`: the `u32` counters are unbounded here, so their wrap-around is not modelled; its `Display` is left out.
- `match_length_sans`, which `OpeningCounter::end_game` calls, is not among the files modelled; it is a function parameter (`OpeningCounter.OpeningCounter.matchLength`).
- `parse_common_moves`' reading of `test2.pgn`, its `success &=` over all games, the `process::exit(1)` and the printing are left out; `OpeningTree.PopularLine` models the walk and returns the printed moves.
- `play_through_match` only opens a file and runs the visitor over it; the visitor is modelled.
- `parse_openings`' `main` loop over the five files and `insert_openings` are left out; `ParseOpenings.InsertFile` returns the openings it would insert. `Opening::new` is called with three arguments and its definition is not part of this model, so the opening is the three fields.
- The `opening_player` route and the `MovePicker` rendering (CSS classes, the current-move highlight, click handlers) are not modelled.
- The println and eprintln diagnostics are left out of the visitors' contracts. `ScoreAnalyser.GameAnalyser` models `current_id`, which `begin_game` resets and nothing else changes; `Analyser.GameAnalyser` has no such field.
- `OpeningMatch.MatchedFrom` and `OpeningMatch.Walked` skip a one-letter token as the source does, but count characters where Rust's `len()` counts bytes; the two agree on the catalogue's ASCII move text.

## Findings

| source | as written | input that shows it | evidently intended | confidence | as-written member | corrected member |
|---|---|---|---|---|---|---|
| hubble_frontend/src/components/MovePicker.jsx:6-9 | for an even number of moves the slice at the last even index already holds the last move, and the odd last index pushes it again | `["e4", "e5"]` gives `[["e4", "e5"], ["e5"]]`; the copy gets index 2, past the last move | one group per move number, each move shown once with its own index | high, not executed | MovePicker.PairedDuplicatesLast | MovePicker.FlattenGrouped |
| hubble/src/analysis/opening_counter.rs:96 | `Skip(val == self.is_white)` skips the games of the colour `white_only` selects | `white_only = Some(true)` and a game where the player has white: the game is skipped | per the field's comment at line 40, `Some(true)` analyses only white games, so it skips games where the colour differs | medium, not executed | OpeningCounter.SkipAsWrittenInverted | OpeningCounter.SkipIntended |
