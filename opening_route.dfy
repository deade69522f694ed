/** The `find_opening` route (hubble_backend/src/routes/opening.rs and
    hubble-web/src/routes/opening.rs, which agree): among the catalogue
    openings filed under the requested ECO code, the one matching most of
    the request's moves. */
module OpeningRoute {
  import opened Wrappers
  import opened Chess
  import opened OpeningMatch
  import Selection

  /** The route's answer: the opening as JSON, a 404, or a panic inside
      `match_length` (which the web server turns into a failed request). */
  datatype Reply = Found(opening: Opening) | NotFound | Panic

  /** The match length of every candidate, each scored on a fresh board
      against the whole move list; `None` when one of them panics. */
  function Lengths(rules: Rules, ops: seq<Opening>, moves: seq<string>): (r: Option<seq<nat>>)
    ensures r.Some? ==> |r.value| == |ops|
    ensures r.Some? ==> forall k :: 0 <= k < |ops| ==> Length(rules, ops[k], moves) == Some(r.value[k])
    ensures r.None? <==> exists k :: 0 <= k < |ops| && Length(rules, ops[k], moves).None?
    decreases |ops|
  {
    if |ops| == 0 then Some([])
    else
      var init := ops[..|ops| - 1];
      assert forall k :: 0 <= k < |init| ==> init[k] == ops[k];
      match Lengths(rules, init, moves)
      case None => None
      case Some(ls) =>
        match Length(rules, ops[|ops| - 1], moves)
        case None => None
        case Some(n) => Some(ls + [n])
  }

  /** Candidate `i` is the one the route settles on: no candidate panics,
      `i` matches at least one move, no candidate matches more, and every
      earlier one matches fewer. */
  ghost predicate Picked(rules: Rules, ops: seq<Opening>, moves: seq<string>, i: int)
  {
    && 0 <= i < |ops|
    && (forall k :: 0 <= k < |ops| ==> Length(rules, ops[k], moves).Some?)
    && Length(rules, ops[i], moves).value > 0
    && (forall k :: 0 <= k < |ops| ==> Length(rules, ops[k], moves).value <= Length(rules, ops[i], moves).value)
    && (forall k :: 0 <= k < i ==> Length(rules, ops[k], moves).value < Length(rules, ops[i], moves).value)
  }

  /** No candidate matches a single move. */
  ghost predicate NoneMatch(rules: Rules, ops: seq<Opening>, moves: seq<string>)
  {
    forall k :: 0 <= k < |ops| ==> Length(rules, ops[k], moves) == Some(0)
  }

  /** Scoring some candidate panics. */
  ghost predicate SomePanics(rules: Rules, ops: seq<Opening>, moves: seq<string>)
  {
    exists k :: 0 <= k < |ops| && Length(rules, ops[k], moves).None?
  }

  /** The answer for a catalogue lookup (`None` when the ECO code is
      unknown) and the request's moves. */
  function Answer(rules: Rules, catalogue: Option<seq<Opening>>, moves: seq<string>): (r: Reply)
    ensures r.Found? ==> catalogue.Some? && exists i :: Picked(rules, catalogue.value, moves, i) && catalogue.value[i] == r.opening
    ensures r == NotFound <==> catalogue.None? || NoneMatch(rules, catalogue.value, moves)
    ensures r == Panic <==> catalogue.Some? && SomePanics(rules, catalogue.value, moves)
  {
    match catalogue
    case None => NotFound
    case Some(ops) =>
      match Lengths(rules, ops, moves)
      case None => Panic
      case Some(ls) =>
        match Selection.Longest(ls)
        case None => NotFound
        case Some(i) =>
          assert Picked(rules, ops, moves, i);
          Found(ops[i])
  }

  /** The first `|ls|` candidates score `ls`, in order. */
  ghost predicate ScoredAs(rules: Rules, ops: seq<Opening>, moves: seq<string>, ls: seq<nat>)
  {
    |ls| <= |ops| && forall k :: 0 <= k < |ls| ==> Length(rules, ops[k], moves) == Some(ls[k])
  }

  lemma ScoredOneMore(rules: Rules, ops: seq<Opening>, moves: seq<string>, ls: seq<nat>, n: nat)
    requires ScoredAs(rules, ops, moves, ls) && |ls| < |ops|
    requires Length(rules, ops[|ls|], moves) == Some(n)
    ensures ScoredAs(rules, ops, moves, ls + [n])
  {
    var more := ls + [n];
    forall k | 0 <= k < |more|
      ensures Length(rules, ops[k], moves) == Some(more[k])
    {
      if k < |ls| {
        assert more[k] == ls[k];
      }
    }
  }

  /** The answer once every candidate has been scored without a panic. */
  lemma AnswerScored(rules: Rules, ops: seq<Opening>, moves: seq<string>, ls: seq<nat>)
    requires |ls| == |ops| && ScoredAs(rules, ops, moves, ls)
    ensures Answer(rules, Some(ops), moves) == match Selection.Longest(ls) case None => NotFound case Some(k) => Found(ops[k])
  {
    var r := Lengths(rules, ops, moves);
    assert r.Some?;
    assert r.value == ls;
  }

  /** A candidate that panics makes the whole answer a panic. */
  lemma AnswerPanics(rules: Rules, ops: seq<Opening>, moves: seq<string>, i: nat)
    requires i < |ops| && Length(rules, ops[i], moves).None?
    ensures Answer(rules, Some(ops), moves) == Panic
  {
  }

  /** `find_opening` */
  method FindOpening(rules: Rules, catalogue: Option<seq<Opening>>, moves: seq<string>) returns (r: Reply)
    ensures r == Answer(rules, catalogue, moves)
  {
    if catalogue.None? {
      return NotFound;
    }
    var ops := catalogue.value;
    ghost var ls := [];
    ghost var chosen: Option<nat> := None;
    var longestMatch := 0;
    var longestOpening: Option<Opening> := None;
    var i := 0;
    while i < |ops|
      invariant 0 <= i <= |ops| && |ls| == i
      invariant ScoredAs(rules, ops, moves, ls)
      invariant chosen == Selection.Longest(ls) && longestMatch == Selection.Best(ls)
      invariant chosen.None? ==> longestOpening.None?
      invariant chosen.Some? ==> chosen.value < i && longestOpening == Some(ops[chosen.value])
    {
      var length := MatchLength(rules, ops[i], moves);
      if length.None? {
        AnswerPanics(rules, ops, moves, i);
        return Panic;
      }
      Selection.LongestAppend(ls, length.value);
      ScoredOneMore(rules, ops, moves, ls, length.value);
      ls := ls + [length.value];
      if length.value > longestMatch {
        longestMatch := length.value;
        longestOpening := Some(ops[i]);
        chosen := Some(i);
      }
      i := i + 1;
    }
    AnswerScored(rules, ops, moves, ls);
    match longestOpening {
      case Some(o) => return Found(o);
      case None => return NotFound;
    }
  }
}
