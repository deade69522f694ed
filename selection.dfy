/** The selection rule shared by `find_most_popular`, `OpeningCounter::end_game`
    and both `find_opening` routes: a running maximum that starts at 0 and is
    replaced only on a strictly greater value. */
module Selection {
  import opened Wrappers

  /** The index the rule settles on: the first of the greatest values, or
      none when every value is 0. */
  function Longest(values: seq<nat>): (r: Option<nat>)
    ensures r.Some? ==> r.value < |values| && values[r.value] > 0
    ensures r.Some? ==> forall j :: 0 <= j < |values| ==> values[j] <= values[r.value]
    ensures r.Some? ==> forall j :: 0 <= j < r.value ==> values[j] < values[r.value]
    ensures r.None? <==> forall j :: 0 <= j < |values| ==> values[j] == 0
    decreases |values|
  {
    if |values| == 0 then None
    else
      var init := values[..|values| - 1];
      var best := Longest(init);
      assert forall j :: 0 <= j < |init| ==> init[j] == values[j];
      if values[|values| - 1] > (if best.None? then 0 else values[best.value]) then Some(|values| - 1)
      else best
  }

  /** The running maximum after the values seen: 0 before any positive one. */
  function Best(values: seq<nat>): nat
  {
    match Longest(values)
    case None => 0
    case Some(i) => values[i]
  }

  /** One more step of the running maximum. */
  lemma LongestOneMore(values: seq<nat>, i: nat)
    requires i < |values|
    ensures Longest(values[..i + 1]) == if values[i] > Best(values[..i]) then Some(i) else Longest(values[..i])
    ensures Best(values[..i + 1]) == if values[i] > Best(values[..i]) then values[i] else Best(values[..i])
  {
    var prefix := values[..i + 1];
    assert prefix[..i] == values[..i];
    match Longest(values[..i]) {
      case None =>
      case Some(k) => assert prefix[k] == values[..i][k];
    }
  }

  /** The running maximum after one more value. */
  lemma LongestAppend(values: seq<nat>, v: nat)
    ensures Longest(values + [v]) == if v > Best(values) then Some(|values|) else Longest(values)
    ensures Best(values + [v]) == if v > Best(values) then v else Best(values)
  {
    var longer := values + [v];
    assert longer[..|values|] == values;
    match Longest(values) {
      case None =>
      case Some(k) => assert longer[k] == values[k];
    }
  }
}
