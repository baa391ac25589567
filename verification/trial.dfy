/** Ordered trial: candidates are tried one after the other and the first
    that succeeds is kept; the ones after it are never tried. */
module Trial {
  import opened Wrappers

  /** The result of the first candidate in `order` that `open` accepts, or
      None when it accepts none. */
  function FirstSome<K, H>(order: seq<K>, open: K -> Option<H>): (r: Option<H>)
    ensures r.Some? <==> exists i :: 0 <= i < |order| && open(order[i]).Some?
    ensures r.Some? ==>
              exists i :: 0 <= i < |order| && open(order[i]) == r && forall j :: 0 <= j < i ==> open(order[j]).None?
  {
    if |order| == 0 then None
    else
      match open(order[0])
      case Some(h) => Some(h)
      case None => FirstSome(order[1..], open)
  }

  /** Candidates after one that succeeds make no difference. */
  lemma {:induction false} FirstSomeIgnoresLater<K, H>(order: seq<K>, more: seq<K>, open: K -> Option<H>)
    requires exists i :: 0 <= i < |order| && open(order[i]).Some?
    ensures FirstSome(order + more, open) == FirstSome(order, open)
  {
    var i :| 0 <= i < |order| && open(order[i]).Some?;
    assert (order + more)[0] == order[0];
    if open(order[0]).None? {
      assert i > 0 && order[1..][i - 1] == order[i];
      assert (order + more)[1..] == order[1..] + more;
      FirstSomeIgnoresLater(order[1..], more, open);
    }
  }
}
