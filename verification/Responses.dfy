/** What a sequence of client responses says, whichever venue adapter publishes it. */
module Responses {
  import opened Common
  import opened PositionKeeper
  import opened OrderManager

  /** The signed sum of the executions. */
  function NetOf(log: seq<Response>): int {
    if log == [] then 0
    else
      var r := log[|log| - 1];
      NetOf(log[..|log| - 1]) + if r.kind == FILLED then SideToValue(r.fill.side) * r.fill.qty else 0
  }

  /** The executed quantity of one client identifier. */
  function FilledOf(log: seq<Response>, id: int): nat {
    if log == [] then 0
    else
      var r := log[|log| - 1];
      FilledOf(log[..|log| - 1], id) + if r.kind == FILLED && r.id == id then r.fill.qty else 0
  }

  /** The last response an order may get: it is cancelled, rejected, or filled completely. */
  predicate Ends(r: Response) { r.kind == CANCELED || r.kind == REJECTED || (r.kind == FILLED && r.leaves == 0) }

  ghost predicate Over(log: seq<Response>, id: int) {
    exists i :: 0 <= i < |log| && log[i].id == id && Ends(log[i])
  }

  lemma OneMore(log: seq<Response>, r: Response, id: int)
    ensures NetOf(log + [r]) == NetOf(log) + if r.kind == FILLED then SideToValue(r.fill.side) * r.fill.qty else 0
    ensures FilledOf(log + [r], id) == FilledOf(log, id) + if r.kind == FILLED && r.id == id then r.fill.qty else 0
    ensures Over(log + [r], id) <==> Over(log, id) || (r.id == id && Ends(r))
  {
    var more := log + [r];
    assert more[..|log|] == log;
    if i :| 0 <= i < |log| && log[i].id == id && Ends(log[i]) {
      assert more[i] == log[i];
    }
    assert more[|log|] == r;
  }

  /** An identifier of which only cancel rejections were heard. */
  lemma {:induction false} Untouched(log: seq<Response>, id: int)
    requires forall i :: 0 <= i < |log| && log[i].id == id ==> log[i].kind == CANCEL_REJECTED
    ensures FilledOf(log, id) == 0 && !Over(log, id)
  {
    if log != [] {
      Untouched(log[..|log| - 1], id);
    }
  }

  lemma {:induction false} NothingFilled(log: seq<Response>, id: int)
    requires forall i :: 0 <= i < |log| && log[i].kind == FILLED ==> log[i].id != id
    ensures FilledOf(log, id) == 0
  {
    if log != [] {
      NothingFilled(log[..|log| - 1], id);
    }
  }
}
