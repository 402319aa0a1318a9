/**
 One project's usage ledger: the columns that the savings queries filter, sum and
 group, with SQL's rule that a NULL amount adds nothing to a sum.
 */
module Ledger {
  import opened Money

  datatype Event = Event(
    at: int,
    cost: Option<real>,
    saved: Option<real>,
    cacheHit: bool,
    batch: bool,
    routed: bool,
    holdback: bool)

  datatype Column = Cost | Saved

  function Amount(e: Event, c: Column): real {
    var cell := if c == Cost then e.cost else e.saved;
    if cell.Some? then cell.value else 0.0
  }

  /** `received_at >= start AND received_at < end`. */
  function InWindow(es: seq<Event>, start: int, end: int): (r: seq<Event>)
    ensures forall e :: e in r <==> e in es && start <= e.at < end
  {
    if es == [] then []
    else (if start <= es[0].at < end then [es[0]] else []) + InWindow(es[1..], start, end)
  }

  /** `coalesce(sum(column), 0)`. */
  function Total(es: seq<Event>, c: Column): real {
    if es == [] then 0.0 else Amount(es[0], c) + Total(es[1..], c)
  }

  /** A new event joins the window exactly if it falls in it, keeping the order and every repetition. */
  lemma {:induction false} InWindowAppend(es: seq<Event>, e: Event, start: int, end: int)
    ensures InWindow(es + [e], start, end) == InWindow(es, start, end) + (if start <= e.at < end then [e] else [])
  {
    if es != [] {
      assert (es + [e])[1..] == es[1..] + [e];
      InWindowAppend(es[1..], e, start, end);
    } else {
      assert (es + [e])[1..] == [];
    }
  }

  /** It adds its cost to the cost total and its saving to the saved total, a missing amount nothing. */
  lemma {:induction false} TotalAppend(es: seq<Event>, e: Event)
    ensures Total(es + [e], Cost) == Total(es, Cost) + (if e.cost.Some? then e.cost.value else 0.0)
    ensures Total(es + [e], Saved) == Total(es, Saved) + (if e.saved.Some? then e.saved.value else 0.0)
  {
    if es != [] {
      assert (es + [e])[1..] == es[1..] + [e];
      TotalAppend(es[1..], e);
    } else {
      assert (es + [e])[1..] == [];
    }
  }
}
