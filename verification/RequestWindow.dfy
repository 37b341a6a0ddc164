/** The recent-request index of admission: a set beside a queue of at most 4096 IDs. */
module RequestWindow {
  import opened Utf8

  const WINDOW: nat := 4096

  function Last(history: seq<Bytes>): (r: seq<Bytes>)
    ensures |r| <= WINDOW
  {
    if |history| <= WINDOW then history else history[|history| - WINDOW..]
  }

  ghost predicate Distinct(s: seq<Bytes>) {
    forall i, j :: 0 <= i < j < |s| ==> s[i] != s[j]
  }

  lemma {:induction false} LastOfLonger(history: seq<Bytes>, id: Bytes)
    ensures var was := Last(history);
            Last(history + [id]) == (if |was| == WINDOW then was[1..] else was) + [id]
  {
  }

  lemma {:induction false} DropFirst(s: seq<Bytes>)
    requires s != [] && Distinct(s)
    ensures Distinct(s[1..]) && forall x :: x in s[1..] <==> x in s && x != s[0]
  {
    forall x | x in s && x != s[0] ensures x in s[1..] {
      var i :| 0 <= i < |s| && s[i] == x;
      assert s[1..][i - 1] == x;
    }
  }

  class Window {
    var requests: set<Bytes>
    var order: seq<Bytes>
    /** Every ID ever recorded, oldest first. */
    ghost var history: seq<Bytes>

    ghost predicate Valid()
      reads this
    {
      && order == Last(history) && Distinct(order)
      && (forall id :: id in requests <==> id in order)
    }

    constructor ()
      ensures Valid() && history == []
    {
      requests, order := {}, [];
      history := [];
    }

    /** The duplicate check is exact: it refuses precisely the last 4096 recorded IDs. */
    method IsRecent(id: Bytes) returns (recent: bool)
      requires Valid()
      ensures recent <==> id in Last(history)
    {
      recent := id in requests;
    }

    /** Recording an ID that passed the check; the oldest one leaves a full window. */
    method Record(id: Bytes)
      requires Valid() && id !in Last(history)
      modifies this
      ensures Valid() && history == old(history) + [id]
    {
      LastOfLonger(history, id);
      if |order| == WINDOW {
        DropFirst(order);
        requests := requests - {order[0]};
        order := order[1..];
      }
      ghost var kept := order;
      requests := requests + {id};
      order := order + [id];
      history := history + [id];
      assert order == kept + [id];
    }
  }
}
