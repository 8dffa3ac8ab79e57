/** Lists filtered in order, as loops with `continue` build them. */
module Lists {
  import opened Results

  /** `out` holds the values that there are in `all`, in order: `at` are their positions. */
  ghost predicate Picks<T>(all: seq<Option<T>>, at: seq<nat>, out: seq<T>)
  {
    && |out| == |at|
    && (forall k :: 0 < k < |at| ==> at[k - 1] < at[k])
    && (forall k :: 0 <= k < |at| ==> at[k] < |all| && all[at[k]] == Some(out[k]))
    && (forall i :: 0 <= i < |all| && all[i].Some? ==> i in at)
  }

  lemma PicksMore<T>(all: seq<Option<T>>, at: seq<nat>, out: seq<T>, next: Option<T>) returns (at': seq<nat>)
    requires Picks(all, at, out)
    ensures Picks(all + [next], at', out + if next.Some? then [next.value] else [])
  {
    at' := if next.Some? then at + [|all|] else at;
    var all', out' := all + [next], out + if next.Some? then [next.value] else [];
    assert next.None? ==> out' == out;
    forall i | 0 <= i < |all'| && all'[i].Some?
      ensures i in at'
    {
      if i == |all| {
        assert at'[|at|] == i;
      }
    }
  }

  /** The first value there is. */
  ghost predicate IsFirst<T>(all: seq<Option<T>>, first: Option<T>)
  {
    if first.None? then forall i :: 0 <= i < |all| ==> all[i].None?
    else exists i :: 0 <= i < |all| && all[i] == first && forall j :: 0 <= j < i ==> all[j].None?
  }

  lemma FirstOfMore<T>(all: seq<Option<T>>, first: Option<T>, next: Option<T>)
    requires IsFirst(all, first)
    ensures IsFirst(all + [next], if first.Some? then first else next)
  {
    var all' := all + [next];
    if first.Some? {
      var i :| 0 <= i < |all| && all[i] == first && forall j :: 0 <= j < i ==> all[j].None?;
      assert all'[i] == first && forall j :: 0 <= j < i ==> all'[j].None?;
    } else if next.Some? {
      assert all'[|all|] == next;
    }
  }
}
