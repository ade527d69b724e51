/** Failure-carrying values used wherever the Python code returns None or raises. */
module Results {

  /** A value that may be absent (Python's `Optional`). */
  datatype Option<T> = None | Some(value: T) {

    /** The carried value, or `default` when absent (Python's `dict.get(key, default)`). */
    function GetOr(default: T): T {
      if Some? then value else default
    }
  }

  /** Either a value or the error an exception would have carried. */
  datatype Result<T, E> = Ok(value: T) | Err(error: E)

  /** The present values of `xs`, in order; absent entries are dropped. */
  function Somes<T>(xs: seq<Option<T>>): (r: seq<T>)
    ensures |r| <= |xs|
    ensures (forall i :: 0 <= i < |xs| ==> xs[i].Some?) ==>
              |r| == |xs| && forall i :: 0 <= i < |r| ==> xs[i] == Some(r[i])
    ensures (forall i :: 0 <= i < |xs| ==> xs[i].None?) ==> r == []
  {
    if |xs| == 0 then []
    else if xs[0].Some? then [xs[0].value] + Somes(xs[1..])
    else Somes(xs[1..])
  }

  /** When every entry is present, `Somes` gives back exactly the carried values. */
  lemma SomesAllPresent<T>(xs: seq<Option<T>>, ys: seq<T>)
    requires |xs| == |ys| && forall i :: 0 <= i < |xs| ==> xs[i] == Some(ys[i])
    ensures Somes(xs) == ys
  {
    assert forall i :: 0 <= i < |xs| ==> xs[i].Some?;
  }

  /** Dropping absent entries commutes with concatenation, so the order of the
      present values is exactly their order in the input. */
  lemma {:induction false} SomesAppend<T>(xs: seq<Option<T>>, ys: seq<Option<T>>)
    ensures Somes(xs + ys) == Somes(xs) + Somes(ys)
    decreases |xs|
  {
    if |xs| == 0 {
      assert xs + ys == ys;
    } else {
      assert (xs + ys)[1..] == xs[1..] + ys;
      SomesAppend(xs[1..], ys);
    }
  }

  /** Every value kept by `Somes` comes from some present entry of the input. */
  lemma {:induction false} SomesFrom<T>(xs: seq<Option<T>>, j: int)
    requires 0 <= j < |Somes(xs)|
    ensures exists i :: 0 <= i < |xs| && xs[i] == Some(Somes(xs)[j])
    decreases |xs|
  {
    if xs[0].Some? {
      if j > 0 {
        SomesFrom(xs[1..], j - 1);
        var i :| 0 <= i < |xs[1..]| && xs[1..][i] == Some(Somes(xs[1..])[j - 1]);
        assert xs[i + 1] == Some(Somes(xs)[j]);
      } else {
        assert xs[0] == Some(Somes(xs)[0]);
      }
    } else {
      SomesFrom(xs[1..], j);
      var i :| 0 <= i < |xs[1..]| && xs[1..][i] == Some(Somes(xs[1..])[j]);
      assert xs[i + 1] == Some(Somes(xs)[j]);
    }
  }
}
