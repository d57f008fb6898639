/** The optional value used wherever the source reads a key that may be absent
    (`dict.get`, a missing DataFrame column) or calls something that may raise. */
module Wrappers {

  datatype Option<+T> = None | Some(value: T) {

    /** The value, or `default` when there is none (Python's `d.get(k, default)`). */
    function GetOr(default: T): T {
      match this
      case Some(v) => v
      case None => default
    }
  }

  /** The present values of `xs`, in order: a loop that appends what it could read
      and skips what it could not. */
  function Somes<T>(xs: seq<Option<T>>): seq<T> {
    if xs == [] then []
    else
      var last := xs[|xs| - 1];
      Somes(xs[..|xs| - 1]) + (if last.Some? then [last.value] else [])
  }

  lemma {:induction false} SomesLength<T>(xs: seq<Option<T>>)
    ensures |Somes(xs)| <= |xs|
  {
    if xs != [] {
      SomesLength(xs[..|xs| - 1]);
    }
  }

  /** Every value kept comes from a present element. */
  lemma {:induction false} SomesFrom<T>(xs: seq<Option<T>>, v: T)
    requires v in Somes(xs)
    ensures exists j :: 0 <= j < |xs| && xs[j] == Some(v)
  {
    var init := xs[..|xs| - 1];
    if v in Somes(init) {
      SomesFrom(init, v);
      var j :| 0 <= j < |init| && init[j] == Some(v);
      assert xs[j] == init[j];
    } else {
      assert xs[|xs| - 1] == Some(v);
    }
  }

  /** Every present element is kept. */
  lemma {:induction false} SomesHas<T>(xs: seq<Option<T>>, j: int)
    requires 0 <= j < |xs| && xs[j].Some?
    ensures xs[j].value in Somes(xs)
  {
    var init := xs[..|xs| - 1];
    if j < |xs| - 1 {
      assert init[j] == xs[j];
      SomesHas(init, j);
    }
  }
}
