/** What SQL's WHERE and a set's pop() do. */
module Collections {
  /** The elements that satisfy a condition, in their order. */
  function Where<T(!new)>(s: seq<T>, keep: T -> bool): (r: seq<T>)
    ensures forall x :: x in r <==> x in s && keep(x)
  {
    if s == [] then []
    else
      var front := Where(s[..|s| - 1], keep);
      if keep(s[|s| - 1]) then front + [s[|s| - 1]] else front
  }

  lemma WhereNext<T(!new)>(front: seq<T>, x: T, keep: T -> bool)
    ensures Where(front + [x], keep) == Where(front, keep) + if keep(x) then [x] else []
  {
    assert (front + [x])[..|front|] == front;
  }

  /** Any element: what pop() takes is not specified. */
  method OneOf<T>(s: set<T>) returns (x: T)
    requires s != {}
    ensures x in s
  {
    x :| x in s;
  }
}
