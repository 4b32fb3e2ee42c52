/** Small helpers shared by every component: an optional value, and the
    fact that a finite non-empty set has an element of largest weight, which
    the "pick the best row" queries rely on. */
module Wrappers {

  datatype Option<+T> = None | Some(value: T)

  /** The outcome of a request handler: a success payload, or the HTTP status
      code of the error response (400, 403, 404, 405, 500). The error texts
      are not modelled. */
  datatype Reply<+T> = Ok(value: T) | Fail(status: int)

  /** A subset is no larger than its superset. */
  lemma {:induction false} SubsetCardinality<T>(a: set<T>, b: set<T>)
    requires a <= b
    ensures |a| <= |b|
  {
    if a != {} {
      var x :| x in a;
      SubsetCardinality(a - {x}, b - {x});
    }
  }

  /** The larger of two integers (Python's and JavaScript's `max`). */
  function Max(a: int, b: int): (r: int)
    ensures r >= a && r >= b
    ensures r == a || r == b
  {
    if a >= b then a else b
  }

  /** The smaller of two integers (`Math.min`). */
  function Min(a: int, b: int): (r: int)
    ensures r <= a && r <= b
    ensures r == a || r == b
  {
    if a <= b then a else b
  }

  predicate IsMaxBy<T>(s: set<T>, f: T -> int, m: T)
  {
    m in s && forall x :: x in s ==> f(x) <= f(m)
  }

  /** Every finite non-empty set has an element whose weight is largest. */
  lemma {:induction false} MaxExists<T>(s: set<T>, f: T -> int)
    requires s != {}
    ensures exists m :: IsMaxBy(s, f, m)
  {
    var x :| x in s;
    if s == {x} {
      assert IsMaxBy(s, f, x);
    } else {
      var rest := s - {x};
      MaxExists(rest, f);
      var m :| IsMaxBy(rest, f, m);
      if f(x) <= f(m) {
        assert IsMaxBy(s, f, m);
      } else {
        assert IsMaxBy(s, f, x);
      }
    }
  }
}
