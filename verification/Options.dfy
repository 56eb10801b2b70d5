/** The optional value used across the models: a nullable column, field or parameter. */
module Options {
  datatype Option<+T> = None | Some(value: T)

  /** Picks an element of a nonempty set of numbers. */
  lemma SomeElement(s: set<int>) returns (x: int)
    requires s != {}
    ensures x in s
  {
    assert (forall y :: y !in s) ==> s == {};
    x :| x in s;
  }
}
