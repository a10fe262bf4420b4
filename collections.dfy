/** Facts about Dafny's collections that the store's loops rely on. */
module Collections {

  /** A non-empty set of ids has an element to pick. */
  lemma NonEmptyHasElement(s: set<int>)
    requires s != {}
    ensures exists x :: x in s
  {
    if forall x :: x !in s {
      assert false;
    }
  }
}
