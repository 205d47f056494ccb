/** Small facts about Dafny's collections that the models lean on. */
module Collections {
  /**
   * A set without members is the empty set. Picking an element of a set that
   * is not empty (a Go `range` over a map, say) uses this.
   */
  lemma EmptyWhenNoMember<T>(s: set<T>)
    ensures (forall x :: x !in s) ==> s == {}
  {
    if forall x :: x !in s {
      assert forall x :: x in s <==> x in {};
    }
  }

  /** A member of a set that is not empty. */
  lemma Member<T>(s: set<T>) returns (x: T)
    requires s != {}
    ensures x in s
  {
    EmptyWhenNoMember(s);
    x :| x in s;
  }
}
