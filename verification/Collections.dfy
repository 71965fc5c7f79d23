/** Cardinality facts about finite sets. */
module Collections {
  lemma Inhabitant<T>(s: set<T>) returns (x: T)
    requires s != {}
    ensures x in s
  {
    x :| x in s;
  }

  lemma SubsetOfSameSize<T>(part: set<T>, whole: set<T>)
    requires part <= whole && |part| == |whole|
    ensures part == whole
  {
    assert |whole - part| == |whole| - |part|;
    assert whole - part == {};
  }
}
