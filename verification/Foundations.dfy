/** A value that may be absent: the source's null, undefined and "not of this type". */
module Options {
  datatype Option<+T> = None | Some(value: T)
}

/** The product's two editions and the dashboard's languages. */
module Editions {
  datatype Edition = Iran | International

  datatype Locale = Fa | En | Tr
}

module Sets {
  lemma SubsetSize<T>(a: set<T>, b: set<T>)
    requires a <= b
    ensures |a| <= |b|
  {
    assert b == a + (b - a);
    assert |b| == |a| + |b - a|;
  }
}
