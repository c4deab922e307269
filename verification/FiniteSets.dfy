// Two facts about the sizes of nested sets.
module FiniteSets {
  lemma SameSize<T>(small: set<T>, large: set<T>)
    requires small <= large && |small| == |large|
    ensures small == large
  {
    assert |large - small| == |large| - |small|;
  }

  lemma LargerHasMore<T>(small: set<T>, large: set<T>)
    requires small <= large && |small| != |large|
    ensures exists x :: x in large - small
  {
    assert |large - small| == |large| - |small|;
    assert large == small + (large - small);
  }
}
