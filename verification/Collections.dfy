/** Counting facts about sets and sequences. */
module Collections {
  lemma {:induction false} SubsetIsNoLarger<T>(a: set<T>, b: set<T>)
    requires a <= b
    ensures |a| <= |b|
    decreases |a|
  {
    if a == {} {
    } else {
      var x :| x in a;
      SubsetIsNoLarger(a - {x}, b - {x});
    }
  }

  lemma CountSnoc<T>(s: seq<T>, x: T, y: T)
    ensures multiset(s + [x])[y] == multiset(s)[y] + if x == y then 1 else 0
  {
  }
}
