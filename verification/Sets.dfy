/** Sizes and least elements of finite sets. */
module Sets {

  lemma {:induction false} SubsetIsNoLarger<T>(s: set<T>, t: set<T>)
    requires s <= t
    ensures |s| <= |t|
    decreases s
  {
    if s != {} {
      var x :| x in s;
      SubsetIsNoLarger(s - {x}, t - {x});
    }
  }

  lemma {:induction false} SubsetIsSmaller<T>(s: set<T>, t: set<T>, extra: T)
    requires s <= t && extra in t && extra !in s
    ensures |s| < |t|
    decreases s
  {
    if s == {} {
      assert t != {};
    } else {
      var x :| x in s;
      SubsetIsSmaller(s - {x}, t - {x}, extra);
    }
  }

  method Least(s: set<nat>) returns (least: nat)
    requires s != {}
    ensures least in s && forall o <- s :: least <= o
  {
    least :| least in s;
    var todo := s - {least};
    while todo != {}
      invariant least in s && todo <= s
      invariant forall o | o in s && o !in todo :: least <= o
      decreases |todo|
    {
      var o :| o in todo;
      if o < least { least := o; }
      todo := todo - {o};
    }
  }
}
