/** Iteration over the keys of an ordered map (std::map): forward iterators, and reverse
    iterators with the explicit base that std::map::erase forces the source to go through. */
module OrderedKeys {
  import opened Orders

  predicate IsLeast(keys: set<int>, k: int) {
    k in keys && forall j | j in keys :: k <= j
  }

  predicate IsGreatest(keys: set<int>, k: int) {
    k in keys && forall j | j in keys :: j <= k
  }

  lemma Member<T>(keys: set<T>) returns (x: T)
    requires keys != {}
    ensures x in keys
  {
    x :| x in keys;
  }

  lemma {:induction false} LeastExists(keys: set<int>)
    requires keys != {}
    ensures exists k :: IsLeast(keys, k)
    decreases |keys|
  {
    var x := Member(keys);
    var rest := keys - {x};
    if rest == {} {
      assert keys == {x};
      assert IsLeast(keys, x);
    } else {
      LeastExists(rest);
      assert forall j | j in keys :: j == x || j in rest;
      var k :| IsLeast(rest, k);
      assert IsLeast(keys, if x < k then x else k);
    }
  }

  lemma {:induction false} GreatestExists(keys: set<int>)
    requires keys != {}
    ensures exists k :: IsGreatest(keys, k)
    decreases |keys|
  {
    var x := Member(keys);
    var rest := keys - {x};
    if rest == {} {
      assert keys == {x};
      assert IsGreatest(keys, x);
    } else {
      GreatestExists(rest);
      assert forall j | j in keys :: j == x || j in rest;
      var k :| IsGreatest(rest, k);
      assert IsGreatest(keys, if x > k then x else k);
    }
  }

  function Least(keys: set<int>): (k: int)
    requires keys != {}
    ensures IsLeast(keys, k)
  {
    LeastExists(keys);
    var k :| k in keys && IsLeast(keys, k);
    k
  }

  function Greatest(keys: set<int>): (k: int)
    requires keys != {}
    ensures IsGreatest(keys, k)
  {
    GreatestExists(keys);
    var k :| k in keys && IsGreatest(keys, k);
    k
  }

  /// begin(); None is end().
  function First(keys: set<int>): (it: Option<int>)
    ensures it.None? <==> keys == {}
    ensures it.Some? ==> IsLeast(keys, it.value)
  {
    if keys == {} then None else Some(Least(keys))
  }

  function Above(keys: set<int>, k: int): set<int> {
    set j | j in keys && j > k
  }

  function Below(keys: set<int>, k: int): set<int> {
    set j | j in keys && j < k
  }

  /** The iterator after key k: what ++it and erase(it) give. */
  function Next(keys: set<int>, k: int): (it: Option<int>)
    ensures it.None? <==> forall j | j in keys :: j <= k
    ensures it.Some? ==> it.value in keys && k < it.value &&
                         forall j | j in keys && k < j :: it.value <= j
  {
    assert forall j | j in keys && k < j :: j in Above(keys, k);
    First(Above(keys, k))
  }

  /** A reverse iterator denotes the greatest key below its base; no base is end(). */
  datatype ReverseIterator = ReverseIterator(base: Option<int>)

  const RBEGIN := ReverseIterator(None)

  function Reach(keys: set<int>, it: ReverseIterator): set<int> {
    if it.base.None? then keys else Below(keys, it.base.value)
  }

  predicate AtRend(keys: set<int>, it: ReverseIterator) {
    Reach(keys, it) == {}
  }

  function Deref(keys: set<int>, it: ReverseIterator): (k: int)
    requires !AtRend(keys, it)
    ensures IsGreatest(Reach(keys, it), k) && k in keys
  {
    Greatest(Reach(keys, it))
  }

  /// ++it moves the base to the key just visited.
  function RNext(keys: set<int>, it: ReverseIterator): ReverseIterator
    requires !AtRend(keys, it)
  {
    ReverseIterator(Some(Deref(keys, it)))
  }

  /** reverse_iterator(map.erase(std::next(it).base())): the key that is erased is the one
      it denotes, and the new iterator denotes the next smaller key: none is skipped and
      none is visited twice. */
  lemma ReverseErase(keys: set<int>, it: ReverseIterator)
    requires !AtRend(keys, it)
    ensures RNext(keys, it).base == Some(Deref(keys, it))
    ensures var k := Deref(keys, it);
            Reach(keys - {k}, ReverseIterator(Next(keys, k))) == Below(keys, k)
  {
  }
}
