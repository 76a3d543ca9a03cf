/**
  The binary heap kept in the frame buffer's vector: std::push_heap and std::pop_heap
  written out as sift-up and sift-down on an array.
 */
module FrameHeap {
  import opened PtsOrder

  function Parent(j: nat): nat
    requires j > 0
  {
    (j - 1) / 2
  }

  /** The element at j comes no earlier than its parent. */
  ghost predicate InOrder(q: seq<QueueItem>, j: nat)
    requires 0 < j < |q|
  {
    !Later(q[Parent(j)], q[j])
  }

  ghost predicate IsHeap(q: seq<QueueItem>) {
    forall j | 0 < j < |q| :: InOrder(q, j)
  }

  /** The children of hole come no earlier than hole's own parent. */
  ghost predicate Bridged(q: seq<QueueItem>, hole: nat, j: nat)
    requires 0 < hole < |q| && j < |q|
  {
    !Later(q[Parent(hole)], q[j])
  }

  ghost predicate HoleBridged(q: seq<QueueItem>, hole: nat) {
    0 < hole < |q| ==> forall j | 0 < j < |q| && Parent(j) == hole :: Bridged(q, hole, j)
  }

  ghost function Items(q: seq<QueueItem>): set<QueueItem> {
    set x | x in q
  }

  /** The root of a heap comes no later than anything in it. */
  lemma {:induction false} RootIsEarliest(q: seq<QueueItem>, k: nat)
    requires k < |q| && IsHeap(q) && StrictWeakOrder(Items(q))
    ensures !Later(q[0], q[k])
    decreases k
  {
    if k > 0 {
      RootIsEarliest(q, Parent(k));
      assert InOrder(q, k);
      assert q[0] in Items(q) && q[Parent(k)] in Items(q) && q[k] in Items(q);
    }
  }

  lemma SameMultisetSameItems(q: seq<QueueItem>, r: seq<QueueItem>)
    requires multiset(q) == multiset(r)
    ensures Items(q) == Items(r)
  {
    forall x ensures x in q <==> x in r {
      assert x in q <==> x in multiset(q);
      assert x in r <==> x in multiset(r);
    }
  }

  /** A heap but for the order of the element at hole with its parent. */
  ghost predicate HeapButUp(q: seq<QueueItem>, hole: nat) {
    HoleBridged(q, hole) && forall j | 0 < j < |q| && j != hole :: InOrder(q, j)
  }

  /** A heap but for the order of the element at hole with its children. */
  ghost predicate HeapButDown(q: seq<QueueItem>, hole: nat) {
    HoleBridged(q, hole) && forall j | 0 < j < |q| && Parent(j) != hole :: InOrder(q, j)
  }

  function Swapped(q: seq<QueueItem>, i: nat, j: nat): seq<QueueItem>
    requires i < |q| && j < |q|
  {
    q[i := q[j]][j := q[i]]
  }

  lemma SwapIsPermutation(q: seq<QueueItem>, i: nat, j: nat)
    requires i < |q| && j < |q|
    ensures multiset(Swapped(q, i, j)) == multiset(q)
  {
  }

  lemma SwapUpKeepsHeap(q: seq<QueueItem>, i: nat)
    requires 0 < i < |q| && HeapButUp(q, i) && StrictWeakOrder(Items(q))
    requires Later(q[Parent(i)], q[i])
    ensures HeapButUp(Swapped(q, i, Parent(i)), Parent(i))
  {
    var p := Parent(i);
    var r := Swapped(q, i, p);
    assert q[i] in Items(q) && q[p] in Items(q);
    forall j | 0 < j < |q| && j != p ensures InOrder(r, j) {
      assert q[j] in Items(q);
      if j != i {
        assert InOrder(q, j);
        assert Parent(j) == i ==> Bridged(q, i, j);
      }
    }
    if p > 0 {
      assert InOrder(q, p) && q[Parent(p)] in Items(q);
      forall j | 0 < j < |q| && Parent(j) == p ensures Bridged(r, p, j) {
        assert q[j] in Items(q);
        assert j != i ==> InOrder(q, j);
      }
    }
  }

  lemma SwapDownKeepsHeap(q: seq<QueueItem>, i: nat, c: nat)
    requires i < c < |q| && Parent(c) == i && HeapButDown(q, i) && StrictWeakOrder(Items(q))
    requires EarliestChild(q, i, c) && Later(q[i], q[c])
    ensures HeapButDown(Swapped(q, i, c), c)
  {
    var r := Swapped(q, i, c);
    assert q[i] in Items(q) && q[c] in Items(q);
    forall j | 0 < j < |q| && Parent(j) != c ensures InOrder(r, j) {
      assert q[j] in Items(q);
      if Parent(j) == i {
        assert !Later(q[c], q[j]);
      } else if j == i {
        assert Bridged(q, i, c);
      } else {
        assert InOrder(q, j);
      }
    }
    forall j | 0 < j < |q| && Parent(j) == c ensures Bridged(r, c, j) {
      assert InOrder(q, j);
    }
  }

  /** c comes no later than any child of i. */
  ghost predicate EarliestChild(q: seq<QueueItem>, i: nat, c: nat)
    requires c < |q|
  {
    forall j | 0 < j < |q| && Parent(j) == i :: !Later(q[c], q[j])
  }

  /** The element at i rises past every ancestor that comes later than it. */
  function Raised(q: seq<QueueItem>, i: nat): (r: seq<QueueItem>)
    requires i < |q|
    ensures |r| == |q|
    decreases i
  {
    if i > 0 && Later(q[Parent(i)], q[i]) then Raised(Swapped(q, i, Parent(i)), Parent(i)) else q
  }

  function EarlierChild(q: seq<QueueItem>, i: nat): (c: nat)
    requires 2 * i + 1 < |q|
    ensures 0 < c < |q| && Parent(c) == i
  {
    if 2 * i + 2 < |q| && Later(q[2 * i + 1], q[2 * i + 2]) then 2 * i + 2 else 2 * i + 1
  }

  /** The element at i sinks past every earlier child that comes before it. */
  function Sunk(q: seq<QueueItem>, i: nat): (r: seq<QueueItem>)
    ensures |r| == |q|
    decreases |q| - i
  {
    if 2 * i + 1 < |q| && Later(q[i], q[EarlierChild(q, i)]) then
      Sunk(Swapped(q, i, EarlierChild(q, i)), EarlierChild(q, i))
    else q
  }

  /** What is left of a heap once its root is taken. */
  function Popped(q: seq<QueueItem>): seq<QueueItem>
    requires q != []
  {
    Sunk(Swapped(q, 0, |q| - 1)[..|q| - 1], 0)
  }

  lemma {:induction false} RaisedIsPermutation(q: seq<QueueItem>, i: nat)
    requires i < |q|
    ensures multiset(Raised(q, i)) == multiset(q)
    decreases i
  {
    if i > 0 && Later(q[Parent(i)], q[i]) {
      SwapIsPermutation(q, i, Parent(i));
      RaisedIsPermutation(Swapped(q, i, Parent(i)), Parent(i));
    }
  }

  lemma {:induction false} SunkIsPermutation(q: seq<QueueItem>, i: nat)
    ensures multiset(Sunk(q, i)) == multiset(q)
    decreases |q| - i
  {
    if 2 * i + 1 < |q| && Later(q[i], q[EarlierChild(q, i)]) {
      SwapIsPermutation(q, i, EarlierChild(q, i));
      SunkIsPermutation(Swapped(q, i, EarlierChild(q, i)), EarlierChild(q, i));
    }
  }

  lemma {:induction false} RaisedIsHeap(q: seq<QueueItem>, i: nat)
    requires i < |q| && HeapButUp(q, i) && StrictWeakOrder(Items(q))
    ensures IsHeap(Raised(q, i))
    decreases i
  {
    if i > 0 && Later(q[Parent(i)], q[i]) {
      var r := Swapped(q, i, Parent(i));
      SwapUpKeepsHeap(q, i);
      SwapIsPermutation(q, i, Parent(i));
      SameMultisetSameItems(q, r);
      RaisedIsHeap(r, Parent(i));
    }
  }

  lemma {:induction false} SunkIsHeap(q: seq<QueueItem>, i: nat)
    requires HeapButDown(q, i) && StrictWeakOrder(Items(q))
    ensures IsHeap(Sunk(q, i))
    decreases |q| - i
  {
    if 2 * i + 1 < |q| {
      var c := EarlierChild(q, i);
      EarlierChildIsEarliest(q, i);
      if Later(q[i], q[c]) {
        var r := Swapped(q, i, c);
        SwapDownKeepsHeap(q, i, c);
        SwapIsPermutation(q, i, c);
        SameMultisetSameItems(q, r);
        SunkIsHeap(r, c);
      } else {
        HoleFits(q, i, c);
      }
    }
  }

  /** push_heap: a heap with one element appended becomes a heap again. */
  lemma PushKeepsHeap(q: seq<QueueItem>, x: QueueItem)
    ensures multiset(Raised(q + [x], |q|)) == multiset(q) + multiset{x}
    ensures IsHeap(q) && StrictWeakOrder(Items(q + [x])) ==> IsHeap(Raised(q + [x], |q|))
  {
    var whole := q + [x];
    RaisedIsPermutation(whole, |q|);
    if IsHeap(q) && StrictWeakOrder(Items(whole)) {
      forall j | 0 < j < |whole| && j != |q| ensures InOrder(whole, j) {
        assert InOrder(q, j);
      }
      RaisedIsHeap(whole, |q|);
    }
  }

  /** pop_heap: a heap loses exactly its root and stays a heap. */
  lemma PopKeepsHeap(q: seq<QueueItem>)
    requires q != []
    ensures multiset(Popped(q)) == multiset(q) - multiset{q[0]}
    ensures IsHeap(q) && StrictWeakOrder(Items(q)) ==> IsHeap(Popped(q))
  {
    RootToEnd(q);
    var rest := Swapped(q, 0, |q| - 1)[..|q| - 1];
    SunkIsPermutation(rest, 0);
    if IsHeap(q) && StrictWeakOrder(Items(q)) {
      PartIsStrictWeakOrder(rest, q);
      forall j | 0 < j < |rest| && Parent(j) != 0 ensures InOrder(rest, j) {
        assert InOrder(q, j);
      }
      SunkIsHeap(rest, 0);
    }
  }

  lemma RootToEnd(q: seq<QueueItem>)
    requires q != []
    ensures multiset(Swapped(q, 0, |q| - 1)[..|q| - 1]) == multiset(q) - multiset{q[0]}
  {
    var whole := Swapped(q, 0, |q| - 1);
    assert whole == whole[..|q| - 1] + [q[0]];
    SwapIsPermutation(q, 0, |q| - 1);
  }

  lemma HoleFits(q: seq<QueueItem>, i: nat, c: nat)
    requires i < c < |q| && Parent(c) == i && HeapButDown(q, i) && StrictWeakOrder(Items(q))
    requires EarliestChild(q, i, c) && !Later(q[i], q[c])
    ensures IsHeap(q)
  {
    assert q[i] in Items(q) && q[c] in Items(q);
    forall j | 0 < j < |q| ensures InOrder(q, j) {
      assert q[j] in Items(q);
      assert Parent(j) == i ==> !Later(q[c], q[j]);
    }
  }

  lemma PartIsStrictWeakOrder(q: seq<QueueItem>, whole: seq<QueueItem>)
    requires multiset(q) <= multiset(whole) && StrictWeakOrder(Items(whole))
    ensures StrictWeakOrder(Items(q))
  {
    assert Items(q) <= Items(whole) by {
      forall x | x in q ensures x in whole {
        assert x in multiset(q) && x in multiset(whole);
      }
    }
  }

  lemma EarlierChildIsEarliest(q: seq<QueueItem>, i: nat)
    requires StrictWeakOrder(Items(q)) && 2 * i + 1 < |q|
    ensures EarliestChild(q, i, EarlierChild(q, i))
  {
    var c := EarlierChild(q, i);
    assert q[c] in Items(q);
    forall j | 0 < j < |q| && Parent(j) == i ensures !Later(q[c], q[j]) {
      assert j == 2 * i + 1 || j == 2 * i + 2;
      assert q[j] in Items(q);
    }
  }

  /** Swaps two of the first n elements. */
  method SwapElements(a: array<QueueItem>, n: nat, i: nat, j: nat)
    requires i < n <= a.Length && j < n
    modifies a
    ensures a[..n] == Swapped(old(a[..n]), i, j)
    ensures a[n..] == old(a[n..])
  {
    a[i], a[j] := a[j], a[i];
  }

  /** std::push_heap on the first n elements: the last of them joins the heap before it. */
  method PushHeap(a: array<QueueItem>, n: nat)
    requires 0 < n <= a.Length
    modifies a
    ensures a[..n] == Raised(old(a[..n]), n - 1)
    ensures a[n..] == old(a[n..])
  {
    var i: nat := n - 1;
    while i > 0 && Later(a[Parent(i)], a[i])
      invariant i < n && Raised(a[..n], i) == Raised(old(a[..n]), n - 1)
      invariant a[n..] == old(a[n..])
      decreases i
    {
      ghost var q := a[..n];
      assert q[i] == a[i] && q[Parent(i)] == a[Parent(i)];
      SwapElements(a, n, i, Parent(i));
      i := Parent(i);
    }
    assert a[..n][i] == a[i] && (i > 0 ==> a[..n][Parent(i)] == a[Parent(i)]);
  }

  /** std::pop_heap on the first n elements: the root moves behind the others. */
  method PopHeap(a: array<QueueItem>, n: nat)
    requires 0 < n <= a.Length
    modifies a
    ensures a[..n - 1] == Popped(old(a[..n])) && a[n - 1] == old(a[0])
    ensures a[n..] == old(a[n..])
  {
    ghost var q := Swapped(a[..n], 0, n - 1);
    SwapElements(a, n, 0, n - 1);
    assert a[..n - 1] == q[..n - 1] && a[n - 1] == q[n - 1];
    assert a[n - 1..][1..] == a[n..];
    SiftDown(a, n - 1);
    assert a[n - 1..][0] == a[n - 1] && a[n - 1..][1..] == a[n..];
  }

  /** The child to compare with. */
  method ChooseChild(a: array<QueueItem>, m: nat, i: nat) returns (c: nat)
    requires 2 * i + 1 < m <= a.Length
    ensures c == EarlierChild(a[..m], i)
  {
    c := 2 * i + 1;
    if c + 1 < m && Later(a[c], a[c + 1]) {
      c := c + 1;
    }
  }

  method SiftDown(a: array<QueueItem>, m: nat)
    requires m <= a.Length
    modifies a
    ensures a[..m] == Sunk(old(a[..m]), 0)
    ensures a[m..] == old(a[m..])
  {
    var i := 0;
    while 2 * i + 1 < m
      invariant Sunk(a[..m], i) == Sunk(old(a[..m]), 0)
      invariant a[m..] == old(a[m..])
      decreases m - i
    {
      var c := ChooseChild(a, m, i);
      ghost var q := a[..m];
      assert q[i] == a[i] && q[c] == a[c];
      if !Later(a[i], a[c]) {
        break;
      }
      SwapElements(a, m, i, c);
      i := c;
    }
  }
}
