/** The binary heap template of include/heap.h: 1-based, with a recursive sift-down that may
    descend into both children. Capacity 1 << height; smaller keys come out first. */
module Heap {
  import opened Bits

  // ----- trees of positions -----

  /** Position j is root or lies under it. */
  ghost predicate InTree(root: nat, j: nat) {
    j == root || (j > root && InTree(root, j / 2))
  }

  lemma {:induction false} UnderIsFar(root: nat, j: nat)
    requires root >= 1 && InTree(root, j) && j != root
    ensures j >= 2 * root && InTree(root, j / 2)
  {
    if j / 2 != root { UnderIsFar(root, j / 2); }
  }

  /** Whatever lies under a position lies in exactly one of its two subtrees. */
  lemma {:induction false} SplitTree(root: nat, j: nat)
    requires root >= 1 && InTree(root, j) && j != root
    ensures InTree(2 * root, j) != InTree(2 * root + 1, j)
  {
    UnderIsFar(root, j);
    if j / 2 != root {
      SplitTree(root, j / 2);
      UnderIsFar(root, j / 2);
    }
  }

  lemma {:induction false} SubTree(root: nat, child: nat, j: nat)
    requires root >= 1 && child / 2 == root && InTree(child, j)
    ensures InTree(root, j) && j != root
  {
    if j != child { SubTree(root, child, j / 2); }
  }

  // ----- order -----

  ghost predicate Ordered<T>(h: seq<T>, key: T -> int, j: nat)
    requires 2 <= j < |h|
  {
    key(h[j / 2]) <= key(h[j])
  }

  /** Below root, every position up to n is at least its parent. */
  ghost predicate TreeOrdered<T>(h: seq<T>, key: T -> int, n: nat, root: nat)
    requires n < |h| && root >= 1
  {
    forall j :: root < j <= n && InTree(root, j) ==> Ordered(h, key, j)
  }

  /** The same, except that root itself may be larger than its children. */
  ghost predicate AlmostOrdered<T>(h: seq<T>, key: T -> int, n: nat, root: nat)
    requires n < |h| && root >= 1
  {
    forall j :: root < j <= n && InTree(root, j) && j / 2 != root ==> Ordered(h, key, j)
  }

  ghost predicate TreeAtLeast<T>(h: seq<T>, key: T -> int, n: nat, root: nat, low: int)
    requires n < |h|
  {
    forall j :: root <= j <= n && InTree(root, j) ==> low <= key(h[j])
  }

  lemma {:induction false} RootIsLeastAt<T>(h: seq<T>, key: T -> int, n: nat, root: nat, j: nat)
    requires n < |h| && root >= 1 && TreeOrdered(h, key, n, root) && root <= j <= n && InTree(root, j)
    ensures key(h[root]) <= key(h[j])
  {
    if j != root {
      UnderIsFar(root, j);
      RootIsLeastAt(h, key, n, root, j / 2);
      assert Ordered(h, key, j);
    }
  }

  lemma RootIsLeast<T>(h: seq<T>, key: T -> int, n: nat, root: nat)
    requires root >= 1 && root <= n < |h| && TreeOrdered(h, key, n, root)
    ensures TreeAtLeast(h, key, n, root, key(h[root]))
  {
    forall j | root <= j <= n && InTree(root, j) ensures key(h[root]) <= key(h[j]) {
      RootIsLeastAt(h, key, n, root, j);
    }
  }

  lemma {:induction false} AllUnderOne(j: nat)
    requires j >= 1
    ensures InTree(1, j)
  {
    if j > 1 { AllUnderOne(j / 2); }
  }

  // ----- contents -----

  ghost function Live<T>(h: seq<T>, n: nat): multiset<T>
    requires n < |h|
  {
    multiset(h[1..n + 1])
  }

  lemma SwapKeepsLive<T>(h: seq<T>, n: nat, i: nat, j: nat)
    requires 1 <= i <= n < |h| && 1 <= j <= n
    ensures Live(h[i := h[j]][j := h[i]], n) == Live(h, n)
  {
    var s := h[1..n + 1];
    var s' := h[i := h[j]][j := h[i]][1..n + 1];
    assert s' == s[i - 1 := s[j - 1]][j - 1 := s[i - 1]];
  }

  lemma LastIsLive<T>(h: seq<T>, n: nat)
    requires 1 <= n < |h|
    ensures Live(h, n) == Live(h, n - 1) + multiset{h[n]}
  {
    assert h[1..n + 1] == h[1..n] + [h[n]];
  }

  // ----- sifting, on values -----

  /** Swapping the root with a smaller child leaves that child's subtree almost ordered, with
      the old child as a lower bound, and touches nothing else. */
  lemma SwapWithChild<T>(h: seq<T>, key: T -> int, n: nat, root: nat, child: nat)
    requires n < |h| && root >= 1 && child / 2 == root && child <= n && key(h[child]) < key(h[root])
    requires TreeOrdered(h, key, n, child)
    ensures var h' := h[root := h[child]][child := h[root]];
      AlmostOrdered(h', key, n, child) && TreeAtLeast(h', key, n, child, key(h[child]))
  {
    RootIsLeast(h, key, n, child);
    var h' := h[root := h[child]][child := h[root]];
    forall j | child < j <= n && InTree(child, j) && j / 2 != child ensures Ordered(h', key, j) {
      UnderIsFar(child, j);
      assert Ordered(h, key, j);
    }
  }

  /** After the swap and the work under the child, the root is the old child, and the tree is as
      large as before. */
  lemma ChildSifted<T>(h: seq<T>, h': seq<T>, key: T -> int, n: nat, root: nat, child: nat, low: int)
    requires n < |h| == |h'| && root >= 1 && child / 2 == root && child <= n && key(h[child]) < key(h[root])
    requires TreeAtLeast(h, key, n, root, low) && TreeAtLeast(h', key, n, child, key(h[child]))
    requires forall j :: 0 <= j < |h| && (j > n || !InTree(child, j)) ==>
      h'[j] == h[root := h[child]][child := h[root]][j]
    ensures TreeAtLeast(h', key, n, root, low)
    ensures key(h'[root]) <= key(h'[child]) && key(h'[root]) <= key(h[root])
    ensures forall j :: 0 <= j < |h| && j != root && (j > n || !InTree(child, j)) ==> h'[j] == h[j]
  {
    SubTree(root, child, child);
    NotUnderChild(root, child);
    assert h'[root] == h[child];
    forall j | root <= j <= n && InTree(root, j) ensures low <= key(h'[j]) {
      if InTree(child, j) { UnderIsAfter(child, j); }
    }
  }

  lemma NotUnderChild(root: nat, child: nat)
    requires root >= 1 && child / 2 == root
    ensures !InTree(child, root) && InTree(child, child) && InTree(root, root)
  {
  }

  lemma UnderIsAfter(root: nat, j: nat)
    requires root >= 1 && InTree(root, j)
    ensures j >= root
  {
    if j != root { UnderIsFar(root, j); }
  }

  /** A subtree whose positions kept their values keeps its order. */
  lemma SameTree<T>(h: seq<T>, h': seq<T>, key: T -> int, n: nat, root: nat)
    requires n < |h| == |h'| && root >= 1 && TreeOrdered(h, key, n, root)
    requires forall j :: root <= j <= n && InTree(root, j) ==> h'[j] == h[j]
    ensures TreeOrdered(h', key, n, root)
  {
    forall j | root < j <= n && InTree(root, j) ensures Ordered(h', key, j) {
      UnderIsFar(root, j);
      assert Ordered(h, key, j);
    }
  }

  lemma ChildrenOrdered<T>(h: seq<T>, key: T -> int, n: nat, root: nat, child: nat)
    requires n < |h| && root >= 1 && child / 2 == root && AlmostOrdered(h, key, n, root)
    ensures TreeOrdered(h, key, n, child)
  {
    forall j | child < j <= n && InTree(child, j) ensures Ordered(h, key, j) {
      SubTree(root, child, j);
      UnderIsFar(child, j);
    }
  }

  /** Two ordered subtrees under a root no larger than their roots. */
  lemma JoinTrees<T>(h: seq<T>, key: T -> int, n: nat, root: nat)
    requires n < |h| && root >= 1
    requires TreeOrdered(h, key, n, 2 * root) && TreeOrdered(h, key, n, 2 * root + 1)
    requires 2 * root <= n ==> key(h[root]) <= key(h[2 * root])
    requires 2 * root + 1 <= n ==> key(h[root]) <= key(h[2 * root + 1])
    ensures TreeOrdered(h, key, n, root)
  {
    forall j | root < j <= n && InTree(root, j) ensures Ordered(h, key, j) {
      SplitTree(root, j);
      UnderIsFar(root, j);
      if j != 2 * root && j != 2 * root + 1 {
        if InTree(2 * root, j) { UnderIsFar(2 * root, j); } else { UnderIsFar(2 * root + 1, j); }
      }
    }
  }

  lemma LeafOrdered<T>(h: seq<T>, key: T -> int, n: nat, root: nat)
    requires n < |h| && root >= 1 && 2 * root > n
    ensures TreeOrdered(h, key, n, root)
  {
    forall j | root < j <= n ensures !InTree(root, j) {
      if InTree(root, j) { UnderIsFar(root, j); }
    }
  }

  /** Work under one child leaves the other child's subtree, and all else outside, alone. */
  lemma SiblingStands<T>(h: seq<T>, h': seq<T>, key: T -> int, n: nat, root: nat, child: nat, sibling: nat)
    requires n < |h| == |h'| && 1 <= root <= n && child / 2 == root && sibling / 2 == root && child != sibling
    requires forall j :: 0 <= j < |h| && j != root && (j > n || !InTree(child, j)) ==> h'[j] == h[j]
    requires TreeOrdered(h, key, n, sibling)
    ensures TreeOrdered(h', key, n, sibling)
    ensures forall j :: 0 <= j < |h| && (j > n || !InTree(root, j)) ==> h'[j] == h[j]
    ensures sibling < |h| ==> h'[sibling] == h[sibling]
  {
    forall j | 0 <= j && InTree(sibling, j) ensures !InTree(child, j) && j != root {
      SubTree(root, sibling, j);
      SplitTree(root, j);
    }
    SameTree(h, h', key, n, sibling);
    forall j | 0 <= j < |h| && InTree(child, j) ensures InTree(root, j) { SubTree(root, child, j); }
  }

  lemma LeastComesFirst<T>(h: seq<T>, key: T -> int, n: nat)
    requires 1 <= n < |h| && TreeOrdered(h, key, n, 1)
    ensures forall x :: x in Live(h, n) ==> key(h[1]) <= key(x)
    ensures forall i :: 1 <= i <= n ==> key(h[1]) <= key(h[i])
  {
    RootIsLeast(h, key, n, 1);
    forall i: nat | 1 <= i <= n ensures key(h[1]) <= key(h[i]) { AllUnderOne(i); }
    forall x | x in Live(h, n) ensures key(h[1]) <= key(x) {
      var i :| 0 <= i < |h[1..n + 1]| && h[1..n + 1][i] == x;
      assert h[i + 1] == x;
    }
  }

  /** Moving the last entry to the front removes the first one. */
  lemma RemoveFirst<T>(h: seq<T>, n: nat)
    requires 1 <= n < |h|
    ensures Live(h[1 := h[n]], n - 1) == Live(h, n) - multiset{h[1]} && h[1] in Live(h, n)
  {
    LastIsLive(h, n);
    var h' := h[1 := h[n]];
    if n > 1 {
      assert h'[1..n] == [h[n]] + h[2..n];
      assert h[1..n] == [h[1]] + h[2..n];
    }
  }

  lemma FirstReplaced<T>(h: seq<T>, key: T -> int, n: nat)
    requires 1 <= n < |h| && TreeOrdered(h, key, n, 1)
    ensures AlmostOrdered(h[1 := h[n]], key, n - 1, 1)
    ensures TreeAtLeast(h[1 := h[n]], key, n - 1, 1, key(h[1]))
  {
    LeastComesFirst(h, key, n);
    var h' := h[1 := h[n]];
    forall j | 1 < j <= n - 1 && InTree(1, j) && j / 2 != 1 ensures Ordered(h', key, j) {
      assert Ordered(h, key, j);
    }
  }

  /** The order outside one position, with its children above its parent: what sift-up meets. */
  ghost predicate OrderedBut<T>(h: seq<T>, key: T -> int, n: nat, i: nat)
    requires n < |h|
  {
    && (forall j :: 2 <= j <= n && j != i ==> Ordered(h, key, j))
    && (forall j :: 2 <= j <= n && j / 2 == i && i >= 2 ==> key(h[i / 2]) <= key(h[j]))
  }

  class PQHeap<T(0)> {
    const heap: array<T>
    const key: T -> int
    var count: nat

    ghost function Contents(): multiset<T>
      reads this, heap
      requires count < heap.Length
    {
      Live(heap[..], count)
    }

    ghost predicate Valid()
      reads this, heap
    {
      count < heap.Length && TreeOrdered(heap[..], key, count, 1)
    }

    constructor (height: nat, key: T -> int)
      ensures Valid() && count == 0 && Contents() == multiset{} && heap.Length == 1 + Pow2(height)
      ensures this.key == key && fresh(heap)
    {
      this.key := key;
      heap := new T[1 + Pow2(height)];
      count := 0;
    }

    method Swap(i: nat, j: nat)
      requires 1 <= i <= count < heap.Length && 1 <= j <= count
      modifies heap
      ensures heap[..] == old(heap[..])[i := old(heap[j])][j := old(heap[i])]
      ensures Contents() == old(Contents())
    {
      SwapKeepsLive(heap[..], count, i, j);
      var tmp := heap[i];
      heap[i] := heap[j];
      heap[j] := tmp;
      assert heap[..] == old(heap[..])[i := old(heap[j])][j := old(heap[i])];
    }

    method SiftUp(idx: nat)
      requires 1 <= idx <= count < heap.Length && OrderedBut(heap[..], key, count, idx)
      modifies heap
      ensures forall j :: 2 <= j <= count ==> Ordered(heap[..], key, j)
      ensures Contents() == old(Contents())
      decreases idx
    {
      if idx == 1 { return; }
      if key(heap[idx]) < key(heap[idx / 2]) {
        var h := heap[..];
        Swap(idx, idx / 2);
        assert OrderedBut(heap[..], key, count, idx / 2) by {
          forall j | 2 <= j <= count && j != idx / 2 ensures Ordered(heap[..], key, j) {
            if j != idx { assert Ordered(h, key, j); }
          }
          forall j | 2 <= j <= count && j / 2 == idx / 2 && idx / 2 >= 2
            ensures key(heap[idx / 2 / 2]) <= key(heap[j])
          {
            assert Ordered(h, key, idx / 2);
            if j != idx { assert Ordered(h, key, j); }
          }
        }
        SiftUp(idx / 2);
      }
    }

    /** Restores the order of the subtree at idx whose root alone may be too large. The first
        swap goes to child 2 * idx, and child 2 * idx + 1 is compared with what came up. */
    method SiftDown(idx: nat, ghost low: int)
      requires 1 <= idx && count < heap.Length && AlmostOrdered(heap[..], key, count, idx)
      requires TreeAtLeast(heap[..], key, count, idx, low)
      modifies heap
      ensures TreeOrdered(heap[..], key, count, idx) && TreeAtLeast(heap[..], key, count, idx, low)
      ensures forall j :: 0 <= j < heap.Length && (j > count || !InTree(idx, j)) ==> heap[j] == old(heap[j])
      ensures Contents() == old(Contents())
      decreases count - idx, 1
    {
      hide InTree, Ordered, TreeOrdered, AlmostOrdered, TreeAtLeast, Live;
      if idx * 2 > count {
        LeafOrdered(heap[..], key, count, idx);
        return;
      }
      ChildrenOrdered(heap[..], key, count, idx, 2 * idx);
      ChildrenOrdered(heap[..], key, count, idx, 2 * idx + 1);
      ghost var h := heap[..];
      SiftIntoChild(idx, 2 * idx, low);
      ghost var h1 := heap[..];
      SiblingStands(h, h1, key, count, idx, 2 * idx, 2 * idx + 1);
      if idx * 2 + 1 <= count {
        SiftIntoChild(idx, 2 * idx + 1, low);
        SiblingStands(h1, heap[..], key, count, idx, 2 * idx + 1, 2 * idx);
      }
      JoinTrees(heap[..], key, count, idx);
    }

    /** One half of the step: swap with this child if it is smaller, then sift it down. */
    method SiftIntoChild(idx: nat, child: nat, ghost low: int)
      requires 1 <= idx && child / 2 == idx && child <= count < heap.Length
      requires TreeOrdered(heap[..], key, count, child) && TreeAtLeast(heap[..], key, count, idx, low)
      modifies heap
      ensures TreeOrdered(heap[..], key, count, child) && TreeAtLeast(heap[..], key, count, idx, low)
      ensures key(heap[idx]) <= key(heap[child]) && key(heap[idx]) <= key(old(heap[idx]))
      ensures forall j :: 0 <= j < heap.Length && j != idx && (j > count || !InTree(child, j)) ==>
        heap[j] == old(heap[j])
      ensures Contents() == old(Contents())
      decreases count - idx, 0
    {
      hide InTree, Ordered, TreeOrdered, AlmostOrdered, TreeAtLeast, Live;
      if key(heap[child]) < key(heap[idx]) {
        ghost var h := heap[..];
        SwapWithChild(h, key, count, idx, child);
        Swap(idx, child);
        SiftDown(child, key(h[child]));
        ChildSifted(h, heap[..], key, count, idx, child, low);
      }
    }

    /** The capacity check is an assertion in the source: it is the caller's duty. */
    method Push(value: T)
      requires Valid() && count + 1 < heap.Length
      modifies `count, heap
      ensures Valid() && count == old(count) + 1 && Contents() == old(Contents()) + multiset{value}
    {
      ghost var h := heap[..];
      count := count + 1;
      heap[count] := value;
      assert heap[..] == h[count := value];
      LastIsLive(heap[..], count);
      assert h[1..count] == heap[..][1..count];
      forall j | 2 <= j < count ensures Ordered(heap[..], key, j) {
        AllUnderOne(j);
        assert Ordered(h, key, j);
      }
      SiftUp(count);
    }

    /** Removes exactly one entry, and it is a smallest one. */
    method Pop() returns (ret: T)
      requires Valid() && count > 0
      modifies `count, heap
      ensures Valid() && count == old(count) - 1 && ret in old(Contents())
      ensures Contents() == old(Contents()) - multiset{ret}
      ensures forall x :: x in old(Contents()) ==> key(ret) <= key(x)
    {
      hide Ordered, TreeOrdered, AlmostOrdered, TreeAtLeast, Live;
      ghost var h := heap[..];
      LeastComesFirst(h, key, count);
      RemoveFirst(h, count);
      FirstReplaced(h, key, count);
      ret := heap[1];
      heap[1] := heap[count];
      count := count - 1;
      assert heap[..] == h[1 := h[count + 1]];
      SiftDown(1, key(ret));
    }
  }
}
