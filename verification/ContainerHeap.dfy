/** The binary heap of Go's container/heap package, on which the nonce index and
    the two price heaps of the transaction pool are built. A heap is the slice
    it lives in; `less` is the slice's Less method. */
module ContainerHeap {

  /** `less` is a strict weak order: what every heap.Interface must supply. */
  ghost predicate StrictWeak<T(!new)>(less: (T, T) -> bool) {
    && (forall x, y :: less(x, y) ==> !less(y, x))
    && (forall x, y, z :: !less(y, x) && !less(z, y) ==> !less(z, x))
  }

  function Parent(i: nat): nat
    requires i > 0
  {
    (i - 1) / 2
  }

  /** Position i of the first n does not come before its parent. */
  predicate Ordered<T>(less: (T, T) -> bool, h: seq<T>, i: nat)
    requires 0 < i < |h|
  {
    !less(h[i], h[Parent(i)])
  }

  ghost predicate IsHeap<T>(less: (T, T) -> bool, h: seq<T>) {
    forall i :: 0 < i < |h| ==> Ordered(less, h, i)
  }

  /** The first n positions are ordered with respect to every parent from `lo` on. */
  ghost predicate HeapFrom<T>(less: (T, T) -> bool, h: seq<T>, lo: nat, n: nat)
    requires n <= |h|
  {
    forall i :: 0 < i < n && lo <= Parent(i) ==> Ordered(less, h, i)
  }

  /** HeapFrom, except around position k: its children and itself may be out of
      order, but its children do not come before its parent. */
  ghost predicate HeapAround<T>(less: (T, T) -> bool, h: seq<T>, lo: nat, n: nat, k: nat)
    requires n <= |h|
  {
    && (forall i :: 0 < i < n && lo <= Parent(i) && Parent(i) != k && i != k ==> Ordered(less, h, i))
    && (forall i :: 0 < i < n && Parent(i) == k && k > 0 && lo <= Parent(k) ==> !less(h[i], h[Parent(k)]))
  }

  function Swap<T>(h: seq<T>, i: nat, j: nat): (r: seq<T>)
    requires i < |h| && j < |h|
    ensures |r| == |h| && multiset(r) == multiset(h)
  {
    h[i := h[j]][j := h[i]]
  }

  method Up<T(!new)>(less: (T, T) -> bool, h: seq<T>, j0: nat) returns (r: seq<T>)
    requires StrictWeak(less)
    requires j0 < |h| && HeapAround(less, h, 0, |h|, j0)
    requires forall i :: 0 < i < |h| && Parent(i) == j0 ==> Ordered(less, h, i)
    ensures |r| == |h| && multiset(r) == multiset(h) && IsHeap(less, r)
  {
    var j: nat := j0;
    r := h;
    while j > 0 && less(r[j], r[Parent(j)])
      invariant j < |r| == |h| && multiset(r) == multiset(h)
      invariant HeapAround(less, r, 0, |r|, j)
      invariant forall i :: 0 < i < |r| && Parent(i) == j ==> Ordered(less, r, i)
    {
      RiseStep(less, r, j);
      r := Swap(r, Parent(j), j);
      j := Parent(j);
    }
    forall i | 0 < i < |r| ensures Ordered(less, r, i) {
    }
  }

  /** One swap of Up moves the disorder from position j to its parent. */
  lemma RiseStep<T(!new)>(less: (T, T) -> bool, h: seq<T>, j: nat)
    requires StrictWeak(less)
    requires 0 < j < |h| && HeapAround(less, h, 0, |h|, j) && less(h[j], h[Parent(j)])
    requires forall i :: 0 < i < |h| && Parent(i) == j ==> Ordered(less, h, i)
    ensures var r := Swap(h, Parent(j), j);
            && HeapAround(less, r, 0, |r|, Parent(j))
            && forall i :: 0 < i < |r| && Parent(i) == Parent(j) ==> Ordered(less, r, i)
  {
    var p := Parent(j);
    var r := Swap(h, p, j);
    forall i | 0 < i < |r| && i != p
      ensures Ordered(less, r, i)
    {
      assert i != j && Parent(i) != j ==> Ordered(less, h, i);
    }
    forall i | 0 < i < |r| && Parent(i) == p && p > 0
      ensures !less(r[i], r[Parent(p)])
    {
      assert Ordered(less, h, p);
      assert i != j ==> Ordered(less, h, i);
    }
  }

  /** Sinks position i0 of the first n; `moved` says whether it sank at all. */
  method Down<T(!new)>(less: (T, T) -> bool, h: seq<T>, i0: nat, n: nat, ghost lo: nat) returns (r: seq<T>, moved: bool)
    requires StrictWeak(less)
    requires i0 < n <= |h| && lo <= i0 && HeapAround(less, h, lo, n, i0)
    ensures |r| == |h| && multiset(r) == multiset(h)
    ensures r[n..] == h[n..]
    ensures moved ==> HeapFrom(less, r, lo, n)
    ensures !moved ==> r == h
    ensures !moved ==> forall i :: 0 < i < n && Parent(i) == i0 ==> Ordered(less, r, i)
  {
    var i: nat := i0;
    r := h;
    while 2 * i + 1 < n
      invariant i0 <= i < n && |r| == |h| && multiset(r) == multiset(h) && r[n..] == h[n..]
      invariant i == i0 ==> r == h
      invariant HeapAround(less, r, lo, n, i)
      invariant i > i0 ==> Ordered(less, r, i)
      decreases n - i
    {
      var j := LesserChild(less, r, i, n);
      if !less(r[j], r[i]) {
        break;
      }
      SinkStep(less, r, i, j, n, lo);
      r := Swap(r, i, j);
      i := j;
    }
    moved := i > i0;
    forall k | 0 < k < n && Parent(k) == i ensures Ordered(less, r, k) {
      assert k == 2 * i + 1 || k == 2 * i + 2;
    }
  }

  /** The child of i that Down compares with it: the left one unless the right one comes before it. */
  function LesserChild<T(!new)>(less: (T, T) -> bool, h: seq<T>, i: nat, n: nat): (j: nat)
    requires 2 * i + 1 < n <= |h|
    ensures j < n && (j == 2 * i + 1 || j == 2 * i + 2)
    ensures StrictWeak(less) ==> forall k :: 0 < k < n && Parent(k) == i ==> !less(h[k], h[j])
  {
    if 2 * i + 2 < n && less(h[2 * i + 2], h[2 * i + 1]) then 2 * i + 2 else 2 * i + 1
  }

  /** One swap of Down moves the disorder from position i to its lesser child j. */
  lemma SinkStep<T(!new)>(less: (T, T) -> bool, h: seq<T>, i: nat, j: nat, n: nat, lo: nat)
    requires StrictWeak(less)
    requires lo <= i && j < n <= |h| && (j == 2 * i + 1 || j == 2 * i + 2) && less(h[j], h[i])
    requires forall k :: 0 < k < n && Parent(k) == i ==> !less(h[k], h[j])
    requires HeapAround(less, h, lo, n, i)
    ensures HeapAround(less, Swap(h, i, j), lo, n, j)
    ensures Ordered(less, Swap(h, i, j), j)
    ensures i > 0 && lo <= Parent(i) ==> Ordered(less, Swap(h, i, j), i)
  {
    var r := Swap(h, i, j);
    forall k | 0 < k < n && lo <= Parent(k) && Parent(k) != j
      ensures Ordered(less, r, k)
    {
      assert k != i && Parent(k) != i ==> Ordered(less, h, k);
      assert Parent(k) == i ==> k == 2 * i + 1 || k == 2 * i + 2;
    }
    forall k | 0 < k < n && Parent(k) == j
      ensures !less(r[k], r[Parent(j)])
    {
      assert Ordered(less, h, k);
    }
  }

  /** heap.Init: turns any slice into a heap of the same elements. */
  method Init<T(!new)>(less: (T, T) -> bool, h: seq<T>) returns (r: seq<T>)
    requires StrictWeak(less)
    ensures |r| == |h| && multiset(r) == multiset(h) && IsHeap(less, r)
  {
    r := h;
    var i: nat := |h| / 2;
    while i > 0
      invariant i <= |h| / 2 && |r| == |h| && multiset(r) == multiset(h)
      invariant HeapFrom(less, r, i, |r|)
    {
      i := i - 1;
      var moved;
      r, moved := Down(less, r, i, |r|, i);
    }
  }

  method Push<T(!new)>(less: (T, T) -> bool, h: seq<T>, x: T) returns (r: seq<T>)
    requires StrictWeak(less) && IsHeap(less, h)
    ensures |r| == |h| + 1 && multiset(r) == multiset(h) + multiset{x} && IsHeap(less, r)
  {
    r := h + [x];
    forall i | 0 < i < |h| ensures Ordered(less, r, i) {
      assert Ordered(less, h, i);
    }
    r := Up(less, r, |h|);
  }

  /** heap.Pop: takes out a least element. */
  method Pop<T(!new)>(less: (T, T) -> bool, h: seq<T>) returns (r: seq<T>, x: T)
    requires StrictWeak(less) && IsHeap(less, h) && |h| > 0
    ensures |r| == |h| - 1 && multiset(h) == multiset(r) + multiset{x} && IsHeap(less, r)
    ensures x == h[0] && forall y :: y in h ==> !less(y, x)
  {
    RootIsLeast(less, h);
    var n := |h| - 1;
    r := Swap(h, 0, n);
    if n > 0 {
      var moved;
      ghost var s := r;
      SwapOutKeepsRest(less, h, 0);
      r, moved := Down(less, r, 0, n, 0);
      assert r[n] == s[n] by { assert r[n..][0] == s[n..][0]; }
    }
    x := r[n];
    assert r == r[..n] + [x];
    PrefixOrder(less, r, n);
    r := r[..n];
  }

  /** heap.Remove: takes out the element at position i. */
  method Remove<T(!new)>(less: (T, T) -> bool, h: seq<T>, i: nat) returns (r: seq<T>)
    requires StrictWeak(less) && IsHeap(less, h) && i < |h|
    ensures |r| == |h| - 1 && multiset(h) == multiset(r) + multiset{h[i]} && IsHeap(less, r)
  {
    hide StrictWeak, Ordered, Parent;
    var n := |h| - 1;
    if i != n {
      var moved;
      r, moved := TakeOut(less, h, i);
      if !moved {
        r := Up(less, r, i);
      }
    } else {
      PrefixOrder(less, h, n);
      assert h == h[..n] + [h[i]];
      r := h[..n];
    }
  }

  /** heap.Remove, with the last element put in the place of position i and sunk if it can be. */
  method TakeOut<T(!new)>(less: (T, T) -> bool, h: seq<T>, i: nat) returns (r: seq<T>, moved: bool)
    requires StrictWeak(less) && IsHeap(less, h) && i < |h| - 1
    ensures |r| == |h| - 1 && multiset(h) == multiset(r) + multiset{h[i]}
    ensures moved ==> IsHeap(less, r)
    ensures !moved ==> HeapAround(less, r, 0, |r|, i)
    ensures !moved ==> forall k :: 0 < k < |r| && Parent(k) == i ==> Ordered(less, r, k)
  {
    hide StrictWeak, IsHeap, HeapAround, HeapFrom, Ordered, Parent;
    var n := |h| - 1;
    SwapOutKeepsRest(less, h, i);
    var s := Swap(h, i, n);
    r, moved := Down(less, s, i, n, 0);
    LastOut(s, r, n);
    PrefixHeap(less, r, n, i);
    r := r[..n];
  }

  lemma LastOut<T>(s: seq<T>, r: seq<T>, n: nat)
    requires |r| == |s| == n + 1 && multiset(r) == multiset(s) && r[n..] == s[n..]
    ensures multiset(s) == multiset(r[..n]) + multiset{s[n]}
  {
    assert r[n..][0] == s[n..][0];
    assert r == r[..n] + [s[n]];
  }

  /** What holds of the first n positions holds of the prefix. */
  lemma PrefixHeap<T>(less: (T, T) -> bool, h: seq<T>, n: nat, i: nat)
    requires n <= |h|
    ensures HeapFrom(less, h, 0, n) ==> IsHeap(less, h[..n])
    ensures HeapAround(less, h, 0, n, i) ==> HeapAround(less, h[..n], 0, n, i)
    ensures forall k :: 0 < k < n ==> Ordered(less, h[..n], k) == Ordered(less, h, k)
  {
    PrefixOrder(less, h, n);
  }

  /** Exchanging position i with the last one disturbs the others only around i. */
  lemma SwapOutKeepsRest<T(!new)>(less: (T, T) -> bool, h: seq<T>, i: nat)
    requires StrictWeak(less) && IsHeap(less, h) && i < |h| - 1
    ensures HeapAround(less, Swap(h, i, |h| - 1), 0, |h| - 1, i)
  {
    forall k | 0 < k < |h| && Parent(k) == i && i > 0
      ensures !less(h[k], h[Parent(i)])
    {
      assert Ordered(less, h, k) && Ordered(less, h, i);
    }
    SwapOutKeepsOthers(less, h, i);
  }

  lemma SwapOutKeepsOthers<T>(less: (T, T) -> bool, h: seq<T>, i: nat)
    requires IsHeap(less, h) && i < |h| - 1
    ensures forall k :: 0 < k < |h| - 1 && Parent(k) != i && k != i ==> Ordered(less, Swap(h, i, |h| - 1), k)
  {
    var r := Swap(h, i, |h| - 1);
    forall k | 0 < k < |h| - 1 && Parent(k) != i && k != i
      ensures Ordered(less, r, k)
    {
      assert Ordered(less, h, k) && r[k] == h[k] && r[Parent(k)] == h[Parent(k)];
    }
  }

  lemma PrefixOrder<T>(less: (T, T) -> bool, h: seq<T>, n: nat)
    requires n <= |h|
    ensures forall i :: 0 < i < n ==> Ordered(less, h[..n], i) == Ordered(less, h, i)
  {
  }

  /** No element of a heap comes before its root. */
  lemma RootIsLeast<T(!new)>(less: (T, T) -> bool, h: seq<T>)
    requires StrictWeak(less) && IsHeap(less, h) && |h| > 0
    ensures forall y :: y in h ==> !less(y, h[0])
  {
    forall k | 0 <= k < |h| ensures !less(h[k], h[0]) {
      RootBelow(less, h, k);
    }
  }

  lemma {:induction false} RootBelow<T(!new)>(less: (T, T) -> bool, h: seq<T>, k: nat)
    requires StrictWeak(less) && IsHeap(less, h) && k < |h|
    ensures !less(h[k], h[0])
  {
    if k > 0 {
      assert Ordered(less, h, k);
      RootBelow(less, h, Parent(k));
    }
  }
}
