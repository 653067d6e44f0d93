/**
 * The per-worker deadline heap of the timed scheduler.
 *
 * A task is a callback together with an absolute deadline; the callback is
 * represented by an opaque id. A worker keeps its pending tasks in a slice
 * that offers the five primitives Len, Less, Swap, Push and Pop, and the
 * generic binary-heap routines (push with sift-up, pop with sift-down) keep
 * that slice heap-ordered by deadline.
 */
module TaskHeap {

  /** A submitted task: `id` stands for the callback, `deadline` is the
      absolute time on an integer clock at or after which it may run. */
  datatype TimedFunc = TimedFunc(id: nat, deadline: int)

  /** `a`'s time stamp is strictly before `b`'s: the order the heap uses. */
  predicate Before(a: TimedFunc, b: TimedFunc) {
    a.deadline < b.deadline
  }

  /** `now` is strictly after the task's deadline. */
  predicate Overdue(t: TimedFunc, now: int) {
    now > t.deadline
  }

  /** Before is a strict order that leaves tasks with equal deadlines
      unordered, and orders every two tasks whose deadlines differ. */
  lemma BeforeIsStrictOrder(a: TimedFunc, b: TimedFunc, c: TimedFunc)
    ensures !Before(a, a)
    ensures Before(a, b) ==> !Before(b, a)
    ensures Before(a, b) && Before(b, c) ==> Before(a, c)
    ensures a.deadline == b.deadline ==> !Before(a, b) && !Before(b, a)
    ensures a.deadline != b.deadline ==> Before(a, b) || Before(b, a)
  {
  }

  /** Index of the parent of node `i` in an implicit binary tree. */
  function Parent(i: nat): (p: nat)
    requires i > 0
    ensures p < i && (i == 2 * p + 1 || i == 2 * p + 2)
  {
    (i - 1) / 2
  }

  /** The first `n` elements of `s` are heap-ordered: no element is earlier
      than its parent. */
  ghost predicate HeapOrdered(s: seq<TimedFunc>, n: nat)
    requires n <= |s|
  {
    forall i {:trigger Parent(i)} :: 0 < i < n ==> s[Parent(i)].deadline <= s[i].deadline
  }

  ghost predicate IsHeap(s: seq<TimedFunc>) {
    HeapOrdered(s, |s|)
  }

  /** The root of a heap-ordered prefix has the earliest deadline in it. */
  lemma {:induction false} RootIsEarliest(s: seq<TimedFunc>, n: nat, i: nat)
    requires n <= |s| && HeapOrdered(s, n) && i < n
    ensures s[0].deadline <= s[i].deadline
    decreases i
  {
    if i > 0 {
      RootIsEarliest(s, n, Parent(i));
    }
  }

  /** No task in a heap is strictly before its root. */
  lemma RootIsMinimum(s: seq<TimedFunc>, t: TimedFunc)
    requires IsHeap(s) && t in multiset(s)
    ensures s[0].deadline <= t.deadline && !Before(t, s[0])
  {
    var i :| 0 <= i < |s| && s[i] == t;
    RootIsEarliest(s, |s|, i);
  }

  /** The slice of tasks with its five primitives. */
  class TimedFuncHeap {
    var items: seq<TimedFunc>

    /** The nil slice a worker starts with. */
    constructor ()
      ensures items == []
    {
      items := [];
    }

    function Len(): (n: nat)
      reads this
      ensures n == |items|
      ensures n == 0 <==> items == []
    {
      |items|
    }

    /** Compares by time stamp only, so ties are never "less". */
    function Less(i: nat, j: nat): (r: bool)
      requires i < |items| && j < |items|
      reads this
      ensures items[i].deadline == items[j].deadline ==> !r
      ensures r <==> items[i].deadline < items[j].deadline
    {
      Before(items[i], items[j])
    }

    method Swap(i: nat, j: nat)
      requires i < |items| && j < |items|
      modifies this
      ensures items == old(items)[i := old(items)[j]][j := old(items)[i]]
      ensures multiset(items) == multiset(old(items))
    {
      items := items[i := items[j]][j := items[i]];
    }

    /** Appends one element at the end. */
    method Push(x: TimedFunc)
      modifies this
      ensures items == old(items) + [x]
    {
      items := items + [x];
    }

    /** Removes and returns the last element; indexing an empty slice
        panics in the source, so callers never do it. */
    method Pop() returns (x: TimedFunc)
      requires |items| > 0
      modifies this
      ensures x == old(items)[|old(items)| - 1]
      ensures items == old(items)[..|old(items)| - 1]
      ensures multiset(items) + multiset{x} == multiset(old(items))
    {
      x := items[|items| - 1];
      items := items[..|items| - 1];
      assert old(items) == items + [x];
    }
  }

  /** Heap order holds except between `k` and its parent, and `k`'s parent
      is no later than `k`'s children: what sift-up keeps. */
  ghost predicate OrderedExceptUp(s: seq<TimedFunc>, k: nat)
    requires k < |s|
  {
    && (forall i {:trigger Parent(i)} :: 0 < i < |s| && i != k ==> s[Parent(i)].deadline <= s[i].deadline)
    && (k > 0 ==> forall i {:trigger Parent(i)} :: 0 < i < |s| && Parent(i) == k ==> s[Parent(k)].deadline <= s[i].deadline)
  }

  /** Heap order holds on the first `n` elements except between `k` and its
      children, and `k`'s parent is no later than `k`'s children: what
      sift-down keeps. */
  ghost predicate OrderedExceptDown(s: seq<TimedFunc>, n: nat, k: nat)
    requires n <= |s|
  {
    && (forall i {:trigger Parent(i)} :: 0 < i < n && Parent(i) != k ==> s[Parent(i)].deadline <= s[i].deadline)
    && (k > 0 ==> forall i {:trigger Parent(i)} :: 0 < i < n && Parent(i) == k ==> s[Parent(k)].deadline <= s[i].deadline)
  }

  /** One sift-down swap of `k` with its earlier child `j`, strictly before
      `k`, moves the gap in heap order down to `j`. */
  lemma DownStep(s: seq<TimedFunc>, n: nat, k: nat, j: nat)
    requires n <= |s| && OrderedExceptDown(s, n, k)
    requires j < n && (j == 2 * k + 1 || j == 2 * k + 2)
    requires s[j].deadline <= s[2 * k + 1].deadline
    requires 2 * k + 2 < n ==> s[j].deadline <= s[2 * k + 2].deadline
    requires s[j].deadline < s[k].deadline
    ensures OrderedExceptDown(s[k := s[j]][j := s[k]], n, j)
  {
    var t := s[k := s[j]][j := s[k]];
    assert Parent(j) == k && j != k;
    forall i | 0 < i < n && Parent(i) != j
      ensures t[Parent(i)].deadline <= t[i].deadline
    {
      var p := Parent(i);
      if i == j {
        assert t[p] == s[j] && t[i] == s[k];
      } else if p == k {
        assert t[p] == s[j] && t[i] == s[i];
      } else if i == k {
        assert t[p] == s[p] && t[i] == s[j];
      } else {
        assert t[p] == s[p] && t[i] == s[i];
      }
    }
    forall i | 0 < i < n && Parent(i) == j
      ensures t[Parent(j)].deadline <= t[i].deadline
    {
      assert t[Parent(j)] == s[j] && t[i] == s[i];
    }
  }

  /** Sift-down stops once `k` has no child before it in the prefix. */
  lemma DownDone(s: seq<TimedFunc>, n: nat, k: nat)
    requires n <= |s| && OrderedExceptDown(s, n, k)
    requires 2 * k + 1 < n ==> s[k].deadline <= s[2 * k + 1].deadline
    requires 2 * k + 2 < n ==> s[k].deadline <= s[2 * k + 2].deadline
    ensures HeapOrdered(s, n)
  {
  }

  /** One sift-up swap of `k` with its parent `p`, strictly later than `k`,
      moves the gap in heap order up to `p`. */
  lemma UpStep(s: seq<TimedFunc>, p: nat, k: nat)
    requires k < |s| && OrderedExceptUp(s, k)
    requires k > 0 && p == Parent(k) && s[k].deadline < s[p].deadline
    ensures OrderedExceptUp(s[p := s[k]][k := s[p]], p)
  {
    var t := s[p := s[k]][k := s[p]];
    forall i | 0 < i < |s| && i != p
      ensures t[Parent(i)].deadline <= t[i].deadline
    {
      var q := Parent(i);
      if i == k {
        assert t[q] == s[k] && t[i] == s[p];
      } else if q == k {
        assert t[q] == s[p] && t[i] == s[i];
      } else if q == p {
        assert t[q] == s[k] && t[i] == s[i];
      } else {
        assert t[q] == s[q] && t[i] == s[i];
      }
    }
    if p > 0 {
      forall i | 0 < i < |s| && Parent(i) == p
        ensures t[Parent(p)].deadline <= t[i].deadline
      {
        assert t[Parent(p)] == s[Parent(p)];
        if i == k {
          assert t[i] == s[p];
        } else {
          assert t[i] == s[i];
        }
      }
    }
  }

  /** Sift-up from `j0`: swaps the element with its parent while it is
      strictly before it. */
  method Up(h: TimedFuncHeap, j0: nat)
    requires j0 < |h.items| && OrderedExceptUp(h.items, j0)
    modifies h
    ensures |h.items| == |old(h.items)|
    ensures IsHeap(h.items)
    ensures multiset(h.items) == multiset(old(h.items))
  {
    var j: nat := j0;
    while true
      invariant j < |h.items| == |old(h.items)|
      invariant OrderedExceptUp(h.items, j)
      invariant multiset(h.items) == multiset(old(h.items))
      decreases j
    {
      // Truncating division: the parent of the root is the root itself.
      var i: nat := if j == 0 then 0 else (j - 1) / 2;
      if i == j || !h.Less(j, i) {
        break;
      }
      UpStep(h.items, i, j);
      h.Swap(i, j);
      j := i;
    }
  }

  /** Sift-down from the root within the first `n` elements: swaps the
      element with its earlier child while that child is strictly before it. */
  method Down(h: TimedFuncHeap, n: nat)
    requires n <= |h.items| && OrderedExceptDown(h.items, n, 0)
    modifies h
    ensures |h.items| == |old(h.items)|
    ensures HeapOrdered(h.items, n)
    ensures h.items[n..] == old(h.items)[n..]
    ensures multiset(h.items) == multiset(old(h.items))
  {
    var i := 0;
    while true
      invariant i <= n
      invariant |h.items| == |old(h.items)|
      invariant OrderedExceptDown(h.items, n, i)
      invariant h.items[n..] == old(h.items)[n..]
      invariant multiset(h.items) == multiset(old(h.items))
      decreases n - i
    {
      var j1 := 2 * i + 1;
      if j1 >= n {
        DownDone(h.items, n, i);
        break;
      }
      var j := j1;
      var j2 := j1 + 1;
      if j2 < n && h.Less(j2, j1) {
        j := j2;
      }
      if !h.Less(j, i) {
        DownDone(h.items, n, i);
        break;
      }
      DownStep(h.items, n, i, j);
      h.Swap(i, j);
      i := j;
    }
  }

  /** Push of the generic heap routines: appends, then sifts up. */
  method HeapPush(h: TimedFuncHeap, x: TimedFunc)
    requires IsHeap(h.items)
    modifies h
    ensures IsHeap(h.items)
    ensures |h.items| == |old(h.items)| + 1
    ensures multiset(h.items) == multiset(old(h.items)) + multiset{x}
  {
    h.Push(x);
    Up(h, h.Len() - 1);
  }

  /** Pop of the generic heap routines: moves the root to the end, sifts the
      new root down, and removes the last element. */
  method HeapPop(h: TimedFuncHeap) returns (x: TimedFunc)
    requires IsHeap(h.items) && |h.items| > 0
    modifies h
    ensures x == old(h.items)[0]
    ensures forall t :: t in old(h.items) ==> !Before(t, x)
    ensures IsHeap(h.items)
    ensures |h.items| == |old(h.items)| - 1
    ensures multiset(h.items) + multiset{x} == multiset(old(h.items))
  {
    forall t | t in h.items
      ensures !Before(t, h.items[0])
    {
      RootIsMinimum(h.items, t);
    }
    var n := h.Len() - 1;
    h.Swap(0, n);
    Down(h, n);
    x := h.Pop();
  }
}
