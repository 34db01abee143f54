/**
 * Search results and the bounded accumulator that holds them: a heap ordered
 * by `compareResults`, so that its top is the farthest result kept.
 */
module Results {
  import opened Wrappers
  import opened Seqs

  /** A scored feature: its distance from the target in km, and the feature itself. */
  datatype Result<F> = Result(distance: real, feature: F)

  /** `compareResults`: negative when `a` is farther than `b`, so the heap's top (its least element) is the farthest result. */
  function CompareResults<F>(a: Result<F>, b: Result<F>): (r: real)
    ensures r < 0.0 <==> a.distance > b.distance
    ensures r == 0.0 <==> a.distance == b.distance
  {
    b.distance - a.distance
  }

  /** Farthest first: the order in which the heap yields its elements. */
  ghost predicate WorstFirst<F>(s: seq<Result<F>>)
  {
    forall i, j :: 0 <= i < j < |s| ==> s[i].distance >= s[j].distance
  }

  /** Farthest first is the order of `compareResults`: no element compares below an earlier one. */
  lemma WorstFirstIsComparatorOrder<F>(s: seq<Result<F>>)
    ensures WorstFirst(s) <==> forall i, j :: 0 <= i < j < |s| ==> CompareResults(s[i], s[j]) <= 0.0
  {
  }

  /** Nearest first. */
  ghost predicate Ascending<F>(s: seq<Result<F>>)
  {
    forall i, j :: 0 <= i < j < |s| ==> s[i].distance <= s[j].distance
  }

  /** Reversing the heap's farthest-first drain gives nearest-first results with the same elements. */
  lemma DrainReversedAscending<F>(s: seq<Result<F>>)
    requires WorstFirst(s)
    ensures Ascending(Reverse(s)) && multiset(Reverse(s)) == multiset(s)
  {
    var r := Reverse(s);
    forall i, j | 0 <= i < j < |r| ensures r[i].distance <= r[j].distance {
      assert s[|s| - 1 - j].distance >= s[|s| - 1 - i].distance;
    }
    ReverseMultiset(s);
  }

  /** In a farthest-first sequence the first element is a farthest one. */
  lemma TopIsFarthest<F>(s: seq<Result<F>>)
    requires WorstFirst(s) && |s| > 0
    ensures forall r :: r in s ==> r.distance <= s[0].distance
  {
    forall r | r in s ensures r.distance <= s[0].distance {
      var k :| 0 <= k < |s| && s[k] == r;
      if k > 0 {
        assert s[0].distance >= s[k].distance;
      }
    }
  }

  lemma InsertKeepsOrder<F>(s: seq<Result<F>>, i: int, r: Result<F>)
    requires WorstFirst(s) && 0 <= i <= |s|
    requires forall k :: 0 <= k < i ==> s[k].distance >= r.distance
    requires i < |s| ==> s[i].distance < r.distance
    ensures WorstFirst(s[..i] + [r] + s[i..])
  {
    var t := s[..i] + [r] + s[i..];
    forall a, b | 0 <= a < b < |t| ensures t[a].distance >= t[b].distance {
      InsertAt(s, i, r, a);
      InsertAt(s, i, r, b);
      if a < i && b > i {
        assert s[a].distance >= s[b - 1].distance;
      } else if a == i && b > i + 1 {
        assert s[i].distance >= s[b - 1].distance;
      }
    }
  }

  lemma InsertMultiset<T>(s: seq<T>, i: int, r: T)
    requires 0 <= i <= |s|
    ensures multiset(s[..i] + [r] + s[i..]) == multiset(s) + multiset{r}
  {
    calc {
      multiset(s[..i] + [r] + s[i..]);
      multiset(s[..i]) + multiset{r} + multiset(s[i..]);
      { assert s == s[..i] + s[i..]; }
      multiset(s) + multiset{r};
    }
  }

  lemma InsertAt<F>(s: seq<Result<F>>, i: int, r: Result<F>, k: int)
    requires 0 <= i <= |s| && 0 <= k <= |s|
    ensures (s[..i] + [r] + s[i..])[k] == if k < i then s[k] else if k == i then r else s[k - 1]
  {
  }

  /**
   * The heap of `heap-js` built with `compareResults`. Its internal array
   * layout is not modelled: `items` holds the elements in the order the
   * heap yields them, its top first.
   */
  class ResultHeap<F> {
    var items: seq<Result<F>>

    ghost predicate Valid()
      reads this
    {
      WorstFirst(items)
    }

    constructor ()
      ensures Valid() && items == []
    {
      items := [];
    }

    /** `size()`. */
    method Size() returns (n: nat)
      ensures n == |items|
    {
      n := |items|;
    }

    /** `peek()`: the farthest result kept, or `undefined` when empty. */
    method Peek() returns (top: Option<Result<F>>)
      requires Valid()
      ensures top.None? <==> items == []
      ensures top.Some? ==> top.value == items[0] && forall r :: r in items ==> r.distance <= top.value.distance
    {
      if items == [] {
        top := None;
      } else {
        TopIsFarthest(items);
        top := Some(items[0]);
      }
    }

    /** `push(r)`: adds one element, keeping the order. */
    method Push(r: Result<F>)
      requires Valid()
      modifies this
      ensures Valid()
      ensures multiset(items) == multiset(old(items)) + multiset{r}
      ensures |items| == |old(items)| + 1
      ensures old(items) != [] && r.distance < old(items)[0].distance ==> items[0] == old(items)[0]
    {
      var i := 0;
      while i < |items| && items[i].distance >= r.distance
        invariant 0 <= i <= |items|
        invariant forall k :: 0 <= k < i ==> items[k].distance >= r.distance
      {
        i := i + 1;
      }
      InsertKeepsOrder(items, i, r);
      InsertMultiset(items, i, r);
      items := items[..i] + [r] + items[i..];
    }

    /** `pop()`: removes and returns the top, or returns `undefined` when empty. */
    method Pop() returns (top: Option<Result<F>>)
      requires Valid()
      modifies this
      ensures Valid()
      ensures old(items) == [] ==> top == None && items == []
      ensures old(items) != [] ==> top == Some(old(items)[0]) && items == old(items)[1..]
    {
      if items == [] {
        top := None;
      } else {
        top := Some(items[0]);
        items := items[1..];
      }
    }

    /** `Array.from(heap)`: the heap's iterator pops until empty, so the elements come farthest first. */
    method Drain() returns (out: seq<Result<F>>)
      requires Valid()
      modifies this
      ensures Valid() && items == []
      ensures out == old(items) && WorstFirst(out)
    {
      out := [];
      while items != []
        invariant Valid()
        invariant out + items == old(items)
        decreases |items|
      {
        var top := Pop();
        out := out + [top.value];
      }
    }
  }
}
