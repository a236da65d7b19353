/**
 The expiry heap of the store: a growing slice with the five operations the heap
 algorithms ask for, and those algorithms (push, pop, up, down) over it.
 */
module TimeHeaps {
  import opened HeapOrder
  import opened Wrappers

  class TimeHeap {
    var arr: seq<Entry>

    constructor ()
      ensures arr == []
    {
      arr := [];
    }

    function Len(): nat
      reads this
    {
      |arr|
    }

    predicate Less(i: nat, j: nat)
      requires i < |arr| && j < |arr|
      reads this
    {
      arr[i].time < arr[j].time
    }

    method Swap(i: nat, j: nat)
      requires i < |arr| && j < |arr|
      modifies this
      ensures arr == Swapped(old(arr), i, j)
    {
      arr := arr[i := arr[j]][j := arr[i]];
    }

    /** The last slot, not the root: see DrainMeetsDocumentationIff for what this changes. */
    function Peek(): (r: Option<Entry>)
      reads this
      ensures r.None? <==> arr == []
      ensures r.Some? ==> arr == arr[..|arr| - 1] + [r.value]
    {
      if Len() != 0 then Some(arr[|arr| - 1]) else None
    }

    /** The raw append that heap-push builds on. */
    method Push(e: Entry)
      modifies this
      ensures arr == old(arr) + [e]
    {
      arr := arr + [e];
    }

    /** The raw removal of the last slot that heap-pop builds on. */
    method Pop() returns (e: Entry)
      requires arr != []
      modifies this
      ensures old(arr) == arr + [e]
    {
      var n := |arr|;
      e := arr[n - 1];
      arr := arr[..n - 1];
    }

    method Up(j0: nat)
      requires j0 < |arr|
      modifies this
      ensures arr == SiftUp(old(arr), j0)
    {
      var j: nat := j0;
      while true
        invariant j < |arr|
        invariant SiftUp(arr, j) == SiftUp(old(arr), j0)
        decreases j
      {
        var i: nat := Parent(j);
        if i == j || !Less(j, i) {
          break;
        }
        Swap(i, j);
        j := i;
      }
    }

    method Down(i0: nat, n: nat)
      requires n <= |arr|
      modifies this
      ensures arr == SiftDown(old(arr), i0, n)
    {
      var i: nat := i0;
      while true
        invariant n <= |arr| == |old(arr)|
        invariant SiftDown(arr, i, n) == SiftDown(old(arr), i0, n)
        decreases |arr| - i
      {
        var j1 := 2 * i + 1;
        if j1 >= n {
          break;
        }
        var j := j1;
        if j1 + 1 < n && Less(j1 + 1, j1) {
          j := j1 + 1;
        }
        assert j == EarlierChild(arr, i, n);
        if !Less(j, i) {
          break;
        }
        Swap(i, j);
        i := j;
      }
    }

    method HeapPush(e: Entry)
      modifies this
      ensures arr == Pushed(old(arr), e)
      ensures old(Ordered(arr)) ==> Ordered(arr)
    {
      Push(e);
      Up(Len() - 1);
      if Ordered(old(arr)) {
        PushKeepsOrder(old(arr), e);
      }
    }

    method HeapPop() returns (e: Entry)
      requires arr != []
      modifies this
      ensures arr == Popped(old(arr)) && e == old(arr)[0]
      ensures old(Ordered(arr)) ==> Ordered(arr) && forall x :: x in old(arr) ==> e.time <= x.time
    {
      var n := Len() - 1;
      Swap(0, n);
      Down(0, n);
      e := Pop();
      SiftDownKeepsEntries(Swapped(old(arr), 0, n), 0, n);
      if Ordered(old(arr)) {
        PopTakesEarliest(old(arr));
      }
    }

    /**
     The drain its documentation describes: look at the root, take it with heap-pop.
     Exactly the entries at or before the cutoff come out, earliest first.
     */
    method DocumentedDrain(cutoff: int) returns (out: seq<Entry>)
      requires Ordered(arr)
      modifies this
      ensures Ordered(arr) && multiset(old(arr)) == multiset(out) + multiset(arr)
      ensures forall e :: e in out ==> e.time <= cutoff
      ensures forall e :: e in arr ==> e.time > cutoff
      ensures Ascending(out)
    {
      out := [];
      while arr != [] && arr[0].time <= cutoff
        invariant Extracting(multiset(old(arr)), out, arr)
        invariant forall e :: e in out ==> e.time <= cutoff
        decreases |arr|
      {
        ExtractNext(multiset(old(arr)), out, arr);
        var e := HeapPop();
        out := out + [e];
      }
      if arr != [] {
        PopTakesEarliest(arr);
      }
    }
  }

  /** Pushing any entries and popping until empty sorts them by time. */
  method PushAllPopAll(input: seq<Entry>) returns (output: seq<Entry>)
    ensures multiset(output) == multiset(input)
    ensures Ascending(output)
  {
    var h := new TimeHeap();
    for k := 0 to |input|
      invariant Ordered(h.arr) && multiset(h.arr) == multiset(input[..k])
    {
      PushKeepsOrder(h.arr, input[k]);
      h.HeapPush(input[k]);
      assert input[..k + 1] == input[..k] + [input[k]];
    }
    assert input[..|input|] == input;
    output := [];
    while h.Len() != 0
      invariant Extracting(multiset(input), output, h.arr)
      decreases |h.arr|
    {
      ExtractNext(multiset(input), output, h.arr);
      var e := h.HeapPop();
      output := output + [e];
    }
    assert multiset(h.arr) == multiset{};
  }
}
