/**
 The array layout of the expiry heap as mathematics: what sift-up and sift-down
 compute, that both restore heap order without losing an entry, and what the drain
 of the store leaves behind when it looks at the last slot instead of the root.
 */
module HeapOrder {

  /** One scheduled expiry: when, and for which key. */
  datatype Entry = Entry(time: int, key: string)

  function Parent(i: nat): (p: nat)
    ensures p <= i && (i > 0 ==> p < i)
  {
    if i == 0 then 0 else (i - 1) / 2
  }

  /** No entry is earlier than its parent (the root is its own parent). */
  ghost predicate Ordered(s: seq<Entry>) {
    forall i {:trigger Parent(i)} :: 0 <= i < |s| ==> s[Parent(i)].time <= s[i].time
  }

  function Swapped(s: seq<Entry>, i: nat, j: nat): (r: seq<Entry>)
    requires i < |s| && j < |s|
    ensures |r| == |s|
  {
    s[i := s[j]][j := s[i]]
  }

  // ---------- sift-up ----------

  /** The array after the entry in slot j has risen to its place. */
  function SiftUp(s: seq<Entry>, j: nat): (r: seq<Entry>)
    requires j < |s|
    ensures |r| == |s|
    decreases j
  {
    var i := Parent(j);
    if i == j || !(s[j].time < s[i].time) then s else SiftUp(Swapped(s, i, j), i)
  }

  lemma {:induction false} SiftUpKeepsEntries(s: seq<Entry>, j: nat)
    requires j < |s|
    ensures multiset(SiftUp(s, j)) == multiset(s)
    decreases j
  {
    var i := Parent(j);
    if i != j && s[j].time < s[i].time {
      SiftUpKeepsEntries(Swapped(s, i, j), i);
    }
  }

  /** Heap order everywhere, except that slot j may be earlier than its ancestors. */
  ghost predicate OrderedBelow(s: seq<Entry>, j: nat) {
    && (forall i {:trigger Parent(i)} :: 0 <= i < |s| && i != j ==> s[Parent(i)].time <= s[i].time)
    && (forall i {:trigger Parent(i)} ::
          0 <= i < |s| && Parent(i) == j && i != j && j < |s| ==> s[Parent(j)].time <= s[i].time)
  }

  lemma {:induction false} SiftUpOrders(s: seq<Entry>, j: nat)
    requires j < |s| && OrderedBelow(s, j)
    ensures Ordered(SiftUp(s, j))
    decreases j
  {
    var i := Parent(j);
    if i != j && s[j].time < s[i].time {
      SiftUpOrders(Swapped(s, i, j), i);
    }
  }

  function Pushed(s: seq<Entry>, e: Entry): (r: seq<Entry>)
    ensures |r| == |s| + 1
  {
    SiftUp(s + [e], |s|)
  }

  /** A push keeps heap order and adds exactly the pushed entry. */
  lemma PushKeepsOrder(s: seq<Entry>, e: Entry)
    requires Ordered(s)
    ensures Ordered(Pushed(s, e))
    ensures multiset(Pushed(s, e)) == multiset(s) + multiset{e}
  {
    var t := s + [e];
    assert OrderedBelow(t, |s|) by {
      forall i | 0 <= i < |t| && i != |s| ensures t[Parent(i)].time <= t[i].time {
        assert t[i] == s[i] && t[Parent(i)] == s[Parent(i)];
      }
    }
    SiftUpOrders(t, |s|);
    SiftUpKeepsEntries(t, |s|);
  }

  // ---------- sift-down ----------

  /** The child of i that sift-down compares with i, among the first n slots. */
  function EarlierChild(s: seq<Entry>, i: nat, n: nat): (j: nat)
    requires 2 * i + 1 < n <= |s|
    ensures i < j < n
  {
    var j1 := 2 * i + 1;
    if j1 + 1 < n && s[j1 + 1].time < s[j1].time then j1 + 1 else j1
  }

  lemma {:induction false} EarlierChildIsEarlier(s: seq<Entry>, i: nat, n: nat)
    requires 2 * i + 1 < n <= |s|
    ensures Parent(EarlierChild(s, i, n)) == i
    ensures forall k {:trigger Parent(k)} :: 0 < k < n && Parent(k) == i ==> s[EarlierChild(s, i, n)].time <= s[k].time
  {
    assert forall k {:trigger Parent(k)} :: 0 < k && Parent(k) == i ==> k == 2 * i + 1 || k == 2 * i + 2;
  }

  /** The array after the entry in slot i has sunk to its place among the first n slots. */
  function SiftDown(s: seq<Entry>, i: nat, n: nat): (r: seq<Entry>)
    requires n <= |s|
    ensures |r| == |s|
    decreases |s| - i
  {
    if 2 * i + 1 >= n then s
    else
      var j := EarlierChild(s, i, n);
      if !(s[j].time < s[i].time) then s else SiftDown(Swapped(s, i, j), j, n)
  }

  lemma {:induction false} SiftDownKeepsEntries(s: seq<Entry>, i: nat, n: nat)
    requires n <= |s|
    ensures multiset(SiftDown(s, i, n)) == multiset(s)
    ensures forall k :: n <= k < |s| ==> SiftDown(s, i, n)[k] == s[k]
    decreases |s| - i
  {
    if 2 * i + 1 < n {
      var j := EarlierChild(s, i, n);
      if s[j].time < s[i].time {
        SiftDownKeepsEntries(Swapped(s, i, j), j, n);
      }
    }
  }

  /** Only entries strictly earlier than the sinking one rise; all others stay where they were. */
  lemma {:induction false} OnlyEarlierRise(s: seq<Entry>, i: nat, n: nat, k: nat)
    requires i < n <= |s| && k < |s|
    ensures SiftDown(s, i, n)[k] in {s[k], s[i]} || SiftDown(s, i, n)[k].time < s[i].time
    decreases |s| - i
  {
    if 2 * i + 1 < n {
      var j := EarlierChild(s, i, n);
      if s[j].time < s[i].time {
        OnlyEarlierRise(Swapped(s, i, j), j, n, k);
      }
    }
  }

  lemma {:induction false} NothingAboveMoves(s: seq<Entry>, i: nat, n: nat, k: nat)
    requires n <= |s| && k < i && k < |s|
    ensures SiftDown(s, i, n)[k] == s[k]
    decreases |s| - i
  {
    if 2 * i + 1 < n {
      var j := EarlierChild(s, i, n);
      if s[j].time < s[i].time {
        NothingAboveMoves(Swapped(s, i, j), j, n, k);
      }
    }
  }

  /** The earlier child of a later entry rises, and of two equally early ones the left. */
  lemma {:induction false} EarlierChildRises(s: seq<Entry>, i: nat, n: nat)
    requires 2 * i + 2 < n <= |s|
    ensures var left, right := s[2 * i + 1], s[2 * i + 2];
            SiftDown(s, i, n)[i]
              == if s[i].time <= left.time && s[i].time <= right.time then s[i]
                 else if left.time <= right.time then left else right
  {
    var j := EarlierChild(s, i, n);
    if s[j].time < s[i].time {
      NothingAboveMoves(Swapped(s, i, j), j, n, i);
    }
  }

  /** Heap order among the first n slots, except that slot i may be later than its descendants. */
  ghost predicate OrderedAbove(s: seq<Entry>, i: nat, n: nat)
    requires n <= |s|
  {
    && (forall k {:trigger Parent(k)} :: 0 < k < n && Parent(k) != i ==> s[Parent(k)].time <= s[k].time)
    && (i > 0 ==> forall k {:trigger Parent(k)} :: 0 < k < n && Parent(k) == i ==> s[Parent(i)].time <= s[k].time)
  }

  lemma {:induction false} SwapKeepsOrderAbove(s: seq<Entry>, i: nat, j: nat, n: nat)
    requires n <= |s| && OrderedAbove(s, i, n) && 2 * i + 1 < n && j == EarlierChild(s, i, n) && s[j].time < s[i].time
    ensures OrderedAbove(Swapped(s, i, j), j, n)
  {
    var t := Swapped(s, i, j);
    EarlierChildIsEarlier(s, i, n);
    forall k | 0 < k < n && Parent(k) == j ensures t[Parent(j)].time <= t[k].time {
      assert k != i && k != j;
      assert s[Parent(k)].time <= s[k].time;
    }
  }

  lemma {:induction false} SiftDownOrders(s: seq<Entry>, i: nat, n: nat)
    requires n <= |s| && OrderedAbove(s, i, n)
    ensures Ordered(SiftDown(s, i, n)[..n])
    decreases |s| - i
  {
    if 2 * i + 1 < n {
      var j := EarlierChild(s, i, n);
      EarlierChildIsEarlier(s, i, n);
      if s[j].time < s[i].time {
        SwapKeepsOrderAbove(s, i, j, n);
        SiftDownOrders(Swapped(s, i, j), j, n);
      }
    }
  }

  function Popped(s: seq<Entry>): (r: seq<Entry>)
    requires s != []
    ensures |r| == |s| - 1
  {
    var n := |s| - 1;
    SiftDown(Swapped(s, 0, n), 0, n)[..n]
  }

  lemma {:induction false} RootIsEarliest(s: seq<Entry>, i: nat)
    requires Ordered(s) && i < |s|
    ensures s[0].time <= s[i].time
    decreases i
  {
    if i > 0 {
      RootIsEarliest(s, Parent(i));
    }
  }

  lemma PopKeepsOrder(s: seq<Entry>)
    requires Ordered(s) && s != []
    ensures Ordered(Popped(s))
  {
    SiftDownOrders(Swapped(s, 0, |s| - 1), 0, |s| - 1);
  }

  lemma PopTakesRoot(s: seq<Entry>)
    requires s != []
    ensures multiset(s) == multiset(Popped(s)) + multiset{s[0]}
    ensures forall e :: e in Popped(s) ==> e in s
  {
    var n := |s| - 1;
    var t := Swapped(s, 0, n);
    var u := SiftDown(t, 0, n);
    SiftDownKeepsEntries(t, 0, n);
    assert u == Popped(s) + [s[0]];
    assert multiset(s) == multiset(u) == multiset(Popped(s)) + multiset{s[0]};
    forall e | e in Popped(s) ensures e in s {
      assert e in multiset(Popped(s)) && e in multiset(s);
    }
  }

  /** A pop takes away the root, which is an earliest entry, and keeps heap order. */
  lemma PopTakesEarliest(s: seq<Entry>)
    requires Ordered(s) && s != []
    ensures Ordered(Popped(s))
    ensures multiset(s) == multiset(Popped(s)) + multiset{s[0]}
    ensures forall e :: e in s ==> s[0].time <= e.time
    ensures forall e :: e in Popped(s) ==> e in s
  {
    PopKeepsOrder(s);
    PopTakesRoot(s);
    forall e | e in s ensures s[0].time <= e.time {
      var i :| 0 <= i < |s| && s[i] == e;
      RootIsEarliest(s, i);
    }
  }

  // ---------- extraction in order ----------

  ghost predicate Ascending(s: seq<Entry>) {
    forall i, j :: 0 <= i <= j < |s| ==> s[i].time <= s[j].time
  }

  /** Part of the entries has come out in ascending order, before anything still in the heap. */
  ghost predicate Extracting(all: multiset<Entry>, out: seq<Entry>, rest: seq<Entry>) {
    && Ordered(rest) && Ascending(out)
    && all == multiset(out) + multiset(rest)
    && forall d, e :: d in out && e in rest ==> d.time <= e.time
  }

  lemma ExtractNext(all: multiset<Entry>, out: seq<Entry>, rest: seq<Entry>)
    requires Extracting(all, out, rest) && rest != []
    ensures Extracting(all, out + [rest[0]], Popped(rest))
  {
    PopTakesEarliest(rest);
    var next := out + [rest[0]];
    assert rest[0] in rest;
    assert multiset(next) == multiset(out) + multiset{rest[0]};
    assert all == multiset(next) + multiset(Popped(rest));
    forall d, e | d in next && e in Popped(rest) ensures d.time <= e.time {
      assert e in rest;
    }
    forall i, j | 0 <= i <= j < |next| ensures next[i].time <= next[j].time {
      if j < |out| {
        assert out[i].time <= out[j].time;
      } else if i < |out| {
        assert out[i] in out;
      }
    }
  }

  // ---------- the drain ----------

  /** What is left of the heap array once the drain with this cutoff has stopped. */
  function Remaining(s: seq<Entry>, cutoff: int): (r: seq<Entry>)
    ensures r <= s
  {
    if s == [] || s[|s| - 1].time > cutoff then s else Remaining(s[..|s| - 1], cutoff)
  }

  /** The entries the drain with this cutoff takes out, in array order. */
  function Expired(s: seq<Entry>, cutoff: int): (r: seq<Entry>) {
    s[|Remaining(s, cutoff)|..]
  }

  /** The drain takes a suffix of the array, all of it at or before the cutoff, and stops at a later entry. */
  lemma {:induction false} DrainTakesSuffix(s: seq<Entry>, cutoff: int)
    ensures s == Remaining(s, cutoff) + Expired(s, cutoff)
    ensures forall e :: e in Expired(s, cutoff) ==> e.time <= cutoff
    ensures Remaining(s, cutoff) != [] ==> Remaining(s, cutoff)[|Remaining(s, cutoff)| - 1].time > cutoff
  {
    if s != [] && s[|s| - 1].time <= cutoff {
      var n := |s| - 1;
      DrainTakesSuffix(s[..n], cutoff);
      assert Expired(s, cutoff) == Expired(s[..n], cutoff) + [s[n]];
    }
  }

  /** That suffix is the longest one: slot m is drained just when no slot from m on is later than the cutoff. */
  lemma {:induction false} DrainIsMaximal(s: seq<Entry>, cutoff: int, m: nat)
    requires m <= |s|
    ensures m >= |Remaining(s, cutoff)| <==> forall i :: m <= i < |s| ==> s[i].time <= cutoff
  {
    DrainTakesSuffix(s, cutoff);
    var n := |Remaining(s, cutoff)|;
    if m >= n {
      forall i | m <= i < |s| ensures s[i].time <= cutoff {
        assert s[i] == Expired(s, cutoff)[i - n];
      }
    } else {
      assert s[n - 1].time > cutoff;
    }
  }

  lemma {:induction false} PrefixKeepsOrder(s: seq<Entry>, n: nat)
    requires Ordered(s) && n <= |s|
    ensures Ordered(s[..n])
  {
    forall i | 0 <= i < n ensures s[..n][Parent(i)].time <= s[..n][i].time {
      assert s[Parent(i)].time <= s[i].time;
    }
  }

  /** Heap order survives the drain. */
  lemma {:induction false} DrainKeepsOrder(s: seq<Entry>, cutoff: int)
    requires Ordered(s)
    ensures Ordered(Remaining(s, cutoff))
  {
    assert Remaining(s, cutoff) == s[..|Remaining(s, cutoff)|];
    PrefixKeepsOrder(s, |Remaining(s, cutoff)|);
  }

  /** A root later than the cutoff shields the whole heap. */
  lemma LateRootStopsDrain(s: seq<Entry>, cutoff: int)
    requires Ordered(s) && s != [] && s[0].time > cutoff
    ensures Remaining(s, cutoff) == s
  {
    RootIsEarliest(s, |s| - 1);
  }

  /** The drain empties the heap exactly when no entry is later than the cutoff. */
  lemma {:induction false} DrainEmptiesIff(s: seq<Entry>, cutoff: int)
    ensures Remaining(s, cutoff) == [] <==> forall e :: e in s ==> e.time <= cutoff
  {
    DrainIsMaximal(s, cutoff, 0);
    assert forall i :: 0 <= i < |s| ==> s[i] in s;
  }

  /**
   The drain is documented to take out every entry that is not later than the cutoff.
   Looking at the last slot, it does so exactly when the root is later than the cutoff
   (there is nothing to take) or no entry is.
   */
  lemma {:induction false} DrainMeetsDocumentationIff(s: seq<Entry>, cutoff: int)
    requires Ordered(s)
    ensures (forall e :: e in Remaining(s, cutoff) ==> e.time > cutoff)
      <==> (s == [] || s[0].time > cutoff || forall e :: e in s ==> e.time <= cutoff)
  {
    DrainEmptiesIff(s, cutoff);
    var r := Remaining(s, cutoff);
    if s != [] && s[0].time > cutoff {
      LateRootStopsDrain(s, cutoff);
      PopTakesEarliest(s);
    } else if r != [] {
      assert r[0] == s[0] && r[0] in r;
    }
  }

  /** An expired entry that outlives the drain because a later one sits behind it. */
  lemma {:induction false} DrainLeavesExpiredEntry()
    ensures var s := Pushed(Pushed([], Entry(10, "early")), Entry(20, "late"));
            Ordered(s) && Remaining(s, 10) == s && Entry(10, "early") in Remaining(s, 10)
  {
    var a, b := Entry(10, "early"), Entry(20, "late");
    assert Pushed([], a) == [a] by { assert [] + [a] == [a]; }
    assert [a] + [b] == [a, b];
    assert Pushed([a], b) == [a, b];
  }

  lemma DrainStep(s: seq<Entry>, n: nat, cutoff: int)
    requires 0 < n <= |s| && s[n - 1].time <= cutoff
    ensures Remaining(s[..n], cutoff) == Remaining(s[..n - 1], cutoff)
    ensures [s[n - 1]] + s[n..] == s[n - 1..]
  {
    assert s[..n][..n - 1] == s[..n - 1];
  }

  /** Draining twice is draining once with the later cutoff. */
  lemma {:induction false} DrainTwice(s: seq<Entry>, c: int, d: int)
    requires c <= d
    ensures Remaining(Remaining(s, c), d) == Remaining(s, d)
  {
    if s != [] && s[|s| - 1].time <= c {
      DrainTwice(s[..|s| - 1], c, d);
    }
  }

  /** A shorter array leaves no more to keep. */
  lemma DrainOfPrefix(s: seq<Entry>, rest: seq<Entry>, c: int)
    requires rest <= s
    ensures |Remaining(rest, c)| <= |Remaining(s, c)|
  {
    var m := |Remaining(s, c)|;
    DrainIsMaximal(s, c, m);
    if m < |rest| {
      DrainIsMaximal(rest, c, m);
    }
  }

  /** What each of two drains leaves something of, they leave something of together. */
  lemma DrainsLeave(s: seq<Entry>, c: int, d: int)
    requires Remaining(s, c) != [] && Remaining(s, d) != []
    ensures Remaining(Remaining(s, c), d) != []
  {
    if c <= d {
      DrainTwice(s, c, d);
    } else {
      DrainTakesSuffix(s, c);
    }
  }

  lemma {:induction false} PushedHas(s: seq<Entry>, e: Entry)
    ensures forall x :: x in Pushed(s, e) <==> x in s || x == e
  {
    var t := s + [e];
    SiftUpKeepsEntries(t, |s|);
    forall x ensures x in Pushed(s, e) <==> x in s || x == e {
      assert x in Pushed(s, e) <==> x in multiset(Pushed(s, e));
      assert x in t <==> x in multiset(t);
    }
  }
}
