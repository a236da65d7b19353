/**
 Where the entries of the heap array go when another one is pushed: nothing ever moves
 towards the root except the new entry, and an entry sinks only below an earlier one.
 */
module HeapMoves {
  import opened HeapOrder

  lemma {:induction false} BehindUntouched(s: seq<Entry>, j: nat, k: nat)
    requires j < k < |s|
    ensures SiftUp(s, j)[k] == s[k]
    decreases j
  {
    var i := Parent(j);
    if i != j && s[j].time < s[i].time {
      BehindUntouched(Swapped(s, i, j), i, k);
    }
  }

  /** After a push the last slot is no earlier than what was pushed. */
  lemma PushedLast(s: seq<Entry>, e: Entry)
    ensures Pushed(s, e)[|s|].time >= e.time
  {
    var t, n := s + [e], |s|;
    var i := Parent(n);
    if i != n && t[n].time < t[i].time {
      BehindUntouched(Swapped(t, i, n), i, n);
    }
  }

  /** An entry no later than the rising one stays where it is. */
  lemma {:induction false} EarlierStays(s: seq<Entry>, j: nat, p: nat)
    requires j < |s| && p < |s| && p != j && s[p].time <= s[j].time
    ensures SiftUp(s, j)[p] == s[p]
    decreases j
  {
    var i := Parent(j);
    if i != j && s[j].time < s[i].time {
      EarlierStays(Swapped(s, i, j), i, p);
    }
  }

  /** Every other entry stays or moves to a later slot. */
  lemma {:induction false} MovesLater(s: seq<Entry>, j: nat, q: nat) returns (q': nat)
    requires j < |s| && q < |s| && q != j
    ensures q <= q' < |s| && SiftUp(s, j)[q'] == s[q]
    decreases j
  {
    var i := Parent(j);
    q' := q;
    if i != j && s[j].time < s[i].time {
      if q == i {
        BehindUntouched(Swapped(s, i, j), i, j);
        q' := j;
      } else {
        q' := MovesLater(Swapped(s, i, j), i, q);
      }
    }
  }

  /** After a push a slot has what it had, or the new entry, or what its parent had, if that was later. */
  lemma {:induction false} SlotSource(s: seq<Entry>, j: nat, k: nat)
    requires j < |s| && k < |s|
    ensures SiftUp(s, j)[k] == s[k] || SiftUp(s, j)[k] == s[j]
      || (SiftUp(s, j)[k] == s[Parent(k)] && s[j].time < s[Parent(k)].time)
    decreases j
  {
    var i := Parent(j);
    if i != j && s[j].time < s[i].time {
      var t := Swapped(s, i, j);
      if k > i {
        BehindUntouched(t, i, k);
      } else {
        SlotSource(t, i, k);
      }
    }
  }

  // ---------- sinking an entry ----------

  /** The slot g levels above j. */
  function Up(j: nat, g: nat): (r: nat)
    ensures r <= j
  {
    if g == 0 then j else Up(Parent(j), g - 1)
  }

  lemma {:induction false} AncestorsEarlier(s: seq<Entry>, j: nat, i: nat, g: nat)
    requires i < j < |s| && OrderedBelow(s, j)
    ensures s[Up(i, g)].time <= s[i].time
    decreases g
  {
    if g > 0 {
      AncestorsEarlier(s, j, Parent(i), g - 1);
    }
  }

  lemma RisingKeepsOrderBelow(s: seq<Entry>, j: nat)
    requires 0 < j < |s| && OrderedBelow(s, j) && s[j].time < s[Parent(j)].time
    ensures OrderedBelow(Swapped(s, Parent(j), j), Parent(j))
  {
  }

  /** A push that rises past an ancestor sinks it by one slot, towards where the push began. */
  lemma {:induction false} AncestorSinks(s: seq<Entry>, j: nat, g: nat)
    requires j < |s| && OrderedBelow(s, j)
    requires g > 0 && Up(j, g) < Up(j, g - 1) && s[j].time < s[Up(j, g)].time
    ensures SiftUp(s, j)[Up(j, g - 1)] == s[Up(j, g)]
    decreases g
  {
    var i, p := Parent(j), Up(j, g);
    assert i < j;
    AncestorsEarlier(s, j, i, g - 1);
    var t := Swapped(s, i, j);
    if g == 1 {
      BehindUntouched(t, i, j);
    } else {
      RisingKeepsOrderBelow(s, j);
      assert Up(i, g - 1) == p && Up(i, g - 2) == Up(j, g - 1);
      AncestorSinks(t, i, g - 1);
    }
  }

  /** Counting slots from one: the leftmost slot g levels below slot p. */
  function Leftmost(p: nat, g: nat): (r: nat)
    ensures r >= p && (p > 0 ==> r >= p + g)
  {
    if g == 0 then p else 2 * Leftmost(p, g - 1)
  }

  lemma FourTimes(p: nat, g: nat)
    requires g > 2
    ensures Leftmost(4 * p, g - 1) == 2 * Leftmost(p, g)
  {
    LeftmostOfLeft(2 * p, g - 1);
    LeftmostOfLeft(p, g);
  }

  lemma {:induction false} LeftmostOfLeft(p: nat, g: nat)
    ensures Leftmost(2 * p, g) == Leftmost(p, g + 1)
  {
    if g > 0 {
      LeftmostOfLeft(p, g - 1);
    }
  }

  lemma ParentOfPair(m: nat)
    requires m > 0
    ensures Parent(2 * m - 1) == m - 1 == Parent(2 * m)
  {
  }

  /** The leftmost slot below p and, one level down at least, its right neighbour are below p. */
  lemma {:induction false} LeftmostIsBelow(p: nat, g: nat)
    requires p > 0
    ensures Up(Leftmost(p, g) - 1, g) == p - 1
    ensures g > 0 ==> Up(Leftmost(p, g), g) == p - 1
  {
    if g > 0 {
      LeftmostIsBelow(p, g - 1);
      ParentOfPair(Leftmost(p, g - 1));
    }
  }

  /** Seen from the left child, the leftmost slot is one level nearer. */
  lemma WayThroughChild(p: nat, g: nat)
    requires p > 0 && g > 0
    ensures Up(Leftmost(p, g) - 1, g - 1) == 2 * p - 1
    ensures g > 1 ==> Up(Leftmost(p, g), g - 1) == 2 * p - 1
  {
    LeftmostOfLeft(p, g - 1);
    LeftmostIsBelow(2 * p, g - 1);
  }

  /** The slots on the way up from the leftmost slot below p, the last of them a child of p. */
  lemma WayUp(p: nat, g: nat, n: nat)
    requires g > 0 && n + 1 == Leftmost(p + 1, g)
    ensures Up(n, g) == p && Up(n, g - 1) == 2 * p + 1 <= n
  {
    LeftmostIsBelow(p + 1, g);
    WayThroughChild(p + 1, g);
  }

  lemma WayUpBeside(p: nat, g: nat, n: nat)
    requires g > 0 && n == Leftmost(p + 1, g)
    ensures Up(n, g) == p < n
    ensures g > 1 ==> Up(n, g - 1) == 2 * p + 1 <= n
  {
    LeftmostIsBelow(p + 1, g);
    WayThroughChild(p + 1, g);
  }

  lemma PushSinks(s: seq<Entry>, p: nat, g: nat, e: Entry)
    requires Ordered(s) && p < |s| && g > 0 && Up(|s|, g) == p < Up(|s|, g - 1) && e.time < s[p].time
    ensures Pushed(s, e)[Up(|s|, g - 1)] == s[p]
  {
    var t := s + [e];
    AppendedOrderedBelow(s, e);
    assert t[p] == s[p] && t[|s|] == e;
    AncestorSinks(t, |s|, g);
  }

  /** An earlier entry pushed at the leftmost slot below p sinks the entry of p to its left child. */
  lemma SinksLeft(s: seq<Entry>, p: nat, g: nat, e: Entry)
    requires Ordered(s) && p < |s| && g > 0 && |s| + 1 == Leftmost(p + 1, g) && e.time < s[p].time
    ensures 2 * p + 1 <= |s| && Pushed(s, e)[2 * p + 1] == s[p]
  {
    WayUp(p, g, |s|);
    PushSinks(s, p, g, e);
  }

  /** The next one does the same from there, or, one level above the end, sinks it into the last slot. */
  lemma SinksAgain(s: seq<Entry>, p: nat, g: nat, e: Entry)
    requires Ordered(s) && p < |s| && g > 0 && |s| == Leftmost(p + 1, g) && e.time < s[p].time
    ensures g == 1 ==> Pushed(s, e)[|s|] == s[p]
    ensures g > 1 ==> 2 * p + 1 <= |s| && Pushed(s, e)[2 * p + 1] == s[p]
  {
    WayUpBeside(p, g, |s|);
    PushSinks(s, p, g, e);
  }

  /** Two pushes of an earlier entry sink the entry of p by two levels, or to the end if there are no more. */
  lemma SinksTwice(s: seq<Entry>, p: nat, g: nat, e: Entry)
    requires Ordered(s) && p < |s| && g > 1 && |s| + 1 == Leftmost(p + 1, g) && e.time < s[p].time
    ensures g == 2 ==> Pushed(Pushed(s, e), e)[|s| + 1] == s[p]
    ensures g > 2 ==> 4 * p + 3 <= |s| + 1 && Pushed(Pushed(s, e), e)[4 * p + 3] == s[p]
  {
    SinksLeft(s, p, g, e);
    PushKeepsOrder(s, e);
    LeftmostOfLeft(p + 1, g - 1);
    SinksAgain(Pushed(s, e), 2 * p + 1, g - 1, e);
  }

  lemma AppendedOrderedBelow(s: seq<Entry>, e: Entry)
    requires Ordered(s)
    ensures OrderedBelow(s + [e], |s|)
  {
    var t := s + [e];
    forall i | 0 <= i < |t| && i != |s| ensures t[Parent(i)].time <= t[i].time {
      assert t[i] == s[i] && t[Parent(i)] == s[Parent(i)];
    }
  }

  // ---------- sinking an entry to the end ----------

  function PushAll(s: seq<Entry>, es: seq<Entry>): (r: seq<Entry>)
    ensures |r| == |s| + |es|
    decreases es
  {
    if es == [] then s else PushAll(Pushed(s, es[0]), es[1..])
  }

  lemma {:induction false} PushAllAppend(s: seq<Entry>, a: seq<Entry>, b: seq<Entry>)
    ensures PushAll(s, a + b) == PushAll(PushAll(s, a), b)
    decreases a
  {
    if a == [] {
      assert a + b == b;
    } else {
      assert (a + b)[1..] == a[1..] + b;
      PushAllAppend(Pushed(s, a[0]), a[1..], b);
    }
  }

  lemma {:induction false} PushAllKeepsOrder(s: seq<Entry>, es: seq<Entry>)
    requires Ordered(s)
    ensures Ordered(PushAll(s, es))
    decreases es
  {
    if es != [] {
      PushKeepsOrder(s, es[0]);
      PushAllKeepsOrder(Pushed(s, es[0]), es[1..]);
    }
  }

  lemma PushTwo(s: seq<Entry>, e: Entry)
    ensures PushAll(s, [e, e]) == Pushed(Pushed(s, e), e) && PushAll(s, [e]) == Pushed(s, e)
  {
    assert [e, e][1..] == [e];
    assert PushAll(Pushed(s, e), [e]) == PushAll(Pushed(Pushed(s, e), e), []);
  }

  /** Entries no earlier than the one in slot p fill the array without moving it. */
  lemma {:induction false} FillTo(s: seq<Entry>, p: nat, f: Entry, size: nat) returns (es: seq<Entry>)
    requires p < |s| <= size && s[p].time <= f.time
    ensures forall x :: x in es ==> x == f
    ensures |PushAll(s, es)| == size && PushAll(s, es)[p] == s[p]
    decreases size - |s|
  {
    es := [];
    if |s| < size {
      EarlierStays(s + [f], |s|, p);
      var rest := FillTo(Pushed(s, f), p, f, size);
      es := [f] + rest;
      assert es[1..] == rest;
    }
  }

  /** Two levels towards the end. */
  lemma SinkTwoLevels(s: seq<Entry>, p: nat, g: nat, e: Entry)
    requires Ordered(s) && p < |s| && g > 2 && |s| + 1 == Leftmost(p + 1, g) && e.time < s[p].time
    ensures 4 * p + 3 < |PushAll(s, [e, e])| && PushAll(s, [e, e])[4 * p + 3] == s[p]
    ensures |PushAll(s, [e, e])| <= Leftmost(4 * p + 4, g - 1) - 1
  {
    SinksTwice(s, p, g, e);
    PushTwo(s, e);
    FourTimes(p + 1, g);
  }

  /** One round on the way down: two levels towards the end, and up to the next leftmost slot. */
  lemma SinkRound(s: seq<Entry>, p: nat, g: nat, e: Entry, f: Entry) returns (es: seq<Entry>)
    requires Ordered(s) && p < |s| && g > 2 && |s| + 1 == Leftmost(p + 1, g) && e.time < s[p].time <= f.time
    ensures forall x :: x in es ==> x == e || x == f
    ensures var r := PushAll(s, es);
            4 * p + 3 < |r| && r[4 * p + 3] == s[p] && |r| + 1 == Leftmost(4 * p + 4, g - 1) && Ordered(r)
  {
    SinkTwoLevels(s, p, g, e);
    var rest := FillTo(PushAll(s, [e, e]), 4 * p + 3, f, Leftmost(4 * p + 4, g - 1) - 1);
    PushAllAppend(s, [e, e], rest);
    es := [e, e] + rest;
    PushAllKeepsOrder(s, es);
  }

  /** One or two levels above the end, as many pushes do it. */
  lemma SinkLast(s: seq<Entry>, p: nat, g: nat, e: Entry) returns (es: seq<Entry>)
    requires Ordered(s) && p < |s| && 1 <= g <= 2 && |s| + 1 == Leftmost(p + 1, g) && e.time < s[p].time
    ensures forall x :: x in es ==> x == e
    ensures |es| > 0 && PushAll(s, es)[|s| + |es| - 1] == s[p]
  {
    PushTwo(s, e);
    if g == 1 {
      SinksLeft(s, p, g, e);
      es := [e];
    } else {
      SinksTwice(s, p, g, e);
      es := [e, e];
    }
  }

  lemma {:induction false} SinkFrom(s: seq<Entry>, p: nat, g: nat, e: Entry, f: Entry) returns (es: seq<Entry>)
    requires Ordered(s) && p < |s| && g > 0 && |s| + 1 == Leftmost(p + 1, g) && e.time < s[p].time <= f.time
    ensures forall x :: x in es ==> x == e || x == f
    ensures PushAll(s, es)[|s| + |es| - 1] == s[p]
    decreases g
  {
    if g <= 2 {
      es := SinkLast(s, p, g, e);
    } else {
      var first := SinkRound(s, p, g, e, f);
      var rest := SinkFrom(PushAll(s, first), 4 * p + 3, g - 1, e, f);
      PushAllAppend(s, first, rest);
      es := first + rest;
    }
  }

  /** Earlier entries, and fillers, can be pushed so that the entry of any slot ends up last. */
  lemma SinkToEnd(s: seq<Entry>, p: nat, e: Entry, f: Entry) returns (es: seq<Entry>)
    requires Ordered(s) && p < |s| && e.time < s[p].time <= f.time
    ensures forall x :: x in es ==> x == e || x == f
    ensures var r := PushAll(s, es); r != [] && r[|r| - 1] == s[p]
  {
    var g := |s| + 1;
    var first := FillTo(s, p, f, Leftmost(p + 1, g) - 1);
    PushAllKeepsOrder(s, first);
    var rest := SinkFrom(PushAll(s, first), p, g, e, f);
    PushAllAppend(s, first, rest);
    es := first + rest;
  }
}
