/**
 The consistent-hashing ring: a fixed number of partitions, dealt out to the elements
 in turn. Dealing again after a change moves most partitions; which ones is exact here.
 */
module Rings {

  const UINT32: int := 0x1_0000_0000

  type uint32 = x: int | 0 <= x < UINT32

  /** Partition ii belongs to the element at this index. */
  function Partition(size: nat, n: nat): (p: seq<int>)
    requires n > 0
    ensures |p| == size && forall ii :: 0 <= ii < size ==> p[ii] == ii % n
  {
    seq(size, ii requires 0 <= ii < size => ii % n)
  }

  /** Where a value first occurs, or the length if it does not. */
  function First(s: seq<int>, v: int): (i: nat)
    ensures i <= |s| && (forall k :: 0 <= k < i ==> s[k] != v) && (i < |s| ==> s[i] == v)
  {
    if s == [] || s[0] == v then 0 else 1 + First(s[1..], v)
  }

  /** The elements without the first occurrence of a value. */
  function Without(elements: seq<int>, v: int): seq<int> {
    var i := First(elements, v);
    if i < |elements| then elements[..i] + elements[i + 1..] else elements
  }

  /** The element in charge of a hash. */
  function Owner(elements: seq<int>, ratio: nat, h: uint32): int
    requires elements != [] && ratio > 0
  {
    elements[(h % ratio) % |elements|]
  }

  class Ring {
    const ratio: nat
    const virtual: array<int>
    var elements: seq<int>

    ghost predicate Valid()
      reads this, virtual
    {
      && virtual.Length > 0 && ratio == virtual.Length % UINT32
      && (elements != [] ==> virtual[..] == Partition(virtual.Length, |elements|))
    }

    /** The ratio is kept as an unsigned 32-bit number, the partitions are not. */
    constructor (partitions: nat)
      requires partitions > 0
      ensures Valid() && elements == [] && virtual.Length == partitions && fresh(virtual)
    {
      ratio := partitions % UINT32;
      virtual := new int[partitions](_ => 0);
      elements := [];
    }

    method Repartition()
      requires elements != []
      modifies virtual
      ensures virtual[..] == Partition(virtual.Length, |elements|)
    {
      var num := |elements|;
      for ii := 0 to virtual.Length
        invariant forall k :: 0 <= k < ii ==> virtual[k] == k % num
      {
        virtual[ii] := ii % num;
      }
    }

    method Insert(v: int)
      requires Valid()
      modifies this, virtual
      ensures Valid() && elements == old(elements) + [v]
    {
      elements := elements + [v];
      Repartition();
    }

    /** Removing the last element would divide by zero. */
    method Remove(v: int)
      requires Valid() && Without(elements, v) != []
      modifies this, virtual
      ensures Valid() && elements == Without(old(elements), v)
    {
      var ii := 0;
      while ii < |elements|
        invariant 0 <= ii <= |elements| && elements == old(elements)
        invariant forall k :: 0 <= k < ii ==> elements[k] != v
      {
        if elements[ii] != v {
          ii := ii + 1;
          continue;
        }
        elements := elements[..ii] + elements[ii + 1..];
        break;
      }
      assert ii == First(old(elements), v);
      Repartition();
    }

    /** Looks up the partition of a hash, and there the element: always in range, and fixed by the elements alone. */
    method Find(h: uint32) returns (v: int)
      requires Valid() && elements != [] && ratio > 0
      ensures 0 <= h % ratio < virtual.Length && 0 <= virtual[h % ratio] < |elements|
      ensures v == elements[virtual[h % ratio]]
      ensures v == Owner(elements, ratio, h)
    {
      var index := h % ratio;
      var element := virtual[index];
      assert virtual[..][index] == index % |elements|;
      v := elements[element];
    }
  }

  // ---------- balance ----------

  lemma DivModSuccessor(r: nat, n: nat)
    requires n > 0
    ensures if r % n + 1 < n then (r + 1) / n == r / n && (r + 1) % n == r % n + 1
            else (r + 1) / n == r / n + 1 && (r + 1) % n == 0
  {
    var q, m := r / n, r % n;
    assert r == n * q + m;
    if m + 1 < n {
      DivModUnique(r + 1, n, q, m + 1);
    } else {
      assert n * (q + 1) == n * q + n;
      DivModUnique(r + 1, n, q + 1, 0);
    }
  }

  lemma DivModUnique(r: int, n: nat, q: int, m: nat)
    requires m < n && r == n * q + m
    ensures r / n == q && r % n == m
  {
    var d := r / n - q;
    assert n * (r / n) + r % n == r;
    assert n * d == n * (r / n) - n * q;
    SmallMultiple(n, d);
  }

  lemma {:induction false} MulAtLeast(n: nat, d: nat)
    requires d >= 1
    ensures n * d >= n
  {
    if d > 1 {
      MulAtLeast(n, d - 1);
      assert n * d == n * (d - 1) + n;
    }
  }

  /** A multiple of n strictly between -n and n is zero. */
  lemma SmallMultiple(n: nat, d: int)
    requires n * d < n && n * d + n > 0
    ensures d == 0
  {
    if d >= 1 {
      MulAtLeast(n, d);
    } else if d <= -1 {
      assert n * d == -(n * -d);
      MulAtLeast(n, -d);
    }
  }

  /** Every element gets its equal share of the partitions, the first few one more. */
  lemma {:induction false} Balance(size: nat, n: nat, j: nat)
    requires j < n
    ensures multiset(Partition(size, n))[j] == size / n + if j < size % n then 1 else 0
  {
    if size == 0 {
      DivModUnique(0, n, 0, 0);
      assert Partition(0, n) == [];
    } else {
      Balance(size - 1, n, j);
      DivModSuccessor(size - 1, n);
      assert Partition(size, n) == Partition(size - 1, n) + [(size - 1) % n];
    }
  }

  /** Whatever insertions and removals came before, the partitions of a ring in use are dealt out evenly. */
  lemma {:induction false} SharesAreEqual(r: Ring, j: nat)
    requires r.Valid() && j < |r.elements|
    ensures var partitions, n := r.virtual.Length, |r.elements|;
            multiset(r.virtual[..])[j] == partitions / n + if j < partitions % n then 1 else 0
  {
    Balance(r.virtual.Length, |r.elements|, j);
  }

  // ---------- what is found ----------

  /** The owner of a hash is the element that the array of partitions has for it. */
  lemma {:induction false} OwnerIsInPartition(r: Ring, h: uint32)
    requires r.Valid() && r.elements != [] && r.ratio > 0
    ensures 0 <= h % r.ratio < r.virtual.Length && 0 <= r.virtual[h % r.ratio] < |r.elements|
    ensures Owner(r.elements, r.ratio, h) == r.elements[r.virtual[h % r.ratio]]
  {
    assert r.virtual[..][h % r.ratio] == h % r.ratio % |r.elements|;
  }

  /** Hashes of one partition have one owner, whatever the elements are. */
  lemma {:induction false} OnePartitionOneOwner(r: Ring, h: uint32, g: uint32)
    requires r.Valid() && r.elements != [] && r.ratio > 0 && h % r.ratio == g % r.ratio
    ensures Owner(r.elements, r.ratio, h) == Owner(r.elements, r.ratio, g)
  {
    OwnerIsInPartition(r, h);
    OwnerIsInPartition(r, g);
  }

  /** The owners of the first so many hashes. */
  function Owners(elements: seq<int>, ratio: nat, count: nat): (s: seq<int>)
    requires elements != [] && count <= ratio < UINT32
    ensures |s| == count && forall h :: 0 <= h < count ==> s[h] == Owner(elements, ratio, h)
  {
    seq(count, h requires 0 <= h < count => Owner(elements, ratio, h))
  }

  lemma SmallHashOwner(elements: seq<int>, ratio: nat, h: uint32)
    requires elements != [] && h < ratio
    ensures Owner(elements, ratio, h) == elements[h % |elements|]
  {
    DivModUnique(h, ratio, 0, h);
  }

  /** Out of one hash for each partition, every element owns its equal share, the first few one more. */
  lemma {:induction false} OwnersAreBalanced(elements: seq<int>, ratio: nat, count: nat, j: nat)
    requires j < |elements| && count <= ratio < UINT32
    requires forall a, b :: 0 <= a < b < |elements| ==> elements[a] != elements[b]
    ensures multiset(Owners(elements, ratio, count))[elements[j]]
      == count / |elements| + if j < count % |elements| then 1 else 0
  {
    var n := |elements|;
    if count == 0 {
      DivModUnique(0, n, 0, 0);
      assert Owners(elements, ratio, 0) == [];
    } else {
      OwnersAreBalanced(elements, ratio, count - 1, j);
      DivModSuccessor(count - 1, n);
      SmallHashOwner(elements, ratio, count - 1);
      var last := elements[(count - 1) % n];
      assert Owners(elements, ratio, count) == Owners(elements, ratio, count - 1) + [last];
      assert last == elements[j] <==> (count - 1) % n == j;
    }
  }

  // ---------- what an insertion moves ----------

  lemma ModOfMultiple(n: nat, k: int, m: nat)
    requires n > 0
    ensures (n * k + m) % n == m % n
  {
    assert m == n * (m / n) + m % n;
    assert n * k + m == n * (k + m / n) + m % n;
    DivModUnique(n * k + m, n, k + m / n, m % n);
  }

  /** Neighbouring numbers have no common factor: below their product equal remainders mean a small number. */
  lemma SameRemainders(n: nat, m: nat)
    requires n > 0 && m < n * (n + 1) && m % n == m % (n + 1)
    ensures m < n
  {
    Quotient(m, n);
    Quotient(m, n + 1);
    NoCommonMultiple(n, m / n, m / (n + 1), m % n, m);
  }

  lemma Quotient(m: nat, n: nat)
    requires n > 0
    ensures m == n * (m / n) + m % n && m / n >= 0
  {
  }

  lemma NoCommonMultiple(n: nat, a: nat, b: nat, r: nat, m: nat)
    requires m == n * a + r && m == (n + 1) * b + r && r < n && m < n * (n + 1)
    ensures m == r
  {
    QuotientBelow(n, m, b);
    assert n * (a - b) == n * a - n * b;
    assert (n + 1) * b == n * b + b;
    SmallMultiple(n, a - b);
    assert b == 0;
  }

  lemma QuotientBelow(n: nat, m: nat, b: nat)
    requires (n + 1) * b <= m < n * (n + 1)
    ensures b < n
  {
    if b > n {
      assert (n + 1) * b == (n + 1) * n + (n + 1) * (b - n);
      MulAtLeast(n + 1, b - n);
    }
  }

  lemma SplitProduct(a: nat, b: nat, q: int, x: int)
    requires a * b > 0 && q == x / (a * b)
    ensures x == a * (b * q) + x % (a * b)
  {
    assert a * (b * q) == (a * b) * q;
    assert x == (a * b) * (x / (a * b)) + x % (a * b);
  }

  /** A remainder can be taken in two steps. */
  lemma RemainderInSteps(a: nat, b: nat, x: nat)
    requires a > 0 && a * b > 0
    ensures x % a == x % (a * b) % a
  {
    SplitProduct(a, b, x / (a * b), x);
    ModOfMultiple(a, b * (x / (a * b)), x % (a * b));
  }

  lemma SmallRemaindersIff(n: nat, m: nat)
    requires n > 0 && m < n * (n + 1)
    ensures m % n == m % (n + 1) <==> m < n
  {
    if m < n {
      DivModUnique(m, n, 0, m);
      DivModUnique(m, n + 1, 0, m);
    } else if m % n == m % (n + 1) {
      SameRemainders(n, m);
    }
  }

  lemma ProductIsPositive(n: nat)
    requires n > 0
    ensures n * (n + 1) > 0 && n * (n + 1) == (n + 1) * n
  {
    assert n * (n + 1) == n * n + n;
  }

  /** A partition keeps its owner index through an insertion exactly in the first n of every n(n+1). */
  lemma KeepsOwnerIff(n: nat, ii: nat)
    requires n > 0
    ensures n * (n + 1) > 0
    ensures ii % n == ii % (n + 1) <==> ii % (n * (n + 1)) < n
  {
    ProductIsPositive(n);
    RemainderInSteps(n, n + 1, ii);
    RemainderInSteps(n + 1, n, ii);
    SmallRemaindersIff(n, ii % (n * (n + 1)));
  }

  /** The same, seen on the two layouts of the partitions. */
  lemma {:induction false} InsertMoves(size: nat, n: nat, ii: nat)
    requires n > 0 && ii < size
    ensures Partition(size, n)[ii] == Partition(size, n + 1)[ii] <==> ii % (n * (n + 1)) < n
  {
    KeepsOwnerIff(n, ii);
  }

  // ---------- insert and remove ----------

  lemma FirstIs(s: seq<int>, v: int, i: nat)
    requires i < |s| && v !in s[..i] && s[i] == v
    ensures First(s, v) == i && Without(s, v) == s[..i] + s[i + 1..]
  {
    assert forall k :: 0 <= k < i ==> s[k] == s[..i][k];
  }

  lemma InsertKeepsFirst(elements: seq<int>, v: int)
    ensures First(elements + [v], v) == First(elements, v)
    ensures var i, longer := First(elements, v), elements + [v];
            Without(longer, v) == longer[..i] + longer[i + 1..]
  {
    assert (elements + [v])[..First(elements, v)] == elements[..First(elements, v)];
    FirstIs(elements + [v], v, First(elements, v));
  }

  lemma CutOut(elements: seq<int>, v: int, i: nat)
    requires i <= |elements|
    ensures (elements + [v])[..i] + (elements + [v])[i + 1..]
      == if i < |elements| then elements[..i] + (elements[i + 1..] + [v]) else elements
  {
    var longer := elements + [v];
    assert longer[..i] == elements[..i];
    if i < |elements| {
      assert longer[i + 1..] == elements[i + 1..] + [v];
    }
  }

  /** What was inserted is not what is removed, if an equal value was there before. */
  lemma InsertThenRemove(elements: seq<int>, v: int)
    ensures var i := First(elements, v);
            Without(elements + [v], v)
              == if i < |elements| then elements[..i] + (elements[i + 1..] + [v]) else elements
  {
    InsertKeepsFirst(elements, v);
    CutOut(elements, v, First(elements, v));
  }

  lemma RotatedSuffix(prefix: seq<int>, s: seq<int>, v: int)
    requires s != [] && s[0] == v
    ensures prefix + (s[1..] + [v]) == prefix + s <==> forall w :: w in s ==> w == v
  {
    var turned := s[1..] + [v];
    assert (prefix + turned)[|prefix|..] == turned && (prefix + s)[|prefix|..] == s;
    Rotation(s, v);
  }

  lemma RestoresIfPresent(elements: seq<int>, v: int, i: nat)
    requires i < |elements| && elements[i] == v
    ensures elements[..i] + (elements[i + 1..] + [v]) == elements <==> forall w :: w in elements[i..] ==> w == v
  {
    RotatedSuffix(elements[..i], elements[i..], v);
    assert elements[i..][1..] == elements[i + 1..];
    assert elements[..i] + elements[i..] == elements;
  }

  /** Removing what was just inserted restores the elements unless an equal one stands before others. */
  lemma {:induction false} InsertRemoveRestoresIff(elements: seq<int>, v: int)
    ensures Without(elements + [v], v) == elements
      <==> forall w :: w in elements[First(elements, v)..] ==> w == v
  {
    InsertThenRemove(elements, v);
    if First(elements, v) < |elements| {
      RestoresIfPresent(elements, v, First(elements, v));
    } else {
      assert elements[First(elements, v)..] == [];
    }
  }

  /** A sequence that begins with v and is unchanged by moving that v to the end is all v. */
  lemma Rotation(s: seq<int>, v: int)
    requires s != [] && s[0] == v
    ensures s[1..] + [v] == s <==> forall w :: w in s ==> w == v
  {
    if s[1..] + [v] == s {
      forall w | w in s ensures w == v {
        var k :| 0 <= k < |s| && s[k] == w;
        AllEqual(s, v, k);
      }
    }
    assert forall k :: 0 <= k < |s| ==> s[k] in s;
    if forall k :: 0 <= k < |s| ==> s[k] == v {
      assert s[1..] + [v] == s;
    }
  }

  lemma {:induction false} AllEqual(s: seq<int>, v: int, k: nat)
    requires k < |s| && s[0] == v && s[1..] + [v] == s
    ensures s[k] == v
  {
    if k > 0 {
      AllEqual(s, v, k - 1);
      assert (s[1..] + [v])[k - 1] == s[k];
    }
  }

  /** A new value in, and out again: every hash finds the element it found before. */
  lemma RoundTrip(elements: seq<int>, v: int, ratio: nat, h: uint32)
    requires elements != [] && ratio > 0 && v !in elements
    ensures Owner(Without(elements + [v], v), ratio, h) == Owner(elements, ratio, h)
  {
    InsertRemoveRestoresIff(elements, v);
  }
}
