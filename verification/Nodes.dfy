/**
 The node list of a server and the routing decision it supports. Every server sorts
 its own list; the addresses come out in the same order everywhere, so all servers
 send a key to the same address.
 */
module Nodes {
  import opened Rings

  type Addr = string

  /** The string order of addresses. */
  predicate LexLess(a: Addr, b: Addr) {
    if b == [] then false
    else if a == [] then true
    else if a[0] != b[0] then a[0] < b[0]
    else LexLess(a[1..], b[1..])
  }

  /** The same order without recursion: a proper prefix comes first, else the first differing character decides. */
  ghost predicate Precedes(a: Addr, b: Addr) {
    || (|a| < |b| && b[..|a|] == a)
    || exists k :: DiffersAt(a, b, k) && a[k] < b[k]
  }

  /** Equal up to this position, and not there. */
  ghost predicate DiffersAt(a: Addr, b: Addr, k: int) {
    0 <= k < |a| && k < |b| && a[..k] == b[..k] && a[k] != b[k]
  }

  lemma DiffersAtNext(a: Addr, b: Addr, k: int)
    requires a != [] && b != [] && a[0] == b[0]
    ensures DiffersAt(a, b, k + 1) <==> DiffersAt(a[1..], b[1..], k)
  {
    if 0 <= k < |a| - 1 && k < |b| - 1 {
      assert a[..k + 1] == [a[0]] + a[1..][..k] && b[..k + 1] == [b[0]] + b[1..][..k];
    }
  }

  lemma PrecedesNext(a: Addr, b: Addr)
    requires a != [] && b != [] && a[0] == b[0]
    ensures Precedes(a, b) <==> Precedes(a[1..], b[1..])
  {
    if |a| < |b| {
      assert b[..|a|] == [b[0]] + b[1..][..|a| - 1] && a == [a[0]] + a[1..];
    }
    if k :| DiffersAt(a, b, k) && a[k] < b[k] {
      assert k > 0;
      DiffersAtNext(a, b, k - 1);
      assert a[1..][k - 1] == a[k] && b[1..][k - 1] == b[k];
    }
    if k :| DiffersAt(a[1..], b[1..], k) && a[1..][k] < b[1..][k] {
      DiffersAtNext(a, b, k);
      assert a[1..][k] == a[k + 1] && b[1..][k] == b[k + 1];
    }
  }

  lemma EqualBefore(a: Addr, b: Addr, k: int)
    requires DiffersAt(a, b, k)
    ensures k > 0 ==> a[0] == b[0]
  {
    if k > 0 {
      assert a[..k][0] == a[0] && b[..k][0] == b[0];
    }
  }

  lemma PrefixBegins(a: Addr, b: Addr)
    requires a != [] && b != []
    ensures |a| < |b| && b[..|a|] == a ==> a[0] == b[0]
  {
    if |a| < |b| {
      assert b[..|a|][0] == b[0];
    }
  }

  /** The comparison of node addresses is the order of strings, character by character. */
  lemma {:induction false} LexLessIff(a: Addr, b: Addr)
    ensures LexLess(a, b) <==> Precedes(a, b)
  {
    if a != [] && b != [] {
      if a[0] == b[0] {
        PrecedesNext(a, b);
        LexLessIff(a[1..], b[1..]);
      } else {
        assert DiffersAt(a, b, 0);
        forall k | DiffersAt(a, b, k) ensures k == 0 {
          EqualBefore(a, b, k);
        }
        PrefixBegins(a, b);
      }
    }
  }

  lemma {:induction false} LexIrreflexive(a: Addr)
    ensures !LexLess(a, a)
  {
    if a != [] {
      LexIrreflexive(a[1..]);
    }
  }

  lemma {:induction false} LexTotal(a: Addr, b: Addr)
    ensures LexLess(a, b) || LexLess(b, a) || a == b
  {
    if a != [] && b != [] && a[0] == b[0] {
      LexTotal(a[1..], b[1..]);
      assert a == [a[0]] + a[1..] && b == [b[0]] + b[1..];
    }
  }

  lemma {:induction false} LexTransitive(a: Addr, b: Addr, c: Addr)
    requires LexLess(a, b) && LexLess(b, c)
    ensures LexLess(a, c)
  {
    if a != [] && a[0] == b[0] == c[0] {
      LexTransitive(a[1..], b[1..], c[1..]);
    }
  }

  lemma {:induction false} LexAsymmetric(a: Addr, b: Addr)
    requires LexLess(a, b)
    ensures !LexLess(b, a)
  {
    if LexLess(b, a) {
      LexTransitive(a, b, a);
      LexIrreflexive(a);
    }
  }

  lemma {:induction false} LexNotLessTransitive(a: Addr, b: Addr, c: Addr)
    requires !LexLess(b, a) && !LexLess(c, b)
    ensures !LexLess(c, a)
  {
    if LexLess(c, a) {
      LexTotal(a, b);
      LexTotal(b, c);
      if a != b && b != c {
        LexTransitive(a, b, c);
        LexAsymmetric(a, c);
      }
    }
  }

  /** A node as one server sees it: every node but itself is behind a connection. */
  datatype Node = Node(addr: Addr, remote: bool)

  ghost predicate InOrder(ns: seq<Node>) {
    forall i, j :: 0 <= i < j < |ns| ==> !LexLess(ns[j].addr, ns[i].addr)
  }

  /** Every node comes after those before it, by the order of strings, or has the same address. */
  ghost predicate Sorted(ns: seq<Node>) {
    forall i, j :: 0 <= i < j < |ns| ==> Precedes(ns[i].addr, ns[j].addr) || ns[i].addr == ns[j].addr
  }

  lemma InOrderIsSorted(ns: seq<Node>)
    requires InOrder(ns)
    ensures Sorted(ns)
  {
    forall i, j | 0 <= i < j < |ns| ensures Precedes(ns[i].addr, ns[j].addr) || ns[i].addr == ns[j].addr {
      LexTotal(ns[i].addr, ns[j].addr);
      LexLessIff(ns[i].addr, ns[j].addr);
    }
  }

  ghost predicate Distinct(ns: seq<Node>) {
    forall i, j :: 0 <= i < j < |ns| ==> ns[i].addr != ns[j].addr
  }

  function Addrs(ns: seq<Node>): (r: seq<Addr>)
    ensures |r| == |ns| && forall i :: 0 <= i < |ns| ==> r[i] == ns[i].addr
  {
    seq(|ns|, i requires 0 <= i < |ns| => ns[i].addr)
  }

  /** The list of a started server: sorted, one node for each address, itself the only local one. */
  ghost predicate StartedAt(ns: seq<Node>, self: Addr, addrs: set<Addr>) {
    && InOrder(ns) && Distinct(ns)
    && (forall a :: a in Addrs(ns) <==> a in addrs)
    && (forall n :: n in ns ==> (n.remote <==> n.addr != self))
  }

  ghost predicate StrictlySorted(a: seq<Addr>) {
    forall i, j :: 0 <= i < j < |a| ==> LexLess(a[i], a[j])
  }

  lemma {:induction false} SortedListsAgree(a: seq<Addr>, b: seq<Addr>)
    requires StrictlySorted(a) && StrictlySorted(b)
    requires forall x :: x in a <==> x in b
    ensures a == b
  {
    assert a != [] ==> a[0] in a;
    assert b != [] ==> b[0] in b;
    if a != [] && b != [] {
      if a[0] != b[0] {
        LexAsymmetric(a[0], b[0]);
      }
      forall x ensures x in a[1..] <==> x in b[1..] {
        LexIrreflexive(a[0]);
        assert x in a <==> x == a[0] || x in a[1..];
        assert x in b <==> x == b[0] || x in b[1..];
      }
      SortedListsAgree(a[1..], b[1..]);
      assert a == [a[0]] + a[1..] && b == [b[0]] + b[1..];
    }
  }

  lemma StartedListIsStrict(ns: seq<Node>, self: Addr, addrs: set<Addr>)
    requires StartedAt(ns, self, addrs)
    ensures StrictlySorted(Addrs(ns))
  {
    forall i, j | 0 <= i < j < |ns| ensures LexLess(ns[i].addr, ns[j].addr) {
      LexTotal(ns[i].addr, ns[j].addr);
    }
  }

  /** Two servers started over the same addresses have the same address at every position. */
  lemma ServersAgreeOnOrder(ns: seq<Node>, self: Addr, ms: seq<Node>, other: Addr, addrs: set<Addr>)
    requires StartedAt(ns, self, addrs) && StartedAt(ms, other, addrs)
    ensures Addrs(ns) == Addrs(ms)
  {
    StartedListIsStrict(ns, self, addrs);
    StartedListIsStrict(ms, other, addrs);
    SortedListsAgree(Addrs(ns), Addrs(ms));
  }

  // ---------- from the configured neighbours to the started list ----------

  lemma {:induction false} DistinctCountsOnce(ns: seq<Node>, n: Node)
    requires Distinct(ns)
    ensures multiset(ns)[n] <= 1
  {
    if ns != [] {
      var k := |ns| - 1;
      DistinctCountsOnce(ns[..k], n);
      assert ns == ns[..k] + [ns[k]];
      assert n == ns[k] ==> n !in ns[..k];
    }
  }

  lemma TwiceCountsTwo(ns: seq<Node>, i: nat, j: nat)
    requires i < j < |ns| && ns[i] == ns[j]
    ensures multiset(ns)[ns[i]] >= 2
  {
    assert ns == ns[..j] + [ns[j]] + ns[j + 1..];
    assert ns[i] in ns[..j];
  }

  /** Any sorted rearrangement of distinct neighbours and the server itself is a started list. */
  lemma SortedPermutationIsStarted(ns: seq<Node>, neighbours: seq<Node>, self: Addr)
    requires InOrder(ns) && multiset(ns) == multiset(neighbours + [Node(self, false)])
    requires Distinct(neighbours + [Node(self, false)]) && forall n :: n in neighbours ==> n.remote
    ensures StartedAt(ns, self, set n | n in neighbours + [Node(self, false)] :: n.addr)
  {
    var all := neighbours + [Node(self, false)];
    assert forall n :: n in ns <==> n in all by {
      assert forall n :: n in ns <==> n in multiset(ns);
      assert forall n :: n in all <==> n in multiset(all);
    }
    forall i, j | 0 <= i < j < |ns| ensures ns[i].addr != ns[j].addr {
      if ns[i].addr == ns[j].addr {
        assert ns[i] in all && ns[j] in all;
        assert ns[i] == ns[j];
        TwiceCountsTwo(ns, i, j);
        DistinctCountsOnce(all, ns[i]);
      }
    }
    forall a ensures a in Addrs(ns) <==> exists n :: n in all && n.addr == a {
      if a in Addrs(ns) {
        var i :| 0 <= i < |ns| && Addrs(ns)[i] == a;
        assert ns[i] in all;
      }
      if n :| n in all && n.addr == a {
        var i :| 0 <= i < |ns| && ns[i] == n;
        assert Addrs(ns)[i] == a;
      }
    }
    forall n | n in ns ensures n.remote <==> n.addr != self {
      assert n in all;
      var last := |all| - 1;
      assert all[last] == Node(self, false);
      if n in neighbours {
        var i :| 0 <= i < |neighbours| && neighbours[i] == n;
        assert all[i].addr != all[last].addr;
      }
    }
  }

  /** Nodes as configured, before they are dialed. */
  function Unconnected(addrs: seq<Addr>): (ns: seq<Node>)
    ensures |ns| == |addrs| && forall i :: 0 <= i < |addrs| ==> ns[i] == Node(addrs[i], false)
  {
    seq(|addrs|, i requires 0 <= i < |addrs| => Node(addrs[i], false))
  }

  /** Nodes with their connections. */
  function Connected(addrs: seq<Addr>): (ns: seq<Node>)
    ensures |ns| == |addrs| && forall i :: 0 <= i < |addrs| ==> ns[i] == Node(addrs[i], true)
  {
    seq(|addrs|, i requires 0 <= i < |addrs| => Node(addrs[i], true))
  }

  /** The same for neighbours given by their addresses. */
  lemma ConnectedIsStarted(ns: seq<Node>, neighbours: seq<Addr>, self: Addr)
    requires InOrder(ns) && multiset(ns) == multiset(Connected(neighbours) + [Node(self, false)])
    requires self !in neighbours && forall i, j :: 0 <= i < j < |neighbours| ==> neighbours[i] != neighbours[j]
    ensures ns != [] && StartedAt(ns, self, (set a | a in neighbours) + {self})
  {
    var all := Connected(neighbours) + [Node(self, false)];
    assert all[|neighbours|] == Node(self, false) && |multiset(ns)| == |multiset(all)|;
    SortedPermutationIsStarted(ns, Connected(neighbours), self);
    assert (set n | n in all :: n.addr) == (set a | a in neighbours) + {self} by {
      forall a ensures (exists n :: n in all && n.addr == a) <==> a in neighbours || a == self {
        if a in neighbours {
          var i :| 0 <= i < |neighbours| && neighbours[i] == a;
          assert all[i].addr == a && all[i] in all;
        } else if a == self {
          assert all[|neighbours|] in all;
        }
      }
    }
  }

  // ---------- routing ----------

  datatype Route = Local | Forward(to: Addr)

  /** The ring of a started server: the positions of its node list, in order. */
  function Positions(n: nat): (p: seq<int>)
    ensures |p| == n && forall i :: 0 <= i < n ==> p[i] == i
  {
    seq(n, i => i)
  }

  function ChosenNode(ns: seq<Node>, ratio: nat, h: uint32): (n: Node)
    requires ns != [] && ratio > 0
    ensures n in ns
  {
    ns[Owner(Positions(|ns|), ratio, h)]
  }

  /** The addresses chosen for the first so many hashes. */
  function ChosenAddrs(ns: seq<Node>, ratio: nat, count: nat): (r: seq<Addr>)
    requires ns != [] && count <= ratio < UINT32
    ensures |r| == count && forall h :: 0 <= h < count ==> r[h] == ChosenNode(ns, ratio, h).addr
  {
    seq(count, h requires 0 <= h < count => ChosenNode(ns, ratio, h).addr)
  }

  lemma SmallHashNode(ns: seq<Node>, ratio: nat, h: uint32)
    requires ns != [] && h < ratio
    ensures ChosenNode(ns, ratio, h) == ns[h % |ns|]
  {
    SmallHashOwner(Positions(|ns|), ratio, h);
  }

  /** Out of one hash for each partition, every node is chosen for its equal share, the first few once more. */
  lemma {:induction false} ChoicesAreBalanced(ns: seq<Node>, ratio: nat, count: nat, j: nat)
    requires Distinct(ns) && j < |ns| && count <= ratio < UINT32
    ensures multiset(ChosenAddrs(ns, ratio, count))[ns[j].addr]
      == count / |ns| + if j < count % |ns| then 1 else 0
  {
    var n := |ns|;
    if count == 0 {
      DivModUnique(0, n, 0, 0);
      assert ChosenAddrs(ns, ratio, 0) == [];
    } else {
      ChoicesAreBalanced(ns, ratio, count - 1, j);
      DivModSuccessor(count - 1, n);
      SmallHashNode(ns, ratio, count - 1);
      var i := (count - 1) % n;
      assert ChosenAddrs(ns, ratio, count) == ChosenAddrs(ns, ratio, count - 1) + [ns[i].addr];
      assert ns[i].addr == ns[j].addr ==> i == j;
    }
  }

  /** Where a server answers a request: here if it is in charge or the key is empty. */
  function RouteOf(ns: seq<Node>, ratio: nat, h: uint32, key: string): Route
    requires ns != [] && ratio > 0
  {
    var node := ChosenNode(ns, ratio, h);
    if !node.remote || key == "" then Local else Forward(node.addr)
  }

  /** Servers over the same addresses and with the same ratio choose the same address for a hash. */
  lemma ServersAgreeOnOwner(
    ns: seq<Node>, self: Addr, ms: seq<Node>, other: Addr, addrs: set<Addr>, ratio: nat, h: uint32
  )
    requires StartedAt(ns, self, addrs) && StartedAt(ms, other, addrs) && ns != [] && ratio > 0
    ensures ms != [] && ChosenNode(ns, ratio, h).addr == ChosenNode(ms, ratio, h).addr
  {
    ServersAgreeOnOrder(ns, self, ms, other, addrs);
    var i := Owner(Positions(|ns|), ratio, h);
    assert Addrs(ns)[i] == Addrs(ms)[i];
  }

  /**
   One hop: exactly the server whose address is chosen answers itself, all others
   forward to that address. So a forwarded request is never forwarded again.
   */
  lemma OneHop(
    ns: seq<Node>, self: Addr, ms: seq<Node>, other: Addr, addrs: set<Addr>, ratio: nat, h: uint32, key: string
  )
    requires StartedAt(ns, self, addrs) && StartedAt(ms, other, addrs) && ns != [] && ratio > 0 && key != ""
    ensures var owner := ChosenNode(ns, ratio, h).addr;
            RouteOf(ns, ratio, h, key) == if owner == self then Local else Forward(owner)
    ensures ms != []
    ensures RouteOf(ns, ratio, h, key) == Forward(other) ==> other in addrs && RouteOf(ms, ratio, h, key) == Local
    ensures self != other ==> !(RouteOf(ns, ratio, h, key) == Local && RouteOf(ms, ratio, h, key) == Local)
  {
    ServersAgreeOnOwner(ns, self, ms, other, addrs, ratio, h);
    var node := ChosenNode(ns, ratio, h);
    var i :| 0 <= i < |ns| && ns[i] == node;
    assert Addrs(ns)[i] == node.addr;
  }
}
