// The order in which sd_hash_begin, iter_next and iter_prev walk the entries of a table.
module Traversal {
  import opened Chains

  // The chains one after the other.
  ghost function Order<V>(chains: seq<seq<Iter<V>>>): seq<Iter<V>> {
    if chains == [] then [] else chains[0] + Order(chains[1..])
  }

  lemma {:induction false} OrderJoins<V>(a: seq<seq<Iter<V>>>, b: seq<seq<Iter<V>>>)
    ensures Order(a + b) == Order(a) + Order(b)
  {
    if a == [] {
      assert a + b == b;
    } else {
      OrderJoins(a[1..], b);
      assert (a + b)[1..] == a[1..] + b;
      assert a[0] + (Order(a[1..]) + Order(b)) == (a[0] + Order(a[1..])) + Order(b);
    }
  }

  // The chains before h, chain h, the chains after it.
  lemma OrderAround<V>(chains: seq<seq<Iter<V>>>, h: nat)
    requires h < |chains|
    ensures Order(chains) == Order(chains[..h]) + (chains[h] + Order(chains[h + 1..]))
    ensures Order(chains[..h + 1]) == Order(chains[..h]) + chains[h]
  {
    assert chains == chains[..h] + chains[h..];
    assert chains[..h + 1] == chains[..h] + [chains[h]];
    OrderJoins(chains[..h], chains[h..]);
    OrderJoins(chains[..h], [chains[h]]);
    assert chains[h..][1..] == chains[h + 1..];
    var one := [chains[h]];
    assert one[1..] == [];
  }

  // Chains without entries do not show.
  lemma {:induction false} OrderOfEmpty<V>(chains: seq<seq<Iter<V>>>, a: nat, b: nat)
    requires a <= b <= |chains| && forall h | a <= h < b :: chains[h] == []
    ensures Order(chains[a..]) == Order(chains[b..])
    ensures Order(chains[..a]) == Order(chains[..b])
    decreases b - a
  {
    if a < b {
      assert chains[a..][1..] == chains[a + 1..];
      OrderOfEmpty(chains, a + 1, b);
      OrderAround(chains, a);
    }
  }

  // Every entry is visited, and only once.
  lemma {:induction false} OrderVisits<V>(chains: seq<seq<Iter<V>>>, nodes: set<Iter<V>>, h: nat)
    requires Placed(chains, nodes) && h <= |chains|
    ensures Distinct(Order(chains[..h]))
    ensures forall i | 0 <= i < |Order(chains[..h])| ::
      Order(chains[..h])[i] in nodes && Index(Order(chains[..h])[i].hkey, |chains|) < h
    ensures forall p | p in nodes && Index(p.hkey, |chains|) < h :: p in Order(chains[..h])
  {
    if h > 0 {
      OrderVisits(chains, nodes, h - 1);
      OrderAround(chains, h - 1);
      PlacedFacts(chains, nodes);
      hide Placed, Order, Index;
      forall p | p in nodes && Index(p.hkey, |chains|) < h ensures p in Order(chains[..h]) {
        if Index(p.hkey, |chains|) == h - 1 { assert p in chains[h - 1]; }
      }
    }
  }

  // The place of p in a sequence.
  ghost function Rank<V>(s: seq<Iter<V>>, p: Iter<V>): (i: nat)
    requires p in s
    ensures i < |s| && s[i] == p
  {
    if s[0] == p then 0 else 1 + Rank(s[1..], p)
  }

  lemma RankIs<V>(s: seq<Iter<V>>, i: nat)
    requires Distinct(s) && i < |s|
    ensures Rank(s, s[i]) == i
  {}

  // What follows p in the order, and what precedes it; null at the ends.
  ghost function After<V>(chains: seq<seq<Iter<V>>>, p: Iter<V>): Iter?<V>
    requires p in Order(chains)
  {
    At(Order(chains), Rank(Order(chains), p) + 1)
  }

  ghost function Ahead<V>(chains: seq<seq<Iter<V>>>, p: Iter<V>): Iter?<V>
    requires p in Order(chains)
  {
    At(Order(chains), Rank(Order(chains), p) - 1)
  }

  lemma OrderIsNodes<V>(chains: seq<seq<Iter<V>>>, nodes: set<Iter<V>>)
    requires Placed(chains, nodes)
    ensures Distinct(Order(chains)) && |Order(chains)| == |nodes|
    ensures forall i | 0 <= i < |Order(chains)| :: Order(chains)[i] in nodes
    ensures forall p | p in nodes :: p in Order(chains)
  {
    assert chains[..|chains|] == chains;
    OrderVisits(chains, nodes, |chains|);
    DistinctCount(Order(chains), nodes);
  }

  lemma {:induction false} DistinctCount<V>(s: seq<Iter<V>>, nodes: set<Iter<V>>)
    requires Distinct(s) && (forall i | 0 <= i < |s| :: s[i] in nodes) && (forall p | p in nodes :: p in s)
    ensures |s| == |nodes|
  {
    if s != [] {
      assert forall i | 1 <= i < |s| :: s[i] != s[0];
      DistinctCount(s[1..], nodes - {s[0]});
    } else {
      assert nodes == {};
    }
  }

  // Where chain h starts in the order.
  lemma OrderPlace<V>(chains: seq<seq<Iter<V>>>, nodes: set<Iter<V>>, h: nat, k: nat)
    requires Placed(chains, nodes) && h < |chains| && k < |chains[h]|
    ensures var i := |Order(chains[..h])| + k;
      i < |Order(chains)| && Order(chains)[i] == chains[h][k] && Rank(Order(chains), chains[h][k]) == i
  {
    hide Placed, Rank, Order;
    OrderAround(chains, h);
    OrderIsNodes(chains, nodes);
    RankIs(Order(chains), |Order(chains[..h])| + k);
  }

  // iter_next, inside a chain and past its end.
  lemma AfterIs<V>(chains: seq<seq<Iter<V>>>, nodes: set<Iter<V>>, h: nat, k: nat, i: nat)
    requires Placed(chains, nodes) && h < |chains| && k < |chains[h]|
    requires h < i <= |chains| && forall j | h < j < i :: chains[j] == []
    ensures chains[h][k] in Order(chains)
    ensures k + 1 < |chains[h]| ==> After(chains, chains[h][k]) == chains[h][k + 1]
    ensures k + 1 == |chains[h]| && i < |chains| && chains[i] != [] ==> After(chains, chains[h][k]) == chains[i][0]
    ensures k + 1 == |chains[h]| && i == |chains| ==> After(chains, chains[h][k]) == null
  {
    hide Placed, Rank, Order;
    OrderPlace(chains, nodes, h, k);
    OrderAround(chains, h);
    OrderOfEmpty(chains, h + 1, i);
    if i < |chains| {
      OrderAround(chains, i);
      assert Order(chains[i..]) == chains[i] + Order(chains[i + 1..]) by { OrderHead(chains, i); }
    } else {
      NoOrder<V>();
      assert chains[i..] == [];
    }
  }

  lemma AfterInside<V>(chains: seq<seq<Iter<V>>>, nodes: set<Iter<V>>, h: nat, k: nat)
    requires Placed(chains, nodes) && h < |chains| && k < |chains[h]|
    ensures chains[h][k] in Order(chains)
    ensures At(chains[h], k + 1) != null ==> After(chains, chains[h][k]) == At(chains[h], k + 1)
  {
    hide After, Order, Placed;
    AfterIs(chains, nodes, h, k, h + 1);
  }

  lemma AfterOutside<V>(chains: seq<seq<Iter<V>>>, nodes: set<Iter<V>>, h: nat, k: nat, i: nat)
    requires Placed(chains, nodes) && h < |chains| && k < |chains[h]| && At(chains[h], k + 1) == null
    requires h < i < |chains| && forall j | h < j < i :: chains[j] == []
    ensures chains[h][k] in Order(chains)
    ensures if At(chains[i], 0) == null then chains[i] == [] else After(chains, chains[h][k]) == At(chains[i], 0)
  {
    hide After, Order, Placed;
    AfterIs(chains, nodes, h, k, i);
  }

  lemma AfterLast<V>(chains: seq<seq<Iter<V>>>, nodes: set<Iter<V>>, h: nat, k: nat)
    requires Placed(chains, nodes) && h < |chains| && k < |chains[h]| && At(chains[h], k + 1) == null
    requires forall j | h < j < |chains| :: chains[j] == []
    ensures chains[h][k] in Order(chains) && After(chains, chains[h][k]) == null
  {
    hide After, Order, Placed;
    AfterIs(chains, nodes, h, k, |chains|);
  }

  lemma OrderHead<V>(chains: seq<seq<Iter<V>>>, i: nat)
    requires i < |chains|
    ensures Order(chains[i..]) == chains[i] + Order(chains[i + 1..])
  {
    assert chains[i..][1..] == chains[i + 1..];
  }

  lemma NoOrder<V>()
    ensures Order<V>([]) == []
  {}

  // iter_prev, inside a chain and before its head.
  lemma AheadIs<V>(chains: seq<seq<Iter<V>>>, nodes: set<Iter<V>>, h: nat, k: nat, i: int)
    requires Placed(chains, nodes) && h < |chains| && k < |chains[h]|
    requires -1 <= i < h && forall j | i < j < h :: chains[j] == []
    ensures chains[h][k] in Order(chains)
    ensures k > 0 ==> Ahead(chains, chains[h][k]) == chains[h][k - 1]
    ensures k == 0 && i >= 0 && chains[i] != [] ==> Ahead(chains, chains[h][k]) == chains[i][|chains[i]| - 1]
    ensures k == 0 && i == -1 ==> Ahead(chains, chains[h][k]) == null
  {
    hide Placed, Rank, Order;
    OrderPlace(chains, nodes, h, k);
    OrderAround(chains, h);
    OrderOfEmpty(chains, i + 1, h);
    if i >= 0 {
      OrderAround(chains, i);
    } else {
      NoOrder<V>();
      assert chains[..i + 1] == [];
    }
  }

  lemma HeadIs<V>(chains: seq<seq<Iter<V>>>, h: nat)
    requires h < |chains| && forall j | 0 <= j < h :: chains[j] == []
    ensures chains[h] != [] ==> At(chains[h], 0) == At(Order(chains), 0)
    ensures At(chains[h], 0) == null <==> chains[h] == []
  {
    OrderOfEmpty(chains, 0, h);
    OrderHead(chains, h);
    assert chains[0..] == chains;
  }

  lemma OrderStart<V>(chains: seq<seq<Iter<V>>>, n: nat)
    requires n == |chains| && forall j | 0 <= j < n :: chains[j] == []
    ensures At(Order(chains), 0) == null
  {
    OrderOfEmpty(chains, 0, n);
    assert chains[0..] == chains && chains[n..] == [];
  }

  // What iter_prev finds: not the entry ahead when that would be in bucket 0, and p is not.
  ghost function Back<V>(chains: seq<seq<Iter<V>>>, p: Iter<V>): Iter?<V>
    requires |chains| >= 1 && p in Order(chains)
  {
    var q := Ahead(chains, p);
    if q != null && Index(q.hkey, |chains|) == 0 && Index(p.hkey, |chains|) != 0 then null else q
  }

  lemma BackInside<V>(chains: seq<seq<Iter<V>>>, nodes: set<Iter<V>>, h: nat, k: nat)
    requires Placed(chains, nodes) && h < |chains| && k < |chains[h]|
    ensures chains[h][k] in Order(chains)
    ensures At(chains[h], k - 1) != null ==> Back(chains, chains[h][k]) == At(chains[h], k - 1)
    ensures At(chains[h], k - 1) == null ==> k == 0
  {
    AheadIs(chains, nodes, h, k, h - 1);
    hide Ahead, Order;
    EntryAt(chains, nodes, h, k);
    if k > 0 { EntryAt(chains, nodes, h, k - 1); }
  }

  lemma BackBefore<V>(chains: seq<seq<Iter<V>>>, nodes: set<Iter<V>>, h: nat, i: nat)
    requires Placed(chains, nodes) && h < |chains| && chains[h] != []
    requires 0 < i < h && chains[i] != [] && forall j | i < j < h :: chains[j] == []
    ensures chains[h][0] in Order(chains)
    ensures Back(chains, chains[h][0]) == chains[i][|chains[i]| - 1]
  {
    AheadIs(chains, nodes, h, 0, i);
    hide Ahead, Order;
    EntryAt(chains, nodes, h, 0);
    EntryAt(chains, nodes, i, |chains[i]| - 1);
  }

  lemma BackNone<V>(chains: seq<seq<Iter<V>>>, nodes: set<Iter<V>>, h: nat, i: int)
    requires Placed(chains, nodes) && h < |chains| && chains[h] != []
    requires -1 <= i <= 0 && i < h && forall j | i < j < h :: chains[j] == []
    ensures chains[h][0] in Order(chains)
    ensures Back(chains, chains[h][0]) == null
  {
    EntryAt(chains, nodes, h, 0);
    if i == 0 && chains[0] != [] {
      AheadIs(chains, nodes, h, 0, 0);
      EntryAt(chains, nodes, 0, |chains[0]| - 1);
    } else {
      AheadIs(chains, nodes, h, 0, -1);
    }
  }

  lemma LastOf<V>(c: seq<Iter<V>>, n: nat)
    requires n <= |c| && At(c, n) == null
    ensures n == |c|
  {}

  // iter_prev undoes iter_next, except when it would cross back into bucket 0.
  lemma {:induction false} PrevUndoesNext<V>(chains: seq<seq<Iter<V>>>, nodes: set<Iter<V>>, p: Iter<V>)
    requires Placed(chains, nodes) && p in nodes
    ensures p in Order(chains)
    ensures var q := After(chains, p); q != null ==>
      && q in Order(chains)
      && (Back(chains, q) == p <==> Index(p.hkey, |chains|) != 0 || Index(q.hkey, |chains|) == 0)
  {
    OrderIsNodes(chains, nodes);
    assert |chains| >= 1;
    hide Order, Placed, Index, Rank;
    var s := Order(chains);
    var i := Rank(s, p);
    if i + 1 < |s| {
      RankIs(s, i + 1);
      assert After(chains, p) == s[i + 1] && Ahead(chains, s[i + 1]) == p;
    }
  }

  // A step out of bucket 0 that iter_prev does not undo.
  lemma {:induction false} PrevStopsShort<V>(p: Iter<V>, q: Iter<V>)
    requires p != q && p.hkey == 0 && q.hkey == 1
    ensures var chains := [[p], [q]];
      && Placed(chains, {p, q}) && p in Order(chains) && q in Order(chains)
      && After(chains, p) == q && Back(chains, q) == null
  {
    var chains := [[p], [q]];
    assert chains[Index(p.hkey, 2)] == [p] && chains[Index(q.hkey, 2)] == [q];
    assert p in [p] && q in [q];
    OrderOfTwo(p, q);
    RankIs([p, q], 0);
    RankIs([p, q], 1);
  }

  lemma OrderOfTwo<V>(p: Iter<V>, q: Iter<V>)
    ensures Order([[p], [q]]) == [p, q]
  {
    var one, both := [[q]], [[p], [q]];
    assert both[1..] == one && one[1..] == [];
    assert Order(one) == [q] + Order(one[1..]) == [q];
    assert Order(both) == [p] + Order(one) == [p, q];
  }

  // The entries before the k-th of chain h.
  ghost function OrderTo<V>(chains: seq<seq<Iter<V>>>, h: nat, k: nat): seq<Iter<V>>
    requires h <= |chains| && (h < |chains| ==> k <= |chains[h]|)
  {
    Order(chains[..h]) + if h < |chains| then chains[h][..k] else []
  }

  lemma OrderGrows<V>(chains: seq<seq<Iter<V>>>, h: nat, k: nat)
    requires h < |chains| && k <= |chains[h]|
    ensures OrderTo(chains, 0, 0) == []
    ensures if At(chains[h], k) == null then OrderTo(chains, h, k) == OrderTo(chains, h + 1, 0)
      else k < |chains[h]| && OrderTo(chains, h, k + 1) == OrderTo(chains, h, k) + [At(chains[h], k)]
  {
    OrderAround(chains, h);
    hide Order;
    NoOrder<V>();
    assert chains[..0] == [];
    if k == |chains[h]| {
      assert chains[h][..k] == chains[h];
    } else {
      assert chains[h][..k + 1] == chains[h][..k] + [chains[h][k]];
    }
  }

  lemma OrderAll<V>(chains: seq<seq<Iter<V>>>)
    ensures OrderTo(chains, |chains|, 0) == Order(chains)
  {
    assert chains[..|chains|] == chains;
  }

  lemma FollowsAt<V>(next: Links<V>, chains: seq<seq<Iter<V>>>, nodes: set<Iter<V>>, h: nat, k: nat)
    requires Follows(next, chains) && Placed(chains, nodes) && h < |chains| && k < |chains[h]|
    ensures chains[h][k] in nodes && chains[h][k] in next && next[chains[h][k]] == At(chains[h], k + 1)
    ensures At(chains[h], k) == chains[h][k]
  {
    EntryAt(chains, nodes, h, k);
  }

  lemma OrderToPrefix<V>(chains: seq<seq<Iter<V>>>, h: nat, k: nat)
    requires h < |chains| && k <= |chains[h]|
    ensures OrderTo(chains, h, k) <= Order(chains)
  {
    hide Order;
    OrderAround(chains, h);
  }
}
