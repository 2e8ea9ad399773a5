// The chains of a hash table (hash.c): entries linked both ways in the bucket
// their hash selects, as values, and the three ways they are relinked in memory.
module Chains {
  import opened Option

  // sd_hash_iter_t.  A key of None is the null pointer iter_del leaves behind.
  class Iter<V> {
    const hkey: nat
    var key: Option<string>
    var data: Option<V>
    var next: Iter?<V>
    var prev: Iter?<V>
    var visiting: bool

    constructor (key: string, hkey: nat)
      ensures this.hkey == hkey && this.key == Some(key) && data == None
      ensures next == null && prev == null && !visiting
    {
      this.hkey, this.key, data, next, prev, visiting := hkey, Some(key), None, null, null, false;
    }
  }

  // hindex.
  function Index(hkey: nat, size: nat): (h: nat)
    requires size >= 1
    ensures h < size
  {
    hkey % size
  }

  // The k-th entry of a chain, null outside it.
  function At<V>(c: seq<Iter<V>>, k: int): Iter?<V> { if 0 <= k < |c| then c[k] else null }

  // Every entry stands once, in the chain its hash selects.
  ghost predicate Placed<V>(chains: seq<seq<Iter<V>>>, nodes: set<Iter<V>>) {
    && |chains| >= 1
    && (forall h, k | 0 <= h < |chains| && 0 <= k < |chains[h]| ::
          chains[h][k] in nodes && Index(chains[h][k].hkey, |chains|) == h)
    && (forall h, j, k | 0 <= h < |chains| && 0 <= j < k < |chains[h]| :: chains[h][j] != chains[h][k])
    && (forall p | p in nodes :: p in chains[Index(p.hkey, |chains|)])
  }

  // The links between the entries, as maps.
  type Links<V> = map<Iter<V>, Iter?<V>>

  ghost function Nexts<V>(nodes: set<Iter<V>>): Links<V>
    reads nodes
  {
    map p | p in nodes :: p.next
  }

  ghost function Prevs<V>(nodes: set<Iter<V>>): Links<V>
    reads nodes
  {
    map p | p in nodes :: p.prev
  }

  // Following next from the head gives the chain, following prev gives it backwards.
  ghost predicate Linked<V>(head: Iter?<V>, next: Links<V>, prev: Links<V>, c: seq<Iter<V>>) {
    && head == At(c, 0)
    && forall k | 0 <= k < |c| ::
         c[k] in next && next[c[k]] == At(c, k + 1) && c[k] in prev && prev[c[k]] == At(c, k - 1)
  }

  ghost predicate Shape<V>(heads: seq<Iter?<V>>, next: Links<V>, prev: Links<V>, chains: seq<seq<Iter<V>>>,
      nodes: set<Iter<V>>)
  {
    && Placed(chains, nodes) && |heads| == |chains|
    && forall h | 0 <= h < |chains| :: Linked(heads[h], next, prev, chains[h])
  }

  ghost predicate Buckets<V>(tab: array<Iter?<V>>, chains: seq<seq<Iter<V>>>, nodes: set<Iter<V>>)
    reads tab, nodes
  {
    Shape(tab[..], Nexts(nodes), Prevs(nodes), chains, nodes)
  }

  function Pushed<V>(chains: seq<seq<Iter<V>>>, p: Iter<V>): seq<seq<Iter<V>>>
    requires |chains| >= 1
  {
    var h := Index(p.hkey, |chains|);
    chains[h := [p] + chains[h]]
  }

  lemma PushedPlaced<V>(chains: seq<seq<Iter<V>>>, nodes: set<Iter<V>>, p: Iter<V>)
    requires Placed(chains, nodes) && p !in nodes
    ensures Placed(Pushed(chains, p), nodes + {p})
  {
    hide Index;
    var h, chains' := Index(p.hkey, |chains|), Pushed(chains, p);
    forall q | q in nodes + {p} ensures q in chains'[Index(q.hkey, |chains|)] {
      if q == p { assert chains'[h][0] == p; } else { assert q in chains[Index(q.hkey, |chains|)]; }
    }
    forall i, k | 0 <= i < |chains'| && 0 <= k < |chains'[i]|
      ensures chains'[i][k] in nodes + {p} && Index(chains'[i][k].hkey, |chains'|) == i {
      if i == h && k > 0 { assert chains'[i][k] == chains[i][k - 1]; }
    }
  }

  // A chain is linked as before when the links of its entries are.
  lemma StaysLinked<V>(head: Iter?<V>, next: Links<V>, prev: Links<V>, next': Links<V>, prev': Links<V>,
      c: seq<Iter<V>>, touched: set<Iter<V>>)
    requires Linked(head, next, prev, c)
    requires forall r | r in c :: r !in touched
    requires forall r | r in next && r !in touched :: r in next' && next'[r] == next[r]
    requires forall r | r in prev && r !in touched :: r in prev' && prev'[r] == prev[r]
    ensures Linked(head, next', prev', c)
  {}

  lemma OtherChain<V>(chains: seq<seq<Iter<V>>>, nodes: set<Iter<V>>, p: Iter<V>, q: Iter?<V>, i: nat)
    requires Placed(chains, nodes) && p !in nodes && i < |chains| && i != Index(p.hkey, |chains|)
    requires q == At(chains[Index(p.hkey, |chains|)], 0)
    ensures p !in chains[i] && (q != null ==> q !in chains[i])
  {
    hide Index;
  }

  lemma PushedLinked<V>(next: Links<V>, prev: Links<V>, next': Links<V>, prev': Links<V>, c: seq<Iter<V>>, p: Iter<V>)
    requires Linked(At(c, 0), next, prev, c) && p !in c
    requires forall j, k | 0 <= j < k < |c| :: c[j] != c[k]
    requires next' == next[p := At(c, 0)] && prev' == (if c == [] then prev else prev[c[0] := p])[p := null]
    ensures Linked(p, next', prev', [p] + c)
  {
    forall k | 0 <= k < |c| + 1 ensures
      var q := ([p] + c)[k];
      q in next' && next'[q] == At([p] + c, k + 1) && q in prev' && prev'[q] == At([p] + c, k - 1) {
      if k > 0 { assert ([p] + c)[k] == c[k - 1]; }
    }
  }

  // A new entry in front of its chain.
  lemma PushedShape<V>(heads: seq<Iter?<V>>, next: Links<V>, prev: Links<V>, chains: seq<seq<Iter<V>>>,
      nodes: set<Iter<V>>, p: Iter<V>)
    requires Shape(heads, next, prev, chains, nodes) && p !in nodes
    ensures
      var h := Index(p.hkey, |heads|);
      var q := heads[h];
      Shape(heads[h := p], next[p := q], (if q == null then prev else prev[q := p])[p := null], Pushed(chains, p),
          nodes + {p})
  {
    hide Index, Placed, Linked;
    PushedPlaced(chains, nodes, p);
    NoRepeats(chains, nodes, p);
    var h := Index(p.hkey, |heads|);
    var q := heads[h];
    var next', prev', chains' := next[p := q], (if q == null then prev else prev[q := p])[p := null], Pushed(chains, p);
    HeadOf(heads[h], next, prev, chains[h]);
    forall i | 0 <= i < |chains| ensures Linked(heads[h := p][i], next', prev', chains'[i]) {
      if i == h {
        PushedLinked(next, prev, next', prev', chains[h], p);
      } else {
        OtherChain(chains, nodes, p, q, i);
        StaysLinked(heads[i], next, prev, next', prev', chains[i], if q == null then {p} else {p, q});
      }
    }
  }

  lemma NoRepeats<V>(chains: seq<seq<Iter<V>>>, nodes: set<Iter<V>>, p: Iter<V>)
    requires Placed(chains, nodes) && p !in nodes
    ensures |chains| >= 1
    ensures var c := chains[Index(p.hkey, |chains|)]; p !in c && forall j, k | 0 <= j < k < |c| :: c[j] != c[k]
  {}

  lemma HeadOf<V>(head: Iter?<V>, next: Links<V>, prev: Links<V>, c: seq<Iter<V>>)
    requires Linked(head, next, prev, c)
    ensures head == At(c, 0)
  {}

  lemma PlacedFacts<V>(chains: seq<seq<Iter<V>>>, nodes: set<Iter<V>>)
    requires Placed(chains, nodes)
    ensures |chains| >= 1
    ensures forall h, k | 0 <= h < |chains| && 0 <= k < |chains[h]| ::
          chains[h][k] in nodes && Index(chains[h][k].hkey, |chains|) == h
    ensures forall h, j, k | 0 <= h < |chains| && 0 <= j < k < |chains[h]| :: chains[h][j] != chains[h][k]
    ensures forall p | p in nodes :: p in chains[Index(p.hkey, |chains|)]
  {
    hide Index;
  }

  // Put p in front of its chain.
  method Push<V>(tab: array<Iter?<V>>, ghost chains: seq<seq<Iter<V>>>, ghost nodes: set<Iter<V>>, p: Iter<V>)
    requires Buckets(tab, chains, nodes) && p !in nodes
    modifies tab, p`next, p`prev, nodes`prev
    ensures |chains| >= 1 && Buckets(tab, Pushed(chains, p), nodes + {p})
  {
    hide *;
    BucketFacts(tab, chains, nodes);
    ghost var heads, next, prev := tab[..], Nexts(nodes), Prevs(nodes);
    PushedShape(heads, next, prev, chains, nodes, p);
    var h := Index(p.hkey, tab.Length);
    var q := tab[h];
    p.next := q;
    tab[h] := p;
    if q != null { q.prev := p; }
    p.prev := null;
    assert tab[..] == heads[h := p];
    NextsAre(nodes + {p}, next[p := q]);
    PrevsAre(nodes + {p}, (if q == null then prev else prev[q := p])[p := null]);
    BucketsFrom(tab, Pushed(chains, p), nodes + {p});
  }

  lemma BucketFacts<V>(tab: array<Iter?<V>>, chains: seq<seq<Iter<V>>>, nodes: set<Iter<V>>)
    requires Buckets(tab, chains, nodes)
    ensures Shape(tab[..], Nexts(nodes), Prevs(nodes), chains, nodes)
    ensures tab.Length == |chains| >= 1
    ensures forall h | 0 <= h < tab.Length && tab[h] != null :: tab[h] in nodes
    ensures Nexts(nodes).Keys == Prevs(nodes).Keys == nodes
    ensures forall p | p in nodes :: Nexts(nodes)[p] == p.next && Prevs(nodes)[p] == p.prev
  {
    assert forall h | 0 <= h < tab.Length && tab[h] != null :: tab[h] == chains[h][0];
  }

  lemma NextsAre<V>(nodes: set<Iter<V>>, next: Links<V>)
    requires next.Keys == nodes && forall p | p in nodes :: next[p] == p.next
    ensures Nexts(nodes) == next
  {}

  lemma PrevsAre<V>(nodes: set<Iter<V>>, prev: Links<V>)
    requires prev.Keys == nodes && forall p | p in nodes :: prev[p] == p.prev
    ensures Prevs(nodes) == prev
  {}

  lemma BucketsFrom<V>(tab: array<Iter?<V>>, chains: seq<seq<Iter<V>>>, nodes: set<Iter<V>>)
    requires Shape(tab[..], Nexts(nodes), Prevs(nodes), chains, nodes)
    ensures Buckets(tab, chains, nodes)
  {}

  lemma EmptyBuckets<V>(tab: array<Iter?<V>>, chains: seq<seq<Iter<V>>>)
    requires tab.Length == |chains| >= 1 && forall h | 0 <= h < |chains| :: tab[h] == null && chains[h] == []
    ensures Buckets(tab, chains, {})
  {}

  // The entries of the chains before i, and the first k of chain i.
  ghost predicate Before<V>(chains: seq<seq<Iter<V>>>, nodes: set<Iter<V>>, i: nat, k: nat, done: set<Iter<V>>)
    requires |chains| >= 1
  {
    && done <= nodes
    && forall q | q in nodes ::
         q in done <==>
         || Index(q.hkey, |chains|) < i
         || (Index(q.hkey, |chains|) == i < |chains| && k <= |chains[i]| && q in chains[i][..k])
  }

  lemma BeforeNext<V>(chains: seq<seq<Iter<V>>>, nodes: set<Iter<V>>, next: Links<V>, i: nat, k: nat,
      done: set<Iter<V>>, p: Iter<V>)
    requires Placed(chains, nodes) && i < |chains| && Before(chains, nodes, i, k, done)
    requires k <= |chains[i]| && p == At(chains[i], k) && Follows(next, chains)
    ensures k < |chains[i]| && p in nodes && p !in done && done <= nodes
    ensures Before(chains, nodes, i, k + 1, done + {p})
    ensures p in next && next[p] == At(chains[i], k + 1)
  {
    hide Index, Placed;
    EntryAt(chains, nodes, i, k);
    assert chains[i][..k + 1] == chains[i][..k] + [p];
  }

  lemma EntryAt<V>(chains: seq<seq<Iter<V>>>, nodes: set<Iter<V>>, i: nat, k: nat)
    requires Placed(chains, nodes) && i < |chains| && k < |chains[i]|
    ensures chains[i][k] in nodes && Index(chains[i][k].hkey, |chains|) == i && chains[i][k] !in chains[i][..k]
  {
    hide Index;
  }

  lemma BeforeChain<V>(chains: seq<seq<Iter<V>>>, nodes: set<Iter<V>>, i: nat, k: nat, done: set<Iter<V>>)
    requires Placed(chains, nodes) && i < |chains| && Before(chains, nodes, i, k, done)
    requires k <= |chains[i]| && At(chains[i], k) == null
    ensures Before(chains, nodes, i + 1, 0, done)
  {
    hide Index;
    assert chains[i][..k] == chains[i];
  }

  lemma BeforeFirst<V>(chains: seq<seq<Iter<V>>>, nodes: set<Iter<V>>)
    requires Placed(chains, nodes)
    ensures Before(chains, nodes, 0, 0, {})
  {}

  lemma BeforeAll<V>(chains: seq<seq<Iter<V>>>, nodes: set<Iter<V>>, done: set<Iter<V>>)
    requires Placed(chains, nodes) && Before(chains, nodes, |chains|, 0, done)
    ensures done == nodes
  {}

  ghost predicate Follows<V>(next: Links<V>, chains: seq<seq<Iter<V>>>) {
    forall h, k | 0 <= h < |chains| && 0 <= k < |chains[h]| ::
      chains[h][k] in next && next[chains[h][k]] == At(chains[h], k + 1)
  }

  lemma ShapeFacts<V>(heads: seq<Iter?<V>>, next: Links<V>, prev: Links<V>, chains: seq<seq<Iter<V>>>,
      nodes: set<Iter<V>>)
    requires Shape(heads, next, prev, chains, nodes)
    ensures Placed(chains, nodes) && |heads| == |chains| >= 1
    ensures forall h | 0 <= h < |heads| :: heads[h] == At(chains[h], 0)
    ensures Follows(next, chains)
  {
    hide Placed;
    forall h | 0 <= h < |heads| ensures heads[h] == At(chains[h], 0) { assert Linked(heads[h], next, prev, chains[h]); }
    forall h, k | 0 <= h < |chains| && 0 <= k < |chains[h]|
      ensures chains[h][k] in next && next[chains[h][k]] == At(chains[h], k + 1)
    {
      assert Linked(heads[h], next, prev, chains[h]);
    }
    NotEmpty(chains, nodes);
  }

  lemma NotEmpty<V>(chains: seq<seq<Iter<V>>>, nodes: set<Iter<V>>)
    requires Placed(chains, nodes)
    ensures |chains| >= 1
  {}

  // rehash: relink every entry into a table of `size` chains.
  method Relink<V>(tab: array<Iter?<V>>, ghost chains: seq<seq<Iter<V>>>, ghost nodes: set<Iter<V>>, size: nat)
    returns (tab': array<Iter?<V>>, ghost chains': seq<seq<Iter<V>>>)
    requires Buckets(tab, chains, nodes) && size >= 1
    modifies nodes`next, nodes`prev
    ensures fresh(tab') && tab'.Length == size && Buckets(tab', chains', nodes)
  {
    hide *;
    BucketFacts(tab, chains, nodes);
    ghost var next := Nexts(nodes);
    ShapeFacts(tab[..], next, Prevs(nodes), chains, nodes);
    tab' := new Iter?<V>[size](_ => null);
    chains' := seq(size, _ => []);
    EmptyBuckets(tab', chains');
    BeforeFirst(chains, nodes);
    ghost var done: set<Iter<V>> := {};
    for i := 0 to tab.Length
      invariant Buckets(tab', chains', done) && Before(chains, nodes, i, 0, done)
      invariant forall q | q in nodes && q !in done :: q.next == next[q]
    {
      var p := tab[i];
      ghost var k: nat := 0;
      while p != null
        invariant k <= |chains[i]| && p == At(chains[i], k)
        invariant Buckets(tab', chains', done) && Before(chains, nodes, i, k, done)
        invariant forall q | q in nodes && q !in done :: q.next == next[q]
        decreases |chains[i]| - k
      {
        BeforeNext(chains, nodes, next, i, k, done, p);
        var q := p.next;
        Push(tab', chains', done, p);
        chains', done, k := Pushed(chains', p), done + {p}, k + 1;
        p := q;
      }
      BeforeChain(chains, nodes, i, k, done);
    }
    BeforeAll(chains, nodes, done);
  }

  // A chain without some entries.
  function Drop<V>(c: seq<Iter<V>>, gone: set<Iter<V>>): seq<Iter<V>> {
    if c == [] then [] else (if c[0] in gone then [] else [c[0]]) + Drop(c[1..], gone)
  }

  function DropAll<V>(chains: seq<seq<Iter<V>>>, gone: set<Iter<V>>): seq<seq<Iter<V>>> {
    seq(|chains|, h requires 0 <= h < |chains| => Drop(chains[h], gone))
  }

  lemma {:induction false} DropKeeps<V>(c: seq<Iter<V>>, gone: set<Iter<V>>)
    ensures forall p | p in c && p !in gone :: p in Drop(c, gone)
    ensures forall k | 0 <= k < |Drop(c, gone)| :: Drop(c, gone)[k] in c && Drop(c, gone)[k] !in gone
    ensures Distinct(c) ==> Distinct(Drop(c, gone))
  {
    if c != [] {
      DropKeeps(c[1..], gone);
      assert forall p | p in c :: p == c[0] || p in c[1..];
    }
  }

  ghost predicate Distinct<V>(c: seq<Iter<V>>) { forall j, k | 0 <= j < k < |c| :: c[j] != c[k] }

  lemma {:induction false} DropNone<V>(c: seq<Iter<V>>, gone: set<Iter<V>>)
    requires forall p | p in c :: p !in gone
    ensures Drop(c, gone) == c
  {
    if c != [] { DropNone(c[1..], gone); }
  }

  lemma {:induction false} DropTwice<V>(c: seq<Iter<V>>, a: set<Iter<V>>, b: set<Iter<V>>)
    ensures Drop(Drop(c, a), b) == Drop(c, a + b)
  {
    if c != [] {
      DropTwice(c[1..], a, b);
      if c[0] in a {
        assert Drop(c, a) == Drop(c[1..], a);
      } else {
        assert Drop(c, a)[1..] == Drop(c[1..], a);
      }
    }
  }

  lemma {:induction false} DropFrom<V>(c: seq<Iter<V>>, k: nat, gone: set<Iter<V>>)
    requires k <= |c| && forall j | k <= j < |c| :: c[j] !in gone
    ensures Drop(c, gone) == Drop(c[..k], gone) + c[k..]
  {
    if k == 0 {
      assert c[..0] == [] && c[0..] == c;
      DropNone(c, gone);
    } else {
      DropFrom(c[1..], k - 1, gone);
      assert c[..k][1..] == c[1..][..k - 1] && c[1..][k - 1..] == c[k..];
    }
  }

  lemma {:induction false} DropOne<V>(c: seq<Iter<V>>, k: nat)
    requires Distinct(c) && k < |c|
    ensures Drop(c, {c[k]}) == c[..k] + c[k + 1..]
  {
    if k == 0 {
      DropNone(c[1..], {c[0]});
    } else {
      DropOne(c[1..], k - 1);
      assert c[..k] + c[k + 1..] == [c[0]] + (c[1..][..k - 1] + c[1..][k..]);
    }
  }

  lemma DroppedPlaced<V>(chains: seq<seq<Iter<V>>>, nodes: set<Iter<V>>, gone: set<Iter<V>>)
    requires Placed(chains, nodes)
    ensures Placed(DropAll(chains, gone), nodes - gone)
  {
    hide Index;
    var chains' := DropAll(chains, gone);
    forall h | 0 <= h < |chains| ensures Distinct(chains'[h]) {
      assert Distinct(chains[h]);
      DropKeeps(chains[h], gone);
    }
    forall h, k | 0 <= h < |chains'| && 0 <= k < |chains'[h]|
      ensures chains'[h][k] in nodes - gone && Index(chains'[h][k].hkey, |chains'|) == h
    {
      DropKeeps(chains[h], gone);
      assert chains'[h][k] == Drop(chains[h], gone)[k];
    }
    forall p | p in nodes - gone ensures p in chains'[Index(p.hkey, |chains'|)] {
      DropKeeps(chains[Index(p.hkey, |chains|)], gone);
    }
  }

  // The links when p has been taken out of its chain.
  ghost function NextsWithout<V>(next: Links<V>, p: Iter<V>, nx: Iter?<V>, pr: Iter?<V>): Links<V> {
    (if pr == null then next else next[pr := nx]) - {p}
  }

  lemma NextsWithoutIs<V>(next: Links<V>, p: Iter<V>, nx: Iter?<V>, pr: Iter?<V>, q: Iter<V>)
    requires q != p && q in next
    ensures var next' := NextsWithout(next, p, nx, pr); q in next' && next'[q] == if q == pr then nx else next[q]
  {}

  lemma RemovedLinked<V>(next: Links<V>, prev: Links<V>, c: seq<Iter<V>>, k: nat)
    requires Linked(At(c, 0), next, prev, c) && Distinct(c) && k < |c|
    ensures
      var (nx, pr) := (At(c, k + 1), At(c, k - 1));
      Linked(if pr == null then nx else c[0], NextsWithout(next, c[k], nx, pr), NextsWithout(prev, c[k], pr, nx),
          c[..k] + c[k + 1..])
  {
    hide NextsWithout, Distinct;
    var (p, nx, pr, d) := (c[k], At(c, k + 1), At(c, k - 1), c[..k] + c[k + 1..]);
    var next', prev' := NextsWithout(next, p, nx, pr), NextsWithout(prev, p, pr, nx);
    forall j | 0 <= j < |d|
      ensures d[j] in next' && next'[d[j]] == At(d, j + 1) && d[j] in prev' && prev'[d[j]] == At(d, j - 1)
    {
      var i := if j < k then j else j + 1;
      RemovedAt(c, k, j);
      LinksOf(At(c, 0), next, prev, c, i);
      NextsWithoutIs(next, p, nx, pr, c[i]);
      NextsWithoutIs(prev, p, pr, nx, c[i]);
    }
  }

  lemma RemovedAt<V>(c: seq<Iter<V>>, k: nat, j: nat)
    requires Distinct(c) && k < |c| && j < |c| - 1
    ensures
      var (d, i) := (c[..k] + c[k + 1..], if j < k then j else j + 1);
      && d[j] == c[i] != c[k] && (c[i] == At(c, k - 1) <==> i == k - 1) && (c[i] == At(c, k + 1) <==> i == k + 1)
      && At(d, j + 1) == (if i == k - 1 then At(c, k + 1) else At(c, i + 1))
      && At(d, j - 1) == (if i == k + 1 then At(c, k - 1) else At(c, i - 1))
  {}

  lemma RemovedShape<V>(heads: seq<Iter?<V>>, next: Links<V>, prev: Links<V>, chains: seq<seq<Iter<V>>>,
      nodes: set<Iter<V>>, p: Iter<V>)
    requires Shape(heads, next, prev, chains, nodes) && p in nodes && p in next && p in prev
    ensures |heads| >= 1
    ensures
      var (h, nx, pr) := (Index(p.hkey, |heads|), next[p], prev[p]);
      Shape(if pr == null then heads[h := nx] else heads, NextsWithout(next, p, nx, pr), NextsWithout(prev, p, pr, nx),
            DropAll(chains, {p}), nodes - {p})
  {
    hide Index, Placed, Linked, Drop, NextsWithout;
    DroppedPlaced(chains, nodes, {p});
    var k := PlaceOf(chains, nodes, p);
    var h := Index(p.hkey, |heads|);
    var nx, pr := next[p], prev[p];
    assert Linked(heads[h], next, prev, chains[h]);
    LinksOf(heads[h], next, prev, chains[h], k);
    var heads', next', prev' := if pr == null then heads[h := nx] else heads, NextsWithout(next, p, nx, pr),
        NextsWithout(prev, p, pr, nx);
    forall i | 0 <= i < |chains| ensures Linked(heads'[i], next', prev', DropAll(chains, {p})[i]) {
      if i == h {
        DropOne(chains[h], k);
        RemovedLinked(next, prev, chains[h], k);
      } else {
        ChainsApart(chains, nodes, h, k, i);
        DropNone(chains[i], {p});
        UntouchedLinked(heads[i], next, prev, p, nx, pr, chains[i]);
      }
    }
  }

  lemma PlaceOf<V>(chains: seq<seq<Iter<V>>>, nodes: set<Iter<V>>, p: Iter<V>) returns (k: nat)
    requires Placed(chains, nodes) && p in nodes
    ensures |chains| >= 1
    ensures var c := chains[Index(p.hkey, |chains|)]; k < |c| && c[k] == p && Distinct(c)
  {
    hide Index;
    k :| k < |chains[Index(p.hkey, |chains|)]| && chains[Index(p.hkey, |chains|)][k] == p;
  }

  lemma LinksOf<V>(head: Iter?<V>, next: Links<V>, prev: Links<V>, c: seq<Iter<V>>, k: nat)
    requires Linked(head, next, prev, c) && k < |c|
    ensures head == At(c, 0) && c[k] in next && next[c[k]] == At(c, k + 1) && c[k] in prev && prev[c[k]] == At(c, k - 1)
  {}

  lemma ChainsApart<V>(chains: seq<seq<Iter<V>>>, nodes: set<Iter<V>>, h: nat, k: nat, i: nat)
    requires Placed(chains, nodes) && h < |chains| && k < |chains[h]| && i < |chains| && i != h
    ensures chains[h][k] !in chains[i]
    ensures At(chains[h], k + 1) !in chains[i] && At(chains[h], k - 1) !in chains[i]
  {
    hide Index;
  }

  lemma UntouchedLinked<V>(head: Iter?<V>, next: Links<V>, prev: Links<V>, p: Iter<V>, nx: Iter?<V>, pr: Iter?<V>,
      c: seq<Iter<V>>)
    requires Linked(head, next, prev, c) && p !in c && nx !in c && pr !in c
    ensures Linked(head, NextsWithout(next, p, nx, pr), NextsWithout(prev, p, pr, nx), c)
  {}

  // Take p out of its chain.
  method Unlink<V>(tab: array<Iter?<V>>, ghost chains: seq<seq<Iter<V>>>, ghost nodes: set<Iter<V>>, p: Iter<V>)
    requires Buckets(tab, chains, nodes) && p in nodes
    modifies tab, nodes`next, nodes`prev
    ensures Buckets(tab, DropAll(chains, {p}), nodes - {p})
  {
    hide *;
    BucketFacts(tab, chains, nodes);
    ghost var heads, next, prev := tab[..], Nexts(nodes), Prevs(nodes);
    ghost var nx, pr := next[p], prev[p];
    RemovedShape(heads, next, prev, chains, nodes, p);
    Neighbours(heads, next, prev, chains, nodes, p);
    if p.next != null { p.next.prev := p.prev; }
    if p.prev != null {
      p.prev.next := p.next;
    } else {
      tab[Index(p.hkey, tab.Length)] := p.next;
    }
    assert tab[..] == if pr == null then heads[Index(p.hkey, |heads|) := nx] else heads;
    NextsAre(nodes - {p}, NextsWithout(next, p, nx, pr));
    PrevsAre(nodes - {p}, NextsWithout(prev, p, pr, nx));
    BucketsFrom(tab, DropAll(chains, {p}), nodes - {p});
  }

  lemma Neighbours<V>(heads: seq<Iter?<V>>, next: Links<V>, prev: Links<V>, chains: seq<seq<Iter<V>>>,
      nodes: set<Iter<V>>, p: Iter<V>)
    requires Shape(heads, next, prev, chains, nodes) && p in nodes && p in next && p in prev
    ensures var (nx, pr) := (next[p], prev[p]);
      && p != nx && p != pr && (nx != null ==> nx in nodes) && (pr != null ==> pr in nodes) && (nx == pr ==> nx == null)
      && NextsWithout(next, p, nx, pr) == (if pr == null then next else next[pr := nx]) - {p}
      && NextsWithout(prev, p, pr, nx) == (if nx == null then prev else prev[nx := pr]) - {p}
  {
    hide Index, Placed, Linked;
    var k := PlaceOf(chains, nodes, p);
    var h := Index(p.hkey, |heads|);
    assert Linked(heads[h], next, prev, chains[h]);
    LinksOf(heads[h], next, prev, chains[h], k);
    if k + 1 < |chains[h]| { EntryAt(chains, nodes, h, k + 1); }
    if k > 0 { EntryAt(chains, nodes, h, k - 1); }
  }

  // Walking along a chain.
  lemma HeadAt<V>(tab: array<Iter?<V>>, chains: seq<seq<Iter<V>>>, nodes: set<Iter<V>>, h: nat)
    requires Buckets(tab, chains, nodes) && h < |chains|
    ensures h < tab.Length && tab[h] == At(chains[h], 0)
  {
    hide Placed;
    assert Linked(tab[..][h], Nexts(nodes), Prevs(nodes), chains[h]);
  }

  lemma Along<V>(tab: array<Iter?<V>>, chains: seq<seq<Iter<V>>>, nodes: set<Iter<V>>, h: nat, k: nat, p: Iter<V>)
    requires Buckets(tab, chains, nodes) && h < |chains| && k <= |chains[h]| && p == At(chains[h], k)
    ensures k < |chains[h]| && p == chains[h][k] && p in nodes
    ensures p.next == At(chains[h], k + 1) && p.prev == At(chains[h], k - 1)
  {
    hide Placed;
    assert Linked(tab[..][h], Nexts(nodes), Prevs(nodes), chains[h]);
    EntryAt(chains, nodes, h, k);
  }

  lemma PastEnd<V>(c: seq<Iter<V>>, k: nat)
    requires k <= |c|
    ensures At(c, k) == null <==> k == |c|
  {}

  lemma EntryPlaced<V>(chains: seq<seq<Iter<V>>>, nodes: set<Iter<V>>, p: Iter<V>)
    requires Placed(chains, nodes) && p in nodes
    ensures |chains| >= 1 && p in chains[Index(p.hkey, |chains|)]
  {}
}
