// The doubly linked list of list.c, in memory.
module List {
  import opened Sequences

  // sd_list_iter_t.  The data of a node is set when the node is made.
  class Node<T> {
    const data: T
    var next: Node?<T>
    var prev: Node?<T>
    var visiting: bool

    constructor (data: T)
      ensures this.data == data && next == null && prev == null && !visiting
    {
      this.data, next, prev, visiting := data, null, null, false;
    }
  }

  // What a traversal callback says about a node: whether it deletes the node,
  // what it returns, and the user data it leaves.
  datatype Verdict<S> = Verdict(deletes: bool, ret: int, next: S)

  // The k-th node of a chain, null outside it.
  function At<T>(c: seq<Node<T>>, k: int): Node?<T> { if 0 <= k < |c| then c[k] else null }

  ghost predicate Distinct<T>(c: seq<Node<T>>) { forall j, k | 0 <= j < k < |c| :: c[j] != c[k] }

  ghost function Set<T>(c: seq<Node<T>>): set<Node<T>> { set p | p in c }

  // What the nodes hold.
  function Data<T>(c: seq<Node<T>>): seq<T> { seq(|c|, k requires 0 <= k < |c| => c[k].data) }

  type Links<T> = map<Node<T>, Node?<T>>

  ghost function Nexts<T>(nodes: set<Node<T>>): Links<T>
    reads nodes
  {
    map p | p in nodes :: p.next
  }

  ghost function Prevs<T>(nodes: set<Node<T>>): Links<T>
    reads nodes
  {
    map p | p in nodes :: p.prev
  }

  // Following next from the head gives the chain, following prev from the tail gives it backwards.
  ghost predicate Linked<T>(head: Node?<T>, tail: Node?<T>, next: Links<T>, prev: Links<T>, c: seq<Node<T>>) {
    && Distinct(c) && head == At(c, 0) && tail == At(c, |c| - 1)
    && forall k | 0 <= k < |c| ::
         c[k] in next && next[c[k]] == At(c, k + 1) && c[k] in prev && prev[c[k]] == At(c, k - 1)
  }

  ghost predicate Strung<T>(head: Node?<T>, tail: Node?<T>, nelem: nat, c: seq<Node<T>>, nodes: set<Node<T>>)
    reads nodes
  {
    nelem == |c| && nodes == Set(c) && Linked(head, tail, Nexts(nodes), Prevs(nodes), c)
  }

  // A node between the (k-1)-th and the k-th.
  function Inserted<T>(c: seq<Node<T>>, k: nat, p: Node<T>): seq<Node<T>>
    requires k <= |c|
  {
    c[..k] + [p] + c[k..]
  }

  ghost function LinksWith<T>(links: Links<T>, neighbour: Node?<T>, p: Node<T>, target: Node?<T>): Links<T> {
    (if neighbour == null then links else links[neighbour := p])[p := target]
  }

  lemma LinksWithIs<T>(links: Links<T>, neighbour: Node?<T>, p: Node<T>, target: Node?<T>, q: Node<T>)
    requires q == p || q in links
    ensures var l := LinksWith(links, neighbour, p, target);
      q in l && l[q] == if q == p then target else if q == neighbour then p else links[q]
  {}

  lemma InsertedAt<T>(c: seq<Node<T>>, k: nat, p: Node<T>, j: nat)
    requires Distinct(c) && p !in c && k <= |c| && j <= |c|
    ensures
      var (d, i) := (Inserted(c, k, p), if j <= k then j else j - 1);
      && d[j] == (if j == k then p else c[i])
      && (j != k ==> (c[i] == At(c, k - 1) <==> j == k - 1) && (c[i] == At(c, k) <==> j == k + 1))
      && At(d, j + 1) == (if j == k then At(c, k) else if j == k - 1 then p else At(c, i + 1))
      && At(d, j - 1) == (if j == k then At(c, k - 1) else if j == k + 1 then p else At(c, i - 1))
  {}

  lemma InsertedDistinct<T>(c: seq<Node<T>>, k: nat, p: Node<T>)
    requires Distinct(c) && p !in c && k <= |c|
    ensures Distinct(Inserted(c, k, p)) && Set(Inserted(c, k, p)) == Set(c) + {p}
  {
    var d := Inserted(c, k, p);
    forall q | q in c ensures q in d {
      var j :| 0 <= j < |c| && c[j] == q;
      assert d[if j < k then j else j + 1] == q;
    }
    assert d[k] == p;
  }

  lemma LinkOf<T>(head: Node?<T>, tail: Node?<T>, next: Links<T>, prev: Links<T>, c: seq<Node<T>>, k: nat)
    requires Linked(head, tail, next, prev, c) && k < |c|
    ensures c[k] in next && next[c[k]] == At(c, k + 1) && c[k] in prev && prev[c[k]] == At(c, k - 1)
  {}

  lemma InsertedLinked<T>(head: Node?<T>, tail: Node?<T>, next: Links<T>, prev: Links<T>, c: seq<Node<T>>, k: nat,
      p: Node<T>)
    requires Linked(head, tail, next, prev, c) && p !in c && k <= |c|
    ensures Linked(if k == 0 then p else head, if k == |c| then p else tail,
                   LinksWith(next, At(c, k - 1), p, At(c, k)), LinksWith(prev, At(c, k), p, At(c, k - 1)),
                   Inserted(c, k, p))
    ensures Set(Inserted(c, k, p)) == Set(c) + {p}
  {
    InsertedDistinct(c, k, p);
    hide LinksWith, Distinct, Set;
    var d, next', prev' := Inserted(c, k, p), LinksWith(next, At(c, k - 1), p, At(c, k)),
        LinksWith(prev, At(c, k), p, At(c, k - 1));
    forall j | 0 <= j < |d|
      ensures d[j] in next' && next'[d[j]] == At(d, j + 1) && d[j] in prev' && prev'[d[j]] == At(d, j - 1)
    {
      InsertedAt(c, k, p, j);
      if j != k { LinkOf(head, tail, next, prev, c, if j < k then j else j - 1); }
      LinksWithIs(next, At(c, k - 1), p, At(c, k), d[j]);
      LinksWithIs(prev, At(c, k), p, At(c, k - 1), d[j]);
    }
  }

  // The k-th node taken out.
  function Removed<T>(c: seq<Node<T>>, k: nat): seq<Node<T>>
    requires k < |c|
  {
    c[..k] + c[k + 1..]
  }

  ghost function LinksWithout<T>(links: Links<T>, neighbour: Node?<T>, p: Node<T>, target: Node?<T>): Links<T> {
    (if neighbour == null then links else links[neighbour := target]) - {p}
  }

  lemma LinksWithoutIs<T>(links: Links<T>, neighbour: Node?<T>, p: Node<T>, target: Node?<T>, q: Node<T>)
    requires q != p && q in links
    ensures var l := LinksWithout(links, neighbour, p, target);
      q in l && l[q] == if q == neighbour then target else links[q]
  {}

  lemma RemovedAt<T>(c: seq<Node<T>>, k: nat, j: nat)
    requires Distinct(c) && k < |c| && j < |c| - 1
    ensures
      var (d, i) := (Removed(c, k), if j < k then j else j + 1);
      && d[j] == c[i] != c[k] && (c[i] == At(c, k - 1) <==> i == k - 1) && (c[i] == At(c, k + 1) <==> i == k + 1)
      && At(d, j + 1) == (if i == k - 1 then At(c, k + 1) else At(c, i + 1))
      && At(d, j - 1) == (if i == k + 1 then At(c, k - 1) else At(c, i - 1))
  {}

  lemma RemovedDistinct<T>(c: seq<Node<T>>, k: nat)
    requires Distinct(c) && k < |c|
    ensures Distinct(Removed(c, k)) && Set(Removed(c, k)) == Set(c) - {c[k]}
  {
    var d := Removed(c, k);
    forall q | q in c && q != c[k] ensures q in d {
      var j :| 0 <= j < |c| && c[j] == q;
      assert d[if j < k then j else j - 1] == q;
    }
  }

  lemma RemovedLinked<T>(head: Node?<T>, tail: Node?<T>, next: Links<T>, prev: Links<T>, c: seq<Node<T>>, k: nat)
    requires Linked(head, tail, next, prev, c) && k < |c|
    ensures var (nx, pr) := (At(c, k + 1), At(c, k - 1));
      Linked(if pr == null then nx else head, if nx == null then pr else tail,
             LinksWithout(next, pr, c[k], nx), LinksWithout(prev, nx, c[k], pr), Removed(c, k))
    ensures Set(Removed(c, k)) == Set(c) - {c[k]}
  {
    RemovedDistinct(c, k);
    hide LinksWithout, Distinct, Set;
    var (p, nx, pr, d) := (c[k], At(c, k + 1), At(c, k - 1), Removed(c, k));
    var next', prev' := LinksWithout(next, pr, p, nx), LinksWithout(prev, nx, p, pr);
    forall j | 0 <= j < |d|
      ensures d[j] in next' && next'[d[j]] == At(d, j + 1) && d[j] in prev' && prev'[d[j]] == At(d, j - 1)
    {
      RemovedAt(c, k, j);
      LinkOf(head, tail, next, prev, c, if j < k then j else j + 1);
      LinksWithoutIs(next, pr, p, nx, d[j]);
      LinksWithoutIs(prev, nx, p, pr, d[j]);
    }
  }

  lemma SetHas<T>(c: seq<Node<T>>)
    ensures forall k | 0 <= k < |c| :: c[k] in Set(c)
  {}

  lemma LinksAre<T>(nodes: set<Node<T>>)
    ensures Nexts(nodes).Keys == Prevs(nodes).Keys == nodes
    ensures forall p | p in nodes :: Nexts(nodes)[p] == p.next && Prevs(nodes)[p] == p.prev
  {}

  lemma LinkedEnds<T>(head: Node?<T>, tail: Node?<T>, next: Links<T>, prev: Links<T>, c: seq<Node<T>>)
    requires Linked(head, tail, next, prev, c)
    ensures Distinct(c) && head == At(c, 0) && tail == At(c, |c| - 1)
  {
    hide Distinct, At;
  }

  lemma StrungFacts<T>(head: Node?<T>, tail: Node?<T>, nelem: nat, c: seq<Node<T>>, nodes: set<Node<T>>)
    requires Strung(head, tail, nelem, c, nodes)
    ensures nelem == |c| && Linked(head, tail, Nexts(nodes), Prevs(nodes), c) && Distinct(c) && nodes == Set(c)
    ensures forall k | 0 <= k < |c| :: c[k] in nodes
    ensures head == At(c, 0) && tail == At(c, |c| - 1)
    ensures Nexts(nodes).Keys == Prevs(nodes).Keys == nodes
    ensures forall p | p in nodes :: Nexts(nodes)[p] == p.next && Prevs(nodes)[p] == p.prev
  {
    hide Linked, Set, Nexts, Prevs, Distinct, At;
    SetHas(c);
    LinksAre(nodes);
    LinkedEnds(head, tail, Nexts(nodes), Prevs(nodes), c);
  }

  lemma StrungFrom<T>(head: Node?<T>, tail: Node?<T>, nelem: nat, c: seq<Node<T>>, nodes: set<Node<T>>, next: Links<T>,
      prev: Links<T>)
    requires nelem == |c| && nodes == Set(c) && Linked(head, tail, next, prev, c)
    requires next.Keys == prev.Keys == nodes && forall p | p in nodes :: next[p] == p.next && prev[p] == p.prev
    ensures Strung(head, tail, nelem, c, nodes)
  {
    hide Linked, Set;
    assert next == Nexts(nodes) && prev == Prevs(nodes);
  }

  lemma LinksWithAll<T>(links: Links<T>, neighbour: Node?<T>, p: Node<T>, target: Node?<T>)
    requires neighbour == null || neighbour in links
    ensures var l := LinksWith(links, neighbour, p, target);
      && l.Keys == links.Keys + {p}
      && forall q | q in l :: l[q] == if q == p then target else if q == neighbour then p else links[q]
  {}

  lemma LinksWithoutAll<T>(links: Links<T>, neighbour: Node?<T>, p: Node<T>, target: Node?<T>)
    requires neighbour == null || neighbour in links
    ensures var l := LinksWithout(links, neighbour, p, target);
      && l.Keys == links.Keys - {p}
      && forall q | q in l :: l[q] == if q == neighbour then target else links[q]
  {}

  // Where a node goes, and the links to be made.
  lemma Inserting<T>(head: Node?<T>, tail: Node?<T>, nelem: nat, c: seq<Node<T>>, nodes: set<Node<T>>, k: nat,
      p: Node<T>)
    returns (next: Links<T>, prev: Links<T>)
    requires Strung(head, tail, nelem, c, nodes) && k <= |c| && p !in nodes
    ensures var d := Inserted(c, k, p);
      && |d| == nelem + 1 && Set(d) == nodes + {p}
      && Linked(if k == 0 then p else head, if k == |c| then p else tail, next, prev, d)
    ensures next.Keys == prev.Keys == nodes + {p}
    ensures forall q | q in nodes ::
      next[q] == (if q == At(c, k - 1) then p else q.next) && prev[q] == (if q == At(c, k) then p else q.prev)
    ensures next[p] == At(c, k) && prev[p] == At(c, k - 1)
  {
    hide *;
    StrungFacts(head, tail, nelem, c, nodes);
    NotIn(c, nodes, p);
    InsertedLinked(head, tail, Nexts(nodes), Prevs(nodes), c, k, p);
    next, prev := LinksWith(Nexts(nodes), At(c, k - 1), p, At(c, k)),
        LinksWith(Prevs(nodes), At(c, k), p, At(c, k - 1));
    AtIn(c, nodes, k);
    AtIn(c, nodes, k - 1);
    LinksWithAll(Nexts(nodes), At(c, k - 1), p, At(c, k));
    LinksWithAll(Prevs(nodes), At(c, k), p, At(c, k - 1));
    InsertedSize(c, k, p);
  }

  lemma InsertedSize<T>(c: seq<Node<T>>, k: nat, p: Node<T>)
    requires k <= |c|
    ensures |Inserted(c, k, p)| == |c| + 1
  {}

  lemma NotIn<T>(c: seq<Node<T>>, nodes: set<Node<T>>, p: Node<T>)
    requires nodes == Set(c)
    ensures p in nodes <==> p in c
  {}

  lemma AtIn<T>(c: seq<Node<T>>, nodes: set<Node<T>>, k: int)
    requires nodes == Set(c)
    ensures if 0 <= k < |c| then At(c, k) == c[k] && c[k] in nodes else At(c, k) == null
  {}

  lemma Removing<T>(head: Node?<T>, tail: Node?<T>, nelem: nat, c: seq<Node<T>>, nodes: set<Node<T>>, k: nat)
    returns (next: Links<T>, prev: Links<T>)
    requires Strung(head, tail, nelem, c, nodes) && k < |c|
    ensures
      var (p, d) := (c[k], Removed(c, k));
      && p in nodes && p.next != p && p.prev != p
      && (p.next != null ==> p.next in nodes) && (p.prev != null ==> p.prev in nodes)
      && (p.next == p.prev ==> p.next == null)
      && |d| == nelem - 1 && Set(d) == nodes - {p}
      && Linked(if p.prev == null then p.next else head, if p.next == null then p.prev else tail, next, prev, d)
      && next.Keys == prev.Keys == nodes - {p}
      && forall q | q in nodes && q != p ::
           next[q] == (if q == p.prev then p.next else q.next) && prev[q] == (if q == p.next then p.prev else q.prev)
  {
    hide *;
    var p, nx, pr := c[k], At(c, k + 1), At(c, k - 1);
    StrungFacts(head, tail, nelem, c, nodes);
    LinkOf(head, tail, Nexts(nodes), Prevs(nodes), c, k);
    RemovedLinked(head, tail, Nexts(nodes), Prevs(nodes), c, k);
    AtIn(c, nodes, k + 1);
    AtIn(c, nodes, k - 1);
    next, prev := LinksWithout(Nexts(nodes), pr, p, nx), LinksWithout(Prevs(nodes), nx, p, pr);
    LinksWithoutAll(Nexts(nodes), pr, p, nx);
    LinksWithoutAll(Prevs(nodes), nx, p, pr);
    RemovedSize(c, k);
  }

  lemma RemovedSize<T>(c: seq<Node<T>>, k: nat)
    requires Distinct(c) && k < |c|
    ensures |Removed(c, k)| == |c| - 1
    ensures forall j | 0 <= j < |c| && j != k :: c[j] != c[k]
    ensures 0 < k < |c| - 1 ==> c[k - 1] != c[k + 1]
  {}

  // A step along the chain, either way.
  lemma Along<T>(head: Node?<T>, tail: Node?<T>, nelem: nat, c: seq<Node<T>>, nodes: set<Node<T>>, k: int, p: Node<T>)
    requires Strung(head, tail, nelem, c, nodes) && p == At(c, k)
    ensures 0 <= k < |c| && p == c[k] && p in nodes && p.next == At(c, k + 1) && p.prev == At(c, k - 1)
  {
    LinkOf(head, tail, Nexts(nodes), Prevs(nodes), c, k);
    hide Linked;
    AtIn(c, nodes, k);
  }

  lemma Ends<T>(c: seq<Node<T>>, k: int)
    ensures At(c, k) == null <==> !(0 <= k < |c|)
  {}

  class List<T(==)> {
    var head: Node?<T>
    var tail: Node?<T>
    var nelem: nat
    ghost var chain: seq<Node<T>>
    ghost var nodes: set<Node<T>>

    ghost predicate Valid()
      reads this, nodes
    {
      Strung(head, tail, nelem, chain, nodes) && forall p | p in nodes :: !p.visiting
    }

    // sd_list_new.
    constructor ()
      ensures Valid() && chain == []
    {
      head, tail, nelem, chain, nodes := null, null, 0, [], {};
    }

    // The count of the nodes, when i has been linked in.
    method Enlist(i: Node<T>, ghost k: nat, ghost next: Links<T>, ghost prev: Links<T>)
      requires nelem == |chain| && k <= |chain| && Linked(head, tail, next, prev, Inserted(chain, k, i))
      requires Set(Inserted(chain, k, i)) == next.Keys == prev.Keys == nodes + {i}
          && |Inserted(chain, k, i)| == nelem + 1
      requires forall q | q in nodes + {i} :: next[q] == q.next && prev[q] == q.prev && !q.visiting
      modifies this`nelem, this`chain, this`nodes
      ensures Valid() && chain == Inserted(old(chain), k, i) && nodes == old(nodes) + {i}
    {
      hide *;
      assert forall q: object | q in nodes + {i} :: q != this;
      nelem := nelem + 1;
      chain, nodes := Inserted(chain, k, i), nodes + {i};
      StrungFrom(head, tail, nelem, chain, nodes, next, prev);
      ValidFrom(this);
    }

    // sd_list_add.
    method Add(data: T) returns (i: Node<T>)
      requires Valid()
      modifies this, nodes`prev
      ensures Valid() && fresh(i) && i.data == data && chain == [i] + old(chain) && nodes == old(nodes) + {i}
    {
      hide *;
      ValidFacts(this);
      i := new Node(data);
      ghost var next, prev := Inserting(head, tail, nelem, chain, nodes, 0, i);
      InsertedEnds(chain, i);
      i.next := head;
      i.prev := null;
      head := i;
      if i.next != null { i.next.prev := i; }
      if tail == null { tail := i; }
      Enlist(i, 0, next, prev);
    }

    // sd_list_prepend.
    method Prepend(data: T) returns (i: Node<T>)
      requires Valid()
      modifies this, nodes`prev
      ensures Valid() && fresh(i) && i.data == data && chain == [i] + old(chain) && nodes == old(nodes) + {i}
    {
      hide *;
      ValidFacts(this);
      i := new Node(data);
      ghost var next, prev := Inserting(head, tail, nelem, chain, nodes, 0, i);
      InsertedEnds(chain, i);
      i.prev := null;
      i.next := head;
      head := i;
      if i.next != null {
        i.next.prev := i;
      } else {
        tail := i;
      }
      Enlist(i, 0, next, prev);
    }

    // sd_list_append.
    method Append(data: T) returns (i: Node<T>)
      requires Valid()
      modifies this, nodes`next
      ensures Valid() && fresh(i) && i.data == data && chain == old(chain) + [i] && nodes == old(nodes) + {i}
    {
      hide *;
      ValidFacts(this);
      i := new Node(data);
      ghost var next, prev := Inserting(head, tail, nelem, chain, nodes, |chain|, i);
      InsertedEnds(chain, i);
      i.prev := tail;
      i.next := null;
      tail := i;
      if i.prev != null {
        i.prev.next := i;
      } else {
        head := i;
      }
      Enlist(i, |chain|, next, prev);
    }

    // sd_list_iter_insert: in front of the k-th node p.
    method IterInsert(p: Node<T>, data: T, ghost k: nat) returns (i: Node<T>)
      requires Valid() && p == At(chain, k)
      modifies this, nodes`next, nodes`prev
      ensures Valid() && fresh(i) && i.data == data && nodes == old(nodes) + {i}
      ensures k < |old(chain)| && chain == Inserted(old(chain), k, i)
    {
      hide *;
      ValidFacts(this);
      Along(head, tail, nelem, chain, nodes, k, p);
      HeadOnly(chain, nodes, k);
      if head == p {
        i := Prepend(data);
        InsertedEnds(old(chain), i);
      } else {
        i := InsertBetween(p, data, k);
      }
    }

    method InsertBetween(p: Node<T>, data: T, ghost k: nat) returns (i: Node<T>)
      requires Valid() && p == At(chain, k) && k > 0
      modifies this, nodes`next, nodes`prev
      ensures Valid() && fresh(i) && i.data == data && nodes == old(nodes) + {i}
      ensures k < |old(chain)| && chain == Inserted(old(chain), k, i)
    {
      hide *;
      ValidFacts(this);
      Along(head, tail, nelem, chain, nodes, k, p);
      HeadOnly(chain, nodes, k);
      i := new Node(data);
      ghost var next, prev := Inserting(head, tail, nelem, chain, nodes, k, i);
      i.prev := p.prev;
      i.next := p;
      p.prev.next := i;
      p.prev := i;
      Enlist(i, k, next, prev);
    }

    // sd_list_lookup.
    method Lookup(data: T) returns (i: Node?<T>, ghost k: nat)
      requires Valid()
      ensures k <= |chain| && i == At(chain, k) && forall j | 0 <= j < k :: chain[j].data != data
      ensures i != null ==> i.data == data
    {
      hide *;
      ValidFacts(this);
      i, k := head, 0;
      while i != null
        invariant k <= |chain| && i == At(chain, k) && forall j | 0 <= j < k :: chain[j].data != data
        decreases |chain| - k
      {
        Along(head, tail, nelem, chain, nodes, k, i);
        if i.data == data { return; }
        i, k := i.next, k + 1;
      }
    }

    // sd_list_lookadd.
    method LookAdd(data: T) returns (i: Node<T>)
      requires Valid()
      modifies this, nodes`prev
      ensures Valid() && i.data == data
      ensures
        if data in Data(old(chain)) then chain == old(chain) && i in chain
        else fresh(i) && chain == [i] + old(chain)
    {
      hide *;
      var p, k := Lookup(data);
      LookupData(chain, k, data);
      if p != null { return p; }
      i := Add(data);
    }

    // sd_list_iter_del: a node being visited is taken out by the visitor afterwards.
    method IterDel(p: Node<T>, ghost k: nat)
      requires Strung(head, tail, nelem, chain, nodes) && p == At(chain, k)
      modifies this, nodes`next, nodes`prev, p`visiting
      ensures Strung(head, tail, nelem, chain, nodes) && !p.visiting && k < |old(chain)|
      ensures if old(p.visiting) then chain == old(chain) && nodes == old(nodes)
        else chain == Removed(old(chain), k) && nodes == old(nodes) - {p}
    {
      hide *;
      Along(head, tail, nelem, chain, nodes, k, p);
      if p.visiting {
        Mark(p, false);
      } else {
        Unlink(p, k);
      }
    }

    method Mark(p: Node<T>, b: bool)
      requires Strung(head, tail, nelem, chain, nodes) && p in nodes
      modifies p`visiting
      ensures Strung(head, tail, nelem, chain, nodes) && p.visiting == b
    {
      hide *;
      StrungFacts(head, tail, nelem, chain, nodes);
      ghost var next, prev := Nexts(nodes), Prevs(nodes);
      p.visiting := b;
      StrungFrom(head, tail, nelem, chain, nodes, next, prev);
    }

    method Unlink(p: Node<T>, ghost k: nat)
      requires Strung(head, tail, nelem, chain, nodes) && k < |chain| && p == chain[k]
      modifies this, nodes`next, nodes`prev
      ensures Strung(head, tail, nelem, chain, nodes)
      ensures chain == Removed(old(chain), k) && nodes == old(nodes) - {p}
    {
      hide *;
      StrungFacts(head, tail, nelem, chain, nodes);
      ghost var next, prev := Removing(head, tail, nelem, chain, nodes, k);
      assert forall q: object | q in nodes :: q != this;
      if p.next != null {
        p.next.prev := p.prev;
      } else {
        tail := p.prev;
      }
      if p.prev != null {
        p.prev.next := p.next;
      } else {
        head := p.next;
      }
      assert forall q | q in nodes - {p} :: next[q] == q.next && prev[q] == q.prev;
      nelem := nelem - 1;
      chain, nodes := Removed(chain, k), nodes - {p};
      StrungFrom(head, tail, nelem, chain, nodes, next, prev);
    }

    // sd_list_del: the first node with these data.
    method Del(data: T) returns (rc: int)
      requires Valid()
      modifies this, nodes
      ensures Valid() && rc == if data in Data(old(chain)) then 0 else -1
      ensures rc == -1 ==> chain == old(chain)
      ensures rc == 0 ==> exists k | 0 <= k < |old(chain)| && old(chain)[k].data == data ::
        data !in Data(old(chain)[..k]) && chain == Removed(old(chain), k)
    {
      hide *;
      ValidFacts(this);
      var i, k := Lookup(data);
      LookupData(chain, k, data);
      if i == null { return -1; }
      Along(head, tail, nelem, chain, nodes, k, i);
      IterDel(i, k);
      ValidFrom(this);
      return 0;
    }

    // sd_list_sortadd: in front of the first node that cmp says is above the data.
    method SortAdd(cmp: (T, T) -> int, data: T) returns (i: Node<T>, ghost k: nat)
      requires Valid()
      modifies this, nodes`next, nodes`prev
      ensures Valid() && fresh(i) && i.data == data && nodes == old(nodes) + {i}
      ensures FirstAbove(Data(old(chain)), cmp, data, k) && chain == Inserted(old(chain), k, i)
    {
      hide *;
      ValidFacts(this);
      ghost var c := chain;
      var p := head;
      k := 0;
      while p != null
        invariant k <= |c| && p == At(c, k) && forall j | 0 <= j < k :: cmp(c[j].data, data) <= 0
        modifies {}
        decreases |c| - k
      {
        Along(head, tail, nelem, chain, nodes, k, p);
        if cmp(p.data, data) > 0 { break; }
        p, k := p.next, k + 1;
      }
      FirstAboveFrom(c, cmp, data, k);
      if p != null {
        i := IterInsert(p, data, k);
      } else {
        i := Append(data);
        InsertedEnds(c, i);
      }
    }

    // One turn of sd_list_foreach or sd_list_rforeach.
    method Visit<S>(f: (S, T) -> Verdict<S>, a: S, p: Node<T>, forward: bool, ghost k: nat)
      returns (ret: int, b: S, q: Node?<T>)
      requires Valid() && k < |chain| && p == chain[k]
      modifies this, nodes`next, nodes`prev, p`visiting
      ensures Valid() && nodes <= old(nodes)
      ensures ret == f(a, p.data).ret && b == f(a, p.data).next && q == At(old(chain), if forward then k + 1 else k - 1)
      ensures chain == if f(a, p.data).deletes then Removed(old(chain), k) else old(chain)
    {
      hide *;
      ValidFacts(this);
      ghost var c := chain;
      AtIn(c, nodes, k);
      Mark(p, true);
      var v := f(a, p.data);
      ret, b := v.ret, v.next;
      if v.deletes { IterDel(p, k); }
      Along(head, tail, nelem, chain, nodes, k, p);
      q := if forward then p.next else p.prev;
      if !p.visiting {
        IterDel(p, k);
      } else {
        Mark(p, false);
      }
      ValidFrom(this);
    }

    // sd_list_foreach, with a callback that may delete the node it is given
    // and change its user data, a.
    method Foreach<S>(f: (S, T) -> Verdict<S>, a: S) returns (visited: seq<T>, b: S)
      requires Valid()
      modifies this, nodes
      ensures Valid() && Swept(f, a, old(chain), true, visited, b, chain)
    {
      hide *;
      ValidFacts(this);
      ghost var c, all := chain, nodes;
      var i := head;
      visited, b := [], a;
      SweepsFirst(c, f, a, true);
      while i != null
        invariant Valid() && nodes <= all && Sweeping(f, a, c, true, visited, b, chain) && i == At(c, |visited|)
        decreases |c| - |visited|
      {
        ghost var k := VisitNext(c, visited, b, chain, f, a, i);
        InNodes(this, k);
        var ret, j;
        ret, b, j := Visit(f, b, i, true, k);
        visited := visited + [i.data];
        if ret != 0 { return; }
        i := j;
      }
      SweepsLast(c, visited, b, chain, f, a, true);
    }

    // sd_list_rforeach.
    method Rforeach<S>(f: (S, T) -> Verdict<S>, a: S) returns (visited: seq<T>, b: S)
      requires Valid()
      modifies this, nodes
      ensures Valid() && Swept(f, a, old(chain), false, visited, b, chain)
    {
      hide *;
      ValidFacts(this);
      ghost var c, all := chain, nodes;
      var i := tail;
      visited, b := [], a;
      SweepsFirst(c, f, a, false);
      while i != null
        invariant Valid() && nodes <= all && Sweeping(f, a, c, false, visited, b, chain)
            && i == At(c, |c| - 1 - |visited|)
        decreases |c| - |visited|
      {
        ghost var k := VisitBefore(c, visited, b, chain, f, a, i);
        InNodes(this, k);
        var ret, j;
        ret, b, j := Visit(f, b, i, false, k);
        visited := visited + [i.data];
        if ret != 0 { return; }
        i := j;
      }
      SweepsLast(c, visited, b, chain, f, a, false);
    }

    // sd_list_delete: `freed` lists the nodes given to free.
    method Delete() returns (freed: seq<Node<T>>)
      requires Valid()
      ensures freed == chain
    {
      hide *;
      ValidFacts(this);
      freed := [];
      var current := head;
      while current != null
        invariant |freed| <= |chain| && freed == chain[..|freed|] && current == At(chain, |freed|)
        decreases |chain| - |freed|
      {
        Along(head, tail, nelem, chain, nodes, |freed|, current);
        freed, current := freed + [current], current.next;
      }
      Ends(chain, |freed|);
    }
  }

  // k elements are not above x, and the next one is.
  ghost predicate FirstAbove<T>(s: seq<T>, cmp: (T, T) -> int, x: T, k: nat) {
    && k <= |s| && (forall j | 0 <= j < k :: cmp(s[j], x) <= 0)
    && (k < |s| ==> cmp(s[k], x) > 0)
  }

  lemma FirstAboveFrom<T>(c: seq<Node<T>>, cmp: (T, T) -> int, x: T, k: nat)
    requires k <= |c| && forall j | 0 <= j < k :: cmp(c[j].data, x) <= 0
    requires At(c, k) != null ==> cmp(At(c, k).data, x) > 0
    ensures FirstAbove(Data(c), cmp, x, k) && (At(c, k) == null <==> k == |c|)
  {}

  // cmp is positive exactly when its first argument is strictly greater, in some total preorder.
  ghost predicate Preorder<T(!new)>(cmp: (T, T) -> int) {
    && (forall a, b :: cmp(a, b) > 0 ==> cmp(b, a) <= 0)
    && (forall a, b, c :: cmp(a, b) <= 0 && cmp(b, c) <= 0 ==> cmp(a, c) <= 0)
  }

  ghost predicate Sorted<T>(s: seq<T>, cmp: (T, T) -> int) {
    forall i, j | 0 <= i < j < |s| :: cmp(s[i], s[j]) <= 0
  }

  // Where sortadd puts x: after everything it is not below, equal elements
  // included, and before everything greater.  The list stays sorted.
  lemma SortAddKeepsOrder<T(!new)>(s: seq<T>, cmp: (T, T) -> int, x: T, k: nat)
    requires Preorder(cmp) && Sorted(s, cmp) && FirstAbove(s, cmp, x, k)
    ensures Sorted(s[..k] + [x] + s[k..], cmp)
    ensures forall j | 0 <= j < |s| :: j >= k <==> cmp(s[j], x) > 0
  {
    forall j | k < j < |s| ensures cmp(s[j], x) > 0 { assert cmp(s[k], s[j]) <= 0; }
    var t := s[..k] + [x] + s[k..];
    forall i, j | 0 <= i < j < |t| ensures cmp(t[i], t[j]) <= 0 {
      if i == k { assert t[j] == s[j - 1]; }
    }
  }

  // The user data when the callback has seen xs, one after the other, and its
  // verdict on the k-th of them.
  function After<S, T>(f: (S, T) -> Verdict<S>, a: S, xs: seq<T>): S {
    if xs == [] then a else f(After(f, a, xs[..|xs| - 1]), xs[|xs| - 1]).next
  }

  function VerdictOn<S, T>(f: (S, T) -> Verdict<S>, a: S, xs: seq<T>, k: nat): Verdict<S>
    requires k < |xs|
  {
    f(After(f, a, xs[..k]), xs[k])
  }

  // What the callback does not delete of a sequence it goes through.
  function Filter<S, T>(f: (S, T) -> Verdict<S>, a: S, xs: seq<T>): seq<T> {
    if xs == [] then []
    else Filter(f, a, xs[..|xs| - 1]) + if VerdictOn(f, a, xs, |xs| - 1).deletes then [] else [xs[|xs| - 1]]
  }

  function InTurn<T>(c: seq<Node<T>>, forward: bool): seq<T> { if forward then Data(c) else Reverse(Data(c)) }

  // The nodes the callback does not delete, from either end.
  function Kept<S, T>(f: (S, T) -> Verdict<S>, a: S, c: seq<Node<T>>, forward: bool): (d: seq<Node<T>>)
    ensures |d| <= |c|
    decreases |c|
  {
    if c == [] then []
    else
      var (rest, p) := if forward then (c[..|c| - 1], c[|c| - 1]) else (c[1..], c[0]);
      var one := if f(After(f, a, InTurn(rest, forward)), p.data).deletes then [] else [p];
      if forward then Kept(f, a, rest, true) + one else one + Kept(f, a, rest, false)
  }

  // The node visited last, and those visited before it.
  function Latest<T>(c: seq<Node<T>>, forward: bool): (Node<T>, seq<Node<T>>)
    requires c != []
  {
    if forward then (c[|c| - 1], c[..|c| - 1]) else (c[0], c[1..])
  }

  lemma InTurnMore<T>(c: seq<Node<T>>, forward: bool)
    requires c != []
    ensures var ((p, rest), xs) := (Latest(c, forward), InTurn(c, forward));
      |xs| == |c| && xs[..|c| - 1] == InTurn(rest, forward) && xs[|c| - 1] == p.data
  {}

  lemma InTurnJoins<T>(c: seq<Node<T>>, p: Node<T>)
    ensures InTurn(c + [p], true) == InTurn(c, true) + [p.data]
    ensures InTurn([p] + c, false) == InTurn(c, false) + [p.data]
  {
    DataJoins(c, p);
    ReverseJoins([p.data], Data(c));
    hide Data;
    assert Reverse([p.data]) == [p.data];
  }

  lemma DataJoins<T>(c: seq<Node<T>>, p: Node<T>)
    ensures Data(c + [p]) == Data(c) + [p.data] && Data([p] + c) == [p.data] + Data(c)
  {}

  lemma {:induction false} KeptMore<S, T>(f: (S, T) -> Verdict<S>, a: S, c: seq<Node<T>>, forward: bool)
    requires c != [] && |InTurn(c, forward)| == |c|
    ensures var ((p, rest), deletes) := (Latest(c, forward), VerdictOn(f, a, InTurn(c, forward), |c| - 1).deletes);
      && |rest| < |c|
      && Kept(f, a, c, forward) ==
        if deletes then Kept(f, a, rest, forward)
        else if forward then Kept(f, a, rest, true) + [p] else [p] + Kept(f, a, rest, false)
  {
    InTurnMore(c, forward);
    hide InTurn;
  }

  lemma {:induction false} KeptData<S, T>(f: (S, T) -> Verdict<S>, a: S, c: seq<Node<T>>, forward: bool)
    ensures InTurn(Kept(f, a, c, forward), forward) == Filter(f, a, InTurn(c, forward))
    decreases |c|
  {
    if c != [] {
      var (p, rest) := Latest(c, forward);
      InTurnMore(c, forward);
      KeptMore(f, a, c, forward);
      hide InTurn, Kept, Latest, VerdictOn;
      KeptData(f, a, rest, forward);
      InTurnJoins(Kept(f, a, rest, forward), p);
    } else {
      assert InTurn(c, forward) == [];
    }
  }

  // The chain c when n of its nodes have been visited.
  function Remains<S, T>(f: (S, T) -> Verdict<S>, a: S, c: seq<Node<T>>, forward: bool, n: nat): seq<Node<T>>
    requires n <= |c|
  {
    if forward then Kept(f, a, c[..n], true) + c[n..] else c[..|c| - n] + Kept(f, a, c[|c| - n..], false)
  }

  // In the middle of a sweep over c, which began with user data a and is at b.
  ghost predicate Sweeping<S, T>(f: (S, T) -> Verdict<S>, a: S, c: seq<Node<T>>, forward: bool,
                                 visited: seq<T>, b: S, now: seq<Node<T>>) {
    && |visited| <= |c| && visited <= InTurn(c, forward) && b == After(f, a, visited)
    && (forall i | 0 <= i < |visited| :: VerdictOn(f, a, visited, i).ret == 0)
    && now == Remains(f, a, c, forward, |visited|)
  }

  // At the end of one, which comes early only when the callback does not return 0.
  ghost predicate Swept<S, T>(f: (S, T) -> Verdict<S>, a: S, c: seq<Node<T>>, forward: bool,
                              visited: seq<T>, b: S, now: seq<Node<T>>) {
    && |visited| <= |c| && visited <= InTurn(c, forward) && b == After(f, a, visited)
    && (forall i | 0 <= i < |visited| - 1 :: VerdictOn(f, a, visited, i).ret == 0)
    && (|visited| < |c| ==> visited != [] && VerdictOn(f, a, visited, |visited| - 1).ret != 0)
    && now == Remains(f, a, c, forward, |visited|)
  }

  // When the callback always returns 0 every node is visited once, and the list
  // is filtered, in the order of the visit.
  lemma {:induction false} FullSweepFilters<S, T>(f: (S, T) -> Verdict<S>, a: S, c: seq<Node<T>>, forward: bool,
                               visited: seq<T>, b: S, now: seq<Node<T>>)
    requires Swept(f, a, c, forward, visited, b, now)
    requires forall i | 0 <= i < |InTurn(c, forward)| :: VerdictOn(f, a, InTurn(c, forward), i).ret == 0
    ensures visited == InTurn(c, forward) && b == After(f, a, visited)
    ensures InTurn(now, forward) == Filter(f, a, InTurn(c, forward))
  {
    hide Remains, Kept, Filter, InTurn, After, VerdictOn;
    InTurnSize(c, forward);
    var all, n := InTurn(c, forward), |visited|;
    if n > 0 { VerdictOnPrefix(f, a, visited, all, n - 1); }
    assert n == |c|;
    assert visited == all[..n] == all;
    RemainsEnds(f, a, c, forward);
    KeptData(f, a, c, forward);
  }

  lemma {:induction false} VerdictOnPrefix<S, T>(f: (S, T) -> Verdict<S>, a: S, xs: seq<T>, ys: seq<T>, k: nat)
    requires xs <= ys && k < |xs|
    ensures VerdictOn(f, a, xs, k) == VerdictOn(f, a, ys, k)
  {
    assert xs[..k] == ys[..k];
  }

  lemma InTurnSize<T>(c: seq<Node<T>>, forward: bool)
    ensures |InTurn(c, forward)| == |c|
  {}

  lemma {:induction false} RemainsEnds<S, T>(f: (S, T) -> Verdict<S>, a: S, c: seq<Node<T>>, forward: bool)
    ensures Remains(f, a, c, forward, |c|) == Kept(f, a, c, forward)
    ensures Remains(f, a, c, forward, 0) == c
  {
    assert c[..|c|] == c && c[0..] == c && Kept(f, a, c[..0], true) == Kept(f, a, c[|c|..], false) == [];
  }

  // A callback that remembers what it has seen and deletes what it sees again.
  function DropSeen<T>(seen: set<T>, x: T): Verdict<set<T>> { Verdict(x in seen, 0, seen + {x}) }

  lemma {:induction false} SeenIs<T>(xs: seq<T>)
    ensures forall x :: x in After(DropSeen, {}, xs) <==> x in xs
  {
    if xs != [] {
      var front := xs[..|xs| - 1];
      SeenIs(front);
      assert xs == front + [xs[|xs| - 1]];
    }
  }

  ghost predicate FirstPlaces<T>(xs: seq<T>, places: seq<nat>) {
    && (forall j, k | 0 <= j < k < |places| :: places[j] < places[k])
    && (forall k | 0 <= k < |places| :: places[k] < |xs|)
    && (forall i: nat | i < |xs| :: i in places <==> xs[i] !in xs[..i])
  }

  lemma OneMorePlace<T>(xs: seq<T>, places: seq<nat>)
    requires xs != [] && FirstPlaces(xs[..|xs| - 1], places)
    ensures var n := |xs| - 1;
      FirstPlaces(xs, if xs[n] in xs[..n] then places else places + [n])
  {
    var n, front := |xs| - 1, xs[..|xs| - 1];
    var more := if xs[n] in front then places else places + [n];
    forall i: nat | i < |xs| ensures i in more <==> xs[i] !in xs[..i] {
      if i < n { assert front[..i] == xs[..i]; }
    }
  }

  // It leaves the elements that do not occur earlier, in their order: the first
  // of equal elements stays, at its place in `places`, and no other does.
  lemma {:induction false} DropSeenKeepsFirst<T>(xs: seq<T>) returns (places: seq<nat>)
    ensures FirstPlaces(xs, places)
    ensures var ys := Filter(DropSeen, {}, xs);
      |places| == |ys| && forall k | 0 <= k < |ys| :: ys[k] == xs[places[k]]
  {
    if xs == [] {
      places := [];
    } else {
      var n := |xs| - 1;
      var front := xs[..n];
      places := DropSeenKeepsFirst(front);
      SeenIs(front);
      assert Filter(DropSeen, {}, xs) == Filter(DropSeen, {}, front) + if xs[n] in front then [] else [xs[n]];
      hide Filter, After;
      OneMorePlace(xs, places);
      if xs[n] !in front { places := places + [n]; }
    }
  }

  // The first node with the data, if there is one.
  lemma LookupData<T>(c: seq<Node<T>>, k: nat, data: T)
    requires k <= |c| && forall j | 0 <= j < k :: c[j].data != data
    requires At(c, k) != null ==> At(c, k).data == data
    ensures data in Data(c) <==> At(c, k) != null
    ensures At(c, k) != null ==> k < |c| && At(c, k) in c && data !in Data(c[..k])
  {
    if k < |c| {
      assert Data(c)[k] == data;
    } else {
      assert forall j | 0 <= j < |Data(c)| :: Data(c)[j] == c[j].data;
    }
  }

  lemma HeadOnly<T>(c: seq<Node<T>>, nodes: set<Node<T>>, k: nat)
    requires Distinct(c) && k < |c| && nodes == Set(c)
    ensures At(c, 0) == c[k] <==> k == 0
    ensures k > 0 ==> At(c, k - 1) in nodes && At(c, k - 1) != null
  {}

  lemma ValidFacts<T>(l: List<T>)
    requires l.Valid()
    ensures Strung(l.head, l.tail, l.nelem, l.chain, l.nodes) && forall p | p in l.nodes :: !p.visiting
    ensures Distinct(l.chain) && l.nodes == Set(l.chain)
    ensures l.nelem == |l.chain| && l.head == At(l.chain, 0) && l.tail == At(l.chain, |l.chain| - 1)
    ensures At(l.chain, -1) == At(l.chain, |l.chain|) == null
    ensures (l.head != null ==> l.head in l.nodes) && (l.tail != null ==> l.tail in l.nodes)
    ensures l.head == null <==> l.chain == []
    ensures l.tail == null <==> l.chain == []
  {
    hide Strung, Distinct, Set, At;
    StrungFacts(l.head, l.tail, l.nelem, l.chain, l.nodes);
    Ends(l.chain, -1);
    Ends(l.chain, 0);
    Ends(l.chain, |l.chain| - 1);
    Ends(l.chain, |l.chain|);
    AtIn(l.chain, l.nodes, 0);
    AtIn(l.chain, l.nodes, |l.chain| - 1);
  }

  lemma ValidFrom<T>(l: List<T>)
    requires Strung(l.head, l.tail, l.nelem, l.chain, l.nodes) && forall p | p in l.nodes :: !p.visiting
    ensures l.Valid()
  {}

  lemma InsertedEnds<T>(c: seq<Node<T>>, p: Node<T>)
    ensures Inserted(c, 0, p) == [p] + c && Inserted(c, |c|, p) == c + [p]
  {}

  lemma InNodes<T>(l: List<T>, k: nat)
    requires l.Valid() && k < |l.chain|
    ensures l.chain[k] in l.nodes
  {
    StrungFacts(l.head, l.tail, l.nelem, l.chain, l.nodes);
  }

  lemma {:induction false} SweepsFirst<S, T>(c: seq<Node<T>>, f: (S, T) -> Verdict<S>, a: S, forward: bool)
    ensures Sweeping(f, a, c, forward, [], a, c)
  {
    RemainsEnds(f, a, c, forward);
  }

  lemma {:induction false} SweepsLast<S, T>(c: seq<Node<T>>, visited: seq<T>, b: S, now: seq<Node<T>>,
                         f: (S, T) -> Verdict<S>, a: S, forward: bool)
    requires Sweeping(f, a, c, forward, visited, b, now)
    requires At(c, if forward then |visited| else |c| - 1 - |visited|) == null
    ensures Swept(f, a, c, forward, visited, b, now)
  {}

  // One more element of xs has been seen.
  lemma {:induction false} SeenMore<S, T>(f: (S, T) -> Verdict<S>, a: S, xs: seq<T>, visited: seq<T>, b: S)
    requires visited < xs && b == After(f, a, visited)
    ensures var (i, n, all) := (xs[|visited|], |visited|, visited + [xs[|visited|]]);
      all <= xs && After(f, a, all) == f(b, i).next && VerdictOn(f, a, all, n) == VerdictOn(f, a, xs, n) == f(b, i)
  {
    var n, all := |visited|, visited + [xs[|visited|]];
    assert all[..n] == visited == xs[..n];
  }

  lemma {:induction false} SeenBefore<S, T>(f: (S, T) -> Verdict<S>, a: S, visited: seq<T>, all: seq<T>)
    requires visited <= all
    ensures forall j | 0 <= j < |visited| :: VerdictOn(f, a, all, j) == VerdictOn(f, a, visited, j)
  {
    forall j | 0 <= j < |visited| ensures VerdictOn(f, a, all, j) == VerdictOn(f, a, visited, j) {
      VerdictOnPrefix(f, a, visited, all, j);
    }
  }

  lemma InTurnPart<T>(c: seq<Node<T>>, forward: bool, m: nat)
    requires m <= |c|
    ensures InTurn(if forward then c[..m] else c[|c| - m..], forward) <= InTurn(c, forward)
  {}

  // The n-th node, between those kept of c[..n] and the rest, or the rest and those kept.
  lemma Between<T>(c: seq<Node<T>>, n: nat, d: seq<Node<T>>)
    requires n < |c|
    ensures var now := d + c[n..];
      && now[|d|] == c[n] && At(now, |d| + 1) == At(c, n + 1)
      && Removed(now, |d|) == d + c[n + 1..] && now == (d + [c[n]]) + c[n + 1..]
    ensures var now := c[..n + 1] + d;
      && now[n] == c[n] && At(now, n - 1) == At(c, n - 1)
      && Removed(now, n) == c[..n] + d && now == c[..n] + ([c[n]] + d)
  {}

  // What remains when the next node has been visited, and where it was.
  lemma {:induction false} RemainsNext<S, T>(c: seq<Node<T>>, f: (S, T) -> Verdict<S>, a: S, n: nat)
    requires n < |c| == |InTurn(c, true)|
    ensures
      var (now, k, v) := (Remains(f, a, c, true, n), |Kept(f, a, c[..n], true)|, VerdictOn(f, a, InTurn(c, true), n));
      && k < |now| && now[k] == c[n] && At(now, k + 1) == At(c, n + 1)
      && Remains(f, a, c, true, n + 1) == if v.deletes then Removed(now, k) else now
  {
    var low := c[..n + 1];
    InTurnSize(low, true);
    InTurnPart(c, true, n + 1);
    hide InTurn, Kept, After, Removed, At, VerdictOn;
    KeptMore(f, a, low, true);
    VerdictOnPrefix(f, a, InTurn(low, true), InTurn(c, true), n);
    Between(c, n, Kept(f, a, c[..n], true));
    assert low[..n] == c[..n];
  }

  lemma {:induction false} RemainsBefore<S, T>(c: seq<Node<T>>, f: (S, T) -> Verdict<S>, a: S, n: nat)
    requires n < |c| == |InTurn(c, false)|
    ensures
      var (now, k, v) := (Remains(f, a, c, false, n), |c| - 1 - n, VerdictOn(f, a, InTurn(c, false), n));
      && k < |now| && now[k] == c[k] && At(now, k - 1) == At(c, k - 1)
      && Remains(f, a, c, false, n + 1) == if v.deletes then Removed(now, k) else now
  {
    var k := |c| - 1 - n;
    var high := c[k..];
    InTurnSize(high, false);
    InTurnPart(c, false, n + 1);
    hide InTurn, Kept, After, Removed, At, VerdictOn;
    KeptMore(f, a, high, false);
    VerdictOnPrefix(f, a, InTurn(high, false), InTurn(c, false), n);
    Between(c, k, Kept(f, a, c[k + 1..], false));
    assert high[1..] == c[k + 1..];
  }

  lemma {:induction false} VisitNext<S, T>(c: seq<Node<T>>, visited: seq<T>, b: S, now: seq<Node<T>>,
                        f: (S, T) -> Verdict<S>, a: S, i: Node<T>)
    returns (k: nat)
    requires Sweeping(f, a, c, true, visited, b, now) && i == At(c, |visited|)
    ensures |visited| < |c| && k < |now| && now[k] == i && At(now, k + 1) == At(c, |visited| + 1)
    ensures var (v, all) := (f(b, i.data), visited + [i.data]);
      var next := if v.deletes then Removed(now, k) else now;
      if v.ret == 0 then Sweeping(f, a, c, true, all, v.next, next) else Swept(f, a, c, true, all, v.next, next)
  {
    k := |Kept(f, a, c[..|visited|], true)|;
    VisitIs(c, visited, f, a, true);
    SeenMore(f, a, InTurn(c, true), visited, b);
    hide Remains, Kept, After, Removed, InTurn, VerdictOn, At;
    RemainsNext(c, f, a, |visited|);
    SweptMore(f, a, c, true, visited, b, now);
  }

  // Where the next node is.
  lemma VisitIs<S, T>(c: seq<Node<T>>, visited: seq<T>, f: (S, T) -> Verdict<S>, a: S, forward: bool)
    requires |visited| <= |c|
    ensures var k := if forward then |visited| else |c| - 1 - |visited|;
      && (At(c, k) != null <==> |visited| < |c|)
      && (|visited| < |c| ==>
           At(c, k) == c[k] && |InTurn(c, forward)| == |c| && InTurn(c, forward)[|visited|] == c[k].data)
  {}

  lemma {:induction false} SweptMore<S, T>(f: (S, T) -> Verdict<S>, a: S, c: seq<Node<T>>, forward: bool,
                        visited: seq<T>, b: S, now: seq<Node<T>>)
    requires Sweeping(f, a, c, forward, visited, b, now)
    requires |visited| < |c| == |InTurn(c, forward)|
    ensures
      var (n, v) := (|visited|, VerdictOn(f, a, InTurn(c, forward), |visited|));
      var (all, next) := (visited + [InTurn(c, forward)[n]], Remains(f, a, c, forward, n + 1));
      if v.ret == 0 then Sweeping(f, a, c, forward, all, v.next, next) else Swept(f, a, c, forward, all, v.next, next)
  {
    var xs := InTurn(c, forward);
    SeenMore(f, a, xs, visited, b);
    SeenBefore(f, a, visited, visited + [xs[|visited|]]);
    hide Remains, After, InTurn, VerdictOn;
  }

  lemma {:induction false} VisitBefore<S, T>(c: seq<Node<T>>, visited: seq<T>, b: S, now: seq<Node<T>>,
                          f: (S, T) -> Verdict<S>, a: S, i: Node<T>)
    returns (k: nat)
    requires Sweeping(f, a, c, false, visited, b, now) && i == At(c, |c| - 1 - |visited|)
    ensures |visited| < |c| && k < |now| && now[k] == i && At(now, k - 1) == At(c, |c| - 1 - (|visited| + 1))
    ensures var (v, all) := (f(b, i.data), visited + [i.data]);
      var next := if v.deletes then Removed(now, k) else now;
      if v.ret == 0 then Sweeping(f, a, c, false, all, v.next, next) else Swept(f, a, c, false, all, v.next, next)
  {
    VisitIs(c, visited, f, a, false);
    k := |c| - 1 - |visited|;
    SeenMore(f, a, InTurn(c, false), visited, b);
    hide Remains, Kept, After, Removed, InTurn, VerdictOn, At;
    RemainsBefore(c, f, a, |visited|);
    SweptMore(f, a, c, false, visited, b, now);
  }
}
