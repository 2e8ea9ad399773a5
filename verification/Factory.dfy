// The factory of factory.c, on its hash table.
module Factory {
  import opened Option
  import opened Chains
  import opened Traversal
  import opened Hash

  const FACTORY_SIZE := 20

  class Factory<V> {
    var table: Table<V>

    ghost predicate Valid()
      reads this, table, table.tab, table.view.nodes
    {
      table.Valid()
    }

    constructor (hash: string -> nat)
      ensures Valid() && fresh(table) && fresh(table.tab) && table.view.nodes == {} && table.view.entries == map[]
    {
      table := new Table(FACTORY_SIZE, hash);
    }

    // The products, in the order of the table.
    ghost function Products(): (s: seq<Option<V>>)
      requires Valid()
      reads this, table, table.tab, table.view.nodes
      ensures |s| == table.nelem
    {
      Visits(table);
      Data(Order(table.view.chains), KeptOf(table.view.nodes))
    }

    // sd_factory_delete, with a fac_delete that frees the name of the product,
    // which is also the key of its entry.
    method Delete() returns (deleted: seq<Option<V>>)
      requires Valid()
      modifies table, table.tab, table.view.nodes
      ensures deleted == old(Products()) && |deleted| == old(table.nelem)
      ensures Valid() && table.view.nodes == {}
    {
      hide *;
      var t := table;
      FactoryFacts(this);
      ghost var order, nodes, kept, tab := Order(t.view.chains), t.view.nodes, KeptOf(t.view.nodes), t.tab;
      deleted := [];
      var i := t.Begin();
      while i != null
        invariant t == table && t.tab == tab && t.view.nodes == nodes && Order(t.view.chains) == order
        invariant Sound(t.tab, t.nelem, t.view, t.hash)
        invariant |deleted| <= |order| && i == At(order, |deleted|)
        invariant deleted == Data(order, kept)[..|deleted|]
        invariant forall p | p in nodes :: p.data == kept[p].1
        decreases |order| - |deleted|
      {
        Current(order, |deleted|);
        AfterThis(t.view.chains, |deleted|);
        deleted := deleted + [i.data];
        t.FreeKey(i);
        i := t.IterNext(i);
      }
      Current(order, |deleted|);
      var _ := t.Clear();
      StillValid(this);
    }

    // sd_factory_list.
    method List(items: array<Option<V>>, nitems: int) returns (n: int)
      requires Valid() && nitems <= items.Length
      modifies items
      ensures n == if nitems <= 0 then -1 else table.nelem
      ensures var m := if n < 0 then 0 else if n < nitems then n else nitems;
        items[..] == old(Products())[..m] + old(items[..])[m..]
    {
      hide *;
      if nitems <= 0 { return -1; }
      FactoryFacts(this);
      var t := table;
      ghost var order, nodes, kept, was := Order(t.view.chains), t.view.nodes, KeptOf(t.view.nodes), items[..];
      var j := 0;
      var i := t.Begin();
      while i != null
        invariant 0 <= j <= |order| && i == At(order, j)
        invariant forall x | 0 <= x < items.Length ::
          items[x] == if x < j && x < nitems then Data(order, kept)[x] else was[x]
        invariant Sound(t.tab, t.nelem, t.view, t.hash)
        decreases |order| - j
      {
        Current(order, j);
        AfterThis(t.view.chains, j);
        if j < nitems { items[j] := i.data; }
        i := t.IterNext(i);
        j := j + 1;
      }
      Current(order, j);
      return j;
    }
  }

  ghost function Data<V>(order: seq<Iter<V>>, kept: Kept<V>): (s: seq<Option<V>>)
    ensures |s| == |order|
  {
    seq(|order|, j requires 0 <= j < |order| => if order[j] in kept then kept[order[j]].1 else None)
  }

  lemma Current<V>(order: seq<Iter<V>>, j: nat)
    ensures At(order, j) == if j < |order| then order[j] else null
  {}

  lemma AfterThis<V>(chains: seq<seq<Iter<V>>>, j: nat)
    requires Distinct(Order(chains)) && j < |Order(chains)|
    ensures After(chains, Order(chains)[j]) == At(Order(chains), j + 1)
  {
    RankIs(Order(chains), j);
  }

  lemma StillValid<V>(f: Factory<V>)
    requires f.table.Valid()
    ensures f.Valid()
  {}

  lemma Visits<V>(t: Table<V>)
    requires t.Valid()
    ensures Sound(t.tab, t.nelem, t.view, t.hash)
    ensures var order := Order(t.view.chains);
      |order| == t.nelem && Distinct(order) && forall j | 0 <= j < |order| :: order[j] in t.view.nodes
  {
    hide *;
    TableFacts(t);
    BucketsPlaced(t.tab, t.view.chains, t.view.nodes);
    OrderIsNodes(t.view.chains, t.view.nodes);
  }

  lemma FactoryFacts<V>(f: Factory<V>)
    requires f.Valid()
    ensures var t := f.table;
      var (order, kept) := (Order(t.view.chains), KeptOf(t.view.nodes));
      && Sound(t.tab, t.nelem, t.view, t.hash) && f.Products() == Data(order, kept)
      && |order| == t.nelem && Distinct(order)
      && (forall j | 0 <= j < |order| :: order[j] in t.view.nodes && Data(order, kept)[j] == kept[order[j]].1)
      && (forall p | p in t.view.nodes :: p in kept && kept[p].1 == p.data)
  {
    Visits(f.table);
    hide Sound, Order, Distinct;
  }
}
