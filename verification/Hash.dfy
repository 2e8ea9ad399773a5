// The hash table of hash.c, in memory.
module Hash {
  import opened Option
  import opened Chains
  import opened Traversal

  const FULLTAB := 2
  const GROWTAB := 4
  const DEFAULT_SIZE := 10

  type Keys<V> = map<Iter<V>, Option<string>>

  ghost function KeysOf<V>(nodes: set<Iter<V>>): Keys<V>
    reads nodes
  {
    map p | p in nodes :: p.key
  }

  // `entries` is the entry of each key; an entry without key is none's.
  ghost predicate Keyed<V>(entries: map<string, Iter<V>>, keys: Keys<V>, hash: string -> nat) {
    && (forall k | k in entries :: entries[k] in keys && keys[entries[k]] == Some(k))
    && (forall p | p in keys && keys[p].Some? ::
          keys[p].value in entries && entries[keys[p].value] == p && p.hkey == hash(keys[p].value))
  }

  // What the fields of a table stand for.
  datatype View<V> = View(chains: seq<seq<Iter<V>>>, nodes: set<Iter<V>>, entries: map<string, Iter<V>>)

  // The chains, the count and the keys are in order.
  ghost predicate Sound<V>(tab: array<Iter?<V>>, nelem: nat, v: View<V>, hash: string -> nat)
    reads tab, v.nodes
  {
    && Buckets(tab, v.chains, v.nodes) && nelem == |v.nodes| <= FULLTAB * tab.Length + 1
    && Keyed(v.entries, KeysOf(v.nodes), hash)
  }

  // ... and no entry is being visited.
  ghost predicate Quiet<V>(tab: array<Iter?<V>>, nelem: nat, v: View<V>, hash: string -> nat)
    reads tab, v.nodes
  {
    Sound(tab, nelem, v, hash) && forall p | p in v.nodes :: p.key.Some? && !p.visiting
  }

  class Table<V> {
    const hash: string -> nat
    var tab: array<Iter?<V>>
    var nelem: nat
    ghost var view: View<V>

    ghost predicate Valid()
      reads this, tab, view.nodes
    {
      Quiet(tab, nelem, view, hash)
    }

    ghost function Contents(): map<string, Option<V>>
      requires Valid()
      reads this, tab, view.nodes
    {
      map k | k in view.entries :: view.entries[k].data
    }

    // sd_hash_new.
    constructor (size: nat, hash: string -> nat)
      ensures Valid() && view.nodes == {} && view.entries == map[] && this.hash == hash
      ensures fresh(tab) && tab.Length == if size == 0 then 10 else size
    {
      var n := if size == 0 then DEFAULT_SIZE else size;
      this.hash, nelem := hash, 0;
      tab := new Iter?<V>[n](_ => null);
      view := View(seq(n, _ => []), {}, map[]);
      new;
      EmptyBuckets(tab, view.chains);
    }

    // sd_hash_lookup.
    method Lookup(key: string) returns (p: Iter?<V>)
      requires Valid()
      ensures p == if key in view.entries then view.entries[key] else null
    {
      hide *;
      TableFacts(this);
      var h := Index(hash(key), tab.Length);
      p := tab[h];
      HeadAt(tab, view.chains, view.nodes, h);
      ghost var c, k: nat := view.chains[h], 0;
      while p != null
        invariant k <= |c| && p == At(c, k)
        invariant forall j | 0 <= j < k :: c[j].key != Some(key)
        decreases |c| - k
      {
        Along(tab, view.chains, view.nodes, h, k, p);
        if p.key == Some(key) { break; }
        p, k := p.next, k + 1;
      }
      PastEnd(c, k);
      LookupEnds(this, key, h, p);
    }

    // sd_hash_lookadd.
    method LookAdd(key: string) returns (p: Iter<V>)
      requires Valid()
      modifies this, tab, view.nodes`next, view.nodes`prev
      ensures Valid() && (tab == old(tab) || fresh(tab))
      ensures
        if key in old(view.entries) then
          p == old(view.entries)[key] && view == old(view)
        else
          && fresh(p) && p.data == None
          && view.entries == old(view.entries)[key := p] && view.nodes == old(view.nodes) + {p}
    {
      hide *;
      TableFacts(this);
      var q := Lookup(key);
      if q != null { return q; }
      p := new Iter(key, hash(key));
      MakeRoom();
      Link(p, key);
    }

    method Link(p: Iter<V>, ghost key: string)
      requires Valid() && nelem <= FULLTAB * tab.Length && key !in view.entries
      requires p !in view.nodes && p.key == Some(key) && p.hkey == hash(key) && !p.visiting
      modifies this`nelem, this`view, tab, p`next, p`prev, view.nodes`prev
      ensures Valid() && view.entries == old(view.entries)[key := p] && view.nodes == old(view.nodes) + {p}
    {
      hide *;
      TableFacts(this);
      ghost var v, keys := view, KeysOf(view.nodes);
      Push(tab, v.chains, v.nodes, p);
      KeyAdded(v.entries, keys, hash, key, p);
      KeysAre(v.nodes + {p}, keys[p := Some(key)]);
      ghost var w := View(Pushed(v.chains, p), v.nodes + {p}, v.entries[key := p]);
      QuietFrom(tab, nelem + 1, w, hash);
      assert forall q: object | q in w.nodes :: q != this;
      view, nelem := w, nelem + 1;
      ValidFrom(this);
    }

    method MakeRoom()
      requires Valid()
      modifies this`tab, this`view, view.nodes`next, view.nodes`prev
      ensures Valid() && (tab == old(tab) || fresh(tab)) && nelem <= FULLTAB * tab.Length
      ensures view.nodes == old(view.nodes) && view.entries == old(view.entries)
    {
      hide *;
      TableFacts(this);
      if nelem > FULLTAB * tab.Length { Rehash(); }
    }

    // rehash.
    method Rehash()
      requires Valid()
      modifies this`tab, this`view, view.nodes`next, view.nodes`prev
      ensures Valid() && fresh(tab) && tab.Length == 4 * old(tab.Length)
      ensures view.nodes == old(view.nodes) && view.entries == old(view.entries)
    {
      hide *;
      TableFacts(this);
      ghost var v, keys := view, KeysOf(view.nodes);
      var tab', chains' := Relink(tab, v.chains, v.nodes, GROWTAB * tab.Length);
      KeysAre(v.nodes, keys);
      ghost var w := v.(chains := chains');
      QuietFrom(tab', nelem, w, hash);
      assert forall q: object | q in w.nodes :: q != this;
      tab, view := tab', w;
      ValidFrom(this);
    }

    // sd_hash_add.
    method Add(key: string, data: V) returns (p: Iter<V>)
      requires Valid()
      modifies this, tab, view.nodes
      ensures Valid() && Contents() == old(Contents())[key := Some(data)]
      ensures key in view.entries && view.entries[key] == p && view.entries == old(view.entries)[key := p]
      ensures if key in old(view.entries) then view == old(view) else fresh(p) && view.nodes == old(view.nodes) + {p}
      ensures tab == old(tab) || fresh(tab)
    {
      hide *;
      ContentsFacts(this);
      ghost var m := Contents();
      p := LookAdd(key);
      OneEntry(this, key, p);
      SetData(p, data);
      ContentsAre(this, m[key := Some(data)]);
    }

    method SetData(p: Iter<V>, data: V)
      requires Valid() && p in view.nodes
      modifies p`data
      ensures Valid() && p.data == Some(data)
    {
      hide *;
      TableFacts(this);
      SoundFacts(tab, nelem, view, hash);
      ghost var heads, next, prev, keys := tab[..], Nexts(view.nodes), Prevs(view.nodes), KeysOf(view.nodes);
      p.data := Some(data);
      SoundAgain(tab, nelem, view, hash, heads, next, prev, keys);
      QuietFromSound(tab, nelem, view, hash);
      ValidFrom(this);
    }

    // sd_hash_iter_del: an entry being visited loses its key and data, and is
    // taken out by the visitor afterwards.
    method IterDel(p: Iter<V>)
      requires Sound(tab, nelem, view, hash) && p in view.nodes
      modifies this`nelem, this`view, tab, view.nodes`next, view.nodes`prev, p`key, p`data, p`visiting
      ensures Sound(tab, nelem, view, hash) && p.key == None && p.data == None && !p.visiting
      ensures view.entries == Unkeyed(old(view.entries), old(p.key))
      ensures
        if old(p.visiting) then
          view.chains == old(view.chains) && view.nodes == old(view.nodes) && p.next == old(p.next)
        else
          view.chains == DropAll(old(view.chains), {p}) && view.nodes == old(view.nodes) - {p}
    {
      hide *;
      SoundFacts(tab, nelem, view, hash);
      ghost var v, keys := view, KeysOf(view.nodes);
      ghost var heads, next, prev := tab[..], Nexts(v.nodes), Prevs(v.nodes);
      ghost var entries := Unkeyed(v.entries, p.key);
      KeyDropped(v.entries, keys, hash, p);
      p.data := None;
      p.key := None;
      ghost var w := v.(entries := entries);
      SoundAgain(tab, nelem, w, hash, heads, next, prev, keys[p := None]);
      if p.visiting {
        p.visiting := false;
        SoundAgain(tab, nelem, w, hash, heads, next, prev, keys[p := None]);
        assert forall q: object | q in w.nodes :: q != this;
        view := w;
      } else {
        UnlinkEntry(p, w);
      }
    }

    // ... it is taken out at once.
    method UnlinkEntry(p: Iter<V>, ghost w: View<V>)
      requires Sound(tab, nelem, w, hash) && p in w.nodes && p.key == None
      modifies this`nelem, this`view, tab, w.nodes`next, w.nodes`prev
      ensures Sound(tab, nelem, view, hash)
      ensures view == View(DropAll(w.chains, {p}), w.nodes - {p}, w.entries)
    {
      hide *;
      SoundFacts(tab, nelem, w, hash);
      ghost var keys := KeysOf(w.nodes);
      Unlink(tab, w.chains, w.nodes, p);
      KeyGone(w.entries, keys, hash, p);
      KeysAre(w.nodes - {p}, keys - {p});
      ghost var x := View(DropAll(w.chains, {p}), w.nodes - {p}, w.entries);
      SoundFrom(tab, nelem - 1, x, hash);
      assert forall q: object | q in w.nodes :: q != this;
      view, nelem := x, nelem - 1;
    }

    // sd_hash_del.
    method Del(key: string)
      requires Valid()
      modifies this`nelem, this`view, tab, view.nodes
      ensures Valid() && Contents() == old(Contents()) - {key}
      ensures view.entries == old(view.entries) - {key}
      ensures view.nodes ==
        if key in old(view.entries) then old(view.nodes) - {old(view.entries)[key]} else old(view.nodes)
    {
      hide *;
      ContentsFacts(this);
      TableFacts(this);
      ghost var m := Contents();
      var p := Lookup(key);
      if p != null {
        OneEntry(this, key, p);
        UnkeyedIs(view.entries, key);
        ghost var es := view.entries;
        IterDel(p);
        QuietFromSound(tab, nelem, view, hash);
        ValidFrom(this);
        ContentsAre(this, m - {key});
      } else {
        assert view.entries - {key} == view.entries && m - {key} == m;
      }
    }

    // sd_hash_begin.
    method Begin() returns (p: Iter?<V>)
      requires Sound(tab, nelem, view, hash)
      ensures p == At(Order(view.chains), 0)
    {
      hide *;
      SoundFacts(tab, nelem, view, hash);
      for h := 0 to tab.Length
        invariant forall j | 0 <= j < h :: view.chains[j] == []
      {
        HeadAt(tab, view.chains, view.nodes, h);
        HeadIs(view.chains, h);
        if tab[h] != null { return tab[h]; }
      }
      OrderStart(view.chains, tab.Length);
      return null;
    }

    // sd_hash_iter_next.  It looks at the hash of the entry and never at its key.
    method IterNext(p: Iter<V>) returns (q: Iter?<V>)
      requires Sound(tab, nelem, view, hash) && p in view.nodes
      ensures p in Order(view.chains) && q == After(view.chains, p)
    {
      hide *;
      ghost var k := Standing(tab, nelem, view, hash, p);
      var h := Index(p.hkey, tab.Length);
      AfterInside(view.chains, view.nodes, h, k);
      if p.next != null { return p.next; }
      for i := h + 1 to tab.Length
        invariant forall j | h < j < i :: view.chains[j] == []
      {
        HeadAt(tab, view.chains, view.nodes, i);
        AfterOutside(view.chains, view.nodes, h, k, i);
        if tab[i] != null { return tab[i]; }
      }
      AfterLast(view.chains, view.nodes, h, k);
      return null;
    }

    // sd_hash_iter_prev.  The loop over the buckets stops before bucket 0.
    method IterPrev(p: Iter<V>) returns (q: Iter?<V>)
      requires Sound(tab, nelem, view, hash) && p in view.nodes
      ensures p in Order(view.chains) && q == Back(view.chains, p)
    {
      hide *;
      ghost var k := Standing(tab, nelem, view, hash, p);
      var h: int := Index(p.hkey, tab.Length);
      BackInside(view.chains, view.nodes, h, k);
      if p.prev != null { return p.prev; }
      var i := h - 1;
      while i > 0
        invariant -1 <= i < h && forall j | i < j < h :: view.chains[j] == []
      {
        var r := tab[i];
        ghost var n: nat := 0;
        HeadAt(tab, view.chains, view.nodes, i);
        while r != null
          invariant n <= |view.chains[i]| && r == At(view.chains[i], n) && (n > 0 ==> r != null)
          decreases |view.chains[i]| - n
        {
          Along(tab, view.chains, view.nodes, i, n, r);
          AtIs(view.chains[i], n + 1);
          if r.next == null {
            BackBefore(view.chains, view.nodes, h, i);
            return r;
          }
          r, n := r.next, n + 1;
        }
        LastOf(view.chains[i], n);
        i := i - 1;
      }
      BackNone(view.chains, view.nodes, h, i);
      return null;
    }

    // The owner of the key has freed it: the entry stays, its key cannot be read any more.
    method FreeKey(p: Iter<V>)
      requires Sound(tab, nelem, view, hash) && p in view.nodes
      modifies this`view, p`key
      ensures Sound(tab, nelem, view, hash) && p.key == None
      ensures view == old(view).(entries := Unkeyed(old(view.entries), old(p.key)))
    {
      hide *;
      SoundFacts(tab, nelem, view, hash);
      ghost var heads, next, prev, keys := tab[..], Nexts(view.nodes), Prevs(view.nodes), KeysOf(view.nodes);
      KeyDropped(view.entries, keys, hash, p);
      ghost var w := view.(entries := Unkeyed(view.entries, p.key));
      p.key := None;
      SoundAgain(tab, nelem, w, hash, heads, next, prev, keys[p := None]);
      assert forall q: object | q in w.nodes :: q != this;
      view := w;
    }

    // sd_hash_clear.  `freed` lists the entries given to free.
    method Clear() returns (freed: seq<Iter<V>>)
      requires Sound(tab, nelem, view, hash)
      modifies this`nelem, this`view, tab
      ensures Valid() && tab == old(tab) && nelem == 0 && view.nodes == {} && view.entries == map[]
      ensures freed == Order(old(view.chains))
    {
      hide *;
      SoundFacts(tab, nelem, view, hash);
      ghost var v, next := view, Nexts(view.nodes);
      ShapeFacts(tab[..], next, Prevs(v.nodes), v.chains, v.nodes);
      var a := tab;
      freed := [];
      OrderGrows(v.chains, 0, 0);
      for h := 0 to a.Length
        invariant freed == OrderTo(v.chains, h, 0)
        invariant a == tab && forall j | 0 <= j < h :: a[j] == null
        invariant forall j | h <= j < a.Length :: a[j] == At(v.chains[j], 0)
      {
        var p := a[h];
        ghost var k: nat := 0;
        while p != null
          invariant k <= |v.chains[h]| && p == At(v.chains[h], k)
          invariant freed == OrderTo(v.chains, h, k)
          modifies {}
          decreases |v.chains[h]| - k
        {
          OrderGrows(v.chains, h, k);
          FollowsAt(next, v.chains, v.nodes, h, k);
          var q := p.next;
          freed := freed + [p];
          p, k := q, k + 1;
        }
        OrderGrows(v.chains, h, k);
        a[h] := null;
      }
      OrderAll(v.chains);
      nelem, view := 0, View(seq(tab.Length, _ => []), {}, map[]);
      EmptyTable(tab, view, hash);
      ValidFrom(this);
    }

    // The callback on one entry, marked as being visited.
    method Call(f: (string, Option<V>) -> (bool, int), p: Iter<V>) returns (ret: int)
      requires Valid() && p in view.nodes
      modifies this`nelem, this`view, tab, view.nodes`next, view.nodes`prev, p`key, p`data, p`visiting
      ensures Sound(tab, nelem, view, hash) && p in view.nodes && p.next == old(p.next)
      ensures forall q | q in view.nodes && q != p :: q.key.Some? && !q.visiting
      ensures ret == f(old(p.key.value), old(p.data)).1
      ensures if f(old(p.key.value), old(p.data)).0 then
          !p.visiting && p.key == None && view == old(view).(entries := old(view.entries) - {old(p.key.value)})
        else p.visiting && view == old(view) && p.key == old(p.key) && p.data == old(p.data)
    {
      hide *;
      TableFacts(this);
      SoundFacts(tab, nelem, view, hash);
      ghost var v, heads, next, prev, keys := view, tab[..], Nexts(view.nodes), Prevs(view.nodes), KeysOf(view.nodes);
      UnkeyedIs(v.entries, p.key.value);
      p.visiting := true;
      SoundAgain(tab, nelem, v, hash, heads, next, prev, keys);
      var (deletes, r) := f(p.key.value, p.data);
      ret := r;
      if deletes { IterDel(p); }
    }

    // One turn of sd_hash_foreach.
    method Visit(f: (string, Option<V>) -> (bool, int), p: Iter<V>) returns (ret: int, q: Iter?<V>)
      requires Valid() && p in view.nodes
      modifies this`nelem, this`view, tab, view.nodes`next, view.nodes`prev, p`key, p`data, p`visiting
      ensures Valid() && tab == old(tab)
      ensures ret == f(old(p.key.value), old(p.data)).1 && q == old(p.next)
      ensures view == Visited(old(view), p, old(p.key.value), f(old(p.key.value), old(p.data)).0)
      ensures !f(old(p.key.value), old(p.data)).0 ==> p.key == old(p.key) && p.data == old(p.data)
    {
      hide *;
      TableFacts(this);
      VisitedIs(view, p, p.key.value);
      UnkeyedNone(view.entries - {p.key.value});
      ret := Call(f, p);
      q := p.next;
      if !p.visiting {
        IterDel(p);
      } else {
        SoundFacts(tab, nelem, view, hash);
        ghost var heads, next, prev, keys := tab[..], Nexts(view.nodes), Prevs(view.nodes), KeysOf(view.nodes);
        p.visiting := false;
        SoundAgain(tab, nelem, view, hash, heads, next, prev, keys);
      }
      QuietFromSound(tab, nelem, view, hash);
      ValidFrom(this);
    }

    // The state of a sweep over what was v: the entries left are as they were.
    ghost predicate Sweeping(v: View<V>, kept: Kept<V>, f: (string, Option<V>) -> (bool, int), visited: seq<Iter<V>>,
        h: nat, k: nat)
      reads this, tab, view.nodes
    {
      Valid() && Keeps(kept, view.nodes) && Going(v, view, Judge(f, kept), visited, h, k)
    }

    // ... and the end of one, which may come early.
    ghost predicate Swept(v: View<V>, kept: Kept<V>, f: (string, Option<V>) -> (bool, int), visited: seq<Iter<V>>)
      reads this, tab, view.nodes
    {
      && Valid() && Keeps(kept, view.nodes)
      && visited <= Order(v.chains) && Allowed(Judge(f, kept), visited, |Order(v.chains)|)
      && view == Left(v, Gone(Judge(f, kept), visited))
    }

    method Turn(f: (string, Option<V>) -> (bool, int), p: Iter<V>, visited: seq<Iter<V>>,
                ghost v: View<V>, ghost kept: Kept<V>, ghost h: nat, ghost k: nat)
      returns (ret: int, q: Iter?<V>)
      requires Sweeping(v, kept, f, visited, h, k) && h < |v.chains| && p == At(v.chains[h], k)
      modifies this`nelem, this`view, tab, view.nodes
      ensures view.nodes <= old(view.nodes)
      ensures
        if ret == 0 then
          Sweeping(v, kept, f, visited + [p], h, k + 1) && k < |v.chains[h]| && q == At(v.chains[h], k + 1)
        else Swept(v, kept, f, visited + [p])
    {
      hide *;
      SweepFacts(this, v, kept, f, visited, h, k);
      TableFacts(this);
      GoingAt(tab, v, view, Judge(f, kept), visited, h, k, p);
      OneKey(this, p);
      KeptAt(kept, view.nodes, p, f);
      GoingNext(v, view, Judge(f, kept), visited, h, k, p, p.key.value);
      VisitedNodes(view, p, p.key.value);
      ret, q := Visit(f, p);
      KeepsOn(kept, view.nodes);
      if ret == 0 {
        SweepingFrom(this, v, kept, f, visited + [p], h, k + 1);
      } else {
        SweptFrom(this, v, kept, f, visited + [p]);
      }
    }

    // sd_hash_foreach, with a callback that may delete the entry it is given.
    method Foreach(f: (string, Option<V>) -> (bool, int)) returns (visited: seq<Iter<V>>)
      requires Valid()
      modifies this`nelem, this`view, tab, view.nodes
      ensures Swept(old(view), old(KeptOf(view.nodes)), f, visited)
    {
      hide *;
      ghost var v, kept := view, KeptOf(view.nodes);
      visited := [];
      SweepsFirst(this, f);
      for h := 0 to tab.Length
        invariant Sweeping(v, kept, f, visited, h, 0) && view.nodes <= v.nodes
      {
        SweepHead(this, v, kept, f, visited, h);
        var p := tab[h];
        ghost var k: nat := 0;
        while p != null
          invariant Sweeping(v, kept, f, visited, h, k) && view.nodes <= v.nodes
          invariant k <= |v.chains[h]| && p == At(v.chains[h], k)
          decreases |v.chains[h]| - k
        {
          var ret, q := Turn(f, p, visited, v, kept, h, k);
          visited := visited + [p];
          if ret != 0 { return; }
          p, k := q, k + 1;
        }
        SweepChain(this, v, kept, f, visited, h, k);
      }
      SweepEnd(this, v, kept, f, visited);
    }
  }

  // Keys and data of entries.
  type Kept<V> = map<Iter<V>, (Option<string>, Option<V>)>

  ghost function KeptOf<V>(nodes: set<Iter<V>>): Kept<V>
    reads nodes
  {
    map p | p in nodes :: (p.key, p.data)
  }

  ghost predicate Keeps<V>(kept: Kept<V>, nodes: set<Iter<V>>)
    reads nodes
  {
    forall p | p in nodes :: p in kept && kept[p] == (p.key, p.data)
  }

  // What a callback says of each entry: whether it deletes it, and what it returns.
  ghost function Judge<V>(f: (string, Option<V>) -> (bool, int), kept: Kept<V>): Verdicts<V> {
    map p | p in kept && kept[p].0.Some? :: f(kept[p].0.value, kept[p].1)
  }

  type Verdicts<V> = map<Iter<V>, (bool, int)>

  // The visited entries the callback deleted.
  ghost function Gone<V>(verdicts: Verdicts<V>, visited: seq<Iter<V>>): set<Iter<V>> {
    set p | p in visited && p in verdicts && verdicts[p].0
  }

  // The table without them.
  ghost function Left<V>(v: View<V>, gone: set<Iter<V>>): View<V> {
    View(DropAll(v.chains, gone), v.nodes - gone, map k | k in v.entries && v.entries[k] !in gone :: v.entries[k])
  }

  // The callback returned 0 so far; it stopped a visit of n entries only by not doing so.
  ghost predicate Allowed<V>(verdicts: Verdicts<V>, visited: seq<Iter<V>>, n: nat) {
    && (forall p | p in visited :: p in verdicts)
    && (forall i | 0 <= i < |visited| - 1 :: verdicts[visited[i]].1 == 0)
    && (|visited| < n ==> visited != [] && verdicts[visited[|visited| - 1]].1 != 0)
  }

  // What visiting p leaves.
  ghost function Visited<V>(v: View<V>, p: Iter<V>, key: string, deletes: bool): View<V> {
    if deletes then View(DropAll(v.chains, {p}), v.nodes - {p}, v.entries - {key}) else v
  }

  lemma VisitedIs<V>(v: View<V>, p: Iter<V>, key: string)
    ensures Visited(v, p, key, true) == View(DropAll(v.chains, {p}), v.nodes - {p}, v.entries - {key})
    ensures Visited(v, p, key, false) == v
  {}

  lemma UnkeyedNone<V>(entries: map<string, Iter<V>>)
    ensures Unkeyed(entries, None) == entries
  {}

  lemma OneKey<V>(t: Table<V>, p: Iter<V>)
    requires t.Valid() && p in t.view.nodes
    ensures p.key.Some? && forall k | k in t.view.entries :: t.view.entries[k] == p <==> k == p.key.value
  {
    TableFacts(t);
    hide Buckets;
    assert KeysOf(t.view.nodes)[p] == p.key;
  }

  // All entries before the k-th of chain h have been visited, none after.
  ghost predicate Going<V>(v: View<V>, now: View<V>, verdicts: Verdicts<V>, visited: seq<Iter<V>>, h: nat, k: nat) {
    && Placed(v.chains, v.nodes) && verdicts.Keys == v.nodes
    && h <= |v.chains| && (if h < |v.chains| then k <= |v.chains[h]| else k == 0)
    && visited == OrderTo(v.chains, h, k)
    && now == Left(v, Gone(verdicts, visited))
    && (forall p | p in visited :: p in v.nodes && verdicts[p].1 == 0)
  }

  lemma EmptyTable<V>(tab: array<Iter?<V>>, v: View<V>, hash: string -> nat)
    requires tab.Length == |v.chains| >= 1 && v.nodes == {} && v.entries == map[]
    requires forall h | 0 <= h < |v.chains| :: tab[h] == null && v.chains[h] == []
    ensures Quiet(tab, 0, v, hash)
  {
    hide Buckets;
    EmptyBuckets(tab, v.chains);
  }

  // Where an entry stands, and its links.
  lemma Standing<V>(tab: array<Iter?<V>>, nelem: nat, v: View<V>, hash: string -> nat, p: Iter<V>) returns (k: nat)
    requires Sound(tab, nelem, v, hash) && p in v.nodes
    ensures Placed(v.chains, v.nodes) && Buckets(tab, v.chains, v.nodes) && |v.chains| == tab.Length >= 1
    ensures var c := v.chains[Index(p.hkey, tab.Length)];
      k < |c| && c[k] == p && p.next == At(c, k + 1) && p.prev == At(c, k - 1)
  {
    SoundFacts(tab, nelem, v, hash);
    hide Buckets, Index, Keyed, Linked, Placed;
    k := PlaceOf(v.chains, v.nodes, p);
    Along(tab, v.chains, v.nodes, Index(p.hkey, tab.Length), k, p);
  }

  lemma AtIs<V>(c: seq<Iter<V>>, k: int)
    ensures if 0 <= k < |c| then At(c, k) == c[k] else At(c, k) == null
  {}

  function Unkeyed<V>(entries: map<string, Iter<V>>, key: Option<string>): map<string, Iter<V>> {
    match key case None => entries case Some(k) => entries - {k}
  }

  lemma UnkeyedIs<V>(entries: map<string, Iter<V>>, key: string)
    ensures Unkeyed(entries, Some(key)) == entries - {key}
  {}

  lemma KeyDropped<V>(entries: map<string, Iter<V>>, keys: Keys<V>, hash: string -> nat, p: Iter<V>)
    requires Keyed(entries, keys, hash) && p in keys
    ensures Keyed(Unkeyed(entries, keys[p]), keys[p := None], hash)
  {}

  lemma KeyGone<V>(entries: map<string, Iter<V>>, keys: Keys<V>, hash: string -> nat, p: Iter<V>)
    requires Keyed(entries, keys, hash) && p in keys && keys[p] == None
    ensures Keyed(entries, keys - {p}, hash)
  {}

  // The entry of a key, and the others.
  lemma OneEntry<V>(t: Table<V>, key: string, p: Iter<V>)
    requires t.Valid() && key in t.view.entries && t.view.entries[key] == p
    ensures p in t.view.nodes && p.key == Some(key) && !p.visiting
    ensures forall k | k in t.view.entries && k != key :: t.view.entries[k] != p
  {
    TableFacts(t);
    hide Buckets;
    assert KeysOf(t.view.nodes)[p] == Some(key);
  }

  lemma ContentsFacts<V>(t: Table<V>)
    requires t.Valid()
    ensures t.Contents().Keys == t.view.entries.Keys
    ensures forall k | k in t.view.entries ::
      t.view.entries[k] in t.view.nodes && t.Contents()[k] == t.view.entries[k].data
  {
    hide Buckets;
  }

  lemma ContentsAre<V>(t: Table<V>, m: map<string, Option<V>>)
    requires t.Valid() && m.Keys == t.view.entries.Keys
    requires forall k | k in t.view.entries :: m[k] == t.view.entries[k].data
    ensures t.Contents() == m
  {
    hide Buckets;
  }

  lemma SoundFacts<V>(tab: array<Iter?<V>>, nelem: nat, v: View<V>, hash: string -> nat)
    requires Sound(tab, nelem, v, hash)
    ensures Buckets(tab, v.chains, v.nodes) && nelem == |v.nodes| <= FULLTAB * tab.Length + 1
    ensures |v.chains| == tab.Length >= 1
    ensures Keyed(v.entries, KeysOf(v.nodes), hash)
    ensures Shape(tab[..], Nexts(v.nodes), Prevs(v.nodes), v.chains, v.nodes)
    ensures Nexts(v.nodes).Keys == Prevs(v.nodes).Keys == KeysOf(v.nodes).Keys == v.nodes
    ensures forall p | p in v.nodes ::
      Nexts(v.nodes)[p] == p.next && Prevs(v.nodes)[p] == p.prev && KeysOf(v.nodes)[p] == p.key
  {
    hide Buckets;
    BucketFacts(tab, v.chains, v.nodes);
  }

  lemma SoundFrom<V>(tab: array<Iter?<V>>, nelem: nat, v: View<V>, hash: string -> nat)
    requires Buckets(tab, v.chains, v.nodes) && nelem == |v.nodes| <= FULLTAB * tab.Length + 1
    requires Keyed(v.entries, KeysOf(v.nodes), hash)
    ensures Sound(tab, nelem, v, hash)
  {}

  lemma QuietFromSound<V>(tab: array<Iter?<V>>, nelem: nat, v: View<V>, hash: string -> nat)
    requires Sound(tab, nelem, v, hash) && forall p | p in v.nodes :: p.key.Some? && !p.visiting
    ensures Quiet(tab, nelem, v, hash)
  {}

  // Nothing that matters to the chains has changed.
  lemma SoundAgain<V>(tab: array<Iter?<V>>, nelem: nat, v: View<V>, hash: string -> nat,
                      heads: seq<Iter?<V>>, next: Links<V>, prev: Links<V>, keys: Keys<V>)
    requires Shape(heads, next, prev, v.chains, v.nodes) && Keyed(v.entries, keys, hash)
    requires nelem == |v.nodes| <= FULLTAB * tab.Length + 1 && tab[..] == heads
    requires next.Keys == prev.Keys == keys.Keys == v.nodes
    requires forall p | p in v.nodes :: next[p] == p.next && prev[p] == p.prev && keys[p] == p.key
    ensures Sound(tab, nelem, v, hash)
  {
    hide Shape, Keyed;
    NextsAre(v.nodes, next);
    PrevsAre(v.nodes, prev);
    KeysAre(v.nodes, keys);
  }

  lemma TableFacts<V>(t: Table<V>)
    requires t.Valid()
    ensures Sound(t.tab, t.nelem, t.view, t.hash)
    ensures Buckets(t.tab, t.view.chains, t.view.nodes) && |t.view.chains| == t.tab.Length >= 1
    ensures t.nelem == |t.view.nodes| <= FULLTAB * t.tab.Length + 1
    ensures Keyed(t.view.entries, KeysOf(t.view.nodes), t.hash) && KeysOf(t.view.nodes).Keys == t.view.nodes
    ensures forall p | p in t.view.nodes :: p.key.Some? && !p.visiting && KeysOf(t.view.nodes)[p] == p.key
    ensures forall k | k in t.view.entries :: t.view.entries[k] in t.view.nodes
    ensures FULLTAB == 2 && GROWTAB == 4
  {
    hide Buckets;
    BucketFacts(t.tab, t.view.chains, t.view.nodes);
  }

  lemma QuietFrom<V>(tab: array<Iter?<V>>, nelem: nat, v: View<V>, hash: string -> nat)
    requires Buckets(tab, v.chains, v.nodes) && nelem == |v.nodes| <= FULLTAB * tab.Length + 1
    requires Keyed(v.entries, KeysOf(v.nodes), hash)
    requires forall p | p in v.nodes :: p.key.Some? && !p.visiting
    ensures Quiet(tab, nelem, v, hash)
  {}

  lemma ValidFrom<V>(t: Table<V>)
    requires Quiet(t.tab, t.nelem, t.view, t.hash)
    ensures t.Valid()
  {}

  lemma KeysAre<V>(nodes: set<Iter<V>>, keys: Keys<V>)
    requires keys.Keys == nodes && forall p | p in nodes :: keys[p] == p.key
    ensures KeysOf(nodes) == keys
  {}

  lemma KeyAdded<V>(entries: map<string, Iter<V>>, keys: Keys<V>, hash: string -> nat, key: string, p: Iter<V>)
    requires Keyed(entries, keys, hash) && p !in keys && key !in entries && p.hkey == hash(key)
    ensures Keyed(entries[key := p], keys[p := Some(key)], hash)
  {}

  // An entry with a key is in the chain of its key.
  lemma KeyInChain<V>(t: Table<V>, key: string)
    requires t.Valid() && key in t.view.entries
    ensures |t.view.chains| >= 1 && t.view.entries[key].key == Some(key)
    ensures t.view.entries[key] in t.view.chains[Index(t.hash(key), |t.view.chains|)]
  {
    TableFacts(t);
    hide Buckets, Index, Placed;
    BucketFacts(t.tab, t.view.chains, t.view.nodes);
    var p := t.view.entries[key];
    assert p in t.view.nodes && p.hkey == t.hash(key);
    EntryPlaced(t.view.chains, t.view.nodes, p);
  }

  lemma LookupEnds<V>(t: Table<V>, key: string, h: nat, p: Iter?<V>)
    requires t.Valid() && |t.view.chains| >= 1 && h == Index(t.hash(key), |t.view.chains|)
    requires
      if p == null then forall q | q in t.view.chains[h] :: q.key != Some(key)
      else p in t.view.nodes && p.key == Some(key)
    ensures p == if key in t.view.entries then t.view.entries[key] else null
  {
    TableFacts(t);
    hide Buckets, Index;
    assert p != null ==> KeysOf(t.view.nodes)[p] == Some(key);
    if key in t.view.entries { KeyInChain(t, key); }
  }

  lemma LeftNothing<V>(v: View<V>)
    ensures Left(v, {}) == v
  {
    forall h | 0 <= h < |v.chains| ensures DropAll(v.chains, {})[h] == v.chains[h] { DropNone(v.chains[h], {}); }
    assert DropAll(v.chains, {}) == v.chains;
  }

  lemma LeftMore<V>(v: View<V>, gone: set<Iter<V>>, p: Iter<V>, key: string)
    requires forall k | k in Left(v, gone).entries :: Left(v, gone).entries[k] == p <==> k == key
    ensures Visited(Left(v, gone), p, key, true) == Left(v, gone + {p})
  {
    forall h | 0 <= h < |v.chains| ensures DropAll(Left(v, gone).chains, {p})[h] == DropAll(v.chains, gone + {p})[h] {
      DropTwice(v.chains[h], gone, {p});
    }
    assert DropAll(Left(v, gone).chains, {p}) == DropAll(v.chains, gone + {p});
    assert Left(v, gone).entries - {key} == Left(v, gone + {p}).entries;
  }

  // A sweep whose callback always returns 0 visits every entry once and
  // leaves those the callback did not delete, in the order they had.
  lemma FullSweepFilters<V>(v: View<V>, now: View<V>, verdicts: Verdicts<V>, visited: seq<Iter<V>>)
    requires Placed(v.chains, v.nodes) && verdicts.Keys == v.nodes
    requires visited <= Order(v.chains) && Allowed(verdicts, visited, |Order(v.chains)|)
    requires now == Left(v, Gone(verdicts, visited)) && forall p | p in v.nodes :: verdicts[p].1 == 0
    ensures visited == Order(v.chains) && |visited| == |v.nodes| && Distinct(visited)
    ensures now.nodes == set p | p in v.nodes && !verdicts[p].0
    ensures now == Left(v, set p | p in v.nodes && verdicts[p].0)
  {
    hide Placed, Order, DropAll;
    OrderIsNodes(v.chains, v.nodes);
    assert visited != [] ==> verdicts[visited[|visited| - 1]].1 == 0;
    assert visited == Order(v.chains);
    var gone := set p | p in v.nodes && verdicts[p].0;
    assert Gone(verdicts, visited) == gone;
    assert now == Left(v, gone);
    assert v.nodes - Gone(verdicts, visited) == set p | p in v.nodes && !verdicts[p].0;
  }

  // The count is the size of the map.
  lemma CountIsMapSize<V>(t: Table<V>)
    requires t.Valid()
    ensures t.nelem == |t.view.nodes| == |t.view.entries| == |t.Contents()| <= 2 * t.tab.Length + 1
  {
    TableFacts(t);
    ContentsFacts(t);
    hide Buckets, Keyed;
    KeysCount(t.view.entries, KeysOf(t.view.nodes), t.hash);
    assert |t.Contents()| == |t.Contents().Keys| == |t.view.entries.Keys|;
    assert |t.view.entries| == |t.view.entries.Keys|;
  }

  lemma {:induction false} KeysCount<V>(entries: map<string, Iter<V>>, keys: Keys<V>, hash: string -> nat)
    requires Keyed(entries, keys, hash) && forall p | p in keys :: keys[p].Some?
    ensures |entries.Keys| == |keys.Keys|
    decreases |keys|
  {
    if keys == map[] {
      assert entries == map[];
    } else {
      var p :| p in keys;
      var k := keys[p].value;
      KeyDropped(entries, keys, hash, p);
      KeyGone(Unkeyed(entries, keys[p]), keys[p := None], hash, p);
      assert keys[p := None] - {p} == keys - {p};
      KeysCount(entries - {k}, keys - {p}, hash);
      assert (entries - {k}).Keys == entries.Keys - {k} && (keys - {p}).Keys == keys.Keys - {p};
    }
  }

  lemma GoingFirst<V>(v: View<V>, verdicts: Verdicts<V>)
    requires Placed(v.chains, v.nodes) && verdicts.Keys == v.nodes
    ensures Going(v, v, verdicts, [], 0, 0)
  {
    hide Placed, Left;
    NotEmpty(v.chains, v.nodes);
    LeftNothing(v);
    OrderGrows(v.chains, 0, 0);
    assert Gone(verdicts, []) == {};
  }

  lemma GoingChain<V>(v: View<V>, now: View<V>, verdicts: Verdicts<V>, visited: seq<Iter<V>>, h: nat, k: nat)
    requires Going(v, now, verdicts, visited, h, k) && h < |v.chains| && At(v.chains[h], k) == null
    ensures Going(v, now, verdicts, visited, h + 1, 0)
  {
    hide Placed, Left, OrderTo, At;
    OrderGrows(v.chains, h, k);
  }

  // What is still to come has not been deleted.
  lemma Untouched<V>(v: View<V>, now: View<V>, verdicts: Verdicts<V>, visited: seq<Iter<V>>, h: nat, k: nat, j: nat)
    requires Going(v, now, verdicts, visited, h, k) && h < |v.chains| && k <= j < |v.chains[h]|
    ensures v.chains[h][j] !in visited
  {
    hide Placed, Left, Order, Rank;
    OrderPlace(v.chains, v.nodes, h, j);
    OrderIsNodes(v.chains, v.nodes);
    OrderAround(v.chains, h);
    var i := |Order(v.chains[..h])| + j;
    forall m | 0 <= m < |visited| ensures visited[m] != v.chains[h][j] {
      assert visited[m] == Order(v.chains)[m];
    }
  }

  lemma ChainNow<V>(v: View<V>, now: View<V>, verdicts: Verdicts<V>, visited: seq<Iter<V>>, h: nat, k: nat)
    returns (n: nat)
    requires Going(v, now, verdicts, visited, h, k) && h < |v.chains|
    ensures |now.chains| == |v.chains| && n + |v.chains[h]| - k == |now.chains[h]|
        && now.chains[h][n..] == v.chains[h][k..]
    ensures k == 0 ==> n == 0
  {
    var gone := Gone(verdicts, visited);
    forall j | k <= j < |v.chains[h]| ensures v.chains[h][j] !in gone { Untouched(v, now, verdicts, visited, h, k, j); }
    DropFrom(v.chains[h], k, gone);
    n := |Drop(v.chains[h][..k], gone)|;
  }

  lemma GoingHead<V>(tab: array<Iter?<V>>, v: View<V>, now: View<V>, verdicts: Verdicts<V>, visited: seq<Iter<V>>,
      h: nat)
    requires Going(v, now, verdicts, visited, h, 0) && h < |now.chains| && Buckets(tab, now.chains, now.nodes)
    ensures h < tab.Length && h < |v.chains| && tab[h] == At(v.chains[h], 0)
  {
    assert |now.chains| == |v.chains|;
    var n := ChainNow(v, now, verdicts, visited, h, 0);
    hide Going, Buckets;
    HeadAt(tab, now.chains, now.nodes, h);
    assert now.chains[h][0..] == now.chains[h] && v.chains[h][0..] == v.chains[h];
  }

  lemma GoingAt<V>(tab: array<Iter?<V>>, v: View<V>, now: View<V>, verdicts: Verdicts<V>, visited: seq<Iter<V>>,
                   h: nat, k: nat, p: Iter<V>)
    requires Going(v, now, verdicts, visited, h, k) && Buckets(tab, now.chains, now.nodes)
    requires h < |v.chains| && p == At(v.chains[h], k)
    ensures p in now.nodes && p.next == At(v.chains[h], k + 1) && k < |v.chains[h]|
  {
    var n := ChainNow(v, now, verdicts, visited, h, k);
    hide Going, Buckets;
    var c, d := v.chains[h], now.chains[h];
    assert c[k] == c[k..][0] == d[n..][0] == d[n];
    if k + 1 < |c| { assert c[k + 1] == c[k..][1] == d[n..][1] == d[n + 1]; }
    Along(tab, now.chains, now.nodes, h, n, p);
  }

  lemma GoingNext<V>(v: View<V>, now: View<V>, verdicts: Verdicts<V>, visited: seq<Iter<V>>, h: nat, k: nat,
      p: Iter<V>, key: string)
    requires Going(v, now, verdicts, visited, h, k) && h < |v.chains| && p == At(v.chains[h], k)
    requires forall i | i in now.entries :: now.entries[i] == p <==> i == key
    ensures p in verdicts && visited + [p] <= Order(v.chains)
    ensures var now' := Visited(now, p, key, verdicts[p].0);
      && now' == Left(v, Gone(verdicts, visited + [p]))
      && (if verdicts[p].1 == 0 then Going(v, now', verdicts, visited + [p], h, k + 1)
          else Allowed(verdicts, visited + [p], |Order(v.chains)|))
  {
    var gone := Gone(verdicts, visited);
    EntryAt(v.chains, v.nodes, h, k);
    hide Placed, Left, OrderTo, Visited, Order;
    OrderGrows(v.chains, h, k);
    OrderToPrefix(v.chains, h, k + 1);
    VisitedIs(now, p, key);
    if verdicts[p].0 {
      LeftMore(v, gone, p, key);
      assert Gone(verdicts, visited + [p]) == gone + {p};
    } else {
      assert Gone(verdicts, visited + [p]) == gone;
    }
  }

  lemma GoingEnd<V>(v: View<V>, now: View<V>, verdicts: Verdicts<V>, visited: seq<Iter<V>>)
    requires Going(v, now, verdicts, visited, |v.chains|, 0)
    ensures visited == Order(v.chains) && Allowed(verdicts, visited, |visited|)
        && now == Left(v, Gone(verdicts, visited))
  {
    OrderAll(v.chains);
  }

  lemma SweepFacts<V>(t: Table<V>, v: View<V>, kept: Kept<V>, f: (string, Option<V>) -> (bool, int),
      visited: seq<Iter<V>>, h: nat, k: nat)
    requires t.Sweeping(v, kept, f, visited, h, k)
    ensures t.Valid() && Keeps(kept, t.view.nodes) && Going(v, t.view, Judge(f, kept), visited, h, k)
  {}

  lemma SweepingFrom<V>(t: Table<V>, v: View<V>, kept: Kept<V>, f: (string, Option<V>) -> (bool, int),
      visited: seq<Iter<V>>, h: nat, k: nat)
    requires t.Valid() && Keeps(kept, t.view.nodes) && Going(v, t.view, Judge(f, kept), visited, h, k)
    ensures t.Sweeping(v, kept, f, visited, h, k)
  {}

  lemma SweptFrom<V>(t: Table<V>, v: View<V>, kept: Kept<V>, f: (string, Option<V>) -> (bool, int),
      visited: seq<Iter<V>>)
    requires t.Valid() && Keeps(kept, t.view.nodes)
    requires visited <= Order(v.chains) && Allowed(Judge(f, kept), visited, |Order(v.chains)|)
    requires t.view == Left(v, Gone(Judge(f, kept), visited))
    ensures t.Swept(v, kept, f, visited)
  {}

  lemma KeptAt<V>(kept: Kept<V>, nodes: set<Iter<V>>, p: Iter<V>, f: (string, Option<V>) -> (bool, int))
    requires Keeps(kept, nodes) && p in nodes && p.key.Some?
    ensures p in Judge(f, kept) && Judge(f, kept)[p] == f(p.key.value, p.data)
    ensures forall q | q in nodes :: q in kept && kept[q] == (q.key, q.data)
  {}

  lemma KeepsOn<V>(kept: Kept<V>, nodes: set<Iter<V>>)
    requires forall p | p in nodes :: p in kept && kept[p] == (p.key, p.data)
    ensures Keeps(kept, nodes)
  {}

  lemma VisitedNodes<V>(v: View<V>, p: Iter<V>, key: string)
    ensures forall d :: Visited(v, p, key, d).nodes == if d then v.nodes - {p} else v.nodes
  {}

  lemma SweepsFirst<V>(t: Table<V>, f: (string, Option<V>) -> (bool, int))
    requires t.Valid()
    ensures t.Sweeping(t.view, KeptOf(t.view.nodes), f, [], 0, 0) && |t.view.chains| == t.tab.Length
  {
    TableFacts(t);
    hide Keyed, Linked, Placed, Going, Buckets;
    BucketFacts(t.tab, t.view.chains, t.view.nodes);
    BucketsPlaced(t.tab, t.view.chains, t.view.nodes);
    GoingFirst(t.view, Judge(f, KeptOf(t.view.nodes)));
  }

  lemma BucketsPlaced<V>(tab: array<Iter?<V>>, chains: seq<seq<Iter<V>>>, nodes: set<Iter<V>>)
    requires Buckets(tab, chains, nodes)
    ensures Placed(chains, nodes)
  {
    hide Placed;
  }

  lemma SweepHead<V>(t: Table<V>, v: View<V>, kept: Kept<V>, f: (string, Option<V>) -> (bool, int),
      visited: seq<Iter<V>>, h: nat)
    requires t.Sweeping(v, kept, f, visited, h, 0) && h < t.tab.Length
    ensures h < |v.chains| && t.tab[h] == At(v.chains[h], 0)
  {
    hide Going, Buckets, Keyed;
    TableFacts(t);
    GoingHead(t.tab, v, t.view, Judge(f, kept), visited, h);
  }

  lemma SweepChain<V>(t: Table<V>, v: View<V>, kept: Kept<V>, f: (string, Option<V>) -> (bool, int),
      visited: seq<Iter<V>>, h: nat, k: nat)
    requires t.Sweeping(v, kept, f, visited, h, k) && h < |v.chains| && At(v.chains[h], k) == null
    ensures t.Sweeping(v, kept, f, visited, h + 1, 0)
  {
    hide Going, Quiet;
    GoingChain(v, t.view, Judge(f, kept), visited, h, k);
  }

  lemma SweepEnd<V>(t: Table<V>, v: View<V>, kept: Kept<V>, f: (string, Option<V>) -> (bool, int),
      visited: seq<Iter<V>>)
    requires t.Sweeping(v, kept, f, visited, t.tab.Length, 0)
    ensures t.Swept(v, kept, f, visited)
  {
    TableFacts(t);
    assert |t.view.chains| == |v.chains|;
    hide Quiet, Buckets, Going;
    GoingEnd(v, t.view, Judge(f, kept), visited);
  }
}
