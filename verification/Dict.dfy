/** The chained hash table: it refines a finite map, across doublings, and its iterator
    tolerates deletion of the entries it returns. */
module Dict {
  import opened Bytes
  import opened Hashing

  type Key = seq<byte>
  type Value = int

  // A bucket index is returned as an int, so a table has at most 2^31 buckets.
  const MAX_SIZE: nat := 0x8000_0000
  const INITIAL_SIZE: nat := 4

  class Entry {
    const key: Key
    var val: Value
    var next: Entry?

    constructor (key: Key, val: Value, next: Entry?)
      ensures this.key == key && this.val == val && this.next == next
    {
      this.key, this.val, this.next := key, val, next;
    }
  }

  type Chain = seq<Entry>

  // The list from head on consists of these entries.
  ghost predicate IsList(head: Entry?, chain: Chain)
    reads chain
  {
    && head == (if chain == [] then null else chain[0])
    && (forall i, j :: 0 <= i && j == i + 1 < |chain| ==> chain[i].next == chain[j])
    && (chain != [] ==> chain[|chain| - 1].next == null)
  }

  // Every entry is in the bucket its key hashes to, once, and entries names exactly them.
  ghost predicate Shape(chains: seq<Chain>, size: nat, entries: map<Key, Entry>) {
    && |chains| == size
    && (forall b, i :: 0 <= b < size && 0 <= i < |chains[b]| ==> Belongs(chains[b][i], b, size, entries))
    && (forall b, i, j :: 0 <= b < size && 0 <= i < j < |chains[b]| ==> chains[b][i] != chains[b][j])
    && (forall k :: k in entries ==> Stored(chains, size, k, entries[k]))
  }

  ghost predicate Belongs(e: Entry, b: nat, size: nat, entries: map<Key, Entry>)
    requires size > 0
  {
    e.key in entries && entries[e.key] == e && Bucket(e.key, size) == b
  }

  ghost predicate Stored(chains: seq<Chain>, size: nat, k: Key, e: Entry)
    requires |chains| == size
  {
    e.key == k && size > 0 && Bucket(k, size) < size && e in chains[Bucket(k, size)]
  }

  lemma ShapeWithout(chains: seq<Chain>, size: nat, entries: map<Key, Entry>, h: nat, i: nat)
    requires Shape(chains, size, entries) && h < size && i < |chains[h]|
    ensures var chains' := chains[h := chains[h][..i] + chains[h][i + 1..]];
            Shape(chains', size, entries - {chains[h][i].key})
  {
    hide Bucket;
    var e := chains[h][i];
    var chains' := chains[h := chains[h][..i] + chains[h][i + 1..]];
    var entries' := entries - {e.key};
    assert Belongs(e, h, size, entries);
    forall b, j | 0 <= b < size && 0 <= j < |chains'[b]|
      ensures Belongs(chains'[b][j], b, size, entries')
    {
      var j' := if b == h && j >= i then j + 1 else j;
      assert chains'[b][j] == chains[b][j'];
      assert Belongs(chains[b][j'], b, size, entries);
    }
    forall k | k in entries'
      ensures Stored(chains', size, k, entries'[k])
    {
      assert Stored(chains, size, k, entries[k]);
      var j :| 0 <= j < |chains[Bucket(k, size)]| && chains[Bucket(k, size)][j] == entries[k];
      if Bucket(k, size) == h {
        assert chains'[h][if j < i then j else j - 1] == entries[k];
      }
    }
  }

  lemma ShapeWith(chains: seq<Chain>, size: nat, entries: map<Key, Entry>, e: Entry)
    requires Shape(chains, size, entries) && size > 0 && e.key !in entries
    requires Bucket(e.key, size) < size
    ensures var h := Bucket(e.key, size);
            Shape(chains[h := [e] + chains[h]], size, entries[e.key := e])
  {
    hide Bucket;
    var h := Bucket(e.key, size);
    var chains', entries' := chains[h := [e] + chains[h]], entries[e.key := e];
    forall b, j | 0 <= b < size && 0 <= j < |chains'[b]|
      ensures Belongs(chains'[b][j], b, size, entries')
    {
      if !(b == h && j == 0) {
        assert chains'[b][j] == chains[b][if b == h then j - 1 else j];
        assert Belongs(chains'[b][j], b, size, entries);
      }
    }
    forall k | k in entries'
      ensures Stored(chains', size, k, entries'[k])
    {
      if k == e.key {
        assert chains'[h][0] == e;
      } else {
        assert Stored(chains, size, k, entries[k]);
      }
    }
    forall b, i, j | 0 <= b < size && 0 <= i < j < |chains'[b]|
      ensures chains'[b][i] != chains'[b][j]
    {
      assert Belongs(chains'[b][j], b, size, entries);
    }
  }

  lemma PushFront(entry: Entry, chain: Chain)
    requires IsList(entry.next, chain)
    ensures IsList(entry, [entry] + chain)
  {
    var longer := [entry] + chain;
    assert forall j :: 0 < j < |longer| ==> longer[j] == chain[j - 1];
  }

  lemma OneMore(entries: map<Key, Entry>, key: Key, entry: Entry)
    requires key !in entries
    ensures |entries[key := entry]| == |entries| + 1
  {
  }

  lemma OneLess(entries: map<Key, Entry>, key: Key)
    requires key in entries
    ensures |entries - {key}| == |entries| - 1
  {
    OneMore(entries - {key}, key, entries[key]);
    assert (entries - {key})[key := entries[key]] == entries;
  }

  // The objects of a table lie within objs.
  ghost predicate Within(chains: seq<Chain>, objs: set<Entry>) {
    forall b, i :: 0 <= b < |chains| && 0 <= i < |chains[b]| ==> chains[b][i] in objs
  }

  lemma InObjects(chains: seq<Chain>, size: nat, entries: map<Key, Entry>, objs: set<Entry>)
    requires Shape(chains, size, entries) && forall k :: k in entries ==> entries[k] in objs
    ensures Within(chains, objs)
  {
    forall b, i | 0 <= b < size && 0 <= i < |chains[b]|
      ensures chains[b][i] in objs
    {
      assert Belongs(chains[b][i], b, size, entries);
    }
  }

  class Dict {
    var table: array<Entry?>
    var size: nat
    var sizemask: nat
    var used: nat

    ghost var chains: seq<Chain>
    ghost var entries: map<Key, Entry>
    ghost var objs: set<Entry>

    // The finite map the table stands for.
    ghost function Model(): (m: map<Key, Value>)
      reads this, objs
      requires forall k :: k in entries ==> entries[k] in objs
      ensures m.Keys == entries.Keys
    {
      map k | k in entries :: entries[k].val
    }

    ghost predicate Valid()
      reads this, table, objs
    {
      && table.Length == size == |chains|
      && (if size == 0 then sizemask == 0 else IsPow2(size) && 4 <= size <= MAX_SIZE && sizemask == size - 1)
      && Shape(chains, size, entries)
      && (forall k :: k in entries ==> entries[k] in objs)
      && Linked()
      && used == |entries| <= size
    }

    // Every bucket starts the list of its chain.
    ghost predicate Linked()
      requires table.Length == |chains|
      reads this`chains, this`table, this`objs, table, objs
    {
      Within(chains, objs) && forall b :: 0 <= b < |chains| ==> IsList(table[b], chains[b])
    }

    // Bucket h now holds chain; the entries in it are objs.
    ghost method Record(h: nat, chain: Chain, entries: map<Key, Entry>, objs: set<Entry>)
      requires h < |chains| == table.Length && IsList(table[h], chain)
      requires forall b :: 0 <= b < |chains| && b != h ==> IsList(table[b], chains[b])
      requires Shape(chains[h := chain], |chains|, entries) && forall k :: k in entries ==> entries[k] in objs
      modifies this`chains, this`objs, this`entries
      ensures chains == old(chains)[h := chain] && this.objs == objs && this.entries == entries
      ensures Linked()
    {
      hide Shape, IsList;
      InObjects(chains[h := chain], |chains|, entries, objs);
      chains := chains[h := chain];
      this.objs := objs;
      this.entries := entries;
    }

    constructor ()
      ensures Valid() && Model() == map[] && fresh(table) && objs == {}
    {
      table := new Entry?[0];
      size, sizemask, used := 0, 0, 0;
      chains, entries, objs := [], map[], {};
    }

    // Losing the keys gone, and no value changed, is all that happened to the map.
    twostate lemma ModelKept(gone: set<Key>)
      requires entries == old(entries) - gone
      requires (forall k :: k in entries ==> entries[k] in objs)
      requires old(forall k :: k in entries ==> entries[k] in objs)
      requires forall k :: k in entries ==> entries[k].val == old(entries[k].val)
      ensures Model() == old(Model()) - gone
    {
    }

    twostate lemma ModelSame()
      requires entries == old(entries)
      requires (forall k :: k in entries ==> entries[k] in objs)
      requires old(forall k :: k in entries ==> entries[k] in objs)
      requires forall k :: k in entries ==> entries[k].val == old(entries[k].val)
      ensures Model() == old(Model())
    {
    }

    twostate lemma ModelGrew(new entry: Entry)
      requires entries == old(entries)[entry.key := entry]
      requires (forall k :: k in entries ==> entries[k] in objs)
      requires old(forall k :: k in entries ==> entries[k] in objs)
      requires forall k :: k in entries && k != entry.key ==> entries[k].val == old(entries[k].val)
      ensures Model() == old(Model())[entry.key := entry.val]
    {
    }

    // Follow the list of the key's bucket up to the entry of the key, or its end.
    method Search(key: Key) returns (h: nat, he: Entry?, prevhe: Entry?, ghost i: nat)
      requires Valid() && size > 0
      ensures h == Bucket(key, size) < size && i <= |chains[h]|
      ensures he == (if i == |chains[h]| then null else chains[h][i])
      ensures prevhe == (if i == 0 then null else chains[h][i - 1])
      ensures if he == null then key !in entries else key in entries && he == entries[key] && he.key == key
    {
      hide IsPow2, Hash, BitAnd, Shape;
      h := BitAnd(Hash(key), sizemask);
      BucketInRange(key, size);
      he, prevhe, i := table[h], null, 0;
      while he != null && he.key != key
        invariant 0 <= i <= |chains[h]| && he == (if i == |chains[h]| then null else chains[h][i])
        invariant prevhe == (if i == 0 then null else chains[h][i - 1])
        invariant forall j :: 0 <= j < i ==> chains[h][j].key != key
        decreases |chains[h]| - i
      {
        prevhe := he;
        he := he.next;
        i := i + 1;
      }
      WhereKeysAre(key, h, i);
    }

    lemma WhereKeysAre(key: Key, h: nat, i: nat)
      requires Valid() && size > 0 && h == Bucket(key, size) < size && i <= |chains[h]|
      ensures i < |chains[h]| && chains[h][i].key == key ==> key in entries && chains[h][i] == entries[key]
      ensures (forall j :: 0 <= j < |chains[h]| ==> chains[h][j].key != key) ==> key !in entries
    {
      hide Bucket;
      if i < |chains[h]| {
        assert Belongs(chains[h][i], h, size, entries);
      }
      if key in entries {
        assert Stored(chains, size, key, entries[key]);
      }
    }

    method Find(key: Key) returns (he: Entry?)
      requires Valid()
      ensures he != null <==> key in Model()
      ensures he != null ==> he == entries[key] && he.key == key && he.val == Model()[key]
    {
      if size == 0 {
        EmptyTable();
        return null;
      }
      var h, prevhe;
      ghost var i;
      h, he, prevhe, i := Search(key);
    }

    method Delete(key: Key) returns (ok: bool)
      requires Valid()
      modifies this, table, objs
      ensures Valid() && table == old(table) && size == old(size) && entries == old(entries) - {key}
      ensures objs == old(objs)
      ensures ok <==> key in old(Model())
      ensures Model() == old(Model()) - {key}
      ensures ok ==> size > 0 && Removed(old(chains), chains, Bucket(key, size), key)
      ensures !ok ==> chains == old(chains)
    {
      hide IsPow2, Shape, Bucket, IsList;
      if size == 0 {
        EmptyTable();
        return false;
      }
      var h, de, prevde;
      ghost var i;
      h, de, prevde, i := Search(key);
      if de == null {
        return false;
      }
      RemoveAt(h, i, prevde, de);
      ok := true;
    }

    method RemoveAt(h: nat, ghost i: nat, prevde: Entry?, de: Entry)
      requires Valid() && h < size && i < |chains[h]| && de == chains[h][i]
      requires de.key in entries && entries[de.key] == de
      requires prevde == if i == 0 then null else chains[h][i - 1]
      modifies this`used, this`chains, this`entries, this`objs, table, objs
      ensures Valid() && entries == old(entries) - {de.key} && objs == old(objs)
      ensures Model() == old(Model()) - {de.key}
      ensures chains == old(chains)[h := old(chains)[h][..i] + old(chains)[h][i + 1..]]
    {
      hide IsPow2, Shape, Bucket, IsList, Model, Within, Linked;
      ShapeWithout(chains, size, entries, h, i);
      Apart(h, i);
      Unlink(h, i, prevde, de);
      OneLess(entries, de.key);
      Record(h, chains[h][..i] + chains[h][i + 1..], entries - {de.key}, objs);
      used := used - 1;
      ModelKept({de.key});
    }

    // Take the entry at position i of bucket h out of its list.
    method Unlink(h: nat, ghost i: nat, prevde: Entry?, de: Entry)
      requires table.Length == size == |chains| && h < size && i < |chains[h]| && de == chains[h][i]
      requires prevde == if i == 0 then null else chains[h][i - 1]
      requires Linked()
      requires i > 0 ==> Alone(chains, h, i - 1)
      modifies table, objs
      ensures forall e :: e in objs ==> e.val == old(e.val)
      ensures forall b :: 0 <= b < size && b != h ==> IsList(table[b], chains[b])
      ensures IsList(table[h], chains[h][..i] + chains[h][i + 1..])
    {
      ghost var chain := chains[h];
      ghost var chain': Chain := chain[..i] + chain[i + 1..];
      assert i + 1 < |chain| ==> de.next == chain[i + 1] == chain'[i];
      if prevde != null {
        prevde.next := de.next;
      } else {
        table[h] := de.next;
      }
      assert forall j :: 0 <= j < |chain'| ==> chain'[j] == chain[if j < i then j else j + 1];
      forall j, k | 0 <= j && k == j + 1 < |chain'|
        ensures chain'[j].next == chain'[k]
      {
        assert chain'[j] == chain[if j < i then j else j + 1] && chain'[k] == chain[if k < i then k else k + 1];
      }
      if chain' != [] {
        var last := |chain'| - 1;
        assert chain'[last] == chain[if last < i then last else last + 1];
        assert chain'[0] == chain[if i == 0 then 1 else 0];
      }
    }

    lemma EmptyTable()
      requires Valid() && size == 0
      ensures entries == map[]
    {
      assert forall k :: k in entries ==> Stored(chains, size, k, entries[k]);
    }

    lemma Apart(h: nat, i: nat)
      requires Valid() && h < size && i < |chains[h]|
      ensures Alone(chains, h, i) && (i > 0 ==> Alone(chains, h, i - 1))
    {
      hide Bucket;
      assert forall b, j :: 0 <= b < size && 0 <= j < |chains[b]| ==> Belongs(chains[b][j], b, size, entries);
    }

    // --- growing ---

    // Push the head of an old list onto a new one; the other lists are not touched.
    method Relink(he: Entry, n: array<Entry?>, h: nat, i: nat, ghost left: seq<Chain>, ghost moved: seq<Chain>)
      returns (nextHe: Entry?)
      requires table.Length == |left| && i < |left| && n.Length == |moved| && h < |moved| && n != table
      requires left[i] != [] && he == left[i][0] && IsList(he, left[i]) && Alone(left, i, 0)
      requires forall b :: i < b < |left| ==> IsList(table[b], left[b])
      requires forall b :: 0 <= b < |moved| ==> IsList(n[b], moved[b])
      requires forall b, j :: 0 <= b < |moved| && 0 <= j < |moved[b]| ==> moved[b][j] != he
      modifies he`next, n
      ensures IsList(nextHe, left[i][1..])
      ensures forall b :: i < b < |left| ==> IsList(table[b], left[b])
      ensures forall b :: 0 <= b < |moved| && b != h ==> IsList(n[b], moved[b])
      ensures IsList(n[h], [he] + moved[h])
    {
      ghost var rest, grown := left[i][1..], [he] + moved[h];
      assert rest != [] ==> he.next == left[i][1] == rest[0];
      nextHe := he.next;
      he.next := n[h];
      n[h] := he;
      assert forall j :: 0 < j < |grown| ==> grown[j] == moved[h][j - 1];
    }

    // Half-way through an expansion: bucket i is being emptied, from he on.
    ghost predicate Moving(n: array<Entry?>, i: nat, he: Entry?, m: Move)
      reads this, table, n, objs
    {
      && n != table && table.Length == size == |m.left| && i <= size && n.Length == |m.moved|
      && Fits(m, size, n.Length, entries)
      && (forall k :: k in entries ==> entries[k] in objs) && Within(m.left, objs) && Within(m.moved, objs)
      && (forall b :: 0 <= b < i ==> m.left[b] == [])
      && (i < size ==> IsList(he, m.left[i]))
      && (forall b :: i < b < size ==> IsList(table[b], m.left[b]))
      && (forall b :: 0 <= b < n.Length ==> IsList(n[b], m.moved[b]))
      && used == |m.waiting|
    }

    method MoveOne(n: array<Entry?>, i: nat, he: Entry, ghost m: Move) returns (nextHe: Entry?, ghost m': Move)
      requires Moving(n, i, he, m) && i < size && IsPow2(n.Length)
      modifies objs, n, this`used
      ensures Moving(n, i, nextHe, m') && m'.left[i] == m.left[i][1..] && |m.left[i]| > 0
      ensures forall e :: e in objs ==> e.val == old(e.val)
    {
      hide IsPow2, Bucket, IsList, Fits, Hash, BitAnd, Alone, AfterMove;
      Pow2Positive(n.Length);
      var h := BitAnd(Hash(he.key), n.Length - 1);
      ListHead(he, m.left[i]);
      BucketInRange(he.key, n.Length);
      BucketIs(he.key, n.Length);
      m' := AfterMove(m, i, h, he);
      MoveFits(m, size, n.Length, entries, i, h, he);
      nextHe := Relink(he, n, h, i, m.left, m.moved);
      used := used - 1;
    }

    lemma StartMoving(n: array<Entry?>, m: Move)
      requires Valid() && n != table && n.Length > 0 && m == Move(chains, m.moved, entries, map[])
      requires |m.moved| == n.Length && forall b :: 0 <= b < n.Length ==> n[b] == null && m.moved[b] == []
      ensures Moving(n, 0, if size > 0 then table[0] else null, m)
    {
      hide Bucket;
      assert Shape(m.moved, n.Length, m.done);
      assert m.waiting + m.done == entries;
    }

    // Expand or create the table.
    method Expand(newSize: nat) returns (ok: bool)
      requires Valid() && newSize <= MAX_SIZE
      modifies this, objs
      ensures Valid() && Model() == old(Model()) && entries == old(entries) && objs == old(objs)
      ensures ok <==> old(used) <= newSize
      ensures ok ==> size >= newSize && fresh(table) && used == old(used)
      ensures ok ==> IsPow2(size) && size >= 4 && forall p: nat :: IsPow2(p) && p >= 4 && p >= newSize ==> size <= p
      ensures !ok ==> unchanged(this)
    {
      hide IsPow2, Shape, Bucket, IsList, Model, Within;
      var realSize := NextPower(newSize);
      MaxIsPow2();
      if used > newSize {
        return false;
      }
      var count := used;
      var n := new Entry?[realSize](_ => null);
      Pow2Positive(realSize);
      ghost var moved := MoveAll(n);
      Adopt(n, count, moved);
      ModelSame();
      ok := true;
    }

    // Replace the table by n, which holds the same entries.
    method Adopt(n: array<Entry?>, count: nat, ghost moved: seq<Chain>)
      requires IsPow2(n.Length) && 4 <= n.Length <= MAX_SIZE && count == |entries| <= n.Length
      requires Shape(moved, n.Length, entries) && |moved| == n.Length && Within(moved, objs)
      requires forall b :: 0 <= b < n.Length ==> IsList(n[b], moved[b])
      requires forall k :: k in entries ==> entries[k] in objs
      modifies this`table, this`size, this`sizemask, this`used, this`chains
      ensures Valid() && table == n && size == n.Length && used == count
    {
      hide IsPow2, Shape, IsList, Within;
      table, size, sizemask, used := n, n.Length, n.Length - 1, count;
      chains := moved;
    }

    // Relink every entry into the new table n.
    method MoveAll(n: array<Entry?>) returns (ghost moved: seq<Chain>)
      requires Valid() && n != table && IsPow2(n.Length) && n.Length > 0
      requires forall b :: 0 <= b < n.Length ==> n[b] == null
      modifies objs, n, this`used
      ensures Shape(moved, n.Length, entries) && |moved| == n.Length
      ensures Within(moved, objs)
      ensures forall b :: 0 <= b < n.Length ==> IsList(n[b], moved[b])
      ensures forall e :: e in objs ==> e.val == old(e.val)
    {
      hide IsPow2, Shape, Bucket, IsList, Fits;
      ghost var m := Move(chains, seq(n.Length, _ => []), entries, map[]);
      StartMoving(n, m);
      var i := 0;
      while i < size && used > 0
        invariant i <= size && Moving(n, i, if i < size then table[i] else null, m)
        invariant forall e :: e in objs ==> e.val == old(e.val)
      {
        m := MoveBucket(n, i, m);
        i := i + 1;
      }
      NothingWaits(n, i, if i < size then table[i] else null, m);
      moved := m.moved;
    }

    lemma NothingWaits(n: array<Entry?>, i: nat, he: Entry?, m: Move)
      requires Moving(n, i, he, m) && (used == 0 || i == size)
      ensures m.waiting == map[] && m.done == entries && Shape(m.moved, n.Length, entries)
    {
      hide Bucket, IsList;
      assert forall k :: k in m.waiting ==> Stored(m.left, size, k, m.waiting[k]);
    }

    method MoveBucket(n: array<Entry?>, i: nat, ghost m: Move) returns (ghost m': Move)
      requires i < size && table.Length == size && Moving(n, i, table[i], m) && IsPow2(n.Length)
      modifies objs, n, this`used
      ensures Moving(n, i + 1, if i + 1 < size then table[i + 1] else null, m')
      ensures forall e :: e in objs ==> e.val == old(e.val)
    {
      hide IsPow2, Shape, Bucket, IsList, Fits;
      m' := m;
      var he := table[i];
      while he != null
        invariant Moving(n, i, he, m')
        invariant forall e :: e in objs ==> e.val == old(e.val)
        decreases |m'.left[i]|
      {
        he, m' := MoveOne(n, i, he, m');
      }
      ListHead(he, m'.left[i]);
    }

    // Make sure there is room for one more entry.
    method ExpandIfNeeded()
      requires Valid() && used < MAX_SIZE
      modifies this, objs
      ensures Valid() && Model() == old(Model()) && entries == old(entries) && objs == old(objs)
      ensures used == old(used) && used < size && (table == old(table) || fresh(table))
      ensures size == if old(size) == 0 then 4 else if old(used) == old(size) then 2 * old(size) else old(size)
    {
      hide IsPow2, Shape, Bucket, IsList, Model, Within;
      if size == 0 {
        FourIsPow2();
        var ok := Expand(INITIAL_SIZE);
      } else if used == size {
        MaxIsPow2();
        DoubleFits(size, MAX_SIZE);
        Doubled(size);
        var ok := Expand(size * 2);
      }
    }

    // The bucket for a new key; none if the key is already there.
    method KeyIndex(key: Key) returns (index: Option<nat>)
      requires Valid() && used < MAX_SIZE
      modifies this, objs
      ensures Valid() && Model() == old(Model()) && entries == old(entries) && objs == old(objs)
      ensures used == old(used) && used < size && (table == old(table) || fresh(table))
      ensures index == if key in Model() then None else Some(Bucket(key, size))
      ensures Bucket(key, size) < size
    {
      hide IsPow2, Shape, Bucket, IsList, Model, Within;
      ExpandIfNeeded();
      var h, he, prevhe;
      ghost var i;
      h, he, prevhe, i := Search(key);
      index := if he != null then None else Some(h);
    }

    method Add(key: Key, val: Value) returns (ok: bool)
      requires Valid() && used < MAX_SIZE
      modifies this, table, objs
      ensures Valid() && fresh(objs - old(objs)) && (table == old(table) || fresh(table))
      ensures ok <==> key !in old(Model())
      ensures Model() == if ok then old(Model())[key := val] else old(Model())
      ensures used == old(used) + if ok then 1 else 0
    {
      hide IsPow2, Shape, Bucket, IsList, Model, Within;
      var index := KeyIndex(key);
      if index.None? {
        return false;
      }
      Insert(key, val, index.value);
      ok := true;
    }

    // Put a new entry in front of the list of bucket h.
    method Insert(key: Key, val: Value, h: nat)
      requires Valid() && key !in entries && used < size && h == Bucket(key, size) < size
      modifies this`used, this`chains, this`entries, this`objs, table, objs
      ensures Valid() && fresh(objs - old(objs)) && used == old(used) + 1
      ensures Model() == old(Model())[key := val]
    {
      hide IsPow2, Shape, Bucket, Within, IsList, Model;
      var entry := new Entry(key, val, table[h]);
      ShapeWith(chains, size, entries, entry);
      PushFront(entry, chains[h]);
      OneMore(entries, key, entry);
      table[h] := entry;
      Record(h, [entry] + chains[h], entries[key := entry], objs + {entry});
      used := used + 1;
      ModelGrew(entry);
    }

    // Add, or overwrite the value of an existing key; says whether the key was added.
    method Replace(key: Key, val: Value) returns (added: bool)
      requires Valid() && used < MAX_SIZE
      modifies this, table, objs
      ensures Valid() && fresh(objs - old(objs)) && (table == old(table) || fresh(table))
      ensures added <==> key !in old(Model())
      ensures Model() == old(Model())[key := val]
    {
      hide IsPow2, Shape, Bucket, IsList, Model, Within;
      var ok := Add(key, val);
      if ok {
        return true;
      }
      var entry := Find(key);
      SetValue(entry, val);
      added := false;
    }

    method SetValue(entry: Entry, val: Value)
      requires Valid() && entry.key in entries && entries[entry.key] == entry
      modifies entry`val
      ensures Valid() && Model() == old(Model())[entry.key := val]
    {
      hide IsPow2, Shape, Bucket;
      entry.val := val;
      EntriesNamed();
    }

    lemma EntriesNamed()
      requires Valid()
      ensures forall k :: k in entries ==> entries[k].key == k
    {
      hide Bucket;
      assert forall k :: k in entries ==> Stored(chains, size, k, entries[k]);
    }
  }

  method NextPower(size: nat) returns (r: nat)
    ensures size >= INT64_MAX ==> r == INT64_MAX
    ensures size < INT64_MAX ==> IsPow2(r) && INITIAL_SIZE <= r && size <= r
    ensures size < INT64_MAX ==> forall p :: IsPow2(p) && INITIAL_SIZE <= p && size <= p ==> r <= p
  {
    hide IsPow2;
    if size >= INT64_MAX {
      return INT64_MAX;
    }
    r := INITIAL_SIZE;
    FourIsPow2();
    while r < size
      invariant IsPow2(r) && INITIAL_SIZE <= r
      invariant forall p :: IsPow2(p) && INITIAL_SIZE <= p && size <= p ==> r <= p
      decreases size - r
    {
      forall p | IsPow2(p) && INITIAL_SIZE <= p && size <= p
        ensures 2 * r <= p
      {
        DoubleFits(r, p);
      }
      Doubled(r);
      r := r * 2;
    }
  }

  lemma FourIsPow2()
    ensures IsPow2(INITIAL_SIZE)
  {
    assert Pow2(2) == 4;
  }

  lemma MaxIsPow2()
    ensures IsPow2(MAX_SIZE)
  {
    assert Pow2(5) == 32;
    Pow2Adds(5, 5);
    Pow2Adds(10, 10);
    Pow2Adds(10, 20);
    Pow2Adds(1, 30);
  }

  // Which entries still wait in the old lists, and which are in the new ones.
  datatype Move = Move(left: seq<Chain>, moved: seq<Chain>, waiting: map<Key, Entry>, done: map<Key, Entry>)

  ghost predicate Fits(m: Move, size: nat, newSize: nat, entries: map<Key, Entry>) {
    && Shape(m.left, size, m.waiting) && Shape(m.moved, newSize, m.done)
    && m.waiting.Keys !! m.done.Keys && m.waiting + m.done == entries
  }

  ghost function AfterMove(m: Move, i: nat, h: nat, he: Entry): (m': Move)
    requires i < |m.left| && m.left[i] != [] && h < |m.moved|
  {
    Move(m.left[i := m.left[i][1..]], m.moved[h := [he] + m.moved[h]],
         m.waiting - {he.key}, m.done[he.key := he])
  }

  lemma Pow2Positive(n: nat)
    requires IsPow2(n)
    ensures n > 0
  {
  }

  lemma BucketIs(key: Key, size: nat)
    requires size > 0
    ensures Bucket(key, size) == BitAnd(Hash(key), size - 1)
  {
  }

  lemma ListHead(he: Entry?, chain: Chain)
    requires IsList(he, chain)
    ensures he == null <==> chain == []
    ensures he != null ==> he == chain[0]
  {
  }

  lemma MoveFits(m: Move, size: nat, newSize: nat, entries: map<Key, Entry>, i: nat, h: nat, he: Entry)
    requires Fits(m, size, newSize, entries) && |m.left| == size && |m.moved| == newSize > 0
    requires i < size && m.left[i] != [] && he == m.left[i][0] && h == Bucket(he.key, newSize) < newSize
    ensures Alone(m.left, i, 0)
    ensures forall b, j :: 0 <= b < newSize && 0 <= j < |m.moved[b]| ==> m.moved[b][j] != he
    ensures var m' := AfterMove(m, i, h, he);
            && m' == Move(m.left[i := m.left[i][1..]], m.moved[h := [he] + m.moved[h]],
                          m.waiting - {he.key}, m.done[he.key := he])
            && Fits(m', size, newSize, entries) && |m'.waiting| == |m.waiting| - 1
            && (forall objs :: Within(m.left, objs) && Within(m.moved, objs) ==>
                  Within(m'.left, objs) && Within(m'.moved, objs))
  {
    hide Bucket, Shape;
    var m' := AfterMove(m, i, h, he);
    HeadOfBucket(m.left, size, m.waiting, i, he);
    OthersDiffer(m.moved, newSize, m.done, m.waiting, he);
    ShapeWithout(m.left, size, m.waiting, i, 0);
    assert m.left[i][..0] + m.left[i][1..] == m.left[i][1..];
    ShapeWith(m.moved, newSize, m.done, he);
    assert m'.waiting + m'.done == entries;
  }

  lemma HeadOfBucket(left: seq<Chain>, size: nat, waiting: map<Key, Entry>, i: nat, he: Entry)
    requires Shape(left, size, waiting) && i < size && left[i] != [] && he == left[i][0]
    ensures he.key in waiting && waiting[he.key] == he && Alone(left, i, 0)
  {
    hide Bucket;
    assert forall b, j :: 0 <= b < size && 0 <= j < |left[b]| ==> Belongs(left[b][j], b, size, waiting);
  }

  lemma OthersDiffer(moved: seq<Chain>, size: nat, done: map<Key, Entry>, waiting: map<Key, Entry>, he: Entry)
    requires Shape(moved, size, done) && waiting.Keys !! done.Keys && he.key in waiting
    ensures forall b, j :: 0 <= b < size && 0 <= j < |moved[b]| ==> moved[b][j] != he
  {
    hide Bucket;
    assert forall b, j :: 0 <= b < size && 0 <= j < |moved[b]| ==> Belongs(moved[b][j], b, size, done);
  }

  // The entry at position i of bucket h is stored nowhere else.
  ghost predicate Alone(chains: seq<Chain>, h: nat, i: nat)
    requires h < |chains| && i < |chains[h]|
  {
    && (forall j :: 0 <= j < |chains[h]| && j != i ==> chains[h][j] != chains[h][i])
    && (forall b, j :: 0 <= b < |chains| && b != h && 0 <= j < |chains[b]| ==> chains[b][j] != chains[h][i])
  }

  // Bucket b lost the entry of the key; the other buckets are as they were.
  ghost predicate Removed(chains: seq<Chain>, chains': seq<Chain>, b: nat, key: Key) {
    && b < |chains| == |chains'|
    && exists i :: 0 <= i < |chains[b]| && chains[b][i].key == key
                   && chains' == chains[b := chains[b][..i] + chains[b][i + 1..]]
  }

  // --- iteration ---

  ghost predicate IsSuffix(rest: Chain, chain: Chain) {
    |rest| <= |chain| && rest == chain[|chain| - |rest|..]
  }

  // The keys in buckets behind bucket i, and those of the entries rest.
  ghost function Behind(size: nat, entries: map<Key, Entry>, i: int, rest: Chain): (keys: set<Key>)
    requires size > 0 || entries == map[]
  {
    set k | k in entries && (Bucket(k, size) > i || entries[k] in rest)
  }

  lemma BehindEnter(chains: seq<Chain>, size: nat, entries: map<Key, Entry>, i: nat)
    requires Shape(chains, size, entries) && i < size
    ensures Behind(size, entries, i, chains[i]) == Behind(size, entries, i - 1, [])
  {
    hide Bucket;
    forall k | k in entries
      ensures entries[k] in chains[i] <==> Bucket(k, size) == i
    {
      assert Stored(chains, size, k, entries[k]);
      if entries[k] in chains[i] {
        var j :| 0 <= j < |chains[i]| && chains[i][j] == entries[k];
        assert Belongs(chains[i][j], i, size, entries);
      }
    }
  }

  lemma BehindPop(chains: seq<Chain>, size: nat, entries: map<Key, Entry>, i: nat, rest: Chain)
    requires Shape(chains, size, entries) && i < size && rest != [] && IsSuffix(rest, chains[i])
    ensures var e := rest[0];
            && e.key in entries && entries[e.key] == e && e.key in Behind(size, entries, i, rest)
            && Behind(size, entries, i, rest[1..]) == Behind(size, entries, i, rest) - {e.key}
  {
    hide Bucket;
    var e, at := rest[0], |chains[i]| - |rest|;
    assert e == chains[i][at] && Belongs(e, i, size, entries);
    assert forall j :: 0 < j < |rest| ==> rest[j] == chains[i][at + j] && rest[j] != e;
    forall k | k in entries
      ensures k in Behind(size, entries, i, rest[1..]) <==> k in Behind(size, entries, i, rest) && k != e.key
    {
      assert Stored(chains, size, k, entries[k]);
      assert rest == [e] + rest[1..];
    }
  }

  lemma BehindNothing(chains: seq<Chain>, size: nat, entries: map<Key, Entry>)
    requires Shape(chains, size, entries)
    ensures size == 0 ==> entries == map[] && forall i :: Behind(size, entries, i, []) == {}
    ensures size > 0 ==> Behind(size, entries, -1, []) == entries.Keys
    ensures size > 0 ==> Behind(size, entries, size - 1, []) == {} == Behind(size, entries, size, [])
  {
    hide Bucket;
    forall k | k in entries
      ensures size > 0 && Bucket(k, size) < size
    {
      assert Stored(chains, size, k, entries[k]);
    }
  }

  class DictIterator {
    const ht: Dict
    var index: int
    var entry: Entry?
    var nextEntry: Entry?
    // The entries of the current bucket behind the one returned last.
    ghost var rest: Chain

    ghost predicate Valid()
      reads this, ht, ht.table, ht.objs
    {
      && ht.Valid() && -1 <= index <= ht.size <= INT_MAX
      && (entry == null ==> rest == [])
      && (entry != null ==>
            && 0 <= index < ht.size && IsSuffix(rest, ht.chains[index])
            && nextEntry == if rest == [] then null else rest[0])
    }

    // The keys not yet visited.
    ghost function ToVisit(): (keys: set<Key>)
      requires ht.size > 0 || ht.entries == map[]
      reads this, ht
    {
      Behind(ht.size, ht.entries, index, rest)
    }

    // The entry returned last is still in the table, in front of rest.
    ghost predicate Current()
      requires Valid()
      reads this, ht, ht.table, ht.objs
    {
      && entry != null && |rest| < |ht.chains[index]|
      && ht.chains[index][|ht.chains[index]| - |rest| - 1] == entry
    }

    // The source compares the index with the size cast to an int.
    constructor (ht: Dict)
      requires ht.Valid() && ht.size <= INT_MAX
      ensures Valid() && this.ht == ht && (ht.size > 0 || ht.entries == map[])
      ensures ToVisit() == ht.Model().Keys
    {
      hide Shape, Bucket;
      this.ht := ht;
      index, entry, nextEntry, rest := -1, null, null, [];
      BehindNothing(ht.chains, ht.size, ht.entries);
    }

    lemma SuffixLinks(e: Entry)
      requires ht.Valid() && 0 <= index < ht.size && IsSuffix(rest, ht.chains[index]) && rest != [] && e == rest[0]
      ensures e.next == if |rest| > 1 then rest[1] else null
      ensures IsSuffix(rest[1..], ht.chains[index])
      ensures ht.chains[index][|ht.chains[index]| - |rest[1..]| - 1] == e
    {
      hide Shape, Bucket, IsPow2;
      var chain := ht.chains[index];
      var at := |chain| - |rest|;
      assert IsList(ht.table[index], chain);
      assert rest[0] == chain[at] && (|rest| > 1 ==> rest[1] == chain[at + 1]);
    }

    lemma WholeList()
      requires ht.Valid() && 0 <= index < ht.size
      ensures ht.table[index] == if ht.chains[index] == [] then null else ht.chains[index][0]
    {
      hide Shape, Bucket, IsPow2;
      assert IsList(ht.table[index], ht.chains[index]);
    }

    method Next() returns (e: Entry?)
      requires Valid() && (ht.size > 0 || ht.entries == map[])
      modifies this
      ensures Valid()
      ensures e == null ==> old(ToVisit()) == {}
      ensures e != null ==> Current() && entry == e && e.key in ht.entries && ht.entries[e.key] == e
      ensures e != null ==> e.key in old(ToVisit()) && ToVisit() == old(ToVisit()) - {e.key}
    {
      hide Shape, Bucket, IsList, Behind, IsPow2, Within;
      BehindNothing(ht.chains, ht.size, ht.entries);
      while true
        invariant Valid() && ToVisit() == old(ToVisit())
        decreases ht.size - index, entry != null
      {
        if entry == null {
          index := index + 1;
          if index >= ht.size {
            index := ht.size;
            break;
          }
          BehindEnter(ht.chains, ht.size, ht.entries, index);
          WholeList();
          entry := ht.table[index];
          rest := ht.chains[index];
        } else {
          entry := nextEntry;
        }
        if entry != null {
          Take();
          return entry;
        }
      }
      e := null;
    }

    // Return the head of what remains of the bucket; remember its successor, since the
    // caller may delete it.
    method Take()
      requires ht.Valid() && 0 <= index < ht.size <= INT_MAX && IsSuffix(rest, ht.chains[index])
      requires rest != [] && entry == rest[0]
      modifies this`rest, this`nextEntry
      ensures Valid() && Current() && entry.key in ht.entries && ht.entries[entry.key] == entry
      ensures entry.key in old(ToVisit()) && ToVisit() == old(ToVisit()) - {entry.key}
    {
      hide Shape, Bucket, IsList, Behind, IsPow2;
      BehindPop(ht.chains, ht.size, ht.entries, index, rest);
      SuffixLinks(entry);
      rest := rest[1..];
      nextEntry := entry.next;
    }
  }

  // Deleting the entry returned last leaves the iterator where it was.
  lemma DeleteBehindIterator(chains: seq<Chain>, chains': seq<Chain>, size: nat, entries: map<Key, Entry>,
                             index: nat, rest: Chain, e: Entry)
    requires Shape(chains, size, entries) && index < size && IsSuffix(rest, chains[index])
    requires |rest| < |chains[index]| && chains[index][|chains[index]| - |rest| - 1] == e
    requires Removed(chains, chains', index, e.key)
    ensures Bucket(e.key, size) == index && |chains'| == size && IsSuffix(rest, chains'[index])
    ensures Behind(size, entries - {e.key}, index, rest) == Behind(size, entries, index, rest) - {e.key}
  {
    hide Bucket;
    var chain, at := chains[index], |chains[index]| - |rest| - 1;
    assert Belongs(chain[at], index, size, entries);
    var i :| 0 <= i < |chain| && chain[i].key == e.key
             && chains' == chains[index := chain[..i] + chain[i + 1..]];
    assert Belongs(chain[i], index, size, entries);
    assert i == at;
    assert rest == chain[i + 1..];
    assert chains'[index] == chain[..i] + rest;
  }

  // Walk the whole table, deleting the entries of doomed keys as they are returned.
  method VisitAll(ht: Dict, doomed: set<Key>) returns (visited: seq<Key>)
    requires ht.Valid() && ht.size <= INT_MAX
    modifies ht, ht.table, ht.objs
    ensures ht.Valid()
    // Every entry is returned, once,
    ensures forall k :: k in visited <==> k in old(ht.Model())
    ensures forall i, j :: 0 <= i < j < |visited| ==> visited[i] != visited[j]
    // and exactly the doomed ones are gone.
    ensures ht.Model() == old(ht.Model()) - doomed
  {
    hide Shape, Bucket, Behind, Dict.Model, Removed, IsPow2, IsSuffix, IsList, Within, Progress, Minus;
    visited := [];
    ghost var before := ht.Model();
    var it := new DictIterator(ht);
    ghost var gone: set<Key> := {};
    NoneVisited(doomed, before.Keys);
    MinusTwice(before, gone, {});
    while true
      invariant it.Valid() && it.ht == ht && fresh(it) && ht.table == old(ht.table) && ht.objs == old(ht.objs)
      invariant ht.size > 0 || ht.entries == map[]
      invariant ht.Model() == Minus(before, gone)
      invariant Progress(visited, gone, doomed, it.ToVisit(), before.Keys)
      decreases |it.ToVisit()|
    {
      ghost var pending, now := it.ToVisit(), ht.Model();
      var e := it.Next();
      assert ht.Model() == now;
      if e == null {
        break;
      }
      Advance(visited, gone, doomed, pending, before.Keys, e.key);
      visited := visited + [e.key];
      if e.key in doomed {
        DeleteCurrent(it, e);
        MinusTwice(before, gone, {e.key});
        gone := gone + {e.key};
      }
    }
    AllGone(visited, gone, doomed, before);
  }

  // The keys are those visited, each once, and those pending; gone are the doomed ones visited.
  ghost predicate Progress(visited: seq<Key>, gone: set<Key>, doomed: set<Key>, pending: set<Key>, keys: set<Key>) {
    && (forall k :: k in keys <==> k in visited || k in pending)
    && (forall k :: k in visited ==> k !in pending)
    && (forall i, j :: 0 <= i < j < |visited| ==> visited[i] != visited[j])
    && (forall k :: k in gone <==> k in visited && k in doomed)
  }

  lemma Advance(visited: seq<Key>, gone: set<Key>, doomed: set<Key>, pending: set<Key>, keys: set<Key>, k: Key)
    requires Progress(visited, gone, doomed, pending, keys) && k in pending
    ensures Progress(visited + [k], if k in doomed then gone + {k} else gone, doomed, pending - {k}, keys)
  {
  }

  lemma NoneVisited(doomed: set<Key>, keys: set<Key>)
    ensures Progress([], {}, doomed, keys, keys)
  {
  }

  lemma AllGone(visited: seq<Key>, gone: set<Key>, doomed: set<Key>, model: map<Key, Value>)
    requires Progress(visited, gone, doomed, {}, model.Keys)
    ensures Minus(model, gone) == model - doomed
    ensures forall k :: k in visited <==> k in model
    ensures forall i, j :: 0 <= i < j < |visited| ==> visited[i] != visited[j]
  {
  }

  ghost function Minus(m: map<Key, Value>, s: set<Key>): map<Key, Value> {
    m - s
  }

  lemma MinusTwice(m: map<Key, Value>, a: set<Key>, b: set<Key>)
    ensures Minus(Minus(m, a), b) == Minus(m, a + b) && Minus(m, {}) == m
  {
  }

  lemma InBucket(chains: seq<Chain>, size: nat, entries: map<Key, Entry>, b: nat, i: nat)
    requires Shape(chains, size, entries) && b < size && i < |chains[b]|
    ensures Bucket(chains[b][i].key, size) == b
  {
    hide Bucket;
    assert Belongs(chains[b][i], b, size, entries);
  }

  method DeleteCurrent(it: DictIterator, e: Entry)
    requires it.Valid() && it.Current() && it.entry == e && e.key in it.ht.Model()
    requires it.ht.size > 0 && e.key !in it.ToVisit()
    modifies it.ht, it.ht.table, it.ht.objs
    ensures it.Valid() && it.ht.table == old(it.ht.table) && it.ht.objs == old(it.ht.objs)
    ensures it.ht.size == old(it.ht.size) && it.ToVisit() == old(it.ToVisit())
    ensures it.ht.Model() == Minus(old(it.ht.Model()), {e.key})
  {
    hide Shape, Bucket, Behind, Dict.Model, Removed, IsPow2, IsList, Within, IsSuffix;
    var ht := it.ht;
    ghost var chains, entries, index, rest := ht.chains, ht.entries, it.index, it.rest;
    InBucket(chains, ht.size, entries, index, |chains[index]| - |rest| - 1);
    var ok := ht.Delete(e.key);
    DeleteBehindIterator(chains, ht.chains, ht.size, entries, index, rest, e);
  }

  // --- whole runs ---

  datatype Op = AddOp(key: Key, val: Value) | ReplaceOp(key: Key, val: Value) | DeleteOp(key: Key) | FindOp(key: Key)
  datatype Answer = Done(ok: bool) | Found(val: Option<Value>)

  // What a finite map answers, and what it becomes.
  function MapStep(m: map<Key, Value>, op: Op): (r: (map<Key, Value>, Answer)) {
    match op
    case AddOp(k, v) => if k in m then (m, Done(false)) else (m[k := v], Done(true))
    case ReplaceOp(k, v) => (m[k := v], Done(k !in m))
    case DeleteOp(k) => (m - {k}, Done(k in m))
    case FindOp(k) => (m, Found(if k in m then Some(m[k]) else None))
  }

  function MapRun(ops: seq<Op>): (r: (map<Key, Value>, seq<Answer>)) {
    if ops == [] then (map[], [])
    else
      var (m, answers) := MapRun(ops[..|ops| - 1]);
      var (m', answer) := MapStep(m, ops[|ops| - 1]);
      (m', answers + [answer])
  }

  // Any run of operations on a new table answers as a finite map does, and leaves the same map; only
  // the number of keys at one moment is bounded.
  method RunAll(ops: seq<Op>) returns (ht: Dict, answers: seq<Answer>)
    requires forall i :: 0 <= i < |ops| ==> |MapRun(ops[..i]).0| < MAX_SIZE
    ensures ht.Valid() && (ht.Model(), answers) == MapRun(ops)
  {
    hide Shape, Bucket, IsPow2, IsList, Within, Dict.Linked, Dict.Model, MapStep;
    ht := new Dict();
    answers := [];
    for i := 0 to |ops|
      invariant fresh(ht) && fresh(ht.table) && fresh(ht.objs)
      invariant ht.Valid() && (ht.Model(), answers) == MapRun(ops[..i])
    {
      assert |MapRun(ops[..i]).0| < MAX_SIZE;
      assert ops[..i + 1][..i] == ops[..i];
      var answer := Answered(ht, ops[i]);
      answers := answers + [answer];
    }
    assert ops[..|ops|] == ops;
  }

  method Answered(ht: Dict, op: Op) returns (answer: Answer)
    requires ht.Valid() && |ht.Model()| < MAX_SIZE
    modifies ht, ht.table, ht.objs
    ensures ht.Valid() && fresh(ht.objs - old(ht.objs)) && (ht.table == old(ht.table) || fresh(ht.table))
    ensures (ht.Model(), answer) == MapStep(old(ht.Model()), op)
  {
    hide Shape, Bucket, IsPow2, IsList, Within, Removed, Dict.Linked;
    ModelSize(ht);
    match op
    case AddOp(k, v) =>
      var ok := ht.Add(k, v);
      answer := Done(ok);
    case ReplaceOp(k, v) =>
      var added := ht.Replace(k, v);
      answer := Done(added);
    case DeleteOp(k) =>
      var ok := ht.Delete(k);
      answer := Done(ok);
    case FindOp(k) =>
      var he := ht.Find(k);
      answer := Found(if he == null then None else Some(he.val));
  }

  lemma ModelSize(ht: Dict)
    requires ht.Valid()
    ensures |ht.Model()| == ht.used
  {
    hide Shape, IsPow2, IsList, Within;
    assert ht.Model().Keys == ht.entries.Keys;
    assert |ht.Model().Keys| == |ht.entries.Keys|;
  }
}
