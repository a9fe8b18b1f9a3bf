/** cache.c: a cache over the hash table whose application order is the order of
    last use, so that its head is the entry to give up. */
module LruCache {
  import opened Bytes
  import opened HashTable

  /** What an entry holds. */
  datatype Cell = Cell(key: seq<byte>, data: nat, ts: int)

  ghost function CellOf(e: Entry): Cell
    reads e`key, e`data, e`ts
  {
    Cell(e.key, e.data, e.ts)
  }

  ghost function Cells(s: seq<Entry>): (c: seq<Cell>)
    reads Elems(s)`key, Elems(s)`data, Elems(s)`ts
    ensures |c| == |s|
    ensures forall i :: 0 <= i < |s| ==> c[i] == CellOf(s[i])
  {
    if s == [] then [] else assert s[0] in Elems(s); assert Elems(s[1..]) <= Elems(s); [CellOf(s[0])] + Cells(s[1..])
  }

  predicate HasKey(s: seq<Cell>, key: seq<byte>) {
    exists i :: 0 <= i < |s| && s[i].key == key
  }

  predicate DistinctKeys(s: seq<Cell>) {
    forall i, j :: 0 <= i < j < |s| ==> s[i].key != s[j].key
  }

  // ---------- The recency list ----------

  /** Use of the entry at position k: to the back, with a new time. */
  function Touch(s: seq<Cell>, k: nat, now: int): seq<Cell>
    requires k < |s|
  {
    Without(s, k) + [s[k].(ts := now)]
  }

  /** A new entry at the back; the front goes when the cache is full. */
  function InsertCell(s: seq<Cell>, c: Cell, max: nat): seq<Cell> {
    if |s| + 1 >= max then (s + [c])[1..] else s + [c]
  }

  /** What cache_clear keeps. */
  function Fresh(s: seq<Cell>, now: int, age: int): seq<Cell> {
    if s == [] then []
    else (if now - s[0].ts > age then [] else [s[0]]) + Fresh(s[1..], now, age)
  }

  predicate SortedByTime(s: seq<Cell>) {
    forall i, j :: 0 <= i <= j < |s| ==> s[i].ts <= s[j].ts
  }

  class Cache {
    const max: nat
    const table: Table

    constructor (capacity: nat, hash: seq<byte> -> nat)
      ensures Valid() && max == capacity && View() == [] && fresh(table) && fresh(table.buckets)
    {
      max := capacity;
      table := new Table(hash);
    }

    ghost predicate Valid()
      reads table, table.buckets, Elems(table.order)
    {
      table.Valid()
    }

    /** Entries from least to most recently used. */
    ghost function View(): seq<Cell>
      reads table, Elems(table.order)
    {
      Cells(table.order)
    }

    /** Take an entry out and put it back at the end with a new time. */
    method MoveToBack(e: Entry, now: int) returns (ghost k: nat)
      requires Valid() && e in table.order
      modifies table, table.buckets, Elems(table.order)
      ensures Valid() && k < |old(View())| && old(View())[k] == old(CellOf(e))
      ensures View() == Touch(old(View()), k, now)
      ensures CellOf(e) == old(CellOf(e)).(ts := now)
    {
      hide BktsOk;
      hide AppLinked;
      hide At;
      hide Touch;
      ghost var ord, was := table.order, View();
      assert Distinct(ord);
      k := Reinsert(e, now);
      assert forall i :: 0 <= i < |ord| && i != k ==> ord[i] != e;
      TouchView(ord, k, was, now);
    }

    /** HASH_DELETE, the new time, HASH_ADD_KEYPTR. */
    method Reinsert(e: Entry, now: int) returns (ghost k: nat)
      requires Valid() && e in table.order
      modifies table, table.buckets, e`ts, e`hashv, Elems(table.order)`prev, Elems(table.order)`next
      modifies Elems(table.order)`hhPrev, Elems(table.order)`hhNext
      ensures Valid() && k < |old(table.order)| && old(table.order)[k] == e && e.ts == now
      ensures table.order == Without(old(table.order), k) + [e] && Distinct(table.order)
    {
      hide BktsOk;
      hide AppLinked;
      hide At;
      ghost var ord := table.order;
      k := table.Delete(e);
      DistinctWithout(ord, k);
      e.ts := now;
      table.Add(e);
    }

    /** cache_lookup */
    method Lookup(key: seq<byte>, now: int) returns (data: Option<nat>, ghost k: nat)
      requires Valid()
      modifies table, table.buckets, Elems(table.order)
      ensures Valid()
      ensures data.None? <==> !HasKey(old(View()), key)
      ensures data.None? ==>
                View() == old(View()) && table.order == old(table.order) && table.buckets == old(table.buckets)
      ensures data.Some? ==> k < |old(View())| && old(View())[k].key == key
      ensures data.Some? ==> data.value == old(View())[k].data && View() == Touch(old(View()), k, now)
    {
      hide BktsOk;
      hide AppLinked;
      hide At;
      hide Touch;
      hide HasKey;
      k := 0;
      var e := table.Find(key);
      KeyInView(table.order, key);
      if e == null { return None, 0; }
      k := MoveToBack(e, now);
      data := Some(e.data);
    }

    /** cache_key_exist: a look-up without the data. */
    method KeyExist(key: seq<byte>, now: int) returns (found: bool, ghost k: nat)
      requires Valid()
      modifies table, table.buckets, Elems(table.order)
      ensures Valid()
      ensures found <==> HasKey(old(View()), key)
      ensures !found ==> View() == old(View()) && table.order == old(table.order) && table.buckets == old(table.buckets)
      ensures found ==> k < |old(View())| && old(View())[k].key == key && View() == Touch(old(View()), k, now)
    {
      var data;
      data, k := Lookup(key, now);
      found := data.Some?;
    }

    /** cache_insert: no test for an existing entry; when the count reaches the
        capacity, the head of the order is given up. */
    method Insert(key: seq<byte>, data: nat, now: int) returns (evicted: Option<nat>)
      requires Valid()
      modifies table, table.buckets, Elems(table.order)
      ensures Valid() && View() == InsertCell(old(View()), Cell(key, data, now), max)
      ensures evicted == if |old(View())| + 1 >= max then Some((old(View()) + [Cell(key, data, now)])[0].data) else None
    {
      hide BktsOk;
      hide AppLinked;
      hide Distinct;
      hide At;
      var e := new Entry(key, data, now);
      Append(e);
      evicted := None;
      if table.numItems >= max {
        var data := EvictHead();
        evicted := Some(data);
      }
    }

    /** The eviction loop of cache_insert, which stops after the first entry. */
    method EvictHead() returns (data: nat)
      requires Valid() && table.order != []
      modifies table, table.buckets, Elems(table.order)`prev, Elems(table.order)`next
      modifies Elems(table.order)`hhPrev, Elems(table.order)`hhNext
      ensures Valid() && data == old(View())[0].data && View() == old(View())[1..]
    {
      hide BktsOk;
      hide AppLinked;
      hide Distinct;
      HeadIsFirst(table);
      ghost var before, was := table.order, View();
      data := table.head.data;
      ghost var k := Drop(table.head);
      SameIndex(before, k, 0);
      assert Without(was, 0) == was[1..];
    }

    /** HASH_ADD_KEYPTR of a new entry. */
    method Append(e: Entry)
      requires Valid() && e !in table.order
      modifies table, table.buckets, e`hashv, e`prev, e`next, e`hhPrev, e`hhNext
      modifies Elems(table.order)`prev, Elems(table.order)`next, Elems(table.order)`hhPrev, Elems(table.order)`hhNext
      ensures Valid() && View() == old(View()) + [CellOf(e)] && table.order == old(table.order) + [e]
      ensures table.numItems == |table.order|
      ensures table.buckets == old(table.buckets) || fresh(table.buckets)
    {
      hide BktsOk;
      hide AppLinked;
      hide At;
      ghost var was := View();
      table.Add(e);
      AppendView(table.order, was);
    }

    /** HASH_DELETE, after which the entry is freed. */
    method Drop(e: Entry) returns (ghost k: nat)
      requires Valid() && e in table.order
      modifies table, table.buckets, Elems(table.order)`prev, Elems(table.order)`next
      modifies Elems(table.order)`hhPrev, Elems(table.order)`hhNext
      ensures Valid() && k < |old(table.order)| && old(table.order)[k] == e
      ensures table.order == Without(old(table.order), k) && View() == Without(old(View()), k)
      ensures Distinct(old(table.order)) && table.buckets == old(table.buckets)
    {
      hide BktsOk;
      hide AppLinked;
      hide At;
      ghost var ord, was := table.order, View();
      k := table.Delete(e);
      WithoutView(ord, k, was);
    }

    /** cache_remove */
    method Remove(key: seq<byte>) returns (freed: Option<nat>, ghost k: nat)
      requires Valid()
      modifies table, table.buckets, Elems(table.order)
      ensures Valid()
      ensures freed.None? <==> !HasKey(old(View()), key)
      ensures freed.None? ==> View() == old(View())
      ensures freed.Some? ==> k < |old(View())| && old(View())[k].key == key
      ensures freed.Some? ==> freed.value == old(View())[k].data && View() == Without(old(View()), k)
    {
      hide BktsOk;
      hide AppLinked;
      hide Distinct;
      hide At;
      hide HasKey;
      hide Without;
      k := 0;
      var e := table.Find(key);
      KeyInView(table.order, key);
      if e == null { return None, 0; }
      freed := Some(e.data);
      k := Drop(e);
    }

    /** One entry of the pass of cache_clear, at position p of what is left. */
    method Examine(entry: Entry, now: int, age: int, ghost p: nat) returns (tmp: Entry?)
      requires Valid() && p < |table.order| && entry == table.order[p]
      modifies table, table.buckets, Elems(table.order)`prev, Elems(table.order)`next
      modifies Elems(table.order)`hhPrev, Elems(table.order)`hhNext
      ensures Valid() && tmp == At(old(table.order), p + 1) && table.buckets == old(table.buckets)
      ensures var dead := now - old(View())[p].ts > age;
        && View() == (if dead then Without(old(View()), p) else old(View()))
        && table.order == (if dead then Without(old(table.order), p) else old(table.order))
    {
      hide BktsOk;
      hide Distinct;
      tmp := entry.next;
      hide AppLinked;
      ghost var before := table.order;
      if now - entry.ts > age {
        ghost var k := Drop(entry);
        SameIndex(before, k, p);
      }
    }

    /** The same, seen from the whole pass: done is kept, was[i..] to come. */
    method Pass(entry: Entry, now: int, age: int, ghost done: seq<Cell>, ghost was: seq<Cell>, ghost i: nat)
      returns (tmp: Entry?, ghost done': seq<Cell>)
      requires Valid() && Passed(View(), done, was, i, now, age) && i < |was| && entry == At(table.order, |done|)
      modifies table, table.buckets, Elems(table.order)`prev, Elems(table.order)`next
      modifies Elems(table.order)`hhPrev, Elems(table.order)`hhNext
      ensures Valid() && table.buckets == old(table.buckets)
      ensures Elems(table.order) <= old(Elems(table.order))
      ensures Passed(View(), done', was, i + 1, now, age) && tmp == At(table.order, |done'|)
    {
      hide BktsOk;
      hide AppLinked;
      hide Distinct;
      ghost var p, before := |done|, table.order;
      assert View()[p] == was[i];
      tmp := Examine(entry, now, age, p);
      CutElems(before, p);
      CutMiddle(done, was, i, now, age);
      FreshSnoc(was, i, now, age);
      done' := done + Fresh([was[i]], now, age);
    }

    lemma {:induction false} HeadIsAt()
      requires Valid()
      ensures table.head == At(table.order, 0)
    {
    }

    lemma {:induction false} PassInside(done: seq<Cell>, was: seq<Cell>, i: nat, now: int, age: int)
      requires Passed(View(), done, was, i, now, age)
      ensures i <= |was| && (At(table.order, |done|) != null <==> i < |was|)
    {
    }

    /** cache_clear: one pass over the order, remembering the successor of the
        entry that may be deleted. */
    method Clear(now: int, age: int)
      requires Valid()
      modifies table, table.buckets, Elems(table.order)
      ensures Valid() && View() == Fresh(old(View()), now, age)
    {
      hide BktsOk;
      hide AppLinked;
      hide Distinct;
      hide Fresh;
      hide At;
      hide Passed;
      hide Valid;
      hide View;
      ghost var was, i, done := View(), 0, [];
      var entry := table.head;
      HeadIsAt();
      PassStart(was, now, age);
      while entry != null
        invariant Valid() && entry == At(table.order, |done|)
        invariant Elems(table.order) <= old(Elems(table.order)) && table.buckets == old(table.buckets)
        invariant Passed(View(), done, was, i, now, age)
        decreases |was| - i
      {
        PassInside(done, was, i, now, age);
        entry, done := Pass(entry, now, age, done, was, i);
        i := i + 1;
      }
      PassInside(done, was, i, now, age);
      PassEnd(View(), was, done, i, now, age);
    }
  }

  /** Part way through cache_clear: done is what is kept of was[..i]. */
  ghost predicate Passed(view: seq<Cell>, done: seq<Cell>, was: seq<Cell>, i: nat, now: int, age: int) {
    i <= |was| && view == done + was[i..] && done == Fresh(was[..i], now, age)
  }

  lemma {:induction false} SameIndex(s: seq<Entry>, k: nat, p: nat)
    requires Distinct(s) && k < |s| && p < |s| && s[k] == s[p]
    ensures k == p
  {
  }

  lemma {:induction false} CutElems(s: seq<Entry>, p: nat)
    requires p < |s|
    ensures Elems(Without(s, p)) <= Elems(s)
    ensures At(Without(s, p), p) == At(s, p + 1)
  {
  }

  lemma {:induction false} CutMiddle(done: seq<Cell>, was: seq<Cell>, i: nat, now: int, age: int)
    requires i < |was|
    ensures var left := done + was[i..];
      (if now - was[i].ts > age then Without(left, |done|) else left) == done + Fresh([was[i]], now, age) + was[i + 1..]
  {
  }

  lemma {:induction false} PassStart(was: seq<Cell>, now: int, age: int)
    ensures Passed(was, [], was, 0, now, age)
  {
    assert was[..0] == [] && [] + was[0..] == was;
  }

  lemma {:induction false} PassEnd(view: seq<Cell>, was: seq<Cell>, done: seq<Cell>, i: nat, now: int, age: int)
    requires Passed(view, done, was, i, now, age) && i == |was|
    ensures view == Fresh(was, now, age)
  {
    assert was[..|was|] == was && done + was[|was|..] == done;
  }

  lemma {:induction false} FreshAppend(s: seq<Cell>, t: seq<Cell>, now: int, age: int)
    ensures Fresh(s + t, now, age) == Fresh(s, now, age) + Fresh(t, now, age)
    decreases |s|
  {
    if s == [] {
      assert s + t == t;
    } else {
      FreshAppend(s[1..], t, now, age);
      assert (s + t)[1..] == s[1..] + t;
      var h := if now - s[0].ts > age then [] else [s[0]];
      assert h + (Fresh(s[1..], now, age) + Fresh(t, now, age)) == (h + Fresh(s[1..], now, age)) + Fresh(t, now, age);
    }
  }

  lemma {:induction false} FreshSnoc(s: seq<Cell>, i: nat, now: int, age: int)
    requires i < |s|
    ensures Fresh(s[..i + 1], now, age) == Fresh(s[..i], now, age) + Fresh([s[i]], now, age)
  {
    FreshAppend(s[..i], [s[i]], now, age);
    assert s[..i + 1] == s[..i] + [s[i]];
  }

  lemma {:induction false} HeadIsFirst(t: Table)
    requires t.Valid() && t.order != []
    ensures t.head == t.order[0]
  {
  }

  lemma {:induction false} AppendView(ord: seq<Entry>, was: seq<Cell>)
    requires |ord| == |was| + 1
    requires forall i :: 0 <= i < |was| ==> CellOf(ord[i]) == was[i]
    ensures Cells(ord) == was + [CellOf(ord[|was|])]
  {
  }

  lemma {:induction false} WithoutView(ord: seq<Entry>, k: nat, was: seq<Cell>)
    requires k < |ord| == |was|
    requires forall i :: 0 <= i < |ord| ==> CellOf(ord[i]) == was[i]
    ensures Cells(Without(ord, k)) == Without(was, k)
  {
    hide Without;
    var s, t := Without(ord, k), Without(was, k);
    WithoutLength(ord, k);
    WithoutLength(was, k);
    forall i | 0 <= i < |s| ensures Cells(s)[i] == t[i] {
      WithoutAt(ord, k, i);
      WithoutAt(was, k, i);
    }
  }

  lemma {:induction false} TouchView(ord: seq<Entry>, k: nat, was: seq<Cell>, now: int)
    requires k < |ord| == |was|
    requires forall i :: 0 <= i < |ord| && i != k ==> CellOf(ord[i]) == was[i]
    requires CellOf(ord[k]) == was[k].(ts := now)
    ensures Cells(Without(ord, k) + [ord[k]]) == Touch(was, k, now)
  {
    hide Without;
    var s, t := Without(ord, k) + [ord[k]], Touch(was, k, now);
    assert |Without(ord, k)| == |ord| - 1
           && |Without(was, k)| == |ord| - 1 by { WithoutLength(ord, k); WithoutLength(was, k); }
    forall i | 0 <= i < |s| ensures Cells(s)[i] == t[i] {
      if i < |s| - 1 {
        WithoutAt(ord, k, i);
        WithoutAt(was, k, i);
      }
    }
  }

  lemma {:induction false} WithoutLength<T>(s: seq<T>, k: nat)
    requires k < |s|
    ensures |Without(s, k)| == |s| - 1
  {
  }

  lemma {:induction false} KeyInView(s: seq<Entry>, key: seq<byte>)
    ensures HasKey(Cells(s), key) <==> exists e :: e in s && e.key == key
  {
    var c := Cells(s);
    if e :| e in s && e.key == key {
      var i :| 0 <= i < |s| && s[i] == e;
      assert c[i].key == key;
    }
    if HasKey(c, key) {
      var i :| 0 <= i < |c| && c[i].key == key;
      assert s[i] in s && s[i].key == key;
    }
  }

  // ---------- Laws of the recency list ----------

  lemma {:induction false} WithoutAt<T>(s: seq<T>, k: nat, i: nat)
    requires k < |s| && i < |s| - 1
    ensures |Without(s, k)| == |s| - 1 && Without(s, k)[i] == s[if i < k then i else i + 1]
  {
  }

  /** Using an entry neither adds nor loses one, and keeps keys distinct. */
  lemma {:induction false} TouchLaws(s: seq<Cell>, k: nat, now: int)
    requires k < |s| && DistinctKeys(s)
    ensures DistinctKeys(Touch(s, k, now)) && |Touch(s, k, now)| == |s|
    ensures forall key :: HasKey(Touch(s, k, now), key) <==> HasKey(s, key)
  {
    var t := Touch(s, k, now);
    forall i | 0 <= i < |s| - 1 ensures t[i] == s[if i < k then i else i + 1] { WithoutAt(s, k, i); }
    forall key ensures HasKey(t, key) <==> HasKey(s, key) {
      if HasKey(s, key) {
        var i :| 0 <= i < |s| && s[i].key == key;
        assert t[if i == k then |s| - 1 else if i < k then i else i - 1].key == key;
      }
      if HasKey(t, key) {
        var i :| 0 <= i < |t| && t[i].key == key;
        assert s[if i == |s| - 1 then k else if i < k then i else i + 1].key == key;
      }
    }
  }

  /** A cache below capacity stays below capacity, with distinct keys. */
  lemma {:induction false} InsertBound(s: seq<Cell>, c: Cell, max: nat)
    requires |s| < max && DistinctKeys(s) && !HasKey(s, c.key)
    ensures |InsertCell(s, c, max)| < max && DistinctKeys(InsertCell(s, c, max))
  {
    assert DistinctKeys(s + [c]);
  }

  /** The new entry is there, unless the cache can hold none at all; of the old
      ones only the least recently used can be gone, and only when the cache was
      full. */
  lemma {:induction false} InsertEvicts(s: seq<Cell>, c: Cell, max: nat, key: seq<byte>)
    requires |s| < max && HasKey(s + [c], key)
    ensures HasKey(InsertCell(s, c, max), key) || ((s + [c])[0].key == key && |s| + 1 == max)
  {
    var all, t := s + [c], InsertCell(s, c, max);
    var i :| 0 <= i < |all| && all[i].key == key;
    var d := |all| - |t|;
    if i >= d { assert t[i - d].key == key; }
  }

  /** Under a clock that does not run backwards the order of use is the order of
      time stamps. */
  lemma {:induction false} TimesStaySorted(s: seq<Cell>, k: nat, c: Cell, max: nat, now: int)
    requires SortedByTime(s) && (s != [] ==> s[|s| - 1].ts <= now)
    ensures k < |s| ==> SortedByTime(Touch(s, k, now))
    ensures c.ts == now ==> SortedByTime(InsertCell(s, c, max))
  {
    if k < |s| {
      var t := Touch(s, k, now);
      forall i | 0 <= i < |s| - 1 ensures t[i] == s[if i < k then i else i + 1] { WithoutAt(s, k, i); }
    }
    if c.ts == now {
      assert SortedByTime(s + [c]);
    }
  }

  /** Then clearing by age removes exactly a prefix: the entries too old. */
  lemma {:induction false} FreshIsSuffix(s: seq<Cell>, now: int, age: int) returns (k: nat)
    requires SortedByTime(s)
    ensures k <= |s| && Fresh(s, now, age) == s[k..]
    ensures forall i :: 0 <= i < |s| ==> (now - s[i].ts > age <==> i < k)
    decreases |s|
  {
    if s == [] {
      k := 0;
    } else if now - s[0].ts > age {
      var k' := FreshIsSuffix(s[1..], now, age);
      k := k' + 1;
      assert s[1..][k'..] == s[k..];
      assert forall i :: 1 <= i < |s| ==> s[i] == s[1..][i - 1];
    } else {
      FreshAll(s, now, age);
      k := 0;
    }
  }

  lemma {:induction false} FreshAll(s: seq<Cell>, now: int, age: int)
    requires forall i :: 0 <= i < |s| ==> now - s[i].ts <= age
    ensures Fresh(s, now, age) == s
    decreases |s|
  {
    if s != [] { FreshAll(s[1..], now, age); }
  }

  // ---------- Every run of the cache ----------

  /** What a call does to the recency list; one that finds nothing does nothing. The
      entry found is given by its place. */
  datatype Op =
    | Using(k: nat)                          // cache_lookup, cache_key_exist
    | Putting(key: seq<byte>, data: nat)     // cache_insert
    | Dropping(k: nat)                       // cache_remove
    | Clearing(age: int)                     // cache_clear

  datatype Call = Call(op: Op, now: int)

  predicate Possible(s: seq<Cell>, clock: int, c: Call) {
    c.now >= clock && (c.op.Using? ==> c.op.k < |s|) && (c.op.Dropping? ==> c.op.k < |s|)
  }

  function Apply(s: seq<Cell>, c: Call, max: nat): seq<Cell>
    requires (c.op.Using? ==> c.op.k < |s|) && (c.op.Dropping? ==> c.op.k < |s|)
  {
    match c.op
    case Using(k) => Touch(s, k, c.now)
    case Putting(key, data) => InsertCell(s, Cell(key, data, c.now), max)
    case Dropping(k) => Without(s, k)
    case Clearing(age) => Fresh(s, c.now, age)
  }

  /** Calls under a clock that does not run backwards. */
  predicate Calls(s: seq<Cell>, clock: int, max: nat, cs: seq<Call>)
    decreases |cs|
  {
    cs == [] || (Possible(s, clock, cs[0]) && Calls(Apply(s, cs[0], max), cs[0].now, max, cs[1..]))
  }

  function After(s: seq<Cell>, clock: int, max: nat, cs: seq<Call>): seq<Cell>
    requires Calls(s, clock, max, cs)
    decreases |cs|
  {
    if cs == [] then s else After(Apply(s, cs[0], max), cs[0].now, max, cs[1..])
  }

  /** No call inserts a key that is there. */
  predicate AbsentPuts(s: seq<Cell>, clock: int, max: nat, cs: seq<Call>)
    requires Calls(s, clock, max, cs)
    decreases |cs|
  {
    cs == []
    || ((cs[0].op.Putting? ==> !HasKey(s, cs[0].op.key)) && AbsentPuts(Apply(s, cs[0], max), cs[0].now, max, cs[1..]))
  }

  ghost predicate Timely(s: seq<Cell>, clock: int, max: nat) {
    SortedByTime(s) && |s| < max && (s != [] ==> s[|s| - 1].ts <= clock)
  }

  lemma {:induction false} WithoutTimely(s: seq<Cell>, k: nat, clock: int, max: nat)
    requires Timely(s, clock, max) && k < |s|
    ensures Timely(Without(s, k), clock, max) && (DistinctKeys(s) ==> DistinctKeys(Without(s, k)))
  {
    hide Without;
    var t := Without(s, k);
    WithoutLength(s, k);
    forall i, j | 0 <= i <= j < |t| ensures t[i].ts <= t[j].ts && (DistinctKeys(s) && i < j ==> t[i].key != t[j].key) {
      WithoutAt(s, k, i);
      WithoutAt(s, k, j);
    }
    if t != [] { WithoutAt(s, k, |t| - 1); }
  }

  lemma {:induction false} SuffixTimely(s: seq<Cell>, k: nat, clock: int, max: nat)
    requires Timely(s, clock, max) && k <= |s|
    ensures Timely(s[k..], clock, max) && (DistinctKeys(s) ==> DistinctKeys(s[k..]))
  {
  }

  lemma {:induction false} TouchTimely(s: seq<Cell>, k: nat, clock: int, now: int, max: nat)
    requires Timely(s, clock, max) && k < |s| && clock <= now
    ensures Timely(Touch(s, k, now), now, max) && (DistinctKeys(s) ==> DistinctKeys(Touch(s, k, now)))
  {
    hide Without;
    TimesStaySorted(s, k, s[k], max, now);
    if DistinctKeys(s) { TouchLaws(s, k, now); }
    WithoutLength(s, k);
  }

  lemma {:induction false} InsertTimely(s: seq<Cell>, c: Cell, clock: int, max: nat)
    requires Timely(s, clock, max) && clock <= c.ts
    ensures Timely(InsertCell(s, c, max), c.ts, max)
    ensures DistinctKeys(s) && !HasKey(s, c.key) ==> DistinctKeys(InsertCell(s, c, max))
  {
    TimesStaySorted(s, |s|, c, max, c.ts);
    if DistinctKeys(s) && !HasKey(s, c.key) { InsertBound(s, c, max); }
  }

  lemma {:induction false} ApplyTimely(s: seq<Cell>, clock: int, c: Call, max: nat)
    requires Timely(s, clock, max) && Possible(s, clock, c)
    ensures Timely(Apply(s, c, max), c.now, max)
    ensures DistinctKeys(s) && (c.op.Putting? ==> !HasKey(s, c.op.key)) ==> DistinctKeys(Apply(s, c, max))
  {
    hide DistinctKeys;
    hide HasKey;
    match c.op
    case Using(k) => TouchTimely(s, k, clock, c.now, max);
    case Putting(key, data) => InsertTimely(s, Cell(key, data, c.now), clock, max);
    case Dropping(k) => WithoutTimely(s, k, clock, max);
    case Clearing(age) =>
      var k := FreshIsSuffix(s, c.now, age);
      SuffixTimely(s, k, clock, max);
  }

  /** In every run under a clock that does not run backwards, whatever the calls: the
      recency list is sorted by time and shorter than max_entries; and keys are distinct
      when only absent ones are inserted. */
  lemma {:induction false} RunTimely(s: seq<Cell>, clock: int, max: nat, cs: seq<Call>)
    requires Timely(s, clock, max) && Calls(s, clock, max, cs)
    ensures var t := After(s, clock, max, cs);
            && SortedByTime(t) && |t| < max
            && (DistinctKeys(s) && AbsentPuts(s, clock, max, cs) ==> DistinctKeys(t))
    decreases |cs|
  {
    hide DistinctKeys;
    hide HasKey;
    hide Apply;
    if cs != [] {
      ApplyTimely(s, clock, cs[0], max);
      RunTimely(Apply(s, cs[0], max), cs[0].now, max, cs[1..]);
    }
  }

  /** So in every state a new cache reaches, clearing removes exactly the first k entries,
      the ones too old. */
  lemma {:induction false} ClearsPrefix(clock: int, max: nat, cs: seq<Call>, now: int, age: int) returns (k: nat)
    requires max > 0 && Calls([], clock, max, cs)
    ensures var t := After([], clock, max, cs);
            && k <= |t| && Fresh(t, now, age) == t[k..]
            && forall i :: 0 <= i < |t| ==> (now - t[i].ts > age <==> i < k)
  {
    hide After;
    RunTimely([], clock, max, cs);
    k := FreshIsSuffix(After([], clock, max, cs), now, age);
  }
}
