/** udprelay.c: the cache of UDP associations. Each context is filed under its own
    address family and source address, which is what its timer relies on. */
module UdpRelay {
  import opened Bytes
  import opened HashTable
  import opened LruCache

  /** The fields of remote_ctx_t that name an association. */
  datatype Context = Context(af: nat, src: seq<byte>)

  const AF_UNSPEC: nat := 0
  const AF_INET: nat := 2
  const AF_INET6: nat := 10

  /** hash_key */
  function HashKey(af: nat, src: seq<byte>): seq<byte> { Le32(af) + src }

  /** A key determines the family and the address. */
  lemma {:induction false} KeyDetermines(a: Context, b: Context)
    requires a.af < 0x1_0000_0000 && b.af < 0x1_0000_0000 && HashKey(a.af, a.src) == HashKey(b.af, b.src)
    ensures a == b
  {
    hide Le32;
    var x, y := HashKey(a.af, a.src), HashKey(b.af, b.src);
    assert x[..4] == Le32(a.af) && y[..4] == Le32(b.af);
    assert x[4..] == a.src && y[4..] == b.src;
    Le32Inverse(a.af, Le32(a.af));
    Le32Inverse(b.af, Le32(b.af));
  }

  function KeyOf(c: Context): seq<byte> { HashKey(c.af, c.src) }

  // ---------- Filing ----------

  /** The cache holds exactly the live contexts, each under the key of its own family
      and address, and no two under the same key. */
  ghost predicate OwnKeys(cells: seq<Cell>, ctxs: map<nat, Context>, next: nat) {
    && DistinctKeys(cells)
    && (forall i :: 0 <= i < |cells| ==> cells[i].data in ctxs && cells[i].key == KeyOf(ctxs[cells[i].data]))
    && (forall id :: id in ctxs ==> id < next && Holds(cells, id))
  }

  ghost predicate Holds(cells: seq<Cell>, id: nat) {
    exists i :: 0 <= i < |cells| && cells[i].data == id
  }

  lemma {:induction false} TouchAt(s: seq<Cell>, k: nat, now: int, i: nat)
    requires k < |s| && i < |s|
    ensures |Touch(s, k, now)| == |s|
    ensures var j := if i < k then i else if i == k then |s| - 1 else i - 1;
            Touch(s, k, now)[j].key == s[i].key && Touch(s, k, now)[j].data == s[i].data
  {
  }

  lemma {:induction false} UntouchAt(s: seq<Cell>, k: nat, now: int, j: nat)
    requires k < |s| && j < |s|
    ensures |Touch(s, k, now)| == |s|
    ensures var i := if j == |s| - 1 then k else if j < k then j else j + 1;
            Touch(s, k, now)[j].key == s[i].key && Touch(s, k, now)[j].data == s[i].data
  {
  }

  lemma {:induction false} TouchFiled(cells: seq<Cell>, ctxs: map<nat, Context>, next: nat, k: nat, now: int)
    requires OwnKeys(cells, ctxs, next) && k < |cells|
    ensures OwnKeys(Touch(cells, k, now), ctxs, next)
  {
    hide Touch;
    hide HashKey;
    var t := Touch(cells, k, now);
    UntouchAt(cells, k, now, k);
    forall j | 0 <= j < |cells| ensures |t| == |cells| && t[j].data in ctxs && t[j].key == KeyOf(ctxs[t[j].data]) {
      UntouchAt(cells, k, now, j);
    }
    forall i, j | 0 <= i < j < |t| ensures t[i].key != t[j].key {
      UntouchAt(cells, k, now, i);
      UntouchAt(cells, k, now, j);
    }
    forall id | id in ctxs ensures Holds(t, id) {
      assert Holds(cells, id);
      var i :| 0 <= i < |cells| && cells[i].data == id;
      TouchAt(cells, k, now, i);
    }
  }

  /** A new context under a key that was not there. */
  lemma {:induction false} AppendFiled(cells: seq<Cell>, ctxs: map<nat, Context>, next: nat, c: Context, now: int)
    requires OwnKeys(cells, ctxs, next) && !HasKey(cells, KeyOf(c))
    ensures OwnKeys(cells + [Cell(KeyOf(c), next, now)], ctxs[next := c], next + 1)
  {
    var t := cells + [Cell(KeyOf(c), next, now)];
    forall id | id in ctxs[next := c] ensures Holds(t, id) {
      if id == next {
        assert t[|cells|].data == id;
      } else {
        assert Holds(cells, id);
        var i :| 0 <= i < |cells| && cells[i].data == id;
        assert t[i].data == id;
      }
    }
  }

  /** Taking an entry out and freeing its context. */
  lemma {:induction false} DropFiled(cells: seq<Cell>, ctxs: map<nat, Context>, next: nat, k: nat)
    requires OwnKeys(cells, ctxs, next) && k < |cells|
    ensures OwnKeys(Without(cells, k), ctxs - {cells[k].data}, next)
  {
    hide HashKey;
    hide Without;
    var t, gone := Without(cells, k), cells[k].data;
    forall j | 0 <= j < |cells| - 1
      ensures |t| == |cells| - 1 && t[j].data in ctxs && t[j].data != gone && t[j].key == KeyOf(ctxs[t[j].data])
    {
      DropFrom(cells, k, j);
    }
    DropLength(cells, k);
    forall i, j | 0 <= i < j < |t| ensures t[i].key != t[j].key {
      DropFrom(cells, k, i);
      DropFrom(cells, k, j);
    }
    forall id | id in ctxs && id != gone ensures Holds(t, id) {
      assert Holds(cells, id);
      var i :| 0 <= i < |cells| && cells[i].data == id;
      DropTo(cells, k, i);
    }
  }

  lemma {:induction false} DropLength(cells: seq<Cell>, k: nat)
    requires k < |cells|
    ensures |Without(cells, k)| == |cells| - 1
  {
  }

  lemma {:induction false} DropFrom(cells: seq<Cell>, k: nat, j: nat)
    requires k < |cells| && j < |cells| - 1
    ensures |Without(cells, k)| == |cells| - 1 && Without(cells, k)[j] == cells[if j < k then j else j + 1]
  {
  }

  lemma {:induction false} DropTo(cells: seq<Cell>, k: nat, i: nat)
    requires k < |cells| && i < |cells| && i != k
    ensures |Without(cells, k)| == |cells| - 1 && Without(cells, k)[if i < k then i else i - 1] == cells[i]
  {
  }

  /** What cache_insert leaves, with the evicted context freed. */
  lemma {:induction false} InsertFiled(cells: seq<Cell>, ctxs: map<nat, Context>, next: nat, c: Context, now: int,
                                       max: nat)
    requires OwnKeys(cells, ctxs, next) && !HasKey(cells, KeyOf(c))
    ensures var all := cells + [Cell(KeyOf(c), next, now)];
            OwnKeys(InsertCell(cells, Cell(KeyOf(c), next, now), max),
                  if |cells| + 1 >= max then ctxs[next := c] - {all[0].data} else ctxs[next := c], next + 1)
  {
    hide HashKey;
    hide OwnKeys;
    hide HasKey;
    var all := cells + [Cell(KeyOf(c), next, now)];
    AppendFiled(cells, ctxs, next, c, now);
    if |cells| + 1 >= max {
      DropFiled(all, ctxs[next := c], next + 1, 0);
      WithoutHead(all);
    }
  }

  /** Where a live context is filed: in one place, found by its own key. */
  lemma {:induction false} OwnPlace(cells: seq<Cell>, ctxs: map<nat, Context>, next: nat, id: nat)
    requires OwnKeys(cells, ctxs, next) && id in ctxs
    ensures HasKey(cells, KeyOf(ctxs[id]))
    ensures forall k :: 0 <= k < |cells| && cells[k].key == KeyOf(ctxs[id]) ==> cells[k].data == id
  {
    assert Holds(cells, id);
    var i :| 0 <= i < |cells| && cells[i].data == id;
    assert cells[i].key == KeyOf(ctxs[id]);
  }

  /** No two live contexts are for the same family and source. */
  lemma {:induction false} LiveDistinct(cells: seq<Cell>, ctxs: map<nat, Context>, next: nat, i: nat, j: nat)
    requires OwnKeys(cells, ctxs, next) && i in ctxs && j in ctxs && ctxs[i] == ctxs[j]
    ensures i == j
  {
    OwnPlace(cells, ctxs, next, i);
    OwnPlace(cells, ctxs, next, j);
    var k :| 0 <= k < |cells| && cells[k].key == KeyOf(ctxs[i]);
  }

  /** A live context has this key. */
  ghost predicate Live(ctxs: map<nat, Context>, key: seq<byte>) {
    exists i :: i in ctxs && KeyOf(ctxs[i]) == key
  }

  /** The contexts after one more has been filed: all of them, except for the least recently
      used one of a full cache. */
  function Registered(cells: seq<Cell>, ctxs: map<nat, Context>, next: nat, c: Context, max: nat): map<nat, Context> {
    var made := ctxs[next := c];
    if |cells| + 1 < max then made else made - {if cells == [] then next else cells[0].data}
  }

  /** The new context is there, and every old one but at most one, which was the least
      recently used of a full cache. */
  lemma {:induction false} RegisteredKeeps(cells: seq<Cell>, ctxs: map<nat, Context>, next: nat, c: Context, max: nat)
    requires OwnKeys(cells, ctxs, next)
    ensures var m := Registered(cells, ctxs, next, c, max);
            && (max > 1 ==> next in m && m[next] == c)
            && (forall i :: i in ctxs && (|cells| + 1 < max || i != cells[0].data) ==> i in m && m[i] == ctxs[i])
            && (forall i :: i in m ==> i == next || (i in ctxs && m[i] == ctxs[i]))
  {
    if cells == [] { assert forall i :: i in ctxs ==> Holds(cells, i); }
  }

  /** The server's associations. Contexts are numbered in order of creation. */
  class Associations {
    const cache: Cache
    var ctxs: map<nat, Context>
    var next: nat

    constructor (capacity: nat, hash: seq<byte> -> nat)
      ensures Valid() && ctxs == map[] && cache.max == capacity
    {
      cache := new Cache(capacity, hash);
      ctxs, next := map[], 0;
    }

    ghost predicate Valid()
      reads this, cache.table, cache.table.buckets, Elems(cache.table.order)
    {
      cache.Valid() && OwnKeys(cache.View(), ctxs, next)
    }

    /** cache_lookup of an association. */
    method Find(af: nat, src: seq<byte>, now: int) returns (id: Option<nat>, ghost k: nat)
      requires Valid()
      modifies cache.table, cache.table.buckets, Elems(cache.table.order)
      ensures Valid() && ctxs == old(ctxs) && next == old(next)
      ensures id.Some? <==> Live(ctxs, HashKey(af, src))
      ensures id.Some? ==> id.value in ctxs && KeyOf(ctxs[id.value]) == HashKey(af, src)
      ensures id.Some? ==> k < |old(cache.View())| && old(cache.View())[k].key == HashKey(af, src)
      ensures id.Some? ==> cache.View() == Touch(old(cache.View()), k, now)
      ensures id.None? ==> forall i :: i in ctxs ==> KeyOf(ctxs[i]) != HashKey(af, src)
      ensures id.None? ==>
                && !HasKey(cache.View(), HashKey(af, src)) && cache.View() == old(cache.View())
                && cache.table.order == old(cache.table.order)
                && cache.table.buckets == old(cache.table.buckets)
    {
      hide Touch;
      hide HashKey;
      hide HasKey;
      ghost var was := cache.View();
      id, k := cache.Lookup(HashKey(af, src), now);
      if id.Some? {
        TouchFiled(was, ctxs, next, k, now);
      } else {
        forall i | i in ctxs ensures KeyOf(ctxs[i]) != HashKey(af, src) { OwnPlace(was, ctxs, next, i); }
      }
    }

    /** cache_insert of a context just made; an evicted one is freed. */
    method File(c: Context, now: int)
      requires Valid() && !HasKey(cache.View(), KeyOf(c))
      modifies this`ctxs, this`next, cache.table, cache.table.buckets, Elems(cache.table.order)
      ensures Valid() && next == old(next) + 1
      ensures ctxs == Registered(old(cache.View()), old(ctxs), old(next), c, cache.max)
      ensures cache.View() == InsertCell(old(cache.View()), Cell(KeyOf(c), old(next), now), cache.max)
    {
      hide BktsOk;
      hide AppLinked;
      hide Distinct;
      hide At;
      hide OwnKeys;
      hide HashKey;
      hide HasKey;
      ghost var was := cache.View();
      InsertFiled(was, ctxs, next, c, now, cache.max);
      var evicted := cache.Insert(KeyOf(c), next, now);
      var made := ctxs[next := c];
      ctxs := if evicted.Some? then made - {evicted.value} else made;
      next := next + 1;
    }

    /** server_recv_cb: a packet from src for an address of the given family; other
        families wait for a query. A context is made, and filed once its packet was sent,
        exactly when none is live under the key. */
    method OnPacket(family: nat, src: seq<byte>, sent: bool, now: int)
      requires Valid()
      modifies this`ctxs, this`next, cache.table, cache.table.buckets, Elems(cache.table.order)
      ensures Valid()
      ensures var c, cells := Context(family, src), old(cache.View());
              if !Live(old(ctxs), KeyOf(c)) && (family == 2 || family == 10) && sent then
                && next == old(next) + 1 && ctxs == Registered(cells, old(ctxs), old(next), c, cache.max)
                && cache.View() == InsertCell(cells, Cell(KeyOf(c), old(next), now), cache.max)
              else
                && next == old(next) && ctxs == old(ctxs)
                && if Live(old(ctxs), KeyOf(c)) then Used(cells, KeyOf(c), now, cache.View()) else cache.View() == cells
    {
      hide HashKey;
      hide HasKey;
      hide OwnKeys;
      hide Live;
      hide Touch;
      ghost var was := cache.View();
      var id;
      ghost var k;
      id, k := Find(family, src, now);
      if id.None? {
        if (family == AF_INET || family == AF_INET6) && sent { File(Context(family, src), now); }
      }
    }

    /** query_resolve_cb: the contexts it makes keep the family they were zeroed to. */
    method OnAnswer(src: seq<byte>, sent: bool, now: int)
      requires Valid()
      modifies this`ctxs, this`next, cache.table, cache.table.buckets, Elems(cache.table.order)
      ensures Valid()
      ensures var c, cells := Context(AF_UNSPEC, src), old(cache.View());
              if !Live(old(ctxs), KeyOf(c)) && sent then
                && next == old(next) + 1 && ctxs == Registered(cells, old(ctxs), old(next), c, cache.max)
                && cache.View() == InsertCell(cells, Cell(KeyOf(c), old(next), now), cache.max)
              else
                && next == old(next) && ctxs == old(ctxs)
                && if Live(old(ctxs), KeyOf(c)) then Used(cells, KeyOf(c), now, cache.View()) else cache.View() == cells
    {
      hide HashKey;
      hide HasKey;
      hide OwnKeys;
      hide Live;
      hide Touch;
      ghost var was := cache.View();
      var id;
      ghost var k;
      id, k := Find(AF_UNSPEC, src, now);
      if id.None? {
        if sent { File(Context(AF_UNSPEC, src), now); }
      }
    }

    /** remote_timeout_cb: the context whose timer fired goes, and no other. */
    method OnTimeout(id: nat)
      requires Valid() && id in ctxs
      modifies this`ctxs, cache.table, cache.table.buckets, Elems(cache.table.order)
      ensures Valid() && ctxs == old(ctxs) - {id}
    {
      hide BktsOk;
      hide AppLinked;
      hide Distinct;
      hide At;
      hide OwnKeys;
      hide HashKey;
      hide HasKey;
      hide Without;
      ghost var was := cache.View();
      OwnPlace(was, ctxs, next, id);
      ghost var k;
      var freed;
      freed, k := cache.Remove(HashKey(ctxs[id].af, ctxs[id].src));
      DropFiled(was, ctxs, next, k);
      ctxs := ctxs - {freed.value};
    }
  }

  /** The entry with this key has been used: it is at the back, with the new time. */
  ghost predicate Used(cells: seq<Cell>, key: seq<byte>, now: int, after: seq<Cell>) {
    exists k :: 0 <= k < |cells| && cells[k].key == key && after == Touch(cells, k, now)
  }

  lemma {:induction false} WithoutHead(s: seq<Cell>)
    requires s != []
    ensures Without(s, 0) == s[1..]
  {
  }
}
