/** uthash.h: a hash table whose elements are threaded by two doubly linked
    structures, the application order and the bucket chains. The invariant is the
    one HASH_FSCK checks, together with where each element is filed. */
module HashTable {
  import opened Bits
  import opened Bytes

  const INITIAL_LOG2: nat := 5
  const BKT_THRESHOLD: nat := 10

  /** cache_entry with its UT_hash_handle. */
  class Entry {
    var key: seq<byte>
    var data: nat
    var ts: int
    var hashv: nat
    var prev: Entry?
    var next: Entry?
    var hhPrev: Entry?
    var hhNext: Entry?

    constructor (key: seq<byte>, data: nat, ts: int)
      ensures this.key == key && this.data == data && this.ts == ts
    {
      this.key, this.data, this.ts := key, data, ts;
      hashv, prev, next, hhPrev, hhNext := 0, null, null, null, null;
    }
  }

  /** UT_hash_bucket */
  datatype Bucket = Bucket(hhHead: Entry?, count: nat, expandMult: nat)

  // ---------- Doubly linked lists, as sequences ----------

  ghost function Elems(s: seq<Entry>): set<Entry> { set x | x in s }

  ghost predicate Distinct(s: seq<Entry>) {
    forall i, j :: 0 <= i < j < |s| ==> s[i] != s[j]
  }

  /** The element at a position, or NULL beyond the ends. */
  ghost function At(s: seq<Entry>, i: int): Entry? {
    if 0 <= i < |s| then s[i] else null
  }

  /** prev and next agree with the application order. */
  ghost predicate AppLinked(s: seq<Entry>)
    reads Elems(s)`prev, Elems(s)`next
  {
    forall i :: 0 <= i < |s| ==> s[i].prev == At(s, i - 1) && s[i].next == At(s, i + 1)
  }

  /** hh_prev and hh_next agree with the order of a bucket chain. */
  ghost predicate HashLinked(s: seq<Entry>)
    reads Elems(s)`hhPrev, Elems(s)`hhNext
  {
    forall i :: 0 <= i < |s| ==> s[i].hhPrev == At(s, i - 1) && s[i].hhNext == At(s, i + 1)
  }

  ghost predicate ChainOk(s: seq<Entry>, b: Bucket)
    reads Elems(s)`hhPrev, Elems(s)`hhNext
  {
    Distinct(s) && HashLinked(s) && b.hhHead == At(s, 0) && b.count == |s|
  }

  function Without<T>(s: seq<T>, k: nat): seq<T>
    requires k < |s|
  {
    s[..k] + s[k + 1..]
  }

  lemma {:induction false} DistinctWithout(s: seq<Entry>, k: nat)
    requires k < |s| && Distinct(s)
    ensures Distinct(Without(s, k)) && s[k] !in Without(s, k)
    ensures forall x :: x in Without(s, k) <==> x in s && x != s[k]
  {
    var t := Without(s, k);
    forall i, j | 0 <= i < j < |t| ensures t[i] != t[j] {
      var i', j' := if i < k then i else i + 1, if j < k then j else j + 1;
      assert t[i] == s[i'] && t[j] == s[j'];
    }
    forall x | x in s && x != s[k] ensures x in t {
      var i :| 0 <= i < |s| && s[i] == x;
      assert if i < k then t[i] == x else t[i - 1] == x;
    }
  }

  // ---------- The pointer surgery ----------

  /** HASH_APPEND_LIST */
  method AppendList(ghost order: seq<Entry>, tail: Entry, add: Entry)
    requires order != [] && Distinct(order) && AppLinked(order) && tail == order[|order| - 1] && add !in order
    modifies add`prev, add`next, tail`next
    ensures AppLinked(order + [add]) && Distinct(order + [add])
  {
    add.next := null;
    add.prev := tail;
    tail.next := add;
    ghost var s, n := order + [add], |order|;
    forall i | 0 <= i < |s| ensures s[i].prev == At(s, i - 1) && s[i].next == At(s, i + 1) {
      if i < n {
        assert s[i] == order[i] && At(s, i - 1) == At(order, i - 1);
        if i < n - 1 { assert order[i] != tail && At(s, i + 1) == At(order, i + 1); }
      }
    }
  }

  /** The application-order half of HASH_DELETE. */
  method UnlinkList(ghost order: seq<Entry>, ghost k: nat, head: Entry?, tail: Entry?, del: Entry)
    returns (head': Entry?, tail': Entry?)
    requires Distinct(order) && AppLinked(order) && k < |order| && order[k] == del
    requires head == order[0] && tail == order[|order| - 1]
    modifies Elems(order)`prev, Elems(order)`next
    ensures var s := Without(order, k);
      AppLinked(s) && head' == At(s, 0) && tail' == At(s, |s| - 1)
    ensures del.prev == old(del.prev) && del.next == old(del.next)
  {
    hide Without;
    head', tail' := head, tail;
    assert del in Elems(order);
    WithoutEnds(order, k);
    if del == tail { tail' := del.prev; }
    if del.prev == null { head' := del.next; }
    BypassNexts(order, k, del);
    BypassPrevs(order, k, del);
    AppBypass(order, k);
  }

  lemma {:induction false} WithoutEnds(s: seq<Entry>, k: nat)
    requires k < |s|
    ensures var t := Without(s, k);
      && At(t, 0) == (if k == 0 then At(s, 1) else s[0])
      && At(t, |t| - 1) == if k == |s| - 1 then At(s, k - 1) else s[|s| - 1]
  {
  }

  /** The predecessor's next link. */
  method BypassNexts(ghost order: seq<Entry>, ghost k: nat, del: Entry)
    requires Distinct(order) && k < |order| && order[k] == del && del.prev == At(order, k - 1)
    requires forall m :: 0 <= m < |order| ==> order[m].next == At(order, m + 1)
    modifies Elems(order)`next
    ensures forall m :: 0 <= m < |order| ==> order[m].next == BypassNext(order, k, m)
    ensures del.next == old(del.next)
  {
    assert del in Elems(order);
    if del.prev != null {
      assert del.prev == order[k - 1];
      del.prev.next := del.next;
    }
  }

  /** The successor's prev link. */
  method BypassPrevs(ghost order: seq<Entry>, ghost k: nat, del: Entry)
    requires Distinct(order) && k < |order| && order[k] == del && del.next == At(order, k + 1)
    requires forall m :: 0 <= m < |order| ==> order[m].prev == At(order, m - 1)
    modifies Elems(order)`prev
    ensures forall m :: 0 <= m < |order| ==> order[m].prev == BypassPrev(order, k, m)
    ensures del.prev == old(del.prev)
  {
    assert del in Elems(order);
    if del.next != null {
      assert del.next == order[k + 1];
      del.next.prev := del.prev;
    }
  }

  ghost function BypassNext(s: seq<Entry>, k: nat, m: nat): Entry? {
    if m + 1 == k then At(s, k + 1) else At(s, m + 1)
  }

  ghost function BypassPrev(s: seq<Entry>, k: nat, m: nat): Entry? {
    if m == k + 1 then At(s, k - 1) else At(s, m - 1)
  }

  /** Neighbours in the shortened list are the bypassed neighbours of the full one. */
  lemma {:induction false} Bypass(s: seq<Entry>, k: nat, i: nat)
    requires k < |s| && i < |s| - 1
    ensures var t, m := Without(s, k), if i < k then i else i + 1;
      t[i] == s[m] && At(t, i - 1) == BypassPrev(s, k, m) && At(t, i + 1) == BypassNext(s, k, m)
  {
  }

  lemma {:induction false} AppBypass(s: seq<Entry>, k: nat)
    requires k < |s|
    requires forall m :: 0 <= m < |s| ==> s[m].next == BypassNext(s, k, m)
    requires forall m :: 0 <= m < |s| ==> s[m].prev == BypassPrev(s, k, m)
    ensures AppLinked(Without(s, k))
  {
    hide BypassNext;
    hide BypassPrev;
    var t := Without(s, k);
    forall i | 0 <= i < |t| ensures t[i].prev == At(t, i - 1) && t[i].next == At(t, i + 1) {
      Bypass(s, k, i);
    }
  }

  lemma {:induction false} HashBypass(s: seq<Entry>, k: nat)
    requires k < |s|
    requires forall m :: 0 <= m < |s| ==> s[m].hhNext == BypassNext(s, k, m)
    requires forall m :: 0 <= m < |s| ==> s[m].hhPrev == BypassPrev(s, k, m)
    ensures HashLinked(Without(s, k))
  {
    hide BypassNext;
    hide BypassPrev;
    var t := Without(s, k);
    forall i | 0 <= i < |t| ensures t[i].hhPrev == At(t, i - 1) && t[i].hhNext == At(t, i + 1) {
      Bypass(s, k, i);
    }
  }

  /** HASH_ADD_TO_BKT without the expansion test. */
  method PushFront(ghost chain: seq<Entry>, b: Bucket, add: Entry) returns (b': Bucket)
    requires ChainOk(chain, b) && add !in chain
    modifies add`hhPrev, add`hhNext, (if b.hhHead == null then {} else {b.hhHead})`hhPrev
    ensures ChainOk([add] + chain, b') && b' == b.(hhHead := add, count := b.count + 1)
  {
    add.hhNext := b.hhHead;
    add.hhPrev := null;
    if b.hhHead != null { b.hhHead.hhPrev := add; }
    b' := b.(hhHead := add, count := b.count + 1);
    ghost var s := [add] + chain;
    forall i | 0 <= i < |s| ensures s[i].hhPrev == At(s, i - 1) && s[i].hhNext == At(s, i + 1) {
      assert At(s, i + 1) == At(chain, i);
      if i > 0 { assert s[i] == chain[i - 1]; }
      if i > 1 { assert At(s, i - 1) == At(chain, i - 2) && chain[i - 1] != chain[0]; }
    }
  }

  /** HASH_DEL_IN_BKT */
  method UnlinkBucket(ghost chain: seq<Entry>, ghost k: nat, b: Bucket, del: Entry) returns (b': Bucket)
    requires ChainOk(chain, b) && k < |chain| && chain[k] == del
    modifies Elems(chain)`hhPrev, Elems(chain)`hhNext
    ensures ChainOk(Without(chain, k), b') && b'.expandMult == b.expandMult
  {
    b' := b.(count := b.count - 1);
    assert del in Elems(chain);
    if b.hhHead == del { b' := b'.(hhHead := del.hhNext); }
    if del.hhPrev != null {
      assert del.hhPrev == chain[k - 1];
      del.hhPrev.hhNext := del.hhNext;
    }
    assert forall m :: 0 <= m < |chain| ==> chain[m].hhNext == BypassNext(chain, k, m);
    if del.hhNext != null {
      assert del.hhNext == chain[k + 1];
      del.hhNext.hhPrev := del.hhPrev;
    }
    assert forall m :: 0 <= m < |chain| ==> chain[m].hhPrev == BypassPrev(chain, k, m);
    HashBypass(chain, k);
    DistinctWithout(chain, k);
  }

  /** HASH_FIND_IN_BKT */
  method FindInBkt(ghost chain: seq<Entry>, b: Bucket, hashv: nat, key: seq<byte>) returns (out: Entry?)
    requires ChainOk(chain, b)
    ensures out != null ==> out in chain && out.hashv == hashv && out.key == key
    ensures out == null ==> forall x :: x in chain ==> !(x.hashv == hashv && x.key == key)
  {
    out := b.hhHead;
    ghost var k := 0;
    while out != null
      invariant 0 <= k <= |chain| && out == At(chain, k)
      invariant forall i :: 0 <= i < k ==> !(chain[i].hashv == hashv && chain[i].key == key)
      decreases |chain| - k
    {
      if out.hashv == hashv && out.key == key { return; }
      k := k + 1;
      out := out.hhNext;
    }
  }

  // ---------- The table ----------

  /** HASH_TO_BKT */
  function ToBkt(hashv: nat, numBuckets: nat): nat
    requires numBuckets > 0
  {
    And(hashv, numBuckets - 1)
  }

  /** With a power of two buckets the mask is the remainder, so it is an index. */
  lemma {:induction false} BktIsMod(hashv: nat, log2: nat)
    ensures ToBkt(hashv, Pow2(log2)) == hashv % Pow2(log2) < Pow2(log2)
  {
    MaskIsMod(hashv, log2);
  }

  /** Every element is in the chain of its own bucket and in no other. */
  ghost predicate Filed(ord: seq<Entry>, chains: seq<seq<Entry>>, n: nat)
    requires n > 0
    reads Elems(ord)`hashv
  {
    && (forall b, x :: 0 <= b < |chains| && x in chains[b] ==> x in ord)
    && (forall b, x :: 0 <= b < |chains| && x in chains[b] ==> ToBkt(x.hashv, n) == b)
    && (forall x :: x in ord ==> ToBkt(x.hashv, n) < |chains| && x in chains[ToBkt(x.hashv, n)])
  }

  /** A bucket array, its chains, and the elements filed in them. */
  ghost predicate BktsOk(bk: seq<Bucket>, chains: seq<seq<Entry>>, ord: seq<Entry>, n: nat)
    requires n > 0
    reads Elems(ord)`hashv, Elems(ord)`hhPrev, Elems(ord)`hhNext
  {
    && |bk| == n == |chains| && Filed(ord, chains, n)
    && (forall b :: 0 <= b < |chains| ==> ChainOk(chains[b], bk[b]))
  }

  /** Put an element in front of its chain; the other chains stay as they are. */
  method LinkInto(bk: array<Bucket>, ghost chains: seq<seq<Entry>>, ghost ord: seq<Entry>, ghost n: nat, b: nat,
                  mult: nat, add: Entry)
    returns (ghost chains': seq<seq<Entry>>)
    requires n > 0 && BktsOk(bk[..], chains, ord, n) && add !in ord && b < bk.Length && b == ToBkt(add.hashv, n)
    modifies bk, Elems(ord)`hhPrev, add`hhPrev, add`hhNext
    ensures chains' == chains[b := [add] + chains[b]]
    ensures BktsOk(bk[..], chains', ord + [add], n)
    ensures bk[..] == old(bk[..])[b := Bucket(add, old(bk[b].count) + 1, mult)]
  {
    hide ToBkt;
    hide ChainOk;
    BktsShape(bk[..], chains, ord, n);
    FiledAdd(ord, chains, n, add);
    chains' := PushInto(bk, chains, ord, n, b, mult, add);
  }

  method PushInto(bk: array<Bucket>, ghost chains: seq<seq<Entry>>, ghost ord: seq<Entry>, ghost n: nat, b: nat,
                  mult: nat, add: Entry)
    returns (ghost chains': seq<seq<Entry>>)
    requires n > 0 && BktsOk(bk[..], chains, ord, n) && add !in ord && b < bk.Length
    modifies bk, Elems(ord)`hhPrev, add`hhPrev, add`hhNext
    ensures chains' == chains[b := [add] + chains[b]]
    ensures forall c :: 0 <= c < |chains'| ==> ChainOk(chains'[c], bk[c])
    ensures bk[..] == old(bk[..])[b := Bucket(add, old(bk[b].count) + 1, mult)]
  {
    hide ToBkt;
    ghost var chain := chains[b];
    var bucket := bk[b];
    ghost var first := bucket.hhHead;
    HeadInChain(chain, bucket);
    Apart(ord, chains, n, b);
    bucket := PushFront(chain, bucket, add);
    forall c | 0 <= c < |chains| && c != b ensures ChainOk(chains[c], bk[c]) {
      assert add !in chains[c] && first !in chains[c];
      assert old(ChainOk(chains[c], bk[c]));
      assert forall x: Entry :: x in chains[c] ==> x.hhPrev == old(x.hhPrev) && x.hhNext == old(x.hhNext);
    }
    bk[b] := bucket.(expandMult := mult);
    chains' := chains[b := [add] + chain];
  }

  /** Take an element out of its chain; the other chains stay as they are. */
  method TakeFrom(bk: array<Bucket>, ghost chains: seq<seq<Entry>>, ghost ord: seq<Entry>, ghost n: nat, b: nat,
                  ghost j: nat, del: Entry)
    returns (ghost chains': seq<seq<Entry>>)
    requires n > 0 && BktsOk(bk[..], chains, ord, n) && b < bk.Length && j < |chains[b]| && chains[b][j] == del
    modifies bk, Elems(ord)`hhPrev, Elems(ord)`hhNext
    ensures chains' == chains[b := Without(chains[b], j)]
    ensures forall c :: 0 <= c < |chains'| ==> ChainOk(chains'[c], bk[c])
  {
    hide ToBkt;
    hide Distinct;
    hide At;
    hide Without;
    ghost var chain := chains[b];
    Apart(ord, chains, n, b);
    var bucket := UnlinkBucket(chain, j, bk[b], del);
    forall c | 0 <= c < |chains| && c != b ensures ChainOk(chains[c], bk[c]) {
      assert old(ChainOk(chains[c], bk[c]));
      assert forall x: Entry :: x in chains[c] ==> x.hhPrev == old(x.hhPrev) && x.hhNext == old(x.hhNext);
    }
    bk[b] := bucket;
    chains' := chains[b := Without(chain, j)];
  }

  /** The same, together with the filing. */
  method RemoveFrom(bk: array<Bucket>, ghost chains: seq<seq<Entry>>, ghost ord: seq<Entry>, ghost n: nat,
                    ghost k: nat, b: nat, ghost j: nat, del: Entry)
    returns (ghost chains': seq<seq<Entry>>)
    requires n > 0 && BktsOk(bk[..], chains, ord, n) && Distinct(ord) && k < |ord| && ord[k] == del
    requires b < bk.Length && j < |chains[b]| && chains[b][j] == del
    modifies bk, Elems(ord)`hhPrev, Elems(ord)`hhNext
    ensures BktsOk(bk[..], chains', Without(ord, k), n)
  {
    hide ToBkt;
    hide Distinct;
    hide At;
    hide Without;
    assert Distinct(chains[b]);
    chains' := TakeFrom(bk, chains, ord, n, b, j, del);
    FiledRemove(ord, chains, n, k, b, j);
  }

  lemma {:induction false} FiledRemove(ord: seq<Entry>, chains: seq<seq<Entry>>, n: nat, k: nat, b: nat, j: nat)
    requires n > 0 && Filed(ord, chains, n) && k < |ord| && Distinct(ord)
    requires b < |chains| && j < |chains[b]| && chains[b][j] == ord[k] && Distinct(chains[b])
    ensures Filed(Without(ord, k), chains[b := Without(chains[b], j)], n)
  {
    hide ToBkt;
    DistinctWithout(ord, k);
    DistinctWithout(chains[b], j);
  }

  // ---------- Bucket expansion ----------

  /** expand_mult of a chain of the given length. */
  function Mult(len: nat, ideal: nat): nat
    requires ideal > 0
  {
    if len > ideal then len / ideal else 0
  }

  /** How many elements stand beyond the ideal length of their chain. */
  ghost function Excess(chains: seq<seq<Entry>>, ideal: nat): nat {
    if chains == [] then 0
    else (if |chains[0]| > ideal then |chains[0]| - ideal else 0) + Excess(chains[1..], ideal)
  }

  lemma {:induction false} ExcessGrow(chains: seq<seq<Entry>>, ideal: nat, b: nat, longer: seq<Entry>)
    requires b < |chains| && |longer| == |chains[b]| + 1
    ensures Excess(chains[b := longer], ideal) == Excess(chains, ideal) + if |longer| > ideal then 1 else 0
    decreases b
  {
    if b > 0 {
      ExcessGrow(chains[1..], ideal, b - 1, longer);
      assert chains[b := longer][1..] == chains[1..][b - 1 := longer];
    } else {
      assert chains[b := longer][1..] == chains[1..];
    }
  }

  lemma {:induction false} ExcessEmpty(chains: seq<seq<Entry>>, ideal: nat)
    requires forall b :: 0 <= b < |chains| ==> chains[b] == []
    ensures Excess(chains, ideal) == 0
    decreases |chains|
  {
    if chains != [] { ExcessEmpty(chains[1..], ideal); }
  }

  /** The statistics uthash keeps about a bucket array. */
  ghost predicate StatsOk(bk: seq<Bucket>, chains: seq<seq<Entry>>, ideal: nat, nonideal: nat) {
    && ideal > 0 && |bk| == |chains| && nonideal == Excess(chains, ideal)
    && forall b :: 0 <= b < |chains| ==> bk[b].count == |chains[b]| && bk[b].expandMult == Mult(|chains[b]|, ideal)
  }

  /** One element of the inner loop of HASH_EXPAND_BUCKETS. */
  method Rehash(bk: array<Bucket>, ghost chains: seq<seq<Entry>>, ghost moved: seq<Entry>, n: nat, ideal: nat,
                nonideal: nat, thh: Entry)
    returns (nonideal': nat, ghost chains': seq<seq<Entry>>)
    requires n > 0 && BktsOk(bk[..], chains, moved, n) && StatsOk(bk[..], chains, ideal, nonideal)
    requires thh !in moved && ToBkt(thh.hashv, n) < n
    modifies bk, Elems(moved)`hhPrev, thh`hhPrev, thh`hhNext
    ensures BktsOk(bk[..], chains', moved + [thh], n) && StatsOk(bk[..], chains', ideal, nonideal')
  {
    hide ToBkt;
    hide Excess;
    BktsShape(bk[..], chains, moved, n);
    var b := ToBkt(thh.hashv, n);
    var count, mult := bk[b].count + 1, bk[b].expandMult;
    nonideal' := nonideal;
    if count > ideal {
      nonideal' := nonideal + 1;
      mult := count / ideal;
    }
    assert bk[..][b] == bk[b];
    ExcessGrow(chains, ideal, b, [thh] + chains[b]);
    chains' := LinkInto(bk, chains, moved, n, b, mult, thh);
  }

  lemma {:induction false} SnocSlice(a: seq<Entry>, s: seq<Entry>, k: nat)
    requires k < |s|
    ensures (a + s[..k]) + [s[k]] == a + s[..k + 1]
  {
  }

  /** The inner loop: empty one old chain, front first, into the new buckets. */
  method DrainChain(ghost chain: seq<Entry>, hhHead: Entry?, bk: array<Bucket>, ghost chains: seq<seq<Entry>>,
                    ghost moved: seq<Entry>, n: nat, ideal: nat, nonideal: nat)
    returns (nonideal': nat, ghost chains': seq<seq<Entry>>)
    requires n > 0 && BktsOk(bk[..], chains, moved, n) && StatsOk(bk[..], chains, ideal, nonideal)
    requires Distinct(chain) && HashLinked(chain) && hhHead == At(chain, 0)
    requires forall x :: x in chain ==> x !in moved
    requires forall x: Entry :: x in chain ==> ToBkt(x.hashv, n) < n
    modifies bk, Elems(moved)`hhPrev, Elems(chain)`hhPrev, Elems(chain)`hhNext
    ensures BktsOk(bk[..], chains', moved + chain, n) && StatsOk(bk[..], chains', ideal, nonideal')
  {
    hide ToBkt;
    hide StatsOk;
    hide BktsOk;
    nonideal', chains' := nonideal, chains;
    var thh := hhHead;
    ghost var k: nat, done: seq<Entry> := 0, moved;
    while thh != null
      invariant 0 <= k <= |chain| && thh == At(chain, k)
      invariant forall m :: k <= m < |chain| ==> chain[m] !in done && chain[m].hhNext == At(chain, m + 1)
      invariant done == moved + chain[..k]
      invariant BktsOk(bk[..], chains', done, n) && StatsOk(bk[..], chains', ideal, nonideal')
      decreases |chain| - k
    {
      assert thh.hhNext == At(chain, k + 1);
      SnocSlice(moved, chain, k);
      var nxt := thh.hhNext;
      nonideal', chains' := Rehash(bk, chains', done, n, ideal, nonideal', thh);
      done, k, thh := done + [thh], k + 1, nxt;
    }
    assert chain[..k] == chain;
  }

  /** Emptying one chain leaves the later ones linked. */
  method DrainKeeping(ghost ob: seq<Bucket>, ghost oc: seq<seq<Entry>>, ghost i: nat, hhHead: Entry?, bk: array<Bucket>,
                      ghost chains: seq<seq<Entry>>, ghost moved: seq<Entry>, n: nat, ideal: nat, nonideal: nat)
    returns (nonideal': nat, ghost chains': seq<seq<Entry>>)
    requires n > 0 && BktsOk(bk[..], chains, moved, n) && StatsOk(bk[..], chains, ideal, nonideal)
    requires i < |oc| == |ob| && hhHead == ob[i].hhHead
    requires forall c :: i <= c < |oc| ==> ChainOk(oc[c], ob[c])
    requires forall x :: x in oc[i] ==> x !in moved
    requires forall c, x :: i < c < |oc| && x in oc[c] ==> x !in moved && x !in oc[i]
    requires forall x: Entry :: x in oc[i] ==> ToBkt(x.hashv, n) < n
    modifies bk, Elems(moved)`hhPrev, Elems(oc[i])`hhPrev, Elems(oc[i])`hhNext
    ensures BktsOk(bk[..], chains', moved + oc[i], n) && StatsOk(bk[..], chains', ideal, nonideal')
    ensures forall c :: i < c < |oc| ==> ChainOk(oc[c], ob[c])
  {
    hide ToBkt;
    hide StatsOk;
    nonideal', chains' := DrainChain(oc[i], hhHead, bk, chains, moved, n, ideal, nonideal);
    forall c | i < c < |oc| ensures ChainOk(oc[c], ob[c]) {
      assert old(ChainOk(oc[c], ob[c]));
      assert forall x: Entry :: x in oc[c] ==> x.hhPrev == old(x.hhPrev) && x.hhNext == old(x.hhNext);
    }
  }

  /** Only the elements of the first i old buckets have been moved. */
  ghost predicate MovedUpTo(ord: seq<Entry>, moved: seq<Entry>, n: nat, i: nat)
    requires n > 0
    reads Elems(ord)`hashv
  {
    && (forall x :: x in moved ==> x in ord)
    && (forall x :: x in ord ==> (x in moved <==> ToBkt(x.hashv, n) < i))
  }

  lemma {:induction false} MoveChain(ord: seq<Entry>, chains: seq<seq<Entry>>, moved: seq<Entry>, n: nat, i: nat)
    requires n > 0 && i < |chains| == n && Filed(ord, chains, n) && MovedUpTo(ord, moved, n, i)
    ensures MovedUpTo(ord, moved + chains[i], n, i + 1)
    ensures forall x :: x in chains[i] ==> x !in moved
    ensures forall c, x :: i < c < |chains| && x in chains[c] ==> x !in moved && x !in chains[i]
  {
    hide ToBkt;
  }

  lemma {:induction false} BktsSame(bk: seq<Bucket>, chains: seq<seq<Entry>>, a: seq<Entry>, b: seq<Entry>, n: nat)
    requires n > 0 && BktsOk(bk, chains, a, n)
    requires forall x :: x in a <==> x in b
    ensures BktsOk(bk, chains, b, n)
  {
    hide ToBkt;
    hide ChainOk;
  }

  /** The average chain length, rounded up. */
  function Ceil(a: nat, p: nat): nat
    requires p > 0
  {
    (a + p - 1) / p
  }

  /** ideal_chain_maxlen, computed with a shift and a mask. */
  function Ideal(items: nat, log2: nat): nat {
    Shr(items, log2) + if And(items, Pow2(log2) - 1) != 0 then 1 else 0
  }

  lemma {:induction false} IdealIsCeil(items: nat, log2: nat)
    requires items > 0
    ensures 0 < Ideal(items, log2) == Ceil(items, Pow2(log2))
  {
    ShrIsDiv(items, log2);
    MaskIsMod(items, log2);
    CeilDiv(items, Pow2(log2));
  }

  lemma {:induction false} CeilDiv(a: nat, p: nat)
    requires a > 0 && p > 0
    ensures var c := a / p + if a % p != 0 then 1 else 0; 0 < c == Ceil(a, p)
  {
    var q, r := a / p, a % p;
    assert a == p * q + r;
    if r == 0 {
      DivModUnique(a + p - 1, p, q, p - 1);
    } else {
      assert p * (q + 1) == p * q + p;
      DivModUnique(a + p - 1, p, q + 1, r - 1);
    }
  }

  // ---------- HASH_FSCK ----------

  /** The elements of the first b chains, counted. */
  ghost function Lengths(chains: seq<seq<Entry>>, b: nat): nat
    requires b <= |chains|
  {
    if b == 0 then 0 else Lengths(chains, b - 1) + |chains[b - 1]|
  }

  /** The counts of the first b buckets, added up. */
  function Counts(bk: seq<Bucket>, b: nat): nat
    requires b <= |bk|
  {
    if b == 0 then 0 else Counts(bk, b - 1) + bk[b - 1].count
  }

  lemma {:induction false} CountsAreLengths(bk: seq<Bucket>, chains: seq<seq<Entry>>, b: nat)
    requires b <= |bk| == |chains| && forall c :: 0 <= c < |bk| ==> bk[c].count == |chains[c]|
    ensures Counts(bk, b) == Lengths(chains, b)
    decreases b
  {
    if b > 0 { CountsAreLengths(bk, chains, b - 1); }
  }

  lemma {:induction false} DistinctCount(s: seq<Entry>)
    requires Distinct(s)
    ensures |Elems(s)| == |s|
  {
    if s != [] {
      var k := |s| - 1;
      DistinctCount(s[..k]);
      assert s == s[..k] + [s[k]];
      assert Elems(s) == Elems(s[..k]) + {s[k]};
    }
  }

  /** The elements of the first b buckets. */
  ghost function FiledBelow(ord: seq<Entry>, n: nat, b: nat): set<Entry>
    requires n > 0
    reads Elems(ord)`hashv
  {
    set x | x in ord && ToBkt(x.hashv, n) < b
  }

  lemma {:induction false} BelowCount(ord: seq<Entry>, chains: seq<seq<Entry>>, n: nat, b: nat)
    requires n > 0 && Filed(ord, chains, n) && b <= |chains| && forall c :: 0 <= c < |chains| ==> Distinct(chains[c])
    ensures |FiledBelow(ord, n, b)| == Lengths(chains, b)
    decreases b
  {
    hide ToBkt;
    hide Distinct;
    if b > 0 {
      BelowCount(ord, chains, n, b - 1);
      var last := Elems(chains[b - 1]);
      DistinctCount(chains[b - 1]);
      assert FiledBelow(ord, n, b) == FiledBelow(ord, n, b - 1) + last;
      assert FiledBelow(ord, n, b - 1) !! last;
    } else {
      NoBucketBelow(ord, n);
    }
  }

  lemma {:induction false} NoBucketBelow(ord: seq<Entry>, n: nat)
    requires n > 0
    ensures FiledBelow(ord, n, 0) == {}
  {
  }

  /** The chains hold as many elements as the application order. */
  lemma {:induction false} ChainsAddUp(ord: seq<Entry>, chains: seq<seq<Entry>>, n: nat)
    requires n > 0 && Distinct(ord) && Filed(ord, chains, n) && forall c :: 0 <= c < |chains| ==> Distinct(chains[c])
    ensures Lengths(chains, |chains|) == |ord|
  {
    hide ToBkt;
    BelowCount(ord, chains, n, |chains|);
    DistinctCount(ord);
    assert FiledBelow(ord, n, |chains|) == Elems(ord);
  }

  /** One bucket: its links, and its count. */
  method WalkChain(ghost chain: seq<Entry>, b: Bucket) returns (good: bool, n: nat)
    requires ChainOk(chain, b)
    ensures good && n == |chain|
  {
    hide Distinct;
    var thh, prev := b.hhHead, null;
    good, n := true, 0;
    while thh != null
      invariant n <= |chain| && thh == At(chain, n) && prev == At(chain, n - 1) && good
      decreases |chain| - n
    {
      good := good && prev == thh.hhPrev;
      n, prev := n + 1, thh;
      thh := thh.hhNext;
    }
    good := good && b.count == n;
  }

  /** The application order: its links. */
  method WalkOrder(ghost ord: seq<Entry>, head: Entry?) returns (good: bool, n: nat)
    requires AppLinked(ord) && head == At(ord, 0)
    ensures good && n == |ord|
  {
    var thh, prev := head, null;
    good, n := true, 0;
    while thh != null
      invariant n <= |ord| && thh == At(ord, n) && prev == At(ord, n - 1) && good
      decreases |ord| - n
    {
      good := good && prev == thh.prev;
      n, prev := n + 1, thh;
      thh := thh.next;
    }
  }

  class Table {
    const hash: seq<byte> -> nat
    var head: Entry?
    var tail: Entry?
    var buckets: array<Bucket>
    var log2: nat
    var numItems: nat
    var idealChainMax: nat
    var nonidealItems: nat
    var ineffExpands: nat
    var noexpand: bool
    /** The application order. */
    ghost var order: seq<Entry>
    /** The bucket chains, front first. */
    ghost var chains: seq<seq<Entry>>

    constructor (hash: seq<byte> -> nat)
      ensures Valid() && order == [] && this.hash == hash && fresh(buckets)
    {
      this.hash := hash;
      head, tail, order, chains := null, null, [], [];
      buckets := new Bucket[0];
      log2, numItems, idealChainMax, nonidealItems, ineffExpands, noexpand := 0, 0, 0, 0, 0, false;
    }

    ghost predicate AppOk(ord: seq<Entry>)
      reads `head, `tail, Elems(ord)`prev, Elems(ord)`next
    {
      Distinct(ord) && AppLinked(ord) && head == At(ord, 0) && tail == At(ord, |ord| - 1)
    }

    /** The bucket structure holds exactly the elements of ord. */
    ghost predicate ChainsOk(ord: seq<Entry>)
      reads `buckets, `chains, `log2, buckets, Elems(ord)`hashv, Elems(ord)`hhPrev, Elems(ord)`hhNext
    {
      BktsOk(buckets[..], chains, ord, Pow2(log2))
    }

    ghost predicate Hashed(ord: seq<Entry>)
      reads Elems(ord)`hashv, Elems(ord)`key
    {
      forall x :: x in ord ==> x.hashv == hash(x.key)
    }

    /** HASH_FSCK, and the place of every element. An empty table has no buckets:
        it is rebuilt by the next addition. */
    ghost predicate Valid()
      reads this, buckets, Elems(order)`key, Elems(order)`hashv
      reads Elems(order)`prev, Elems(order)`next, Elems(order)`hhPrev, Elems(order)`hhNext
    {
      AppOk(order) && Hashed(order) && (order != [] ==> ChainsOk(order) && numItems == |order|)
    }

    /** The bucket counts add up to the number of items. */
    lemma {:induction false} CountsAddUp()
      requires Valid() && order != []
      ensures Counts(buckets[..], buckets.Length) == numItems
    {
      hide ToBkt;
      hide Pow2;
      hide Distinct;
      ChainsAddUp(order, chains, Pow2(log2));
      CountsAreLengths(buckets[..], chains, buckets.Length);
    }

    /** HASH_FSCK: walks every chain and the application order, and compares links and
        counts. In a valid table it finds nothing wrong. */
    method Fsck() returns (ok: bool)
      requires Valid()
      ensures ok
    {
      hide ToBkt;
      hide Pow2;
      hide Distinct;
      ok := true;
      if head == null { return; }
      assert order != [];
      ChainsAddUp(order, chains, Pow2(log2));
      var count := 0;
      for i := 0 to buckets.Length
        invariant ok && count == Lengths(chains, i)
      {
        assert buckets[..][i] == buckets[i];
        var good, n := WalkChain(chains[i], buckets[i]);
        ok := ok && good;
        count := count + n;
      }
      ok := ok && count == numItems;
      var good, n := WalkOrder(order, head);
      ok := ok && good && n == numItems;
    }

    /** HASH_FIND: the element a scan of the application order for the key would
        find, given that no two elements share it. */
    method Find(key: seq<byte>) returns (out: Entry?)
      requires Valid()
      ensures out == null <==> (forall x :: x in order ==> x.key != key)
      ensures out != null ==> out in order && out.key == key
    {
      hide ChainOk;
      hide ToBkt;
      hide Pow2;
      out := null;
      if head != null {
        assert order != [];
        var hashv := hash(key);
        BktIsMod(hashv, log2);
        var b := ToBkt(hashv, buckets.Length);
        assert buckets[..][b] == buckets[b];
        out := FindInBkt(chains[b], buckets[b], hashv, key);
        if out == null {
          forall x | x in order ensures x.key != key {
            assert x.hashv == hash(x.key) && x in chains[ToBkt(x.hashv, Pow2(log2))];
          }
        }
      }
    }

    /** The logarithm of the number of buckets, how many expansions in a row were of no use,
        and whether there will be no more. */
    ghost function Growth(): (nat, nat, bool)
      reads this
    {
      (log2, ineffExpands, noexpand)
    }

    /** HASH_ADD_TO_BKT up to the expansion test. */
    method FileIn(ghost ord: seq<Entry>, add: Entry) returns (full: bool)
      requires ChainsOk(ord) && add !in ord
      modifies buckets, `chains, Elems(ord)`hhPrev, add`hhPrev, add`hhNext
      ensures ChainsOk(ord + [add])
      ensures full <==> Overfull(old(buckets[..]), add.hashv, noexpand)
    {
      hide ToBkt;
      hide Pow2;
      BktIsMod(add.hashv, log2);
      BktsShape(buckets[..], chains, ord, Pow2(log2));
      var b := ToBkt(add.hashv, buckets.Length);
      chains := LinkInto(buckets, chains, ord, Pow2(log2), b, buckets[b].expandMult, add);
      full := buckets[b].count >= (buckets[b].expandMult + 1) * BKT_THRESHOLD && !noexpand;
    }

    /** What the outer loop of HASH_EXPAND_BUCKETS keeps after i old buckets. */
    ghost predicate Moving(ord: seq<Entry>, nb: seq<Bucket>, nc: seq<seq<Entry>>, moved: seq<Entry>, n: nat, i: nat)
      requires n > 0
      reads this, buckets, Elems(ord)`hashv, Elems(ord)`hhPrev, Elems(ord)`hhNext
    {
      && buckets.Length == n && |chains| == n && i <= n && |nb| > 0
      && Filed(ord, chains, n) && MovedUpTo(ord, moved, n, i)
      && BktsOk(nb, nc, moved, |nb|)
      && (forall c :: i <= c < n ==> ChainOk(chains[c], buckets[c]))
    }

    /** One turn of the outer loop of HASH_EXPAND_BUCKETS. */
    method MoveBucket(ghost ord: seq<Entry>, nb: array<Bucket>, ghost nc: seq<seq<Entry>>, ghost moved: seq<Entry>,
                      n: nat, i: nat, ideal: nat, nonideal: nat)
      returns (nonideal': nat, ghost nc': seq<seq<Entry>>)
      requires n > 0 && i < n && nb != buckets && Moving(ord, nb[..], nc, moved, n, i)
      requires StatsOk(nb[..], nc, ideal, nonideal)
      requires forall x: Entry :: x in ord ==> ToBkt(x.hashv, nb.Length) < nb.Length
      modifies nb, Elems(ord)`hhPrev, Elems(ord)`hhNext
      ensures Moving(ord, nb[..], nc', moved + chains[i], n, i + 1) && StatsOk(nb[..], nc', ideal, nonideal')
    {
      hide ToBkt;
      hide StatsOk;
      MoveChain(ord, chains, moved, n, i);
      nonideal', nc' := DrainKeeping(buckets[..], chains, i, buckets[i].hhHead, nb, nc, moved, nb.Length, ideal,
        nonideal);
    }

    /** The loops of HASH_EXPAND_BUCKETS: refile every element in nb. */
    method Redistribute(ghost ord: seq<Entry>, nb: array<Bucket>, ideal: nat)
      returns (nonideal: nat, ghost nc: seq<seq<Entry>>)
      requires ChainsOk(ord) && ideal > 0 && nb.Length == Pow2(log2 + 1) && nb != buckets
      requires forall b :: 0 <= b < nb.Length ==> nb[b] == Bucket(null, 0, 0)
      modifies nb, Elems(ord)`hhPrev, Elems(ord)`hhNext
      ensures BktsOk(nb[..], nc, ord, nb.Length) && StatsOk(nb[..], nc, ideal, nonideal)
    {
      hide ToBkt;
      hide Pow2;
      hide StatsOk;
      hide BktsOk;
      hide Filed;
      hide MovedUpTo;
      hide ChainOk;
      var n := buckets.Length;
      ghost var moved: seq<Entry> := [];
      nonideal, nc := 0, seq(nb.Length, _ => []);
      NothingYet(nb[..], nc, ideal);
      MovingStart(ord, nb[..], nc);
      forall x | x in ord ensures ToBkt(x.hashv, nb.Length) < nb.Length { BktIsMod(x.hashv, log2 + 1); }
      for i := 0 to n
        invariant Moving(ord, nb[..], nc, moved, n, i) && StatsOk(nb[..], nc, ideal, nonideal)
      {
        nonideal, nc := MoveBucket(ord, nb, nc, moved, n, i, ideal, nonideal);
        moved := moved + chains[i];
      }
      MovingEnd(ord, nb[..], nc, moved, n);
    }

    lemma {:induction false} MovingStart(ord: seq<Entry>, nb: seq<Bucket>, nc: seq<seq<Entry>>)
      requires ChainsOk(ord) && |nb| > 0 && |nc| == |nb|
      requires forall b :: 0 <= b < |nb| ==> nb[b] == Bucket(null, 0, 0) && nc[b] == []
      ensures buckets.Length > 0 && Moving(ord, nb, nc, [], buckets.Length, 0)
    {
      hide ToBkt;
      hide Pow2;
    }

    lemma {:induction false} MovingEnd(ord: seq<Entry>, nb: seq<Bucket>, nc: seq<seq<Entry>>, moved: seq<Entry>, n: nat)
      requires n > 0 && Moving(ord, nb, nc, moved, n, n)
      ensures BktsOk(nb, nc, ord, |nb|)
    {
      hide ToBkt;
      BktsSame(nb, nc, moved, ord, |nb|);
    }

    /** Replace the bucket array. */
    method Install(ghost ord: seq<Entry>, nb: array<Bucket>, ghost nc: seq<seq<Entry>>)
      requires nb.Length == Pow2(log2 + 1) && BktsOk(nb[..], nc, ord, nb.Length)
      modifies `buckets, `chains, `log2
      ensures buckets == nb && chains == nc && log2 == old(log2) + 1 && ChainsOk(ord)
    {
      hide ToBkt;
      hide Pow2;
      log2 := log2 + 1;
      buckets := nb;
      chains := nc;
    }

    /** The new bucket array of HASH_EXPAND_BUCKETS, filled and in place. */
    method Rebuild(ghost ord: seq<Entry>) returns (ideal: nat, nonideal: nat)
      requires ChainsOk(ord) && ord != [] && numItems == |ord|
      modifies `buckets, `chains, `log2, Elems(ord)`hhPrev, Elems(ord)`hhNext
      ensures ChainsOk(ord) && fresh(buckets) && log2 == old(log2) + 1
      ensures ideal == Ceil(|ord|, Pow2(log2)) && StatsOk(buckets[..], chains, ideal, nonideal)
    {
      hide StatsOk;
      hide ToBkt;
      hide Pow2;
      hide Ideal;
      hide Ceil;
      Doubling(log2);
      BktsShape(buckets[..], chains, ord, Pow2(log2));
      var nb := new Bucket[2 * buckets.Length](_ => Bucket(null, 0, 0));
      IdealIsCeil(numItems, log2 + 1);
      ideal := Ideal(numItems, log2 + 1);
      ghost var nc;
      nonideal, nc := Redistribute(ord, nb, ideal);
      Install(ord, nb, nc);
    }

    /** HASH_EXPAND_BUCKETS: twice the buckets, the same elements, statistics that
        describe the new chains. The application order is not touched. */
    method Expand(ghost ord: seq<Entry>)
      requires ChainsOk(ord) && ord != [] && numItems == |ord|
      modifies `buckets, `chains, `log2, `idealChainMax, `nonidealItems, `ineffExpands, `noexpand
      modifies Elems(ord)`hhPrev, Elems(ord)`hhNext
      ensures ChainsOk(ord) && fresh(buckets) && log2 == old(log2) + 1
      ensures idealChainMax == Ceil(|ord|, Pow2(log2))
      ensures StatsOk(buckets[..], chains, idealChainMax, nonidealItems)
      ensures ineffExpands == if nonidealItems > |ord| / 2 then old(ineffExpands) + 1 else 0
      ensures noexpand <==> old(noexpand) || ineffExpands > 1
    {
      hide StatsOk;
      hide ToBkt;
      hide Pow2;
      hide Ceil;
      hide BktsOk;
      idealChainMax, nonidealItems := Rebuild(ord);
      ineffExpands := if nonidealItems > numItems / 2 then ineffExpands + 1 else 0;
      if ineffExpands > 1 { noexpand := true; }
    }

    /** HASH_MAKE_TABLE */
    method MakeTable()
      modifies this`buckets, this`chains, this`log2, this`numItems
      modifies this`idealChainMax, this`nonidealItems, this`ineffExpands, this`noexpand
      ensures ChainsOk([]) && fresh(buckets) && numItems == 0 && Growth() == (5, 0, false)
      ensures buckets[..] == seq(32, _ => Bucket(null, 0, 0))
    {
      assert Pow2(5) == 32;
      buckets := new Bucket[32](_ => Bucket(null, 0, 0));
      log2, numItems := INITIAL_LOG2, 0;
      idealChainMax, nonidealItems, ineffExpands, noexpand := 0, 0, 0, false;
      chains := seq(32, _ => []);
    }

    /** HASH_ADD_TO_BKT, with the expansion a full bucket triggers. */
    method AddToBkt(ghost ord: seq<Entry>, add: Entry)
      requires ChainsOk(ord) && add !in ord && numItems == |ord| + 1
      modifies buckets, `buckets, `chains, `log2, `idealChainMax, `nonidealItems, `ineffExpands, `noexpand
      modifies Elems(ord)`hhPrev, Elems(ord)`hhNext, add`hhPrev, add`hhNext
      ensures ChainsOk(ord + [add]) && (buckets == old(buckets) || fresh(buckets))
      ensures Grown(old(Overfull(buckets[..], add.hashv, noexpand)), old(Growth()), Growth())
    {
      hide BktsOk;
      hide Overfull;
      var full := FileIn(ord, add);
      if full { Expand(ord + [add]); }
    }

    /** The application-order half of HASH_ADD_KEYPTR_BYHASHVALUE. */
    method AppendApp(add: Entry)
      requires AppOk(order) && add !in order
      modifies `head, `tail, `order, Elems(order)`next, add`prev, add`next
      ensures AppOk(order) && order == old(order) + [add]
    {
      if head == null {
        add.next, add.prev := null, null;
        head := add;
      } else {
        AppendList(order, tail, add);
      }
      tail := add;
      order := order + [add];
    }

    /** Count a new element, in a new table if there was none. */
    method CountItem(first: bool, ghost ord: seq<Entry>, ghost all: seq<Entry>)
      requires AppOk(all) && Hashed(all)
      requires if first then ord == [] else ChainsOk(ord) && numItems == |ord|
      modifies `buckets, `chains, `log2, `numItems, `idealChainMax, `nonidealItems, `ineffExpands, `noexpand
      ensures if first then Growth() == (5, 0, false) && buckets[..] == seq(32, _ => Bucket(null, 0, 0))
              else Growth() == old(Growth()) && buckets == old(buckets) && buckets[..] == old(buckets[..])
      ensures AppOk(all) && Hashed(all)
      ensures ChainsOk(ord) && numItems == |ord| + 1 && (buckets == old(buckets) || fresh(buckets))
    {
      hide BktsOk;
      hide Distinct;
      hide At;
      if first { MakeTable(); }
      numItems := numItems + 1;
    }

    /** HASH_ADD_KEYPTR up to the bucket. */
    method Enlist(add: Entry)
      requires Valid() && add !in order
      modifies this, Elems(order)`next, add`hashv, add`prev, add`next
      ensures order == old(order) + [add] && AppOk(order) && Hashed(order)
      ensures ChainsOk(old(order)) && numItems == |order| && add.hashv == hash(add.key)
      ensures buckets == old(buckets) || fresh(buckets)
      ensures if old(order) == [] then Growth() == (5, 0, false) && buckets[..] == seq(32, _ => Bucket(null, 0, 0))
              else Growth() == old(Growth()) && buckets[..] == old(buckets[..])
    {
      hide BktsOk;
      hide Distinct;
      hide AppLinked;
      ghost var ord := order;
      var first := head == null;
      assert first <==> ord == [];
      hide At;
      add.hashv := hash(add.key);
      AppendApp(add);
      CountItem(first, ord, order);
    }

    /** HASH_ADD_KEYPTR: the element goes to the end of the application order. */
    method Add(add: Entry)
      requires Valid() && add !in order
      modifies this, buckets, Elems(order)`prev, Elems(order)`next, Elems(order)`hhPrev, Elems(order)`hhNext
      modifies add`hashv, add`prev, add`next, add`hhPrev, add`hhNext
      ensures Valid() && order == old(order) + [add]
      ensures buckets == old(buckets) || fresh(buckets)
      ensures if old(order) == [] then Growth() == (5, 0, false)
              else Grown(Overfull(old(buckets[..]), hash(add.key), old(noexpand)), old(Growth()), Growth())
    {
      ghost var ord := order;
      hide BktsOk;
      hide Distinct;
      hide At;
      Enlist(add);
      if ord == [] { NewNotFull(add.hashv, noexpand); }
      AddToBkt(ord, add);
    }

    /** The bucket half of HASH_DELETE. */
    method Unfile(ghost ord: seq<Entry>, ghost k: nat, del: Entry)
      requires ChainsOk(ord) && Distinct(ord) && k < |ord| && ord[k] == del
      modifies buckets, `chains, Elems(ord)`hhPrev, Elems(ord)`hhNext
      ensures ChainsOk(Without(ord, k))
    {
      hide ToBkt;
      hide Pow2;
      hide Without;
      BktIsMod(del.hashv, log2);
      BktsShape(buckets[..], chains, ord, Pow2(log2));
      var b := ToBkt(del.hashv, buckets.Length);
      ghost var j :| 0 <= j < |chains[b]| && chains[b][j] == del;
      chains := RemoveFrom(buckets, chains, ord, Pow2(log2), k, b, j, del);
    }

    /** The application-order half of HASH_DELETE. */
    method UnlinkApp(ghost k: nat, del: Entry)
      requires AppOk(order) && Hashed(order) && k < |order| && order[k] == del
      modifies `head, `tail, `order, Elems(order)`prev, Elems(order)`next
      ensures AppOk(order) && Hashed(order) && order == Without(old(order), k)
    {
      hide AppLinked;
      DistinctWithout(order, k);
      head, tail := UnlinkList(order, k, head, tail, del);
      order := Without(order, k);
    }

    /** An element without neighbours is the only one. */
    lemma OnlyOne(k: nat)
      requires AppOk(order) && k < |order|
      ensures order[k].prev == null && order[k].next == null <==> |order| == 1
    {
    }

    /** HASH_DELETE when other elements remain. */
    method DeleteOne(ghost k: nat, del: Entry)
      requires Valid() && k < |order| && order[k] == del && |order| > 1
      modifies `head, `tail, `order, `numItems, `chains, buckets
      modifies Elems(order)`prev, Elems(order)`next, Elems(order)`hhPrev, Elems(order)`hhNext
      ensures Valid() && order == Without(old(order), k)
    {
      hide BktsOk;
      hide Distinct;
      hide At;
      ghost var ord := order;
      assert Distinct(ord);
      UnlinkApp(k, del);
      numItems := numItems - 1;
      Unfile(ord, k, del);
    }

    /** HASH_DELETE: the element leaves the application order and its chain; the
        last one takes the table with it. */
    method Delete(del: Entry) returns (ghost k: nat)
      requires Valid() && del in order
      modifies `head, `tail, `order, `numItems, `chains, buckets
      modifies Elems(order)`prev, Elems(order)`next, Elems(order)`hhPrev, Elems(order)`hhNext
      ensures k < |old(order)| && old(order)[k] == del && order == Without(old(order), k)
      ensures Valid()
    {
      hide BktsOk;
      hide AppLinked;
      k :| 0 <= k < |order| && order[k] == del;
      OnlyOne(k);
      if del.prev == null && del.next == null {
        head, tail, order := null, null, [];
        assert AppOk([]) by { EmptyLinked(); }
      } else {
        DeleteOne(k, del);
      }
    }
  }

  /** With a new element its bucket has ten elements for every multiple it is allowed, and the
      table may expand. */
  predicate Overfull(bk: seq<Bucket>, hashv: nat, noexpand: bool) {
    |bk| > 0
    && var b := ToBkt(hashv, |bk|);
    b < |bk| && bk[b].count + 1 >= 10 * (bk[b].expandMult + 1) && !noexpand
  }

  /** The buckets are doubled exactly then, and two expansions in a row of no use are the
      last. */
  ghost predicate Grown(full: bool, was: (nat, nat, bool), now: (nat, nat, bool)) {
    if full then now.0 == was.0 + 1 && (now.1 == was.1 + 1 || now.1 == 0) && (now.2 <==> was.2 || now.1 > 1)
    else now == was
  }

  lemma {:induction false} NewNotFull(hashv: nat, noexpand: bool)
    ensures !Overfull(seq(32, _ => Bucket(null, 0, 0)), hashv, noexpand)
  {
  }

  lemma {:induction false} EmptyLinked()
    ensures AppLinked([])
  {
  }

  lemma {:induction false} Doubling(k: nat)
    ensures Pow2(k + 1) == 2 * Pow2(k)
  {
  }

  lemma {:induction false} NothingYet(bk: seq<Bucket>, chains: seq<seq<Entry>>, ideal: nat)
    requires ideal > 0 && |bk| == |chains|
    requires forall b :: 0 <= b < |bk| ==> bk[b] == Bucket(null, 0, 0) && chains[b] == []
    ensures StatsOk(bk, chains, ideal, 0)
  {
    ExcessEmpty(chains, ideal);
  }

  lemma {:induction false} BktsShape(bk: seq<Bucket>, chains: seq<seq<Entry>>, ord: seq<Entry>, n: nat)
    requires n > 0 && BktsOk(bk, chains, ord, n)
    ensures |bk| == n == |chains|
  {
  }

  /** No element is in two chains. */
  lemma {:induction false} Apart(ord: seq<Entry>, chains: seq<seq<Entry>>, n: nat, b: nat)
    requires n > 0 && Filed(ord, chains, n) && b < |chains|
    ensures forall c, x :: 0 <= c < |chains| && c != b && x in chains[c] ==> x in ord && x !in chains[b]
  {
    hide ToBkt;
    forall c, x | 0 <= c < |chains| && c != b && x in chains[c] ensures x in ord && x !in chains[b] {
      assert ToBkt(x.hashv, n) == c;
    }
  }

  lemma {:induction false} HeadInChain(chain: seq<Entry>, b: Bucket)
    requires ChainOk(chain, b)
    ensures b.hhHead != null ==> b.hhHead in chain
    ensures b.count == |chain|
  {
  }

  lemma {:induction false} FiledAdd(ord: seq<Entry>, chains: seq<seq<Entry>>, n: nat, add: Entry)
    requires n > 0 && Filed(ord, chains, n) && ToBkt(add.hashv, n) < |chains|
    ensures Filed(ord + [add], chains[ToBkt(add.hashv, n) := [add] + chains[ToBkt(add.hashv, n)]], n)
  {
  }
}
