/** The replay defence of ss_decrypt: an initialisation vector is looked up in a
    cache of 256 entries and, if new, inserted. What the cache remembers is given
    in closed form over every run. */
module IvReplay {
  import opened Bytes
  import opened HashTable
  import opened LruCache
  import opened Bits
  import opened ChunkStream
  import opened StreamCipher

  type Iv = seq<byte>

  /** cache_create(&iv_cache, 256, NULL) */
  const CAPACITY: nat := 256

  /** All occurrences of x dropped. */
  function Minus(s: seq<Iv>, x: Iv): seq<Iv> {
    if s == [] then [] else (if s[0] == x then [] else [s[0]]) + Minus(s[1..], x)
  }

  /** The keys of the cache after one more vector has been presented. */
  function Present(keys: seq<Iv>, iv: Iv): seq<Iv> {
    if iv in keys then Minus(keys, iv) + [iv]
    else if |keys| + 1 >= CAPACITY then (keys + [iv])[1..]
    else keys + [iv]
  }

  /** The keys of the cache after a run. */
  function Run(ivs: seq<Iv>): seq<Iv>
    decreases |ivs|
  {
    if ivs == [] then [] else Present(Run(ivs[..|ivs| - 1]), ivs[|ivs| - 1])
  }

  /** ss_decrypt turns down a vector the cache knows. */
  predicate Rejected(ivs: seq<Iv>, iv: Iv) { iv in Run(ivs) }

  /** The distinct vectors of a run, in the order in which each was last seen. */
  function Recent(ivs: seq<Iv>): seq<Iv>
    decreases |ivs|
  {
    if ivs == [] then [] else Minus(Recent(ivs[..|ivs| - 1]), ivs[|ivs| - 1]) + [ivs[|ivs| - 1]]
  }

  /** The last n elements. */
  function LastN(s: seq<Iv>, n: nat): seq<Iv> {
    if |s| <= n then s else s[|s| - n..]
  }

  predicate NoDup(s: seq<Iv>) {
    forall i, j :: 0 <= i < j < |s| ==> s[i] != s[j]
  }

  lemma {:induction false} MinusIn(s: seq<Iv>, x: Iv)
    ensures forall y :: y in Minus(s, x) <==> y in s && y != x
    decreases |s|
  {
    if s != [] { MinusIn(s[1..], x); assert s == [s[0]] + s[1..]; }
  }

  lemma {:induction false} MinusAbsent(s: seq<Iv>, x: Iv)
    requires x !in s
    ensures Minus(s, x) == s
    decreases |s|
  {
    if s != [] { MinusAbsent(s[1..], x); }
  }

  lemma {:induction false} MinusAppend(s: seq<Iv>, t: seq<Iv>, x: Iv)
    ensures Minus(s + t, x) == Minus(s, x) + Minus(t, x)
    decreases |s|
  {
    if s == [] {
      assert s + t == t;
    } else {
      MinusAppend(s[1..], t, x);
      assert (s + t)[1..] == s[1..] + t;
      var h := if s[0] == x then [] else [s[0]];
      assert h + (Minus(s[1..], x) + Minus(t, x)) == (h + Minus(s[1..], x)) + Minus(t, x);
    }
  }

  lemma {:induction false} MinusNoDup(s: seq<Iv>, x: Iv)
    requires NoDup(s)
    ensures NoDup(Minus(s, x)) && |Minus(s, x)| == |s| - (if x in s then 1 else 0)
    decreases |s|
  {
    if s != [] {
      MinusNoDup(s[1..], x);
      MinusIn(s[1..], x);
      assert s[0] !in s[1..];
      if s[0] == x { MinusAbsent(s[1..], x); }
    }
  }

  lemma {:induction false} RecentNoDup(ivs: seq<Iv>)
    ensures NoDup(Recent(ivs)) && forall y :: y in Recent(ivs) <==> y in ivs
    decreases |ivs|
  {
    if ivs != [] {
      var init, x := ivs[..|ivs| - 1], ivs[|ivs| - 1];
      RecentNoDup(init);
      MinusNoDup(Recent(init), x);
      MinusIn(Recent(init), x);
      assert ivs == init + [x];
    }
  }

  lemma {:induction false} LastNSuffix(s: seq<Iv>, a: seq<Iv>, b: seq<Iv>, n: nat)
    requires s == a + b && (|b| == n || (a == [] && |b| <= n))
    ensures LastN(s, n) == b
  {
  }

  lemma {:induction false} PresentKnown(init: seq<Iv>, tail: seq<Iv>, x: Iv, n: nat)
    requires NoDup(tail) && x in tail && x !in init && (|tail| == n || (init == [] && |tail| <= n))
    ensures Minus(tail, x) + [x] == LastN(Minus(init + tail, x) + [x], n)
  {
    MinusAppend(init, tail, x);
    MinusAbsent(init, x);
    MinusNoDup(tail, x);
    var b := Minus(tail, x) + [x];
    LastNSuffix(init + Minus(tail, x) + [x], init, b, n);
  }

  lemma {:induction false} PresentNew(init: seq<Iv>, tail: seq<Iv>, x: Iv, n: nat)
    requires n > 0 && x !in tail && (|tail| == n || (init == [] && |tail| <= n))
    ensures LastN(Minus(init + tail, x) + [x], n) == if |tail| == n then (tail + [x])[1..] else tail + [x]
  {
    MinusAppend(init, tail, x);
    MinusAbsent(tail, x);
    var m := Minus(init, x);
    var s := m + tail + [x];
    if |tail| == n {
      LastNSuffix(s, m + [tail[0]], tail[1..] + [x], n);
    } else {
      LastNSuffix(s, [], tail + [x], n);
    }
  }

  /** One more vector, seen from the closed form. */
  lemma {:induction false} PresentRecent(r: seq<Iv>, x: Iv)
    requires NoDup(r)
    ensures Present(LastN(r, CAPACITY - 1), x) == LastN(Minus(r, x) + [x], CAPACITY - 1)
  {
    hide Minus;
    hide LastN;
    hide NoDup;
    var n, tail := CAPACITY - 1, LastN(r, CAPACITY - 1);
    LastNShape(r, n);
    var init := r[..|r| - |tail|];
    NoDupParts(init, tail, r);
    assert |tail| == n || init == [];
    if x in tail {
      PresentKnown(init, tail, x, n);
    } else {
      PresentNew(init, tail, x, n);
    }
  }

  lemma {:induction false} NoDupParts(a: seq<Iv>, b: seq<Iv>, s: seq<Iv>)
    requires NoDup(s) && s == a + b
    ensures NoDup(b) && forall x :: x in b ==> x !in a
  {
    forall i, j | 0 <= i < j < |b| ensures b[i] != b[j] { assert s[|a| + i] == b[i] && s[|a| + j] == b[j]; }
    forall x | x in b ensures x !in a {
      var j :| 0 <= j < |b| && b[j] == x;
      assert s[|a| + j] == x;
      assert forall i :: 0 <= i < |a| ==> s[i] == a[i];
    }
  }

  lemma {:induction false} LastNShape(r: seq<Iv>, n: nat)
    ensures var tail := LastN(r, n);
      |tail| <= |r| && r == r[..|r| - |tail|] + tail && (|tail| == n || (|tail| == |r| && |r| <= n))
  {
  }

  /** After every run the cache holds exactly the last 255 distinct vectors. */
  lemma {:induction false} RunIsLast255(ivs: seq<Iv>)
    ensures Run(ivs) == LastN(Recent(ivs), CAPACITY - 1)
    decreases |ivs|
  {
    if ivs != [] {
      var init := ivs[..|ivs| - 1];
      RunIsLast255(init);
      RecentNoDup(init);
      PresentRecent(Recent(init), ivs[|ivs| - 1]);
    }
  }

  // ---------- What the receiver may rely on ----------

  /** The distinct vectors in a stretch of a run. */
  ghost function Others(s: seq<Iv>): set<Iv> { set y | y in s }

  ghost predicate SameElems(s: seq<Iv>, t: seq<Iv>) {
    forall z :: z in s <==> z in t
  }

  lemma {:induction false} MinusAround(a: seq<Iv>, x: Iv, b: seq<Iv>, y: Iv)
    requires y != x
    ensures Minus(a + [x] + b, y) == Minus(a, y) + [x] + Minus(b, y)
  {
    MinusAppend(a + [x], b, y);
    MinusAppend(a, [x], y);
    MinusAbsent([x], y);
  }

  lemma {:induction false} Renewed(b: seq<Iv>, s: seq<Iv>, y: Iv)
    requires NoDup(b) && SameElems(b, s)
    ensures NoDup(Minus(b, y) + [y]) && SameElems(Minus(b, y) + [y], s + [y])
  {
    MinusNoDup(b, y);
    MinusIn(b, y);
    hide Minus;
  }

  /** In the recency order, exactly the distinct vectors seen after the last
      sight of x stand behind x. */
  lemma {:induction false} BehindX(before: seq<Iv>, x: Iv, after: seq<Iv>) returns (a: seq<Iv>, b: seq<Iv>)
    requires x !in after
    ensures Recent(before + [x] + after) == a + [x] + b && NoDup(b) && SameElems(b, after)
    decreases |after|
  {
    var all := before + [x] + after;
    if after == [] {
      assert all[..|all| - 1] == before;
      a, b := Minus(Recent(before), x), [];
    } else {
      var mid, y := after[..|after| - 1], after[|after| - 1];
      assert all[..|all| - 1] == before + [x] + mid && after == mid + [y];
      a, b := BehindX(before, x, mid);
      MinusAround(a, x, b, y);
      Renewed(b, mid, y);
      a, b := Minus(a, y), Minus(b, y) + [y];
    }
  }

  lemma {:induction false} NoDupCount(s: seq<Iv>)
    requires NoDup(s)
    ensures |Others(s)| == |s|
    decreases |s|
  {
    if s != [] {
      NoDupCount(s[1..]);
      assert Others(s) == {s[0]} + Others(s[1..]);
    }
  }

  /** A vector presented before is turned down exactly if fewer than 255 distinct
      others have been presented since it was last presented, accepted or not. */
  lemma {:induction false} ReplayWindow(before: seq<Iv>, x: Iv, after: seq<Iv>)
    requires x !in after
    ensures Rejected(before + [x] + after, x) <==> |Others(after)| < CAPACITY - 1
  {
    var all := before + [x] + after;
    RunIsLast255(all);
    RecentNoDup(all);
    var a, b := BehindX(before, x, after);
    NoDupCount(b);
    assert Others(b) == Others(after);
    var r := Recent(all);
    assert r[|a|] == x;
  }

  /** A vector never presented is accepted. */
  lemma {:induction false} FirstAccepted(ivs: seq<Iv>, x: Iv)
    requires x !in ivs
    ensures !Rejected(ivs, x)
  {
    RunIsLast255(ivs);
    RecentNoDup(ivs);
  }

  // ---------- Presented, not inserted ----------

  /** How many vectors of a run that goes on after hist are accepted, that is, inserted. */
  function Insertions(hist: seq<Iv>, ivs: seq<Iv>): nat
    decreases |ivs|
  {
    if ivs == [] then 0
    else (if Rejected(hist, ivs[0]) then 0 else 1) + Insertions(hist + [ivs[0]], ivs[1..])
  }

  /** A vector of the cipher's nonce length for each number: the number and zeros. */
  function Vector(len: nat, k: nat): (v: Iv)
    requires len > 0 && k < 256
    ensures |v| == len && v[0] == k
  {
    [k] + seq(len - 1, _ => 0)
  }

  /** The vectors numbered from i to j - 1. */
  function Vectors(len: nat, i: nat, j: nat): (vs: seq<Iv>)
    requires len > 0 && i <= j <= 256
    ensures |vs| == j - i && forall k :: 0 <= k < j - i ==> vs[k] == Vector(len, i + k)
  {
    seq(j - i, k requires 0 <= k < j - i => Vector(len, i + k))
  }

  lemma {:induction false} OthersOf(len: nat, i: nat, j: nat)
    requires len > 0 && i <= j <= 256
    ensures |Others(Vectors(len, i, j))| == j - i && NoDup(Vectors(len, i, j))
  {
    var vs := Vectors(len, i, j);
    forall a, b | 0 <= a < b < |vs| ensures vs[a] != vs[b] { assert vs[a][0] < vs[b][0]; }
    NoDupCount(vs);
  }

  /** Having presented 254 vectors and another one, and the first k of them again, the
      next of them is still known. */
  lemma {:induction false} StillKnown(len: nat, k: nat)
    requires len > 0 && k < 254
    ensures Rejected(Vectors(len, 0, 255) + Vectors(len, 0, k), Vector(len, k))
  {
    hide Run;
    var before, after := Vectors(len, 0, k), Vectors(len, k + 1, 255) + Vectors(len, 0, k);
    assert Vectors(len, 0, 255) + Vectors(len, 0, k) == before + [Vector(len, k)] + after;
    forall m | 0 <= m < |after| ensures after[m] != Vector(len, k) { assert after[m][0] != k; }
    var all := Vectors(len, 0, 255);
    OthersOf(len, 0, 255);
    assert all[k] == Vector(len, k);
    forall m | 0 <= m < |after| ensures after[m] in all {
      assert after[m] == all[if m < 254 - k then k + 1 + m else m - (254 - k)];
    }
    OthersWithin(after, all, Vector(len, k));
    ReplayWindow(before, Vector(len, k), after);
  }

  lemma {:induction false} OthersWithin(after: seq<Iv>, all: seq<Iv>, x: Iv)
    requires (forall m :: 0 <= m < |after| ==> after[m] in all) && x in all && x !in after
    ensures |Others(after)| < |Others(all)|
  {
    forall y | y in Others(after) ensures y in Others(all) {}
    assert x in Others(all) && x !in Others(after);
    Smaller(Others(after), Others(all), x);
  }

  lemma {:induction false} Smaller(a: set<Iv>, b: set<Iv>, x: Iv)
    requires a <= b && x in b && x !in a
    ensures |a| < |b|
  {
    var c := b - {x};
    assert a <= c;
    SubsetSize(a, c);
  }

  lemma {:induction false} SubsetSize(a: set<Iv>, c: set<Iv>)
    requires a <= c
    ensures |a| <= |c|
  {
    assert c == a + (c - a);
  }

  lemma {:induction false} NoneInserted(len: nat, k: nat)
    requires len > 0 && k <= 254
    ensures Insertions(Vectors(len, 0, 255) + Vectors(len, 0, k), Vectors(len, k, 254) + [Vector(len, 255)]) == 1
    decreases 254 - k
  {
    hide Run;
    var hist, ivs := Vectors(len, 0, 255) + Vectors(len, 0, k), Vectors(len, k, 254) + [Vector(len, 255)];
    if k < 254 {
      StillKnown(len, k);
      assert ivs[0] == Vector(len, k) && ivs[1..] == Vectors(len, k + 1, 254) + [Vector(len, 255)];
      assert hist + [ivs[0]] == Vectors(len, 0, 255) + Vectors(len, 0, k + 1);
      NoneInserted(len, k + 1);
    } else {
      assert ivs == [Vector(len, 255)] && ivs[1..] == [];
      forall m | 0 <= m < |hist| ensures hist[m] != Vector(len, 255) { assert hist[m][0] < 255; }
      FirstAccepted(hist, Vector(len, 255));
    }
  }

  /** Counting insertions would be wrong, whatever the length of the nonce: here x is
      accepted again although a single vector was inserted since it was presented. 254
      others came before it and again after it, and were turned down; then came a new
      one. */
  lemma {:induction false} InsertionsDoNotCount(len: nat)
    requires len > 0
    ensures var x, before, after := Vector(len, 254), Vectors(len, 0, 254), Vectors(len, 0, 254) + [Vector(len, 255)];
            && Insertions(before + [x], after) == 1 && x !in after
            && !Rejected(before + [x] + after, x)
  {
    hide Run;
    hide Insertions;
    var x, before, after := Vector(len, 254), Vectors(len, 0, 254), Vectors(len, 0, 254) + [Vector(len, 255)];
    assert before + [x] == Vectors(len, 0, 255) == Vectors(len, 0, 255) + Vectors(len, 0, 0);
    NoneInserted(len, 0);
    forall m | 0 <= m < |after| ensures after[m] != x { assert after[m][0] != 254; }
    OthersOf(len, 0, 254);
    forall m | 0 <= m < 254 ensures Vectors(len, 0, 254)[m] != Vector(len, 255) {
      assert Vectors(len, 0, 254)[m][0] < 255;
    }
    assert Others(after) == Others(Vectors(len, 0, 254)) + {Vector(len, 255)};
    ReplayWindow(before, x, after);
  }

  // ---------- The code against the closed form ----------

  function KeysOf(s: seq<Cell>): (ks: seq<Iv>)
    ensures |ks| == |s|
    ensures forall i :: 0 <= i < |s| ==> ks[i] == s[i].key
  {
    seq(|s|, i requires 0 <= i < |s| => s[i].key)
  }

  lemma {:induction false} MinusAt(s: seq<Iv>, k: nat)
    requires NoDup(s) && k < |s|
    ensures Minus(s, s[k]) == s[..k] + s[k + 1..]
  {
    hide Minus;
    var a, x, b := s[..k], s[k], s[k + 1..];
    assert s == a + [x] + b;
    AroundAbsent(s, k);
    MinusAppend(a + [x], b, x);
    MinusAppend(a, [x], x);
    MinusSelf(x);
    MinusAbsent(a, x);
    MinusAbsent(b, x);
    assert a + [] == a;
  }

  lemma {:induction false} AroundAbsent(s: seq<Iv>, k: nat)
    requires NoDup(s) && k < |s|
    ensures s[k] !in s[..k] && s[k] !in s[k + 1..]
  {
  }

  lemma {:induction false} MinusSelf(x: Iv)
    ensures Minus([x], x) == []
  {
    assert [x][1..] == [];
  }

  lemma {:induction false} TouchKeys(s: seq<Cell>, k: nat, now: int)
    requires k < |s| && NoDup(KeysOf(s))
    ensures KeysOf(Touch(s, k, now)) == Present(KeysOf(s), s[k].key)
  {
    var ks := KeysOf(s);
    MinusAt(ks, k);
    assert ks[k] in ks;
    assert KeysOf(Touch(s, k, now)) == ks[..k] + ks[k + 1..] + [ks[k]];
  }

  lemma {:induction false} PresentNoDup(keys: seq<Iv>, iv: Iv)
    requires NoDup(keys)
    ensures NoDup(Present(keys, iv))
  {
    MinusNoDup(keys, iv);
    MinusIn(keys, iv);
  }

  /** The replay test of ss_decrypt: look the vector up, insert it if it is new. */
  method Admit(cache: Cache, iv: Iv, now: int) returns (accepted: bool)
    requires cache.Valid() && cache.max == CAPACITY && NoDup(KeysOf(cache.View()))
    modifies cache.table, cache.table.buckets, Elems(cache.table.order)
    ensures cache.Valid() && NoDup(KeysOf(cache.View()))
    ensures accepted <==> iv !in old(KeysOf(cache.View()))
    ensures KeysOf(cache.View()) == Present(old(KeysOf(cache.View())), iv)
  {
    hide BktsOk;
    hide AppLinked;
    hide Distinct;
    hide At;
    hide Touch;
    hide InsertCell;
    hide Present;
    hide NoDup;
    ghost var was := cache.View();
    PresentNoDup(KeysOf(was), iv);
    KeyTest(was, iv);
    hide KeysOf;
    hide HasKey;
    var found;
    ghost var k;
    found, k := cache.KeyExist(iv, now);
    if found {
      TouchKeys(was, k, now);
      return false;
    }
    var evicted := cache.Insert(iv, 0, now);
    InsertKeys(was, Cell(iv, 0, now));
    accepted := true;
  }

  /** The replay test inside ss_decrypt, made for a first buffer only. */
  method Screen(cache: Cache, ctx: Context, cipher: Buffer, now: int) returns (replayed: bool)
    requires cache.Valid() && cache.max == CAPACITY && NoDup(KeysOf(cache.View())) && MomentOk(ctx.With(cipher))
    modifies cache.table, cache.table.buckets, Elems(cache.table.order)
    ensures cache.Valid() && NoDup(KeysOf(cache.View()))
    ensures replayed <==> !ctx.init && cipher.data[..|ctx.iv|] in old(KeysOf(cache.View()))
    ensures KeysOf(cache.View()) ==
            if ctx.init then old(KeysOf(cache.View())) else Present(old(KeysOf(cache.View())), cipher.data[..|ctx.iv|])
  {
    hide Present;
    hide NoDup;
    hide KeysOf;
    if ctx.init { return false; }
    var accepted := Admit(cache, cipher.data[..|ctx.iv|], now);
    replayed := !accepted;
  }

  /** The other part of ss_decrypt leaves the cache alone. */
  method Proceed(cache: Cache, ctx: Context, cipher: Buffer, tmp: Buffer, capacity: nat, replayed: bool)
    returns (f: Fate)
    requires cache.Valid()
    requires MomentOk(ctx.With(cipher)) && cipher != tmp && cipher.data != tmp.data
    requires |ctx.iv| <= MAX_IV && InMemory(cipher.len)
    requires ctx.ietf ==> ctx.Used() + cipher.len <= 64 * WORD + if ctx.init then 0 else |ctx.iv|
    modifies ctx, cipher, cipher.data, tmp, tmp.data
    ensures cache.Valid() && cache.View() == old(cache.View())
    ensures Deciphered(ctx.ks, old(ctx.With(cipher)), replayed, f, ctx.With(cipher))
  {
    hide Deciphered;
    hide Distinct;
    hide At;
    hide Pow2;
    hide ToBkt;
    f := ctx.Decrypt(cipher, tmp, capacity, replayed);
  }

  /** ss_decrypt with its cache. A first buffer is turned down if and only if the cache knows
      its nonce, which becomes the one presented last; any other buffer leaves the cache as
      it is. */
  method Decrypt(cache: Cache, ctx: Context, cipher: Buffer, tmp: Buffer, capacity: nat, now: int) returns (f: Fate)
    requires cache.Valid() && cache.max == CAPACITY && NoDup(KeysOf(cache.View()))
    requires MomentOk(ctx.With(cipher)) && cipher != tmp && cipher.data != tmp.data
    requires |ctx.iv| <= MAX_IV && InMemory(cipher.len)
    requires ctx.ietf ==> ctx.Used() + cipher.len <= 64 * WORD + if ctx.init then 0 else |ctx.iv|
    modifies cache.table, cache.table.buckets, Elems(cache.table.order), ctx, cipher, cipher.data, tmp, tmp.data
    ensures cache.Valid() && NoDup(KeysOf(cache.View()))
    ensures var was, keys := old(ctx.With(cipher)), old(KeysOf(cache.View()));
            && Deciphered(ctx.ks, was, !was.init && was.block[..|was.iv|] in keys, f, ctx.With(cipher))
            && KeysOf(cache.View()) == if was.init then keys else Present(keys, was.block[..|was.iv|])
  {
    hide Deciphered;
    hide Present;
    hide NoDup;
    hide KeysOf;
    hide Table.Valid;
    var replayed := Screen(cache, ctx, cipher, now);
    f := Proceed(cache, ctx, cipher, tmp, capacity, replayed);
  }

  lemma {:induction false} KeyTest(s: seq<Cell>, iv: Iv)
    ensures HasKey(s, iv) <==> iv in KeysOf(s)
  {
    var ks := KeysOf(s);
    if HasKey(s, iv) {
      var i :| 0 <= i < |s| && s[i].key == iv;
      assert ks[i] == iv;
    }
  }

  lemma {:induction false} InsertKeys(s: seq<Cell>, c: Cell)
    requires !HasKey(s, c.key)
    ensures KeysOf(InsertCell(s, c, CAPACITY)) == Present(KeysOf(s), c.key)
  {
    KeyTest(s, c.key);
    assert KeysOf(s + [c]) == KeysOf(s) + [c.key];
  }
}
