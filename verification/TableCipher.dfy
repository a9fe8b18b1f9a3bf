/** encrypt.c: the table cipher. The encryption table is the identity after 1023
    stable merge sorts, each by the key modulo byte plus pass number; the decryption
    table is its inverse. */
module TableCipher {
  import opened Bits
  import opened Bytes

  const KEYS: nat := 0x1_0000_0000_0000_0000

  /** What the sorts compare by. */
  function Rank(x: byte, salt: nat, key: nat): (r: nat)
    requires salt >= 1
    ensures r < x + salt
  {
    key % (x as int + salt)
  }

  /** The low 32 bits as an int. */
  function ToInt(u: nat): int {
    var w := u % WORD;
    if w < 0x8000_0000 then w else w - WORD
  }

  /** random_compare: a 64-bit unsigned difference, returned as an int. */
  function RandomCompare(x: byte, y: byte, salt: nat, key: nat): int
    requires salt >= 1
  {
    ToInt((Rank(x, salt, key) as int - Rank(y, salt, key) as int) % KEYS)
  }

  /** For the pass numbers in use the wrapped difference has the right sign. */
  lemma {:induction false} CompareExact(x: byte, y: byte, salt: nat, key: nat)
    requires 1 <= salt < 1024
    ensures RandomCompare(x, y, salt, key) <= 0 <==> Rank(x, salt, key) <= Rank(y, salt, key)
  {
    hide Rank;
    var d := Rank(x, salt, key) as int - Rank(y, salt, key) as int;
    if d < 0 {
      assert d % KEYS == d + KEYS;
      assert (d + KEYS) % WORD == d + WORD;
    } else {
      assert d % KEYS == d;
    }
  }

  // ---------- Merging and sorting, on sequences ----------

  function Merged(l: seq<byte>, r: seq<byte>, salt: nat, key: nat): (m: seq<byte>)
    requires salt >= 1
    ensures |m| == |l| + |r|
    decreases |l| + |r|
  {
    if l == [] then r
    else if r == [] then l
    else if Rank(l[0], salt, key) <= Rank(r[0], salt, key) then [l[0]] + Merged(l[1..], r, salt, key)
    else [r[0]] + Merged(l, r[1..], salt, key)
  }

  function Sorted(s: seq<byte>, salt: nat, key: nat): (t: seq<byte>)
    requires salt >= 1
    ensures |t| == |s|
    decreases |s|
  {
    if |s| <= 1 then s
    else
      var n := |s| - |s| / 2;
      Merged(Sorted(s[..n], salt, key), Sorted(s[n..], salt, key), salt, key)
  }

  ghost predicate Ordered(s: seq<byte>, salt: nat, key: nat)
    requires salt >= 1
  {
    forall i, j :: 0 <= i < j < |s| ==> Rank(s[i], salt, key) <= Rank(s[j], salt, key)
  }

  /** The elements of one rank, in order. */
  function Class(s: seq<byte>, v: nat, salt: nat, key: nat): seq<byte>
    requires salt >= 1
  {
    if s == [] then []
    else (if Rank(s[0], salt, key) == v then [s[0]] else []) + Class(s[1..], v, salt, key)
  }

  lemma {:induction false} MergedOrdered(l: seq<byte>, r: seq<byte>, salt: nat, key: nat)
    requires salt >= 1 && Ordered(l, salt, key) && Ordered(r, salt, key)
    ensures Ordered(Merged(l, r, salt, key), salt, key)
    ensures forall k :: 0 <= k < |l| + |r| ==> Merged(l, r, salt, key)[k] in l || Merged(l, r, salt, key)[k] in r
    decreases |l| + |r|
  {
    hide Rank;
    if l == [] || r == [] {
    } else if Rank(l[0], salt, key) <= Rank(r[0], salt, key) {
      MergedOrdered(l[1..], r, salt, key);
    } else {
      MergedOrdered(l, r[1..], salt, key);
    }
  }

  lemma {:induction false} ClassAppend(s: seq<byte>, t: seq<byte>, v: nat, salt: nat, key: nat)
    requires salt >= 1
    ensures Class(s + t, v, salt, key) == Class(s, v, salt, key) + Class(t, v, salt, key)
  {
    hide Rank;
    if s == [] {
      assert s + t == t;
    } else {
      assert (s + t)[1..] == s[1..] + t;
      ClassAppend(s[1..], t, v, salt, key);
      var c := if Rank(s[0], salt, key) == v then [s[0]] else [];
      var x, y := Class(s[1..], v, salt, key), Class(t, v, salt, key);
      assert c + (x + y) == (c + x) + y;
    }
  }

  lemma {:induction false} ClassEmpty(s: seq<byte>, v: nat, salt: nat, key: nat)
    requires salt >= 1 && Ordered(s, salt, key) && s != [] && v < Rank(s[0], salt, key)
    ensures Class(s, v, salt, key) == []
  {
    hide Rank;
    if |s| > 1 { ClassEmpty(s[1..], v, salt, key); }
  }

  /** Merging keeps the elements of each rank in order, the left ones first. */
  lemma {:induction false} MergedStable(l: seq<byte>, r: seq<byte>, v: nat, salt: nat, key: nat)
    requires salt >= 1 && Ordered(l, salt, key) && Ordered(r, salt, key)
    ensures Class(Merged(l, r, salt, key), v, salt, key) == Class(l, v, salt, key) + Class(r, v, salt, key)
    decreases |l| + |r|
  {
    hide Rank;
    if l == [] || r == [] {
    } else if Rank(l[0], salt, key) <= Rank(r[0], salt, key) {
      MergedStable(l[1..], r, v, salt, key);
      assert Merged(l, r, salt, key)[1..] == Merged(l[1..], r, salt, key);
    } else {
      MergedStable(l, r[1..], v, salt, key);
      assert Merged(l, r, salt, key)[1..] == Merged(l, r[1..], salt, key);
      if Rank(r[0], salt, key) == v { ClassEmpty(l, v, salt, key); }
    }
  }

  /** The sort is stable: ordered by rank, and each rank's elements in their order. */
  lemma {:induction false} SortedStable(s: seq<byte>, salt: nat, key: nat)
    requires salt >= 1
    ensures Ordered(Sorted(s, salt, key), salt, key)
    ensures forall v :: Class(Sorted(s, salt, key), v, salt, key) == Class(s, v, salt, key)
    decreases |s|
  {
    hide Rank;
    hide Merged;
    hide Sorted;
    hide Class;
    if |s| <= 1 {
      SortedShort(s, salt, key);
    } else {
      var n := |s| - |s| / 2;
      var l, r := Sorted(s[..n], salt, key), Sorted(s[n..], salt, key);
      SortedStable(s[..n], salt, key);
      SortedStable(s[n..], salt, key);
      MergedOrdered(l, r, salt, key);
      SortedParts(s, n, salt, key);
      assert s[..n] + s[n..] == s;
      forall v ensures Class(Merged(l, r, salt, key), v, salt, key) == Class(s, v, salt, key) {
        MergedStable(l, r, v, salt, key);
        ClassAppend(s[..n], s[n..], v, salt, key);
      }
    }
  }

  lemma {:induction false} HeadFirst(s: seq<byte>)
    requires s != []
    ensures multiset(s) == multiset{s[0]} + multiset(s[1..])
  {
    assert s == [s[0]] + s[1..];
  }

  lemma {:induction false} MergedPermutes(l: seq<byte>, r: seq<byte>, salt: nat, key: nat)
    requires salt >= 1
    ensures multiset(Merged(l, r, salt, key)) == multiset(l) + multiset(r)
    decreases |l| + |r|
  {
    hide Rank;
    var m := Merged(l, r, salt, key);
    if l == [] || r == [] {
    } else if Rank(l[0], salt, key) <= Rank(r[0], salt, key) {
      MergedPermutes(l[1..], r, salt, key);
      HeadFirst(l);
      HeadFirst(m);
      assert m[1..] == Merged(l[1..], r, salt, key);
    } else {
      MergedPermutes(l, r[1..], salt, key);
      HeadFirst(r);
      HeadFirst(m);
      assert m[1..] == Merged(l, r[1..], salt, key);
    }
  }

  lemma {:induction false} SortedPermutes(s: seq<byte>, salt: nat, key: nat)
    requires salt >= 1
    ensures multiset(Sorted(s, salt, key)) == multiset(s)
    decreases |s|
  {
    hide Rank;
    hide Merged;
    if |s| > 1 {
      var n := |s| - |s| / 2;
      SortedPermutes(s[..n], salt, key);
      SortedPermutes(s[n..], salt, key);
      MergedPermutes(Sorted(s[..n], salt, key), Sorted(s[n..], salt, key), salt, key);
      assert s[..n] + s[n..] == s;
    }
  }

  // ---------- The same, in place ----------

  lemma {:induction false} TakeLeft(done: seq<byte>, l: seq<byte>, r: seq<byte>, i: nat, j: nat, salt: nat, key: nat)
    requires salt >= 1 && i < |l| && j <= |r| && (j == |r| || Rank(l[i], salt, key) <= Rank(r[j], salt, key))
    ensures done + Merged(l[i..], r[j..], salt, key) == (done + [l[i]]) + Merged(l[i + 1..], r[j..], salt, key)
  {
    hide Rank;
    assert l[i..][1..] == l[i + 1..] && l[i..] == [l[i]] + l[i + 1..];
    if j == |r| { MergedNone(l[i + 1..], salt, key); MergedNone(l[i..], salt, key); }
  }

  lemma {:induction false} TakeRight(done: seq<byte>, l: seq<byte>, r: seq<byte>, i: nat, j: nat, salt: nat, key: nat)
    requires salt >= 1 && i <= |l| && j < |r| && (i == |l| || Rank(l[i], salt, key) > Rank(r[j], salt, key))
    ensures done + Merged(l[i..], r[j..], salt, key) == (done + [r[j]]) + Merged(l[i..], r[j + 1..], salt, key)
  {
    hide Rank;
    assert r[j..][1..] == r[j + 1..] && r[j..] == [r[j]] + r[j + 1..];
  }

  lemma {:induction false} MergedNone(l: seq<byte>, salt: nat, key: nat)
    requires salt >= 1
    ensures Merged(l, [], salt, key) == l
  {
  }

  /** The first loop of merge: until one of the runs is used up. */
  method MergeLoop(a: array<byte>, lo: nat, l: seq<byte>, r: seq<byte>, salt: nat, key: nat)
    returns (i: nat, j: nat, ghost done: seq<byte>)
    requires 1 <= salt < 1024 && lo + |l| + |r| <= a.Length
    modifies a
    ensures i <= |l| && j <= |r| && (i == |l| || j == |r|) && |done| == i + j
    ensures done + Merged(l[i..], r[j..], salt, key) == Merged(l, r, salt, key)
    ensures forall k :: 0 <= k < i + j ==> a[lo + k] == done[k]
    ensures forall k :: 0 <= k < a.Length && !(lo <= k < lo + i + j) ==> a[k] == old(a[k])
  {
    hide Rank;
    hide Merged;
    hide RandomCompare;
    i, j, done := 0, 0, [];
    assert l[0..] == l && r[0..] == r && [] + Merged(l, r, salt, key) == Merged(l, r, salt, key);
    while i < |l| && j < |r|
      invariant i <= |l| && j <= |r| && |done| == i + j
      invariant done + Merged(l[i..], r[j..], salt, key) == Merged(l, r, salt, key)
      invariant forall k :: 0 <= k < i + j ==> a[lo + k] == done[k]
      invariant forall k :: 0 <= k < a.Length && !(lo <= k < lo + i + j) ==> a[k] == old(a[k])
      decreases |l| + |r| - i - j
    {
      CompareExact(l[i], r[j], salt, key);
      if RandomCompare(l[i], r[j], salt, key) <= 0 {
        TakeLeft(done, l, r, i, j, salt, key);
        a[lo + i + j], done, i := l[i], done + [l[i]], i + 1;
      } else {
        TakeRight(done, l, r, i, j, salt, key);
        a[lo + i + j], done, j := r[j], done + [r[j]], j + 1;
      }
    }
  }

  lemma {:induction false} OneLeft(l: seq<byte>, r: seq<byte>, i: nat, j: nat, salt: nat, key: nat)
    requires salt >= 1 && i <= |l| && j <= |r| && (i == |l| || j == |r|)
    ensures Merged(l[i..], r[j..], salt, key) == if i < |l| then l[i..] else r[j..]
  {
  }

  /** merge: of the adjacent runs of ll and rl elements from lo on. */
  method Merge(a: array<byte>, lo: nat, ll: nat, rl: nat, salt: nat, key: nat)
    requires 1 <= salt < 1024 && lo + ll + rl <= a.Length
    modifies a
    ensures a[lo..lo + ll + rl] == Merged(old(a[lo..lo + ll]), old(a[lo + ll..lo + ll + rl]), salt, key)
    ensures forall k :: 0 <= k < a.Length && !(lo <= k < lo + ll + rl) ==> a[k] == old(a[k])
  {
    hide Merged;
    var l, r := a[lo..lo + ll], a[lo + ll..lo + ll + rl];
    var i, j, done := MergeLoop(a, lo, l, r, salt, key);
    OneLeft(l, r, i, j, salt, key);
    ghost var rest := if i < ll then l[i..] else r[j..];
    if i < ll { CopyTail(a, lo + i + j, l, i); } else { CopyTail(a, lo + i + j, r, j); }
    Join(a, lo, done, rest);
  }

  lemma {:induction false} Join(a: array<byte>, lo: nat, done: seq<byte>, rest: seq<byte>)
    requires lo + |done| + |rest| <= a.Length
    requires forall k :: 0 <= k < |done| ==> a[lo + k] == done[k]
    requires a[lo + |done|..lo + |done| + |rest|] == rest
    ensures a[lo..lo + |done| + |rest|] == done + rest
  {
    assert a[lo..lo + |done|] == done;
    assert a[lo..lo + |done| + |rest|] == a[lo..lo + |done|] + a[lo + |done|..lo + |done| + |rest|];
  }

  /** The loops after the first: what is left of one run goes to the end. */
  method CopyTail(a: array<byte>, at: nat, src: seq<byte>, from: nat)
    requires from <= |src| && at + |src| - from <= a.Length
    modifies a
    ensures a[at..at + |src| - from] == src[from..]
    ensures forall k :: 0 <= k < a.Length && !(at <= k < at + |src| - from) ==> a[k] == old(a[k])
  {
    var i := from;
    while i < |src|
      invariant from <= i <= |src|
      invariant forall k :: from <= k < i ==> a[at - from + k] == src[k]
      invariant forall k :: 0 <= k < a.Length && !(at <= k < at + |src| - from) ==> a[k] == old(a[k])
    {
      a[at - from + i] := src[i];
      i := i + 1;
    }
    forall k | 0 <= k < |src| - from ensures a[at + k] == src[from..][k] {
      assert a[at - from + (from + k)] == src[from + k];
    }
  }

  lemma {:induction false} SortedParts(s: seq<byte>, ll: nat, salt: nat, key: nat)
    requires salt >= 1 && |s| > 1 && ll == |s| - |s| / 2
    ensures Sorted(s, salt, key) == Merged(Sorted(s[..ll], salt, key), Sorted(s[ll..], salt, key), salt, key)
  {
    hide Merged;
  }

  lemma {:induction false} SortedShort(s: seq<byte>, salt: nat, key: nat)
    requires salt >= 1 && |s| <= 1
    ensures Sorted(s, salt, key) == s
  {
  }

  /** merge_sort; the middle is kept in eight bits. */
  method MergeSort(a: array<byte>, lo: nat, n: nat, salt: nat, key: nat)
    requires 1 <= salt < 1024 && lo + n <= a.Length && n < 512
    modifies a
    ensures a[lo..lo + n] == Sorted(old(a[lo..lo + n]), salt, key)
    ensures forall k :: 0 <= k < a.Length && !(lo <= k < lo + n) ==> a[k] == old(a[k])
    decreases n
  {
    hide Rank;
    hide Merged;
    hide Sorted;
    ghost var s := a[lo..lo + n];
    if n <= 1 { SortedShort(s, salt, key); return; }
    var middle := n / 2 % 256;
    var ll := n - middle;
    assert lo + n == lo + ll + middle;
    SortedParts(s, ll, salt, key);
    Cut(a, lo, ll, n);
    MergeSort(a, lo, ll, salt, key);
    ghost var l := a[lo..lo + ll];
    assert a[lo + ll..lo + ll + middle] == s[ll..];
    MergeSort(a, lo + ll, middle, salt, key);
    assert a[lo..lo + ll] == l;
    Merge(a, lo, ll, middle, salt, key);
  }

  lemma {:induction false} Cut(a: array<byte>, lo: nat, ll: nat, n: nat)
    requires ll <= n && lo + n <= a.Length
    ensures a[lo..lo + ll] == a[lo..lo + n][..ll] && a[lo + ll..lo + n] == a[lo..lo + n][ll..]
  {
  }

  // ---------- The tables ----------

  function Identity(): (s: seq<byte>)
    ensures |s| == 256 && forall i :: 0 <= i < 256 ==> s[i] == i
  {
    seq(256, i requires 0 <= i < 256 => i)
  }

  /** The encryption table after n passes. */
  function Table(n: nat, key: nat): (s: seq<byte>)
    ensures |s| == 256
  {
    if n == 0 then Identity() else Sorted(Table(n - 1, key), n, key)
  }

  lemma {:induction false} TablePermutes(n: nat, key: nat)
    ensures multiset(Table(n, key)) == multiset(Identity())
  {
    hide Identity;
    hide Sorted;
    if n > 0 {
      TablePermutes(n - 1, key);
      SortedPermutes(Table(n - 1, key), n, key);
    }
  }

  lemma {:induction false} OneOccurrence(s: seq<byte>, i: nat, j: nat)
    requires i < j < |s| && s[i] == s[j]
    ensures multiset(s)[s[i]] >= 2
  {
    var a, b := s[..j], s[j..];
    assert s == a + b && a[i] == s[i] && b[0] == s[i];
    assert s[i] in multiset(a) && s[i] in multiset(b);
    assert multiset(s) == multiset(a) + multiset(b);
  }

  lemma {:induction false} DistinctOnce(s: seq<byte>, x: byte)
    requires forall i, j :: 0 <= i < j < |s| ==> s[i] != s[j]
    ensures multiset(s)[x] <= 1
  {
    if s != [] {
      var k := |s| - 1;
      DistinctOnce(s[..k], x);
      assert s == s[..k] + [s[k]];
      if x == s[k] { assert x !in multiset(s[..k]); }
    }
  }

  /** For every key the table is a permutation of the bytes: no byte occurs twice,
      and every byte occurs. */
  lemma {:induction false} TableIsPermutation(n: nat, key: nat)
    ensures forall i, j :: 0 <= i < j < 256 ==> Table(n, key)[i] != Table(n, key)[j]
    ensures forall b: byte :: b in Table(n, key)
  {
    hide Table;
    hide Identity;
    var t := Table(n, key);
    TablePermutes(n, key);
    forall i, j | 0 <= i < j < 256 ensures t[i] != t[j] {
      if t[i] == t[j] {
        OneOccurrence(t, i, j);
        DistinctOnce(Identity(), t[i]);
      }
    }
    forall b: byte ensures b in t {
      assert Identity()[b] == b;
      assert b in multiset(Identity());
      assert b in multiset(t);
    }
  }

  ghost predicate Inverse(enc: seq<byte>, dec: seq<byte>) {
    |enc| == |dec| == 256 && (forall i :: 0 <= i < 256 ==> dec[enc[i]] == i)
      && (forall b :: 0 <= b < 256 ==> enc[dec[b]] == b)
  }

  /** enc_table_init, from the key on. */
  method TableInit(key: nat) returns (enc: array<byte>, dec: array<byte>)
    ensures fresh(enc) && fresh(dec) && enc[..] == Table(1023, key) && Inverse(enc[..], dec[..])
  {
    hide Table;
    enc, dec := new byte[256](_ => 0), new byte[256](_ => 0);
    for i := 0 to 256
      invariant forall k :: 0 <= k < i ==> enc[k] == k
    {
      enc[i] := i;
    }
    assert enc[..] == Identity();
    FirstTable(key);
    var i := 1;
    while i < 1024
      invariant 1 <= i <= 1024 && enc[..] == Table(i - 1, key)
    {
      NextTable(i, key);
      assert enc[0..0 + 256] == enc[..];
      MergeSort(enc, 0, 256, i, key);
      assert enc[0..0 + 256] == enc[..];
      i := i + 1;
    }
    Invert(enc, dec, key);
  }

  lemma {:induction false} FirstTable(key: nat)
    ensures Table(0, key) == Identity()
  {
  }

  lemma {:induction false} NextTable(i: nat, key: nat)
    requires i >= 1
    ensures Table(i, key) == Sorted(Table(i - 1, key), i, key)
  {
  }

  /** Each pass, from the identity on, rearranges the table of the pass before by the key
      modulo byte plus pass number, and keeps the order of the bytes of each remainder. */
  lemma {:induction false} PassExact(n: nat, key: nat)
    ensures forall b: byte :: Table(0, key)[b] == b
    ensures n > 0 ==>
              var t, u := Table(n, key), Table(n - 1, key);
              && multiset(t) == multiset(u)
              && (forall i, j :: 0 <= i < j < 256 ==> key % (t[i] as int + n) <= key % (t[j] as int + n))
              && forall v :: Remaining(t, n, key, v) == Remaining(u, n, key, v)
  {
    hide Sorted;
    if n > 0 {
      SortedPermutes(Table(n - 1, key), n, key);
      SortedStable(Table(n - 1, key), n, key);
      forall v ensures Remaining(Table(n, key), n, key, v) == Remaining(Table(n - 1, key), n, key, v) {
        RemainingIsClass(Table(n, key), n, key, v);
        RemainingIsClass(Table(n - 1, key), n, key, v);
      }
    }
  }

  /** The bytes of one remainder, in their order. */
  function Remaining(s: seq<byte>, n: nat, key: nat, v: nat): seq<byte>
    requires n > 0
  {
    if s == [] then [] else (if key % (s[0] as int + n) == v then [s[0]] else []) + Remaining(s[1..], n, key, v)
  }

  lemma {:induction false} RemainingIsClass(s: seq<byte>, n: nat, key: nat, v: nat)
    requires n > 0
    ensures Remaining(s, n, key, v) == Class(s, v, n, key)
  {
    if s != [] { RemainingIsClass(s[1..], n, key, v); }
  }

  /** The last loop of enc_table_init. */
  method Invert(enc: array<byte>, dec: array<byte>, key: nat)
    requires enc != dec && enc.Length == dec.Length == 256 && enc[..] == Table(1023, key)
    modifies dec
    ensures Inverse(enc[..], dec[..])
  {
    hide Table;
    TableIsPermutation(1023, key);
    ghost var t := enc[..];
    for i := 0 to 256
      invariant forall k :: 0 <= k < i ==> dec[t[k]] == k
    {
      assert forall k :: 0 <= k < i ==> t[k] != t[i];
      assert enc[i] == t[i];
      dec[enc[i]] := i;
    }
    forall b | 0 <= b < 256 ensures t[dec[b]] == b {
      assert b in t;
    }
  }

  // ---------- Encrypting and decrypting a buffer ----------

  function Mapped(s: seq<byte>, table: seq<byte>): (r: seq<byte>)
    requires |table| == 256
    ensures |r| == |s|
  {
    seq(|s|, i requires 0 <= i < |s| => table[s[i]])
  }

  /** The table branches of ss_encrypt_all and ss_decrypt_all. */
  method MapInPlace(buf: array<byte>, len: nat, table: array<byte>)
    requires table.Length == 256 && len <= buf.Length && buf != table
    modifies buf
    ensures buf[..len] == Mapped(old(buf[..len]), table[..])
    ensures buf[len..] == old(buf[len..])
  {
    for i := 0 to len
      invariant forall k :: 0 <= k < i ==> buf[k] == table[old(buf[k])]
      invariant forall k :: i <= k < buf.Length ==> buf[k] == old(buf[k])
    {
      buf[i] := table[buf[i]];
    }
    assert buf[..len] == Mapped(old(buf[..len]), table[..]);
  }

  /** Decryption undoes encryption on every buffer, and the other way round. */
  lemma {:induction false} TableRoundTrip(enc: seq<byte>, dec: seq<byte>, s: seq<byte>)
    requires Inverse(enc, dec)
    ensures Mapped(Mapped(s, enc), dec) == s && Mapped(Mapped(s, dec), enc) == s
  {
    forall i | 0 <= i < |s| ensures Mapped(Mapped(s, enc), dec)[i] == s[i] && Mapped(Mapped(s, dec), enc)[i] == s[i] {
      assert Mapped(s, enc)[i] == enc[s[i]] && Mapped(s, dec)[i] == dec[s[i]];
    }
  }
}
