/** encrypt.c: the Salsa20 and ChaCha20 contexts. The library only xors from a block
    boundary, so a buffer that starts inside a block is padded in front with zeros,
    and the padding is dropped from the result. */
module StreamCipher {
  import opened Bits
  import opened Bytes
  import opened ChunkStream

  /** The keystream, block by block, for one key and nonce. */
  type Keystream = nat -> seq<byte>

  function KeyByte(ks: Keystream, pos: nat): byte {
    var block := ks(pos / 64);
    if pos % 64 < |block| then block[pos % 64] else 0
  }

  function XorByte(a: byte, b: byte): byte {
    assert Xor(a, b) < 256 by { XorBound(a, b, 8); assert Pow2(8) == 256; }
    Xor(a, b)
  }

  /** A message xored with the keystream from position off on. */
  function XorAt(ks: Keystream, off: nat, m: seq<byte>): (c: seq<byte>)
    ensures |c| == |m|
    ensures forall j :: 0 <= j < |m| ==> c[j] == XorByte(m[j], KeyByte(ks, off + j))
  {
    seq(|m|, j requires 0 <= j < |m| => XorByte(m[j], KeyByte(ks, off + j)))
  }

  lemma {:induction false} XorAtAppend(ks: Keystream, off: nat, m: seq<byte>, n: seq<byte>)
    ensures XorAt(ks, off, m + n) == XorAt(ks, off, m) + XorAt(ks, off + |m|, n)
  {
  }

  lemma {:induction false} XorAtTwice(ks: Keystream, off: nat, m: seq<byte>)
    ensures XorAt(ks, off, XorAt(ks, off, m)) == m
  {
    var c := XorAt(ks, off, m);
    forall j | 0 <= j < |m| ensures XorAt(ks, off, c)[j] == m[j] {
      XorCancel(m[j], KeyByte(ks, off + j));
    }
  }

  /** Every bit of the output is the sum of the bits of the message and of the keystream, which
      is cut from blocks of 64 bytes. */
  lemma {:induction false} XorAtExact(ks: Keystream, off: nat, m: seq<byte>, j: nat, k: nat)
    requires j < |m| && forall i :: |ks(i)| == 64
    ensures var key := ks((off + j) / 64)[(off + j) % 64];
            Bit(XorAt(ks, off, m)[j], k) == (Bit(m[j], k) + Bit(key, k)) % 2
  {
    XorBitAt(m[j], KeyByte(ks, off + j), k);
  }

  function Zeros(n: nat): (z: seq<byte>)
    ensures |z| == n
  {
    seq(n, _ => 0)
  }

  /** crypto_stream_xor_ic: from block ic on. The IETF variant has a 32-bit counter. */
  function FirstBlock(ietf: bool, ic: nat): nat { if ietf then ic % WORD else ic }

  function XorIc(ietf: bool, ks: Keystream, ic: nat, m: seq<byte>): (c: seq<byte>)
    ensures |c| == |m|
  {
    XorAt(ks, 64 * FirstBlock(ietf, ic), m)
  }

  /** Padding, xoring from the block boundary and dropping the padding is xoring from
      the byte position; for the IETF variant as long as its counter lasts (section
      2.4 of RFC 8439). */
  lemma {:induction false} Padding(ietf: bool, ks: Keystream, counter: nat, m: seq<byte>)
    requires ietf ==> counter + |m| <= 64 * WORD
    ensures XorIc(ietf, ks, counter / 64, Zeros(counter % 64) + m)[counter % 64..] == XorAt(ks, counter, m)
  {
    hide XorAt;
    hide XorIc;
    hide Zeros;
    hide FirstBlock;
    if m != [] {
      BlockInRange(ietf, counter, |m|);
      PaddingAt(ietf, ks, counter / 64, counter % 64, m);
    }
  }

  lemma {:induction false} PaddingAt(ietf: bool, ks: Keystream, ic: nat, pad: nat, m: seq<byte>)
    requires FirstBlock(ietf, ic) == ic
    ensures XorIc(ietf, ks, ic, Zeros(pad) + m)[pad..] == XorAt(ks, 64 * ic + pad, m)
  {
    hide XorAt;
    hide Zeros;
    hide FirstBlock;
    XorAtAppend(ks, 64 * ic, Zeros(pad), m);
    DropPrefix(XorAt(ks, 64 * ic, Zeros(pad)), XorAt(ks, 64 * ic + pad, m));
  }

  lemma {:induction false} BlockInRange(ietf: bool, counter: nat, n: nat)
    requires n > 0 && (ietf ==> counter + n <= 64 * WORD)
    ensures FirstBlock(ietf, counter / 64) == counter / 64 && 64 * (counter / 64) + counter % 64 == counter
  {
  }

  lemma {:induction false} DropPrefix(a: seq<byte>, b: seq<byte>)
    ensures (a + b)[|a|..] == b
  {
  }

  /** At the limit the IETF keystream starts again. */
  lemma {:induction false} IetfWraps(ks: Keystream, m: seq<byte>)
    ensures XorIc(true, ks, WORD, m) == XorAt(ks, 0, m)
  {
  }

  // ---------- Sequences of buffers ----------

  /** The bytes n onwards of a stream that starts with the nonce: what ss_encrypt
      returns for each of a list of buffers. */
  function EncryptAll(ks: Keystream, iv: seq<byte>, init: bool, counter: nat, bufs: seq<seq<byte>>): seq<seq<byte>>
    decreases |bufs|
  {
    if bufs == [] then []
    else [Encrypted(ks, iv, init, counter, bufs[0])]
         + EncryptAll(ks, iv, true, (if init then counter else 0) + |bufs[0]|, bufs[1..])
  }

  function Encrypted(ks: Keystream, iv: seq<byte>, init: bool, counter: nat, m: seq<byte>): seq<byte> {
    if init then XorAt(ks, counter, m) else iv + XorAt(ks, 0, m)
  }

  lemma {:induction false} EncryptedForm(ks: Keystream, iv: seq<byte>, init: bool, counter: nat, m: seq<byte>)
    requires !init ==> counter == 0
    ensures Encrypted(ks, iv, init, counter, m) == (if init then [] else iv) + XorAt(ks, counter, m)
  {
    assert [] + XorAt(ks, counter, m) == XorAt(ks, counter, m);
  }

  /** For every list of buffers the ciphertexts together are the nonce and the
      concatenated plaintext xored with one keystream from offset 0. */
  lemma {:induction false} EncryptSegments(ks: Keystream, iv: seq<byte>, init: bool, counter: nat, bufs: seq<seq<byte>>)
    requires bufs != []
    ensures Flatten(EncryptAll(ks, iv, init, counter, bufs)) == Encrypted(ks, iv, init, counter, Flatten(bufs))
    decreases |bufs|
  {
    hide XorAt;
    var from := if init then counter else 0;
    var m, rest := bufs[0], Flatten(bufs[1..]);
    var all := EncryptAll(ks, iv, init, counter, bufs);
    var first := Encrypted(ks, iv, init, counter, m);
    assert all[0] == first && all[1..] == EncryptAll(ks, iv, true, from + |m|, bufs[1..]);
    XorAtAppend(ks, from, m, rest);
    if |bufs| > 1 {
      EncryptSegments(ks, iv, true, from + |m|, bufs[1..]);
    } else {
      assert XorAt(ks, from + |m|, rest) == [];
    }
    Associate(iv, XorAt(ks, 0, m), XorAt(ks, |m|, rest));
  }

  // ---------- The nonce and the first buffer ----------

  /** The range of a size_t, and the longest nonce. */
  const SIZES: nat := 0x1_0000_0000_0000_0000
  const MAX_IV: nat := 16

  /** The buffer size ss_decrypt asks for: the nonce is taken off in unsigned
      arithmetic, whether it is there or not. */
  function Wanted(len: nat, ivLen: nat, pad: nat): nat { ((len - ivLen) % SIZES + pad) * 2 % SIZES }

  /** No object is larger than half the address space: ss_realloc ends the process. */
  predicate Allocatable(n: nat) { n < SIZES / 2 }

  /** Buffers that are in memory, with room for twice their size. */
  predicate InMemory(n: nat) { n + 64 < SIZES / 4 }

  /** The size asked for is a possible one exactly when the nonce is there. */
  lemma {:induction false} WantedExact(len: nat, ivLen: nat, pad: nat)
    requires InMemory(len) && ivLen <= MAX_IV && pad < 64 && (ivLen > 0 ==> pad == 0)
    ensures Allocatable(Wanted(len, ivLen, pad)) <==> ivLen <= len
    ensures ivLen <= len ==> Wanted(len, ivLen, pad) == (len - ivLen + pad) * 2
  {
    if len < ivLen {
      assert (len - ivLen) % SIZES == SIZES - (ivLen - len);
      assert (SIZES - (ivLen - len)) * 2 % SIZES == SIZES - 2 * (ivLen - len);
    } else {
      assert (len - ivLen) % SIZES == len - ivLen;
    }
  }

  /** What becomes of a list of received buffers: the plaintexts, or the end of the
      process. */
  datatype Received = Ended | Plaintext(bufs: seq<seq<byte>>)

  /** ss_decrypt for each of a list of buffers. The nonce is taken from the first one,
      and the keystream depends on it. */
  function DecryptAll(ks: seq<byte> -> Keystream, n: nat, bufs: seq<seq<byte>>): Received
    requires bufs != [] && n <= MAX_IV && forall k :: 0 <= k < |bufs| ==> InMemory(|bufs[k]|)
  {
    WantedExact(|bufs[0]|, n, 0);
    if !Allocatable(Wanted(|bufs[0]|, n, 0)) then Ended
    else Plaintext(EncryptAll(ks(bufs[0][..n]), [], true, 0, [bufs[0][n..]] + bufs[1..]))
  }

  /** What was encrypted under any segmentation is recovered under any other if and only
      if the first buffer received holds the whole nonce; otherwise the process ends. */
  lemma {:induction false} RoundTrip(ks: seq<byte> -> Keystream, iv: seq<byte>, plain: seq<seq<byte>>,
                                     cut: seq<seq<byte>>)
    requires |iv| <= MAX_IV && plain != [] && cut != [] && forall k :: 0 <= k < |cut| ==> InMemory(|cut[k]|)
    requires Flatten(cut) == Flatten(EncryptAll(ks(iv), iv, false, 0, plain))
    ensures var d := DecryptAll(ks, |iv|, cut);
            && (d.Plaintext? && Flatten(d.bufs) == Flatten(plain) <==> |cut[0]| >= |iv|)
            && (d.Ended? <==> |cut[0]| < |iv|)
  {
    hide XorAt;
    hide EncryptAll;
    hide Wanted;
    WantedExact(|cut[0]|, |iv|, 0);
    if |cut[0]| >= |iv| {
      Recovers(ks, iv, plain, cut);
      EncryptSegments(ks(iv), iv, false, 0, plain);
      assert Flatten(plain)[..|Flatten(plain)|] == Flatten(plain);
    }
  }

  /** Of any part of the stream received so far, behind the nonce, the same part of the
      plaintext is recovered. */
  lemma {:induction false} Recovers(ks: seq<byte> -> Keystream, iv: seq<byte>, plain: seq<seq<byte>>,
                                    cut: seq<seq<byte>>)
    requires plain != [] && cut != [] && |cut[0]| >= |iv|
    requires Flatten(cut) <= Flatten(EncryptAll(ks(iv), iv, false, 0, plain))
    ensures var n := |iv|;
            && n <= |Flatten(cut)| <= n + |Flatten(plain)|
            && Flatten(EncryptAll(ks(cut[0][..n]), [], true, 0, [cut[0][n..]] + cut[1..])) ==
              Flatten(plain)[..|Flatten(cut)| - n]
  {
    hide XorAt;
    hide EncryptAll;
    var n, all := |iv|, Flatten(plain);
    EncryptSegments(ks(iv), iv, false, 0, plain);
    assert Flatten(cut) == cut[0] + Flatten(cut[1..]);
    var k := |Flatten(cut)| - n;
    var m := all[..k];
    XorAtAppend(ks(iv), 0, m, all[k..]);
    assert m + all[k..] == all;
    var c := XorAt(ks(iv), 0, m);
    SplitPart(cut[0], Flatten(cut[1..]), iv, c, XorAt(ks(iv), k, all[k..]));
    Deciphers(ks(iv), cut[0][n..], cut[1..], m);
  }

  lemma {:induction false} Deciphers(ks: Keystream, first: seq<byte>, others: seq<seq<byte>>, m: seq<byte>)
    requires first + Flatten(others) == XorAt(ks, 0, m)
    ensures Flatten(EncryptAll(ks, [], true, 0, [first] + others)) == m
  {
    hide XorAt;
    hide EncryptAll;
    var all := [first] + others;
    assert all[0] == first && all[1..] == others;
    EncryptSegments(ks, [], true, 0, all);
    XorAtTwice(ks, 0, m);
  }

  /** A stream whose first buffer arrives empty, such as the rest of a handshake message
      with nothing behind it, ends the process. */
  lemma {:induction false} EmptyFirstEnds(ks: seq<byte> -> Keystream, iv: seq<byte>, rest: seq<byte>)
    requires 0 < |iv| <= MAX_IV && InMemory(|rest|)
    ensures DecryptAll(ks, |iv|, [[], rest]) == Ended
  {
    hide Wanted;
    WantedExact(0, |iv|, 0);
  }

  lemma {:induction false} SplitPart(a: seq<byte>, b: seq<byte>, iv: seq<byte>, c: seq<byte>, d: seq<byte>)
    requires a + b <= iv + (c + d) && |a| >= |iv| && |a| + |b| == |iv| + |c|
    ensures a[..|iv|] == iv && a[|iv|..] + b == c
  {
    assert (iv + (c + d))[..|iv| + |c|] == iv + c;
    assert (a + b)[..|iv|] == a[..|iv|];
    assert (a + b)[|iv|..] == a[|iv|..] + b;
  }

  // ---------- The calls, in place ----------

  lemma {:induction false} Shifted(s: seq<byte>, n: nat, z: seq<byte>, s1: seq<byte>, s2: seq<byte>)
    requires |z| + n <= |s|
    requires s1 == s[..|z|] + s[0..0 + n] + s[|z| + n..]
    requires s2 == s1[..0] + z + s1[0 + |z|..]
    ensures s2[..n + |z|] == z + s[..n]
  {
    Middle(s[..|z|], s[..n], s[|z| + n..], s1);
    var t := s1[|z|..];
    assert t == s[..n] + s[|z| + n..];
    assert s2 == z + t;
    Front(z, s[..n], s[|z| + n..], s2);
  }

  lemma {:induction false} Middle(a: seq<byte>, b: seq<byte>, c: seq<byte>, s: seq<byte>)
    requires s == a + b + c
    ensures s[|a|..] == b + c
  {
  }

  lemma {:induction false} Front(a: seq<byte>, b: seq<byte>, c: seq<byte>, s: seq<byte>)
    requires s == a + (b + c)
    ensures s[..|b| + |a|] == a + b
  {
  }

  /** Make room for pad zeros in front of the contents. */
  method PadFront(b: Buffer, pad: nat, capacity: nat)
    requires b.Valid()
    modifies b`data, b.data
    ensures b.data == old(b.data) || fresh(b.data)
    ensures b.len + pad <= b.data.Length
    ensures b.data[..b.len + pad] == Zeros(pad) + old(b.Content())
  {
    hide Zeros;
    ghost var was := b.data[..];
    b.Realloc(b.len + pad, capacity);
    Kept(was, b.data[..], b.len);
    ShiftUp(b.data, b.len, Zeros(pad));
  }

  /** The first n bytes move up, and z goes in front of them. */
  method ShiftUp(a: array<byte>, n: nat, z: seq<byte>)
    requires |z| + n <= a.Length
    modifies a
    ensures a[..n + |z|] == z + old(a[..n])
  {
    ghost var s := a[..];
    Move(a, |z|, 0, n);
    ghost var s1 := a[..];
    Store(a, 0, z);
    Shifted(s, n, z, s1, a[..]);
  }

  lemma {:induction false} Dropped(s: seq<byte>, at: nat, pad: nat, n: nat, out: seq<byte>, s1: seq<byte>,
                                   s2: seq<byte>)
    requires at + pad + n <= |s| && |out| == pad + n
    requires s1 == s[..at] + out + s[at + pad + n..]
    requires s2 == s1[..at] + s1[at + pad..at + pad + n] + s1[at + n..]
    ensures s2[..at + n] == s[..at] + out[pad..]
  {
    assert s1[at + pad..at + pad + n] == out[pad..];
    assert s1[..at] == s[..at];
  }

  /** Xor from the block boundary into dst, then close the gap of the padding. */
  method XorInto(ietf: bool, ks: Keystream, dst: array<byte>, at: nat, pad: nat, ic: nat, src: seq<byte>)
    requires pad <= |src| && at + |src| <= dst.Length
    modifies dst
    ensures dst[..at + |src| - pad] == old(dst[..at]) + XorIc(ietf, ks, ic, src)[pad..]
  {
    hide XorIc;
    ghost var s := dst[..];
    var out := XorIc(ietf, ks, ic, src);
    assert dst[..at] == s[..at] && dst[at + |out|..] == s[at + |out|..];
    Store(dst, at, out);
    ghost var s1 := dst[..];
    assert dst[..at] == s1[..at] && dst[at + pad..at + |src|] == s1[at + pad..at + |src|];
    assert dst[at + |src| - pad..] == s1[at + |src| - pad..];
    Move(dst, at, at + pad, |src| - pad);
    ghost var s2 := dst[..];
    Dropped(s, at, pad, |src| - pad, out, s1, s2);
  }

  /** What a call of ss_decrypt comes to: plaintext, -1 for a nonce seen before, or the
      end of the process. */
  datatype Fate = Done | Refused | Exhausted

  /** A context and a buffer: nonce, whether it is in use, keystream position, and the
      block of memory with the number of bytes in use. */
  datatype Moment = Moment(iv: seq<byte>, init: bool, counter: nat, block: seq<byte>, len: nat)

  predicate MomentOk(m: Moment) { m.len <= |m.block| && (!m.init ==> |m.iv| <= |m.block|) }

  /** What ss_decrypt makes of a moment. A first buffer starts with the nonce; one seen
      before is kept but turned down, and the buffer is released; with fewer bytes than
      the nonce has, the process ends. */
  ghost predicate Deciphered(ks: seq<byte> -> Keystream, was: Moment, replayed: bool, f: Fate, m: Moment)
    requires MomentOk(was)
  {
    var n := |was.iv|;
    && f == (if was.init then Done else if replayed then Refused else if was.len < n then Exhausted else Done)
    && (f == Refused ==> m.init && m.counter == 0 && m.iv == was.block[..n] && m.len == 0)
    && (f == Done ==>
          && m.init && m.len <= |m.block|
          && if was.init then
               && m.iv == was.iv && m.counter == was.counter + was.len
               && m.block[..m.len] == XorAt(ks(m.iv), was.counter, was.block[..was.len])
             else
               && m.iv == was.block[..n] && m.counter == was.len - n
               && m.block[..m.len] == XorAt(ks(m.iv), 0, was.block[n..was.len]))
  }

  /** enc_ctx_t with its keystream. */
  class Context {
    const ietf: bool
    const ks: seq<byte> -> Keystream
    var iv: seq<byte>
    var init: bool
    var counter: nat

    constructor (ietf: bool, ks: seq<byte> -> Keystream, iv: seq<byte>)
      ensures this.ietf == ietf && this.ks == ks && this.iv == iv && !init
    {
      this.ietf, this.ks, this.iv := ietf, ks, iv;
      init, counter := false, 0;
    }

    /** How far the keystream is used. */
    function Used(): nat
      reads this
    {
      if init then counter else 0
    }

    /** The first call sends the nonce and starts the keystream. */
    method Begin(tmp: Buffer, size: nat, capacity: nat) returns (n: nat)
      modifies this`init, this`counter, tmp`data, tmp.data
      ensures init && counter == old(Used()) && n == if old(init) then 0 else |iv|
      ensures tmp.data == old(tmp.data) || fresh(tmp.data)
      ensures tmp.data.Length >= n + size && tmp.data[..n] == if old(init) then [] else iv
    {
      n := if init then 0 else |iv|;
      tmp.Realloc(n + size, capacity);
      if !init {
        Store(tmp.data, 0, iv);
        counter, init := 0, true;
      }
    }

    /** ss_encrypt; tmp is its static buffer. */
    method Encrypt(plain: Buffer, tmp: Buffer, capacity: nat)
      requires plain.Valid() && plain != tmp && plain.data != tmp.data
      requires ietf ==> Used() + plain.len <= 64 * WORD
      modifies this`init, this`counter, plain, plain.data, tmp, tmp.data
      ensures plain.Valid() && init && counter == old(Used()) + old(plain.len)
      ensures plain.Content() == Encrypted(ks(iv), iv, old(init), old(Used()), old(plain.Content()))
    {
      hide XorAt;
      hide Encrypted;
      ghost var m, from := plain.Content(), Used();
      EncryptedForm(ks(iv), iv, init, from, m);
      var n := plain.len;
      var at := Begin(tmp, (Used() % 64 + n) * 2, capacity);
      assert plain.Content() == m;
      XorContents(ietf, ks(iv), plain, tmp, at, counter, capacity);
      counter := counter + n;
      CopyBack(plain, tmp, at + n, capacity);
    }

    ghost function With(b: Buffer): Moment
      reads this, b, b.data
    {
      Moment(iv, init, counter, b.data[..], b.len)
    }

    /** ss_decrypt; whether the nonce of a first buffer was seen before is the answer of the
        cache. */
    method Decrypt(cipher: Buffer, tmp: Buffer, capacity: nat, replayed: bool) returns (f: Fate)
      requires MomentOk(With(cipher)) && cipher != tmp && cipher.data != tmp.data
      requires |iv| <= MAX_IV && InMemory(cipher.len)
      requires ietf ==> Used() + cipher.len <= 64 * WORD + if init then 0 else |iv|
      modifies this, cipher, cipher.data, tmp, tmp.data
      ensures Deciphered(ks, old(With(cipher)), replayed, f, With(cipher))
    {
      hide XorAt;
      hide Wanted;
      ghost var was := With(cipher);
      if !init && replayed {
        iv, counter, init, cipher.len := cipher.data[..|iv|], 0, true, 0;
        return Refused;
      }
      var ivLen, pad := if init then 0 else |iv|, Used() % 64;
      WantedExact(cipher.len, ivLen, pad);
      var want := Wanted(cipher.len, ivLen, pad);
      if !Allocatable(want) { return Exhausted; }
      tmp.Realloc(want, capacity);
      assert With(cipher) == was;
      f := Done;
      if init {
        var n := cipher.len;
        XorContents(ietf, ks(iv), cipher, tmp, 0, counter, capacity);
        counter := counter + n;
        CopyBack(cipher, tmp, n, capacity);
      } else {
        FirstDecrypt(cipher, tmp, capacity);
      }
    }

    /** The first call takes the nonce from the front; there is no padding. */
    method FirstDecrypt(cipher: Buffer, tmp: Buffer, capacity: nat)
      requires !init && cipher.Valid() && cipher != tmp && cipher.data != tmp.data
      requires |iv| <= cipher.len && cipher.len - |iv| <= tmp.data.Length
      modifies this, cipher, cipher.data, tmp, tmp.data
      ensures cipher.Valid() && init
      ensures var x, n := old(cipher.Content()), old(|iv|);
              && iv == x[..n] && counter == |x| - n && cipher.Content() == XorAt(ks(iv), 0, x[n..])
    {
      hide XorAt;
      ghost var x := cipher.Content();
      var n := |iv|;
      var k := cipher.len - n;
      NonceAndRest(cipher.data[..], cipher.len, n);
      iv := cipher.data[..n];
      init := true;
      var src := cipher.data[n..cipher.len];
      XorInto(ietf, ks(iv), tmp.data, 0, 0, 0, src);
      counter := k;
      CopyBack(cipher, tmp, k, capacity);
      assert FirstBlock(ietf, 0) == 0;
    }
  }

  lemma {:induction false} NonceAndRest(s: seq<byte>, len: nat, n: nat)
    requires n <= len <= |s|
    ensures s[..len][..n] == s[..n] && s[..len][n..] == s[n..len]
  {
  }

  /** Pad, xor and close the gap: the contents of b, xored from position counter on,
      behind the first at bytes of tmp. */
  method XorContents(ietf: bool, ks: Keystream, b: Buffer, tmp: Buffer, at: nat, counter: nat, capacity: nat)
    requires b.Valid() && b != tmp && b.data != tmp.data && at + counter % 64 + b.len <= tmp.data.Length
    requires ietf ==> counter + b.len <= 64 * WORD
    modifies b`data, b.data, tmp.data
    ensures b.data == old(b.data) || fresh(b.data)
    ensures tmp.data[..at + b.len] == old(tmp.data[..at]) + XorAt(ks, counter, old(b.Content()))
  {
    hide XorAt;
    hide XorIc;
    hide Zeros;
    var n, pad := b.len, counter % 64;
    ghost var m, head := b.Content(), tmp.data[..at];
    PadFront(b, pad, capacity);
    assert tmp.data[..at] == head;
    Padding(ietf, ks, counter, m);
    XorInto(ietf, ks, tmp.data, at, pad, counter / 64, b.data[..n + pad]);
  }

  /** The result replaces the buffer's contents. */
  method CopyBack(b: Buffer, tmp: Buffer, n: nat, capacity: nat)
    requires b != tmp && b.data != tmp.data && n <= tmp.data.Length
    modifies b, b.data
    ensures b.Valid() && b.len == n && b.Content() == old(tmp.data[..n])
  {
    b.Realloc(n, capacity);
    Store(b.data, 0, tmp.data[..n]);
    b.len := n;
    assert b.data[..n] == old(tmp.data[..n]);
  }
}
