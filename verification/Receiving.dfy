/** Exactly what the receivers take: a turn of each receive loop in terms of the bytes of the
    wire formats, and what that makes of whole streams. */
module Receiving {
  import opened Bits
  import opened Bytes
  import opened Checksums
  import opened Framing
  import opened Packets

  // ---------- The formats ----------

  /** The length of a header. */
  function HeadLen(c: Codec): nat {
    match c
    case Sha1V4 => 4
    case Aes128(_, _) => 4
    case ServerRecord => 5
    case ClientRecord => 5
    case _ => 2
  }

  /** It is looked at once this many bytes are there. */
  function Needed(c: Codec): nat { if c.Chunk? then 2 else HeadLen(c) + 1 }

  function FrameSize(c: Codec, x: seq<byte>): nat
    requires |x| >= HeadLen(c)
  {
    match c
    case Chunk(_, _) => x[0] as int * 256 + x[1] as int + 12
    case Aes128(_, _) => x[1] as int * 256 + x[0] as int
    case ServerRecord => x[3] as int * 256 + x[4] as int + 5
    case ClientRecord => x[3] as int * 256 + x[4] as int + 5
    case _ => x[0] as int * 256 + x[1] as int
  }

  predicate SizeOk(c: Codec, n: nat) {
    match c
    case Chunk(_, _) => 12 <= n
    case Aes128(_, _) => 8 <= n <= 8191
    case ServerRecord => 5 <= n
    case ClientRecord => 5 <= n
    case _ => 7 <= n <= 8191
  }

  /** The check of the header, over its first two bytes. */
  ghost predicate Head(c: Codec, id: nat, x: seq<byte>)
    requires c.Valid() && |x| >= HeadLen(c)
  {
    match c
    case Sha1V4 => x[2..4] == [Crc(x[..2]) % 256, Crc(x[..2]) / 256 % 256]
    case Aes128(mac, key) => x[2..4] == mac(key + Le32(id), x[..2])[..2]
    case ServerRecord => x[..3] == [0x17, 3, 3]
    case ClientRecord => x[0] == 0x17
    case _ => true
  }

  /** The check of the whole frame: its last four bytes, or the ten behind its length. */
  ghost predicate Sealed(c: Codec, id: nat, f: seq<byte>)
    requires c.Valid() && SizeOk(c, |f|)
  {
    var n := |f| - 4;
    match c
    case Chunk(mac, iv) => f[2..12] == mac(iv + Be32(id), f[12..])[..10]
    case Simple => f[n..] == Le32(Register(ONES, f[..n]))
    case Aes128(mac, key) => f[n..] == mac(key + Le32(id), f[..n])[..4]
    case ServerRecord => true
    case ClientRecord => true
    case _ => f[n..] == Le32(Adler(f[..n]))
  }

  /** Where the payload begins: behind the padding, whose length is one byte, or behind a
      byte 255 two. */
  function PayloadAt(c: Codec, f: seq<byte>): nat
    requires SizeOk(c, |f|)
  {
    match c
    case Chunk(_, _) => 12
    case Sha1V2 => if f[2] < 255 then 2 + f[2] as int else 2 + (f[3] as int * 256 + f[4] as int)
    case Sha1V4 => if f[4] < 255 then 4 + f[4] as int else 4 + (f[5] as int * 256 + f[6] as int)
    case Aes128(_, _) => if f[4] < 255 then 4 + f[4] as int else 4 + (f[6] as int * 256 + f[5] as int)
    case ServerRecord => 5
    case ClientRecord => 5
    case _ => 2 + f[2] as int
  }

  function PayloadEnd(c: Codec, n: nat): int {
    if c.Chunk? || c.ServerRecord? || c.ClientRecord? then n else n - 4
  }

  function Counted(c: Codec, id: nat): nat { if c.Chunk? || c.Aes128? then (id + 1) % 0x1_0000_0000 else id }

  // ---------- One turn ----------

  lemma {:induction false} HeadExact(c: Codec, id: nat, x: seq<byte>)
    requires c.Valid() && |x| >= Needed(c)
    ensures |x| > c.Guard() && c.HeaderOk(id, x) == Head(c, id, x) && c.Length(x) == FrameSize(c, x)
  {
    hide Crc;
    if c.Sha1V4? {
      var w := Crc(x[..2]);
      assert w % 65536 == w / 256 % 256 * 256 + w % 256;
      assert x[2..4] == [x[2], x[3]];
    }
    if c.ServerRecord? { assert x[..3] == [x[0], x[1], x[2]]; }
  }

  lemma {:induction false} SealExact(c: Codec, id: nat, f: seq<byte>)
    requires c.Valid() && SizeOk(c, |f|)
    ensures |f| >= c.MinLen() && c.TrailerOk(id, f) == Sealed(c, id, f)
  {
    hide Register;
    hide Adler;
    hide CrcFrameOk;
    hide AdlerFrameOk;
    var n := |f| - 4;
    if Padded(c) {
      assert f == f[..n] + f[n..];
      CrcFrameExact(f[..n], f[n..]);
      AdlerFrameExact(f[..n], f[n..]);
    }
  }

  /** A turn of a receive loop, case by case: it waits for the header, turns it down when
      its check or its length is wrong, waits for the frame, turns it down when its check is
      wrong, and otherwise delivers what stands between padding and check, unless that has
      a negative length. */
  lemma {:induction false} TurnExact(c: Codec, id: nat, x: seq<byte>)
    requires c.Valid()
    ensures Parse(c, id, x) ==
      if |x| < Needed(c) then More
      else if !Head(c, id, x) || !SizeOk(c, FrameSize(c, x)) then Bad
      else if |x| < FrameSize(c, x) then More
      else
        var f := x[..FrameSize(c, x)];
        if !Sealed(c, id, f) then Bad
        else if PayloadAt(c, f) > PayloadEnd(c, |f|) then Lying
        else Frame(f[PayloadAt(c, f)..PayloadEnd(c, |f|)], |f|, Counted(c, id))
  {
    hide Codec.HeaderOk;
    hide Codec.TrailerOk;
    hide Codec.Length;
    hide Head;
    hide Sealed;
    hide FrameSize;
    if |x| >= Needed(c) {
      HeadExact(c, id, x);
      var n := FrameSize(c, x);
      SizesAgree(c, n);
      if SizeOk(c, n) && n <= |x| { SealExact(c, id, x[..n]); }
      if Head(c, id, x) && SizeOk(c, n) && n <= |x| { PlaceExact(c, x[..n]); }
    }
  }

  lemma {:induction false} SizesAgree(c: Codec, n: nat)
    ensures (c.Chunk? ==> n >= 12) && (c.ServerRecord? || c.ClientRecord? ==> n >= 5) ==> c.LengthOk(n) == SizeOk(c, n)
    ensures c.LengthOk(n) && n >= c.MinLen() <==> SizeOk(c, n)
  {
  }

  lemma {:induction false} PlaceExact(c: Codec, f: seq<byte>)
    requires SizeOk(c, |f|)
    ensures |f| >= c.MinLen() && c.DataPos(f) == PayloadAt(c, f) && |f| - c.TrailerLen() == PayloadEnd(c, |f|)
  {
  }

  // ---------- Whole streams ----------

  /** The frame at the front is turned down. */
  ghost predicate Forged(c: Codec, id: nat, y: seq<byte>)
    requires c.Valid()
  {
    && |y| >= Needed(c)
    && (!Head(c, id, y) || !SizeOk(c, FrameSize(c, y))
        || (FrameSize(c, y) <= |y| && !Sealed(c, id, y[..FrameSize(c, y)])))
  }

  /** A run fails if and only if the first frame it does not take is one it turns down. */
  lemma {:induction false} FailExact(c: Codec, id: nat, x: seq<byte>)
    requires c.Valid()
    ensures var (id', y) := Stop(c, id, x); Decode(c, id, x).Fail? <==> Forged(c, id', y)
    decreases |x|
  {
    hide Parse;
    hide Head;
    hide Sealed;
    hide SizeOk;
    hide FrameSize;
    TurnExact(c, id, x);
    var r := Parse(c, id, x);
    if r.Frame? { FailExact(c, r.id, x[r.size..]); }
  }

  /** The frames a run takes. */
  function Taken(c: Codec, id: nat, x: seq<byte>): seq<seq<byte>>
    decreases |x|
  {
    var r := Parse(c, id, x);
    if r.Frame? then [x[..r.size]] + Taken(c, r.id, x[r.size..]) else []
  }

  /** Frames that pass every check, numbered from id on. */
  ghost predicate Genuine(c: Codec, id: nat, fs: seq<seq<byte>>)
    requires c.Valid()
    decreases |fs|
  {
    fs == []
    || (&& |fs[0]| >= HeadLen(c) && SizeOk(c, |fs[0]|) && FrameSize(c, fs[0]) == |fs[0]|
        && Head(c, id, fs[0]) && Sealed(c, id, fs[0]) && PayloadAt(c, fs[0]) <= PayloadEnd(c, |fs[0]|)
        && Genuine(c, Counted(c, id), fs[1..]))
  }

  /** Their payloads, one after the other. */
  function Contents(c: Codec, fs: seq<seq<byte>>): seq<byte>
    requires forall k :: 0 <= k < |fs| ==>
               SizeOk(c, |fs[k]|) && PayloadAt(c, fs[k]) <= PayloadEnd(c, |fs[k]|) && PayloadEnd(c, |fs[k]|) <= |fs[k]|
  {
    if fs == [] then [] else fs[0][PayloadAt(c, fs[0])..PayloadEnd(c, |fs[0]|)] + Contents(c, fs[1..])
  }

  lemma {:induction false} GenuineEach(c: Codec, id: nat, fs: seq<seq<byte>>)
    requires c.Valid() && Genuine(c, id, fs)
    ensures forall k :: 0 <= k < |fs| ==>
              SizeOk(c, |fs[k]|) && PayloadAt(c, fs[k]) <= PayloadEnd(c, |fs[k]|) && PayloadEnd(c, |fs[k]|) <= |fs[k]|
    decreases |fs|
  {
    hide Head;
    hide Sealed;
    hide FrameSize;
    if fs != [] {
      GenuineEach(c, Counted(c, id), fs[1..]);
      assert forall k :: 0 < k < |fs| ==> fs[k] == fs[1..][k - 1];
    }
  }

  /** The front of a frame's bytes decides. */
  lemma {:induction false} FrontOnly(c: Codec, id: nat, x: seq<byte>, n: nat)
    requires c.Valid() && HeadLen(c) <= n <= |x|
    ensures Head(c, id, x[..n]) == Head(c, id, x) && FrameSize(c, x[..n]) == FrameSize(c, x)
  {
    var y := x[..n];
    assert y[..2] == x[..2];
    if c.ServerRecord? { assert y[..3] == x[..3]; }
    if c.Sha1V4? || c.Aes128? { assert y[2..4] == x[2..4]; }
  }

  /** Nothing is delivered but the payloads of genuine frames, in order: what a receiver has
      read is a list of such frames and the bytes it still holds. */
  lemma {:induction false} OnlyGenuine(c: Codec, id: nat, x: seq<byte>)
    requires c.Valid() && Decode(c, id, x).Ok?
    ensures var d, fs := Decode(c, id, x), Taken(c, id, x);
            && Genuine(c, id, fs) && Flatten(fs) + d.rest == x
            && (GenuineEach(c, id, fs); d.out == Contents(c, fs))
    decreases |x|
  {
    hide Parse;
    hide Head;
    hide Sealed;
    hide FrameSize;
    TurnExact(c, id, x);
    var r := Parse(c, id, x);
    if r.Frame? {
      var f, y := x[..r.size], x[r.size..];
      OnlyGenuine(c, r.id, y);
      var fs := Taken(c, r.id, y);
      HeadFits(c, id, x);
      FrontOnly(c, id, x, r.size);
      var all := [f] + fs;
      assert all[0] == f && all[1..] == fs;
      assert x == f + y;
      Associate(f, Flatten(fs), Decode(c, r.id, y).rest);
    } else {
      assert Flatten([]) + x == x;
    }
  }

  lemma {:induction false} HeadFits(c: Codec, id: nat, x: seq<byte>)
    requires c.Valid() && Parse(c, id, x).Frame?
    ensures Parse(c, id, x).size >= HeadLen(c)
  {
    hide Head;
    hide Sealed;
    hide FrameSize;
    hide Parse;
    TurnExact(c, id, x);
  }
}
