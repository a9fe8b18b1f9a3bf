/** auth.c and verify.c: the protocol plug-ins that pad and checksum the plain
    stream. One receiver and one sender stand for the five families of
    post_decrypt and pre_encrypt functions, which differ in their codec. */
module FrameLayer {
  import opened Bits
  import opened Bytes
  import opened Checksums
  import opened Framing
  import opened Packets

  const RECV_BUFFER: nat := 16384
  const PACK_UNIT: nat := 2000

  /** What a post_decrypt call comes to: -1 for lack of room, -1 for a bad frame, a
      copy of negative length, or the payload bytes. */
  datatype Outcome = Overflow | Rejected | Wild | Delivered(out: seq<byte>)

  class Receiver {
    const codec: Codec
    const recvBuffer: array<byte>
    var recvSize: nat
    var recvId: nat

    ghost predicate Valid()
      reads this, recvBuffer
    {
      && Padded(codec) && codec.Valid()
      && recvBuffer.Length == RECV_BUFFER && recvSize <= RECV_BUFFER && recvId < WORD
      && Parse(codec, recvId, Pending()).More?
    }

    /** The bytes of the unfinished frame. */
    ghost function Pending(): seq<byte>
      reads this, recvBuffer
    {
      if recvSize <= recvBuffer.Length then recvBuffer[..recvSize] else []
    }

    constructor (codec: Codec)
      requires Padded(codec) && codec.Valid()
      ensures Valid() && fresh(recvBuffer) && this.codec == codec && Pending() == [] && recvId == 1
    {
      this.codec := codec;
      recvBuffer := new byte[RECV_BUFFER](_ => 0);
      recvSize := 0;
      recvId := 1;
    }

    /** One turn of the receive loop, on the buffers. */
    method Turn(out: array<byte>, cursor: nat) returns (t: Turned, cursor': nat)
      requires recvSize <= recvBuffer.Length && recvSize > codec.Guard() && recvId < WORD
      requires cursor + recvSize <= out.Length && out != recvBuffer
      modifies recvBuffer, `recvSize, `recvId, out
      ensures recvSize <= old(recvSize) && recvId < WORD && cursor' + recvSize <= out.Length
      ensures var s := Parse(codec, old(recvId), old(recvBuffer[..recvSize]));
        && (s.More? ==> t.Waiting? && cursor' == cursor && recvId == old(recvId) && recvSize == old(recvSize)
                        && recvBuffer[..] == old(recvBuffer[..]) && out[..] == old(out[..]))
        && (s.Bad? ==> t.Broken? && recvSize == 0)
        && (s.Lying? ==> t.Astray?)
        && (s.Frame? ==> t.Took? && recvId == s.id && recvSize < old(recvSize)
                         && recvBuffer[..recvSize] == old(recvBuffer[s.size..recvSize])
                         && out[..cursor'] == old(out[..cursor]) + s.payload)
    {
      hide Codec.HeaderOk;
      hide Codec.LengthOk;
      hide Codec.TrailerOk;
      hide Codec.DataPos;
      hide Parse;
      var x := recvBuffer[..recvSize];
      TurnCases(codec, recvId, x);
      if !codec.HeaderOk(recvId, x) || !codec.LengthOk(codec.Length(x)) {
        recvSize := 0;
        return Broken, cursor;
      }
      var n := codec.Length(x);
      if n > recvSize { return Waiting, cursor; }
      var f := recvBuffer[..n];
      assert x[..n] == f;
      var from, to := codec.DataPos(f), n - codec.TrailerLen();
      if !codec.TrailerOk(recvId, f) {
        recvSize := 0;
        return Broken, cursor;
      }
      if from > to { return Astray, cursor; }
      Store(out, cursor, f[from..to]);
      cursor' := cursor + (to - from);
      assert out[..cursor'] == old(out[..cursor]) + f[from..to];
      Move(recvBuffer, 0, n, recvSize - n);
      recvSize := recvSize - n;
      recvId := codec.Next(recvId);
      assert recvBuffer[..recvSize] == old(recvBuffer[n..recvSize]);
      t := Took;
    }

    /** The same turn, seen from the whole input x of the call. */
    method TurnInv(out: array<byte>, cursor: nat, ghost id0: nat, ghost x: seq<byte>) returns (t: Turned, cursor': nat)
      requires recvSize <= recvBuffer.Length && recvSize > codec.Guard() && recvId < WORD
      requires cursor + recvSize <= out.Length && out != recvBuffer
      requires LoopInv(codec, id0, x, out[..cursor], recvId, recvBuffer[..recvSize])
      modifies recvBuffer, `recvSize, `recvId, out
      ensures recvSize <= old(recvSize) && recvId < WORD && cursor' + recvSize <= out.Length
      ensures t.Broken? ==> Decode(codec, id0, x) == Fail && recvSize == 0
      ensures t.Astray? ==> Decode(codec, id0, x) == Undefined
      ensures t.Waiting? || t.Took? ==> LoopInv(codec, id0, x, out[..cursor'], recvId, recvBuffer[..recvSize])
      ensures t.Waiting? ==> Parse(codec, recvId, recvBuffer[..recvSize]).More?
      ensures t.Took? ==> recvSize < old(recvSize)
    {
      hide Decode;
      hide Parse;
      hide LoopInv;
      LoopTurn(codec, id0, x, out[..cursor], recvId, recvBuffer[..recvSize]);
      ghost var was, held := recvBuffer[..recvSize], recvBuffer[..];
      t, cursor' := Turn(out, cursor);
      if t.Took? {
        ghost var n := Parse(codec, old(recvId), was).size;
        assert was[n..] == old(recvBuffer[n..recvSize]);
      }
      if t.Waiting? {
        assert recvBuffer[..recvSize] == held[..recvSize] == was;
        assert out[..cursor'] == old(out[..])[..cursor];
        assert old(out[..])[..cursor] == old(out[..cursor]);
      }
    }

    lemma HasRoom()
      requires Valid()
      ensures recvSize < 8191
    {
      PendingBound(codec, recvId, Pending());
    }

    /** post_decrypt: append the input, take out every complete frame, shift the
        rest to the front. A receiver never holds more than an unfinished frame,
        so inputs of up to 8192 bytes are never refused for lack of room. After a copy
        of negative length nothing is promised. */
    method PostDecrypt(data: seq<byte>) returns (r: Outcome)
      requires Valid()
      modifies recvBuffer, `recvSize, `recvId
      ensures !r.Wild? ==> Valid()
      ensures r.Overflow? <==> old(recvSize) + |data| > 16384
      ensures |data| <= 8192 ==> !r.Overflow?
      ensures r.Overflow? ==> Pending() == old(Pending()) && recvId == old(recvId)
      ensures !r.Overflow? ==>
        match Decode(codec, old(recvId), old(Pending()) + data)
        case Fail => r == Rejected
        case Undefined => r == Wild
        case Ok(out, rest, id) => r == Delivered(out) && Pending() == rest && recvId == id
    {
      hide Decode;
      hide LoopInv;
      hide Finish;
      HasRoom();
      if recvSize + |data| > RECV_BUFFER { return Overflow; }
      ghost var id0, x := recvId, Pending() + data;
      Store(recvBuffer, recvSize, data);
      assert recvBuffer[..recvSize + |data|] == x;
      recvSize := recvSize + |data|;
      var out := new byte[recvSize](_ => 0);
      var cursor: nat := 0;
      assert out[..0] == [];
      LoopStart(codec, id0, x);
      while recvSize > codec.Guard()
        invariant recvSize <= RECV_BUFFER && recvId < WORD && cursor + recvSize <= out.Length
        invariant LoopInv(codec, id0, x, out[..cursor], recvId, recvBuffer[..recvSize])
        decreases recvSize
      {
        var t;
        t, cursor := TurnInv(out, cursor, id0, x);
        if t.Waiting? { break; }
        if t.Broken? { return Rejected; }
        if t.Astray? { return Wild; }
      }
      LoopTurn(codec, id0, x, out[..cursor], recvId, recvBuffer[..recvSize]);
      r := Delivered(out[..cursor]);
    }
  }

  datatype Turned = Waiting | Broken | Astray | Took

  /** What the receive loop keeps. */
  ghost predicate LoopInv(c: Codec, id0: nat, x: seq<byte>, out: seq<byte>, id: nat, rest: seq<byte>) {
    Decode(c, id0, x) == Prepend(out, Decode(c, id, rest))
  }

  lemma {:induction false} LoopStart(c: Codec, id: nat, x: seq<byte>)
    ensures LoopInv(c, id, x, [], id, x)
  {
    PrependNothing(Decode(c, id, x));
  }

  lemma {:induction false} LoopTurn(c: Codec, id0: nat, x: seq<byte>, out: seq<byte>, id: nat, rest: seq<byte>)
    requires LoopInv(c, id0, x, out, id, rest)
    ensures match Parse(c, id, rest)
      case More => Decode(c, id0, x) == Ok(out, rest, id)
      case Bad => Decode(c, id0, x) == Fail
      case Lying => Decode(c, id0, x) == Undefined
      case Frame(p, n, id') => LoopInv(c, id0, x, out + p, id', rest[n..])
  {
    var r := Parse(c, id, rest);
    assert out + [] == out;
    if r.Frame? { PrependTwice(out, r.payload, Decode(c, r.id, rest[r.size..])); }
  }

  // ---------- The sending side ----------

  /** Bytes a frame adds to a payload of the given length, at most. */
  function Overhead(c: Codec, dataLen: nat): nat {
    match c
    case Simple => 22
    case Sha1 => 22
    case Sha1V2 => if dataLen > 1300 then 7 else 1030
    case Sha1V4 => if dataLen > 1300 then 9 else 1032
    case Aes128(_, _) => if dataLen > 1200 then 9 else 521
    case _ => 12
  }

  /** Bytes the authentication packet adds to the head of the first payload, at
      most: padding, time, client and connection numbers, tag. */
  function HelloOverhead(c: Codec): nat {
    match c
    case Simple => 34
    case Sha1 => 156
    case Sha1V2 => 1052
    case Sha1V4 => 1052
    case Aes128(_, _) => 1059
    case _ => 0
  }

  /** Size of the scratch buffer pre_encrypt allocates; verify.c, which sends no
      authentication packet, allocates 32 spare bytes only. */
  function Scratch(c: Codec, dataLen: nat, hello: bool): nat {
    2 * dataLen + match c
      case Simple => if hello then 64 else 32
      case Sha1 => 256
      case _ => 4096
  }

  lemma {:induction false} OverheadBound(c: Codec, id: nat, p: Packet)
    requires Padded(c) && PacketOk(c, id, p)
    ensures FrameLen(c, p) <= |p.data| + Overhead(c, |p.data|)
  {
  }

  /** Length of the piece cut off next: a full unit while more is left. */
  function PieceLen(left: nat): (n: nat)
    ensures n <= left && (left > 0 ==> n > 0)
  {
    if left > PACK_UNIT then PACK_UNIT else left
  }

  /** Number of pieces of a payload. */
  function Units(left: nat): nat {
    if left == 0 then 0 else 1 + Units(left - PieceLen(left))
  }

  /** The packets a payload becomes, with the padding drawn for each. */
  function Plan(data: seq<byte>, pads: seq<seq<byte>>): (ps: seq<Packet>)
    requires Units(|data|) <= |pads|
    ensures |ps| == Units(|data|)
    decreases |data|
  {
    if data == [] then []
    else var n := PieceLen(|data|); [Packet(data[..n], pads[0])] + Plan(data[n..], pads[1..])
  }

  /** Splitting loses nothing. */
  lemma {:induction false} PlanPayloads(data: seq<byte>, pads: seq<seq<byte>>)
    requires Units(|data|) <= |pads|
    ensures Payloads(Plan(data, pads)) == data
    decreases |data|
  {
    if data != [] {
      var n := PieceLen(|data|);
      PlanPayloads(data[n..], pads[1..]);
      assert Plan(data, pads)[1..] == Plan(data[n..], pads[1..]);
      assert data == data[..n] + data[n..];
    }
  }

  /** pack_data: header, padding and payload in place, then the trailer. */
  method Pack(c: Codec, id: nat, table: seq<nat>, p: Packet, out: array<byte>, at: nat) returns (size: nat)
    requires Padded(c) && c.Valid() && PacketOk(c, id, p) && IsTable(table)
    requires at + FrameLen(c, p) <= out.Length
    modifies out
    ensures size == FrameLen(c, p)
    ensures out[..at + size] == old(out[..at]) + FrameOf(c, id, p)
  {
    hide Header;
    hide Field;
    hide Trailer;
    size := FrameLen(c, p);
    var body := Header(c, id, size) + Field(c, id, p) + p.data;
    var tail := Tail(c, id, table, body);
    assert |body| + 4 == size;
    ghost var s := out[..];
    Store(out, at, body);
    ghost var s1 := out[..];
    Store(out, at + size - 4, tail);
    TwoStores(s, at, body, tail, s1, out[..]);
    assert out[..at + size] == out[..][..at + size] && s[..at] == old(out[..at]);
  }

  /** The trailer of a frame. */
  method Tail(c: Codec, id: nat, table: seq<nat>, body: seq<byte>) returns (tail: seq<byte>)
    requires Padded(c) && c.Valid() && IsTable(table)
    ensures tail == Trailer(c, id, body) && |tail| == 4
  {
    hide Register;
    hide Adler;
    if c.Simple? {
      var crc := TableRegister(table, body);
      return Le32(crc);
    } else if c.Aes128? {
      return c.mac(c.Key(id), body)[..4];
    }
    var sum := Adler32(body);
    return Le32(sum as int);
  }

  lemma {:induction false} TwoStores(s: seq<byte>, at: nat, a: seq<byte>, b: seq<byte>, s1: seq<byte>, s2: seq<byte>)
    requires at + |a| + |b| <= |s| && s1 == s[..at] + a + s[at + |a|..]
    requires s2 == s1[..at + |a|] + b + s1[at + |a| + |b|..]
    ensures |s2| == |s| && s2[..at + |a| + |b|] == s[..at] + (a + b)
  {
  }

  /** What the splitting loop keeps: the bytes written and the frames still to be
      written make up the whole output, and lead to the same counter. */
  ghost predicate Splitting(c: Codec, whole: seq<byte>, end: nat, written: seq<byte>, id: nat, data: seq<byte>,
                            pads: seq<seq<byte>>)
    requires c.Valid()
  {
    && Units(|data|) <= |pads| && AllOk(c, id, Plan(data, pads))
    && whole == written + Stream(c, id, Plan(data, pads)) && end == Count(c, id, Units(|data|))
  }

  lemma {:induction false} SplitOne(c: Codec, whole: seq<byte>, end: nat, written: seq<byte>, id: nat, data: seq<byte>,
                                    pads: seq<seq<byte>>)
    requires c.Valid() && data != [] && Splitting(c, whole, end, written, id, data, pads)
    ensures |pads| >= 1
    ensures var n := PieceLen(|data|);
      var p := Packet(data[..n], pads[0]);
      && PacketOk(c, id, p)
      && Splitting(c, whole, end, written + FrameOf(c, id, p), c.Next(id), data[n..], pads[1..])
  {
    hide PacketOk;
    hide FrameOf;
    var n := PieceLen(|data|);
    var ps, qs := Plan(data, pads), Plan(data[n..], pads[1..]);
    assert ps[0] == Packet(data[..n], pads[0]) && ps[1..] == qs;
    var f := FrameOf(c, id, ps[0]);
    Associate(written, f, Stream(c, c.Next(id), qs));
  }

  /** After u full units the output exceeds the input by little. */
  ghost predicate Budget(c: Codec, headSize: nat, helloLen: nat, pos: nat, cursor: nat, u: nat) {
    && headSize <= pos && 2000 * u <= pos - headSize
    && cursor <= helloLen + (pos - headSize) + 22 * u
    && helloLen <= headSize + HelloOverhead(c) && (helloLen == 0 ==> headSize == 0)
  }

  /** The scratch buffer has room for the next frame. */
  lemma {:induction false} RoomForPiece(c: Codec, dataLen: nat, headSize: nat, helloLen: nat, pos: nat, cursor: nat,
                                        u: nat)
    requires Padded(c) && pos < dataLen && Budget(c, headSize, helloLen, pos, cursor, u)
    ensures var n := PieceLen(dataLen - pos);
      cursor + n + Overhead(c, n) <= Scratch(c, dataLen, helloLen > 0)
  {
  }

  lemma {:induction false} BudgetStep(c: Codec, headSize: nat, helloLen: nat, pos: nat, cursor: nat, u: nat, size: nat)
    requires Padded(c) && Budget(c, headSize, helloLen, pos, cursor, u)
    requires size <= PACK_UNIT + Overhead(c, PACK_UNIT)
    ensures Budget(c, headSize, helloLen, pos + PACK_UNIT, cursor + size, u + 1)
  {
  }

  lemma {:induction false} ScratchHolds(c: Codec, dataLen: nat, headSize: nat, helloLen: nat)
    requires Padded(c) && headSize <= dataLen && helloLen <= headSize + HelloOverhead(c)
    requires helloLen == 0 ==> headSize == 0
    ensures helloLen <= Scratch(c, dataLen, helloLen > 0) && PACK_UNIT == 2000
    ensures Budget(c, headSize, helloLen, headSize, helloLen, 0)
  {
  }

  lemma {:induction false} SplitStart(c: Codec, id: nat, hello: seq<byte>, data: seq<byte>, pads: seq<seq<byte>>)
    requires c.Valid() && Units(|data|) <= |pads| && AllOk(c, id, Plan(data, pads))
    ensures Splitting(c, hello + Stream(c, id, Plan(data, pads)), Count(c, id, Units(|data|)), hello, id, data, pads)
  {
  }

  /** One frame of the splitting loop. */
  method Piece(c: Codec, table: seq<nat>, data: seq<byte>, pads: seq<seq<byte>>, out: array<byte>,
               ghost whole: seq<byte>, ghost end: nat, pos: nat, cursor: nat, id: nat, u: nat)
    returns (n: nat, size: nat)
    requires Padded(c) && c.Valid() && IsTable(table)
    requires pos < |data| && u <= |pads| && cursor <= out.Length
    requires Splitting(c, whole, end, out[..cursor], id, data[pos..], pads[u..])
    requires var n := PieceLen(|data| - pos);
      cursor + n + Overhead(c, n) <= out.Length
    modifies out
    ensures n == PieceLen(|data| - pos)
    ensures size <= n + Overhead(c, n) && cursor + size <= out.Length && u < |pads|
    ensures Splitting(c, whole, end, out[..cursor + size], c.Next(id), data[pos + n..], pads[u + 1..])
  {
    hide Splitting;
    hide FrameOf;
    hide PacketOk;
    SplitOne(c, whole, end, out[..cursor], id, data[pos..], pads[u..]);
    n := PieceLen(|data| - pos);
    var p := Packet(data[pos..pos + n], pads[u]);
    assert data[pos..][..n] == p.data && data[pos..][n..] == data[pos + n..];
    assert pads[u..][1..] == pads[u + 1..];
    OverheadBound(c, id, p);
    size := Pack(c, id, table, p, out, cursor);
  }

  /** The same, with the room it needs and leaves. */
  method NextPiece(c: Codec, table: seq<nat>, data: seq<byte>, pads: seq<seq<byte>>, out: array<byte>,
                   ghost whole: seq<byte>, ghost end: nat,
                   ghost headSize: nat, ghost helloLen: nat, pos: nat, cursor: nat, id: nat, u: nat)
    returns (pos': nat, cursor': nat, id': nat, u': nat)
    requires Padded(c) && c.Valid() && IsTable(table)
    requires pos < |data| && u <= |pads| && cursor <= out.Length == Scratch(c, |data|, helloLen > 0)
    requires Budget(c, headSize, helloLen, pos, cursor, u)
    requires Splitting(c, whole, end, out[..cursor], id, data[pos..], pads[u..])
    modifies out
    ensures pos' == pos + PieceLen(|data| - pos) && u' == u + 1 <= |pads| && cursor' <= out.Length
    ensures |data| - pos > PACK_UNIT ==> Budget(c, headSize, helloLen, pos', cursor', u')
    ensures Splitting(c, whole, end, out[..cursor'], id', data[pos'..], pads[u'..])
  {
    hide Splitting;
    hide Budget;
    hide Overhead;
    hide Scratch;
    RoomForPiece(c, |data|, headSize, helloLen, pos, cursor, u);
    var n, size := Piece(c, table, data, pads, out, whole, end, pos, cursor, id, u);
    if n == PACK_UNIT { BudgetStep(c, headSize, helloLen, pos, cursor, u, size); }
    pos', cursor', id', u' := pos + n, cursor + size, c.Next(id), u + 1;
  }

  lemma {:induction false} SplitDone(c: Codec, whole: seq<byte>, end: nat, written: seq<byte>, id: nat,
                                     data: seq<byte>, pads: seq<seq<byte>>)
    requires c.Valid() && data == [] && Splitting(c, whole, end, written, id, data, pads)
    ensures written == whole && id == end
  {
    assert written + [] == written;
  }

  /** The splitting loop, and the piece after it. */
  method SplitAll(c: Codec, table: seq<nat>, data: seq<byte>, pads: seq<seq<byte>>, out: array<byte>,
                  ghost whole: seq<byte>, ghost end: nat, headSize: nat, helloLen: nat, id0: nat)
    returns (cursor: nat, id: nat)
    requires Padded(c) && c.Valid() && IsTable(table)
    requires headSize <= |data| && helloLen <= out.Length == Scratch(c, |data|, helloLen > 0)
    requires Budget(c, headSize, helloLen, headSize, helloLen, 0)
    requires Splitting(c, whole, end, out[..helloLen], id0, data[headSize..], pads)
    modifies out
    ensures cursor <= out.Length && out[..cursor] == whole && id == end
  {
    hide Splitting;
    hide Budget;
    hide Scratch;
    var pos: nat, u: nat := headSize, 0;
    cursor, id := helloLen, id0;
    assert pads[0..] == pads;
    while |data| - pos > PACK_UNIT
      invariant pos <= |data| && u <= |pads| && cursor <= out.Length
      invariant Budget(c, headSize, helloLen, pos, cursor, u)
      invariant Splitting(c, whole, end, out[..cursor], id, data[pos..], pads[u..])
    {
      pos, cursor, id, u := NextPiece(c, table, data, pads, out, whole, end, headSize, helloLen, pos, cursor, id, u);
    }
    if pos < |data| {
      pos, cursor, id, u := NextPiece(c, table, data, pads, out, whole, end, headSize, helloLen, pos, cursor, id, u);
    }
    SplitDone(c, whole, end, out[..cursor], id, data[pos..], pads[u..]);
  }

  /** pre_encrypt: an optional authentication packet for the head of the data,
      then the frames of the pieces, all written inside the scratch buffer. */
  method PreEncrypt(c: Codec, id0: nat, table: seq<nat>, data: seq<byte>, headSize: nat, hello: seq<byte>,
                    pads: seq<seq<byte>>)
    returns (wire: seq<byte>, id: nat)
    requires Padded(c) && c.Valid() && id0 < WORD && IsTable(table)
    requires headSize <= |data| && |hello| <= headSize + HelloOverhead(c) && (hello == [] ==> headSize == 0)
    requires Units(|data| - headSize) <= |pads|
    requires AllOk(c, id0, Plan(data[headSize..], pads))
    ensures wire == hello + Stream(c, id0, Plan(data[headSize..], pads))
    ensures id == Count(c, id0, Units(|data| - headSize))
  {
    hide Stream;
    hide Count;
    hide Plan;
    hide AllOk;
    hide Units;
    hide Splitting;
    hide Budget;
    hide Scratch;
    ghost var whole, end := hello + Stream(c, id0, Plan(data[headSize..], pads)),
      Count(c, id0, Units(|data| - headSize));
    SplitStart(c, id0, hello, data[headSize..], pads);
    ScratchHolds(c, |data|, headSize, |hello|);
    var out := new byte[Scratch(c, |data|, hello != [])](_ => 0);
    Store(out, 0, hello);
    assert out[..|hello|] == hello;
    var cursor;
    cursor, id := SplitAll(c, table, data, pads, out, whole, end, headSize, |hello|, id0);
    wire := out[..cursor];
  }

  /** The two ends agree: what pre_encrypt sends after its authentication packet
      is what post_decrypt delivers, for every payload, every padding drawn and
      every fragmentation of the wire. */
  lemma {:induction false} EndToEnd(c: Codec, id: nat, data: seq<byte>, pads: seq<seq<byte>>, bufs: seq<seq<byte>>)
    requires Padded(c) && c.Valid() && Units(|data|) <= |pads|
    requires AllOk(c, id, Plan(data, pads))
    requires Flatten(bufs) == Stream(c, id, Plan(data, pads))
    ensures FeedAll(c, id, [], bufs) == Ok(data, [], Count(c, id, Units(|data|)))
  {
    hide FeedAll;
    hide Stream;
    WholeStream(c, id, Plan(data, pads), bufs);
    PlanPayloads(data, pads);
  }

  // ---------- A connection's calls ----------

  /** A call of pre_encrypt after the authentication packet: its data and the padding
      drawn for each frame. */
  datatype Call = Call(data: seq<byte>, pads: seq<seq<byte>>)

  predicate CallsOk(c: Codec, id: nat, calls: seq<Call>)
    decreases |calls|
  {
    calls == []
    || (Units(|calls[0].data|) <= |calls[0].pads| && AllOk(c, id, Plan(calls[0].data, calls[0].pads))
        && CallsOk(c, Count(c, id, Units(|calls[0].data|)), calls[1..]))
  }

  /** The bytes of a list of calls, each going on with the counter the one before left. */
  function Wire(c: Codec, id: nat, calls: seq<Call>): seq<byte>
    requires c.Valid() && CallsOk(c, id, calls)
    decreases |calls|
  {
    if calls == [] then []
    else Stream(c, id, Plan(calls[0].data, calls[0].pads)) + Wire(c, Count(c, id, Units(|calls[0].data|)), calls[1..])
  }

  /** The sender's counter after them. */
  function PackId(c: Codec, id: nat, calls: seq<Call>): nat
    decreases |calls|
  {
    if calls == [] then id else PackId(c, Count(c, id, Units(|calls[0].data|)), calls[1..])
  }

  function Given(calls: seq<Call>): seq<byte> {
    if calls == [] then [] else calls[0].data + Given(calls[1..])
  }

  function Plans(calls: seq<Call>): seq<Packet>
    requires forall k :: 0 <= k < |calls| ==> Units(|calls[k].data|) <= |calls[k].pads|
  {
    if calls == [] then [] else Plan(calls[0].data, calls[0].pads) + Plans(calls[1..])
  }

  lemma {:induction false} CallsFit(c: Codec, id: nat, calls: seq<Call>)
    requires CallsOk(c, id, calls)
    ensures forall k :: 0 <= k < |calls| ==> Units(|calls[k].data|) <= |calls[k].pads|
    decreases |calls|
  {
    hide AllOk;
    hide Units;
    if calls != [] {
      CallsFit(c, Count(c, id, Units(|calls[0].data|)), calls[1..]);
      forall k | 0 <= k < |calls| ensures Units(|calls[k].data|) <= |calls[k].pads| {
        if k > 0 { assert calls[k] == calls[1..][k - 1]; }
      }
    }
  }

  lemma {:induction false} NothingSent(c: Codec, id: nat)
    requires c.Valid()
    ensures AllOk(c, id, []) && Stream(c, id, []) == [] && Payloads([]) == [] && Count(c, id, 0) == id
  {
  }

  /** All the calls together are one stream of frames. */
  lemma {:induction false} WireIsStream(c: Codec, id: nat, calls: seq<Call>)
    requires c.Valid() && CallsOk(c, id, calls)
    requires forall k :: 0 <= k < |calls| ==> Units(|calls[k].data|) <= |calls[k].pads|
    ensures AllOk(c, id, Plans(calls)) && Wire(c, id, calls) == Stream(c, id, Plans(calls))
    ensures PackId(c, id, calls) == Count(c, id, |Plans(calls)|) && Given(calls) == Payloads(Plans(calls))
    decreases |calls|
  {
    hide Units;
    hide Plan;
    hide Stream;
    hide AllOk;
    hide Payloads;
    hide Count;
    if calls == [] {
      NothingSent(c, id);
    } else {
      var ps, qs := Plan(calls[0].data, calls[0].pads), Plans(calls[1..]);
      WireIsStream(c, Count(c, id, |ps|), calls[1..]);
      StreamJoin(c, id, ps, qs);
      CountJoin(c, id, |ps|, |qs|);
      PayloadsJoin(ps, qs);
      PlanPayloads(calls[0].data, calls[0].pads);
    }
  }

  /** Lockstep: after any list of calls, and however the network cuts their bytes, the
      receiver has delivered exactly the data given, and its counter is the sender's. */
  lemma {:induction false} Lockstep(c: Codec, id: nat, calls: seq<Call>, bufs: seq<seq<byte>>)
    requires Padded(c) && c.Valid() && CallsOk(c, id, calls) && Flatten(bufs) == Wire(c, id, calls)
    ensures FeedAll(c, id, [], bufs) == Ok(Given(calls), [], PackId(c, id, calls))
  {
    hide FeedAll;
    hide Stream;
    hide Wire;
    CallsFit(c, id, calls);
    WireIsStream(c, id, calls);
    WholeStream(c, id, Plans(calls), bufs);
  }

  lemma {:induction false} WholeStream(c: Codec, id: nat, ps: seq<Packet>, bufs: seq<seq<byte>>)
    requires Padded(c) && c.Valid() && AllOk(c, id, ps) && Flatten(bufs) == Stream(c, id, ps)
    ensures FeedAll(c, id, [], bufs) == Ok(Payloads(ps), [], Count(c, id, |ps|))
  {
    hide FeedAll;
    hide Stream;
    Delivery(c, id, ps, bufs);
    StreamLength(c, id, ps);
    Drained(c, id, ps);
    assert ps[..|ps|] == ps;
    var s := Flatten(bufs);
    assert s[|s|..] == [];
  }
}
