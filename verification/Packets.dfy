/** The sending side of the framed streams, and the delivery theorem: whatever
    padding the sender draws and however the network cuts the stream, the
    receiver delivers the payloads of the completed frames and nothing else. */
module Packets {
  import opened Bits
  import opened Bytes
  import opened Checksums
  import opened Framing

  /** A payload and the padding bytes drawn for it. */
  datatype Packet = Packet(data: seq<byte>, pad: seq<byte>)

  /** Padding lengths a packer may draw for a payload. */
  predicate PadOk(c: Codec, id: nat, dataLen: nat, padLen: nat) {
    match c
    case Chunk(_, _) => padLen == 0
    case ServerRecord => padLen == 0
    case ClientRecord => padLen == 0
    case Simple => 1 <= padLen <= 16
    case Sha1 => 1 <= padLen <= 16
    case Sha1V2 => 1 <= padLen <= (if dataLen > 1300 then 1 else if dataLen > 400 then 128 else 1024)
    case Sha1V4 => 1 <= padLen <= (if dataLen > 1300 then 1 else if dataLen > 400 then 128 else 1024)
    case Aes128(_, _) =>
      padLen == 1 ||
      (dataLen <= 1200 && padLen == (if id > 4 then 33 else if dataLen > 900 then 129 else 513))
  }

  /** Payload lengths the callers hand to the packers. */
  predicate DataOk(c: Codec, dataLen: nat) {
    if c.Chunk? || c.ServerRecord? || c.ClientRecord? then dataLen < 65536 else dataLen <= 2000
  }

  predicate PacketOk(c: Codec, id: nat, p: Packet) {
    PadOk(c, id, |p.data|, |p.pad|) && DataOk(c, |p.data|)
  }

  /** The padding with its own length written over its first bytes. */
  function PadField(c: Codec, pad: seq<byte>): (f: seq<byte>)
    requires |pad| >= 1
    ensures |f| == |pad|
  {
    var n := |pad|;
    if c.Simple? || c.Sha1? then [Lo(n)] + pad[1..]
    else if n < 128 then [n] + pad[1..]
    else if c.Aes128? then [255, Lo(n), Hi(n)] + pad[3..]
    else [255, Hi(n), Lo(n)] + pad[3..]
  }

  function FrameLen(c: Codec, p: Packet): nat {
    |p.pad| + |p.data| + match c
      case Chunk(_, _) => 12
      case ServerRecord => 5
      case ClientRecord => 5
      case Sha1V4 => 8
      case Aes128(_, _) => 8
      case _ => 6
  }

  /** The bytes the receiver tests before it trusts the length. */
  function Header(c: Codec, id: nat, n: nat): (h: seq<byte>)
    requires c.Valid() && n < 65536
    ensures |h| == match c
      case ServerRecord => 5
      case ClientRecord => 5
      case Sha1V4 => 4
      case Aes128(_, _) => 4
      case _ => 2
  {
    match c
    case Chunk(_, _) => [Hi(n), Lo(n)]
    case ServerRecord => [0x17, 3, 3, Hi(n), Lo(n)]
    case ClientRecord => [0x17, 3, 3, Hi(n), Lo(n)]
    case Sha1V4 => var crc := Crc([Hi(n), Lo(n)]); [Hi(n), Lo(n), Lo(crc), Hi(crc)]
    case Aes128(mac, _) => [Lo(n), Hi(n)] + mac(c.Key(id), [Lo(n), Hi(n)])[..2]
    case _ => [Hi(n), Lo(n)]
  }

  /** The number the header carries: the payload length for chunks and records,
      the frame length for the padded families. */
  function Announced(c: Codec, p: Packet): nat {
    if Padded(c) then FrameLen(c, p) else |p.data|
  }

  /** What stands between header and payload. */
  function Field(c: Codec, id: nat, p: Packet): (f: seq<byte>)
    requires c.Valid() && PacketOk(c, id, p)
    ensures |f| == if c.Chunk? then 10 else |p.pad|
  {
    match c
    case Chunk(mac, _) => mac(c.Key(id), p.data)[..10]
    case ServerRecord => []
    case ClientRecord => []
    case _ => PadField(c, p.pad)
  }

  function Trailer(c: Codec, id: nat, body: seq<byte>): (t: seq<byte>)
    requires c.Valid()
    ensures |t| == c.TrailerLen()
  {
    match c
    case Chunk(_, _) => []
    case ServerRecord => []
    case ClientRecord => []
    case Simple => Le32(Register(ONES, body))
    case Aes128(mac, _) => mac(c.Key(id), body)[..4]
    case _ => Le32(Adler(body))
  }

  function Body(c: Codec, id: nat, p: Packet): seq<byte>
    requires c.Valid() && PacketOk(c, id, p)
  {
    Header(c, id, Announced(c, p)) + Field(c, id, p) + p.data
  }

  /** The frame a packer writes for the packet numbered id. */
  function FrameOf(c: Codec, id: nat, p: Packet): (f: seq<byte>)
    requires c.Valid() && PacketOk(c, id, p)
    ensures |f| == FrameLen(c, p)
  {
    Body(c, id, p) + Trailer(c, id, Body(c, id, p))
  }

  // ---------- Reading a frame back ----------

  lemma {:induction false} Layout(h: seq<byte>, q: seq<byte>, d: seq<byte>, t: seq<byte>)
    ensures var f := h + q + d + t;
      && f[..|h|] == h && f[|h|..|h| + |q|] == q
      && f[|h| + |q|..|f| - |t|] == d
      && f[..|f| - |t|] == h + q + d && f[|f| - |t|..] == t
  {
  }

  lemma {:induction false} HeaderReadsBack(c: Codec, id: nat, n: nat, x: seq<byte>)
    requires c.Valid() && n < 65536
    requires |x| > c.Guard() && Header(c, id, n) <= x
    ensures c.HeaderOk(id, x)
    ensures c.Length(x) == n + if c.Chunk? then 12 else if Padded(c) then 0 else 5
  {
    var h := Header(c, id, n);
    U16RoundTrip(n);
    if c.Aes128? {
      assert h[..2] == [Lo(n), Hi(n)] == x[..2];
      assert h[2..4] == x[2..4];
    } else if c.Sha1V4? {
      V4Header(n, x);
    }
  }

  lemma {:induction false} Low16(w: nat)
    ensures Hi(w) as int * 256 + Lo(w) as int == w % 65536
  {
  }

  lemma {:induction false} V4Header(n: nat, x: seq<byte>)
    requires |x| > 4 && n < 65536
    requires var crc := Crc([Hi(n), Lo(n)]); [Hi(n), Lo(n), Lo(crc), Hi(crc)] <= x
    ensures Sha1V4.HeaderOk(0, x)
  {
    assert x[..2] == [Hi(n), Lo(n)];
    Low16(Crc([Hi(n), Lo(n)]));
  }

  lemma {:induction false} TrailerReadsBack(c: Codec, id: nat, p: Packet)
    requires c.Valid() && PacketOk(c, id, p)
    ensures c.TrailerOk(id, FrameOf(c, id, p))
  {
    var h, q := Header(c, id, Announced(c, p)), Field(c, id, p);
    var body := Body(c, id, p);
    var t := Trailer(c, id, body);
    Layout(h, q, p.data, t);
    match c
    case Chunk(mac, _) =>
      var f := FrameOf(c, id, p);
      assert f == h + q + p.data + t && f[2..12] == q;
      assert f[12..] == p.data;
    case ServerRecord =>
    case ClientRecord =>
    case Simple => CrcFrameExact(body, t);
    case Aes128(_, _) =>
    case _ => AdlerFrameExact(body, t);
  }

  lemma {:induction false} PadReadsBack(c: Codec, pad: seq<byte>, f: seq<byte>, h: nat)
    requires Padded(c) && 1 <= |pad| <= 1024 && (c.Simple? || c.Sha1? ==> |pad| <= 16)
    requires h == (if c.Sha1V4? || c.Aes128? then 4 else 2)
    requires |f| >= c.MinLen() && h + |pad| <= |f| && f[h..h + |pad|] == PadField(c, pad)
    ensures c.DataPos(f) == h + |pad|
  {
    var q, n := PadField(c, pad), |pad|;
    assert f[h] == q[0];
    if n >= 128 {
      assert f[h + 1] == q[1] && f[h + 2] == q[2];
      U16RoundTrip(n);
    }
  }

  lemma {:induction false} PartsReadBack(c: Codec, id: nat, p: Packet)
    requires c.Valid() && PacketOk(c, id, p)
    ensures var f, h := FrameOf(c, id, p), Header(c, id, Announced(c, p));
      && h <= f && c.DataPos(f) + |p.data| + c.TrailerLen() == |f|
      && f[c.DataPos(f)..|f| - c.TrailerLen()] == p.data
  {
    var h, q := Header(c, id, Announced(c, p)), Field(c, id, p);
    var t := Trailer(c, id, Body(c, id, p));
    var f := FrameOf(c, id, p);
    Layout(h, q, p.data, t);
    assert f == h + q + p.data + t;
    if Padded(c) { PadReadsBack(c, p.pad, f, |h|); }
    assert c.DataPos(f) == |h| + |q|;
  }

  lemma {:induction false} FinishReadsBack(c: Codec, id: nat, p: Packet)
    requires c.Valid() && PacketOk(c, id, p)
    ensures FrameLen(c, p) >= c.MinLen()
    ensures Finish(c, id, FrameOf(c, id, p)) == Frame(p.data, FrameLen(c, p), c.Next(id))
  {
    TrailerReadsBack(c, id, p);
    PartsReadBack(c, id, p);
  }

  lemma {:induction false} LengthReadsBack(c: Codec, id: nat, p: Packet, x: seq<byte>)
    requires c.Valid() && PacketOk(c, id, p)
    requires |x| > c.Guard() && FrameOf(c, id, p) <= x
    ensures c.HeaderOk(id, x) && c.Length(x) == FrameLen(c, p) && c.LengthOk(FrameLen(c, p))
  {
    PartsReadBack(c, id, p);
    HeaderReadsBack(c, id, Announced(c, p), x);
  }

  /** The receiver reads back what the packer wrote, whatever follows. */
  lemma {:induction false} RoundTrip(c: Codec, id: nat, p: Packet, y: seq<byte>)
    requires c.Valid() && PacketOk(c, id, p)
    requires FrameLen(c, p) + |y| > c.Guard()
    ensures Parse(c, id, FrameOf(c, id, p) + y) == Frame(p.data, FrameLen(c, p), c.Next(id))
  {
    var f := FrameOf(c, id, p);
    LengthReadsBack(c, id, p, f + y);
    assert (f + y)[..|f|] == f;
    FinishReadsBack(c, id, p);
  }

  // ---------- Whole streams ----------

  predicate AllOk(c: Codec, id: nat, ps: seq<Packet>)
    decreases |ps|
  {
    ps == [] || (PacketOk(c, id, ps[0]) && AllOk(c, c.Next(id), ps[1..]))
  }

  /** The byte stream a sender produces. */
  function Stream(c: Codec, id: nat, ps: seq<Packet>): seq<byte>
    requires c.Valid() && AllOk(c, id, ps)
    decreases |ps|
  {
    if ps == [] then [] else FrameOf(c, id, ps[0]) + Stream(c, c.Next(id), ps[1..])
  }

  function Payloads(ps: seq<Packet>): seq<byte> {
    if ps == [] then [] else ps[0].data + Payloads(ps[1..])
  }

  /** How many of the frames n received bytes complete. A record is only looked
      at once more bytes than its header have arrived. */
  function Completed(c: Codec, ps: seq<Packet>, n: nat): (k: nat)
    ensures k <= |ps|
    decreases |ps|
  {
    if ps == [] || n < FrameLen(c, ps[0]) || n <= c.Guard() then 0
    else 1 + Completed(c, ps[1..], n - FrameLen(c, ps[0]))
  }

  function FrameLens(c: Codec, ps: seq<Packet>): nat {
    if ps == [] then 0 else FrameLen(c, ps[0]) + FrameLens(c, ps[1..])
  }

  function Count(c: Codec, id: nat, k: nat): nat
    decreases k
  {
    if k == 0 then id else Count(c, c.Next(id), k - 1)
  }

  /** The counter is the number of frames, as a 32-bit word. */
  lemma {:induction false} CountIsSum(c: Codec, id: nat, k: nat)
    requires id < WORD
    ensures Count(c, id, k) == if c.Chunk? || c.Aes128? then (id + k) % WORD else id
    decreases k
  {
    if k > 0 {
      CountIsSum(c, c.Next(id), k - 1);
      if c.Chunk? || c.Aes128? {
        assert ((id + 1) % WORD + (k - 1)) % WORD == (id + k) % WORD;
      }
    }
  }

  /** A prefix of a frame is never taken for a frame, nor for an error. */
  lemma {:induction false} PrefixWaits(c: Codec, id: nat, p: Packet, s: seq<byte>, y: seq<byte>)
    requires c.Valid() && PacketOk(c, id, p)
    requires s <= FrameOf(c, id, p) + y && (|s| < FrameLen(c, p) || |s| <= c.Guard())
    ensures Parse(c, id, s).More?
  {
    var x := FrameOf(c, id, p) + y;
    if !Parse(c, id, s).More? {
      assert x == s + x[|s|..];
      ParseMonotone(c, id, s, x[|s|..]);
      RoundTrip(c, id, p, y);
      assert false;
    }
  }

  /** What a receiver must have done after reading s of the stream of ps. */
  ghost predicate Delivered(c: Codec, id: nat, ps: seq<Packet>, s: seq<byte>, d: Decoded) {
    var k := Completed(c, ps, |s|);
    && FrameLens(c, ps[..k]) <= |s|
    && d == Ok(Payloads(ps[..k]), s[FrameLens(c, ps[..k])..], Count(c, id, k))
  }

  lemma {:induction false} DeliveredCons(c: Codec, id: nat, ps: seq<Packet>, f: seq<byte>, s: seq<byte>, d: Decoded)
    requires ps != [] && |f| == FrameLen(c, ps[0]) && |f| + |s| > c.Guard()
    requires Delivered(c, c.Next(id), ps[1..], s, d)
    ensures Delivered(c, id, ps, f + s, Prepend(ps[0].data, d))
  {
    var k := Completed(c, ps, |f + s|);
    var ds := ps[1..][..k - 1];
    assert ps[..k][0] == ps[0] && ps[..k][1..] == ds;
    assert s[FrameLens(c, ds)..] == (f + s)[|f| + FrameLens(c, ds)..];
  }

  lemma {:induction false} PrefixCut(f: seq<byte>, y: seq<byte>, s: seq<byte>)
    requires s <= f + y && |f| <= |s|
    ensures s == f + s[|f|..] && s[|f|..] <= y
  {
  }

  /** Decoding any prefix of a sender's stream yields exactly the payloads of
      the completed frames, keeps exactly the bytes of the incomplete one, and
      counts exactly the completed frames. */
  lemma {:induction false} PrefixDecode(c: Codec, id: nat, ps: seq<Packet>, s: seq<byte>)
    requires c.Valid() && AllOk(c, id, ps) && s <= Stream(c, id, ps)
    ensures Delivered(c, id, ps, s, Decode(c, id, s))
    decreases |ps|
  {
    hide FrameOf;
    hide PacketOk;
    hide Parse;
    hide FrameLen;
    if ps == [] {
      assert s == [];
      NothingParses(c, id);
    } else {
      var f, y := FrameOf(c, id, ps[0]), Stream(c, c.Next(id), ps[1..]);
      if |s| < |f| || |s| <= c.Guard() {
        PrefixWaits(c, id, ps[0], s, y);
      } else {
        var s' := s[|f|..];
        PrefixCut(f, y, s);
        RoundTrip(c, id, ps[0], s');
        PrefixDecode(c, c.Next(id), ps[1..], s');
        DeliveredCons(c, id, ps, f, s', Decode(c, c.Next(id), s'));
      }
    }
  }

  lemma {:induction false} NothingParses(c: Codec, id: nat)
    ensures Parse(c, id, []).More?
  {
  }

  /** The delivery theorem: for every list of packets, every padding drawn for
      them, every point reached in the stream and every way of cutting it into
      buffers. */
  lemma {:induction false} Delivery(c: Codec, id: nat, ps: seq<Packet>, bufs: seq<seq<byte>>)
    requires c.Valid() && AllOk(c, id, ps)
    requires Flatten(bufs) <= Stream(c, id, ps)
    ensures Delivered(c, id, ps, Flatten(bufs), FeedAll(c, id, [], bufs))
  {
    var s := Flatten(bufs);
    Fragmentation(c, id, [], bufs);
    assert [] + s == s;
    PrefixDecode(c, id, ps, s);
  }

  /** Once the whole stream has arrived, every payload has been delivered, and every
      frame has been taken, except for an empty record at the very end: it stays in
      the buffer. */
  lemma {:induction false} Drained(c: Codec, id: nat, ps: seq<Packet>)
    requires c.Valid() && AllOk(c, id, ps)
    ensures var k := Completed(c, ps, FrameLens(c, ps));
      && Payloads(ps[..k]) == Payloads(ps)
      && (k == |ps| <==> Padded(c) || c.Chunk? || ps == [] || ps[|ps| - 1].data != [])
      && k >= |ps| - 1
    decreases |ps|
  {
    hide Payloads;
    var k := Completed(c, ps, FrameLens(c, ps));
    if ps == [] {
    } else if k == 0 {
      assert FrameLen(c, ps[0]) == 5 && FrameLens(c, ps[1..]) == 0;
      NoFrames(c, c.Next(id), ps[1..]);
      assert ps == [ps[0]];
      EmptyPayload(ps[0]);
      assert ps[..0] == [];
    } else {
      Drained(c, c.Next(id), ps[1..]);
      PayloadsFrom(ps, k);
      LastOfRest(c, ps);
    }
  }

  lemma {:induction false} EmptyPayload(p: Packet)
    ensures Payloads([]) == [] && Payloads([p]) == p.data
  {
    assert [p][1..] == [];
  }

  lemma {:induction false} PayloadsFrom(ps: seq<Packet>, k: nat)
    requires 1 <= k <= |ps|
    ensures Payloads(ps) == ps[0].data + Payloads(ps[1..])
            && Payloads(ps[..k]) == ps[0].data + Payloads(ps[1..][..k - 1])
  {
    assert ps[..k][0] == ps[0] && ps[..k][1..] == ps[1..][..k - 1];
  }

  lemma {:induction false} LastOfRest(c: Codec, ps: seq<Packet>)
    requires ps != [] && Completed(c, ps, FrameLens(c, ps)) > 0
    ensures |ps| > 1 ==> ps[|ps| - 1] == ps[1..][|ps[1..]| - 1]
    ensures |ps| == 1 ==> Padded(c) || c.Chunk? || ps[0].data != [] || ps[0].pad != []
  {
  }

  /** An empty record alone is not taken. */
  lemma {:induction false} EmptyRecordWaits()
    ensures AllOk(ServerRecord, 0, [Packet([], [])])
    ensures Completed(ServerRecord, [Packet([], [])], FrameLens(ServerRecord, [Packet([], [])])) == 0
    ensures Decode(ServerRecord, 0, [0x17, 3, 3, 0, 0]) == Ok([], [0x17, 3, 3, 0, 0], 0)
  {
    assert [Packet([], [])][1..] == [];
  }

  lemma {:induction false} NoFrames(c: Codec, id: nat, ps: seq<Packet>)
    requires FrameLens(c, ps) == 0
    ensures ps == []
  {
  }

  lemma {:induction false} StreamLength(c: Codec, id: nat, ps: seq<Packet>)
    requires c.Valid() && AllOk(c, id, ps)
    ensures |Stream(c, id, ps)| == FrameLens(c, ps)
    decreases |ps|
  {
    if ps != [] { StreamLength(c, c.Next(id), ps[1..]); }
  }

  // ---------- Streams joined ----------

  lemma {:induction false} StreamFirst(c: Codec, id: nat, p: Packet, ps: seq<Packet>, all: seq<Packet>)
    requires c.Valid() && all == [p] + ps && PacketOk(c, id, p) && AllOk(c, c.Next(id), ps)
    ensures AllOk(c, id, all) && Stream(c, id, all) == FrameOf(c, id, p) + Stream(c, c.Next(id), ps)
  {
    hide FrameOf;
    hide PacketOk;
    assert all[0] == p && all[1..] == ps;
  }

  lemma {:induction false} StreamJoin(c: Codec, id: nat, ps: seq<Packet>, qs: seq<Packet>)
    requires c.Valid() && AllOk(c, id, ps) && AllOk(c, Count(c, id, |ps|), qs)
    ensures AllOk(c, id, ps + qs)
    ensures Stream(c, id, ps + qs) == Stream(c, id, ps) + Stream(c, Count(c, id, |ps|), qs)
    decreases |ps|
  {
    hide FrameOf;
    hide PacketOk;
    if ps == [] {
      assert ps + qs == qs;
    } else {
      StreamJoin(c, c.Next(id), ps[1..], qs);
      StreamFirst(c, id, ps[0], ps[1..] + qs, ps + qs);
      Associate(FrameOf(c, id, ps[0]), Stream(c, c.Next(id), ps[1..]), Stream(c, Count(c, id, |ps|), qs));
    }
  }

  lemma {:induction false} CountJoin(c: Codec, id: nat, j: nat, k: nat)
    ensures Count(c, id, j + k) == Count(c, Count(c, id, j), k)
    decreases j
  {
    if j > 0 { CountJoin(c, c.Next(id), j - 1, k); }
  }

  lemma {:induction false} PayloadsFirst(p: Packet, ps: seq<Packet>, all: seq<Packet>)
    requires all == [p] + ps
    ensures Payloads(all) == p.data + Payloads(ps)
  {
    assert all[0] == p && all[1..] == ps;
  }

  lemma {:induction false} PayloadsJoin(ps: seq<Packet>, qs: seq<Packet>)
    ensures Payloads(ps + qs) == Payloads(ps) + Payloads(qs)
  {
    if ps == [] {
      assert ps + qs == qs;
    } else {
      PayloadsJoin(ps[1..], qs);
      PayloadsFirst(ps[0], ps[1..] + qs, ps + qs);
      Associate(ps[0].data, Payloads(ps[1..]), Payloads(qs));
    }
  }

  // ---------- Frames no packer writes ----------

  /** A frame of minimal size with a sound header and trailer whose padding field
      announces 200 bytes. */
  function Liar(c: Codec, id: nat): (f: seq<byte>)
    requires Padded(c) && c.Valid()
  {
    var body := LiarBody(c, id);
    body + Trailer(c, id, body)
  }

  function LiarBody(c: Codec, id: nat): (b: seq<byte>)
    requires Padded(c) && c.Valid()
  {
    Header(c, id, LiarLen(c)) + [200]
  }

  function LiarLen(c: Codec): nat { if c.Sha1V4? || c.Aes128? then 9 else 7 }

  /** The trailer of any body passes the receiver's test. */
  lemma {:induction false} TrailerPasses(c: Codec, id: nat, body: seq<byte>)
    requires Padded(c) && c.Valid() && |body| + 4 >= c.MinLen()
    ensures c.TrailerOk(id, body + Trailer(c, id, body))
  {
    var t := Trailer(c, id, body);
    var f := body + t;
    assert f[..|f| - 4] == body && f[|f| - 4..] == t;
    if c.Simple? { CrcFrameExact(body, t); } else if !c.Aes128? { AdlerFrameExact(body, t); }
  }

  /** Every padded family has frames on which its receiver copies a negative number
      of bytes. */
  lemma {:induction false} LiarUndefined(c: Codec, id: nat)
    requires Padded(c) && c.Valid()
    ensures Decode(c, id, Liar(c, id)) == Undefined
  {
    hide Decode;
    hide Trailer;
    hide Header;
    hide Codec.HeaderOk;
    hide Codec.TrailerOk;
    hide Codec.LengthOk;
    hide Codec.DataPos;
    hide Codec.Length;
    var n, body, f := LiarLen(c), LiarBody(c, id), Liar(c, id);
    assert |f| == n;
    HeaderReadsBack(c, id, n, f);
    TrailerPasses(c, id, body);
    assert f[..n] == f && f[n - 5] == 200;
    LiarPos(c, f);
    TurnUndefined(c, id, f);
    OneTurn(c, id, f);
  }

  lemma {:induction false} LiarPos(c: Codec, f: seq<byte>)
    requires Padded(c) && |f| == LiarLen(c) && f[|f| - 5] == 200
    ensures c.DataPos(f) > |f| && c.LengthOk(|f|) && |f| > c.Guard()
  {
  }

  lemma {:induction false} OneTurn(c: Codec, id: nat, f: seq<byte>)
    requires Parse(c, id, f).Lying?
    ensures Decode(c, id, f) == Undefined
  {
  }

  /** The shortest one of auth_simple and verify_simple: seven bytes that announce 255
      bytes of padding. */
  lemma {:induction false} ShortestLiar(id: nat)
    ensures var b := [0, 7, 255]; Decode(Simple, id, b + Le32(Register(ONES, b))) == Undefined
  {
    hide Decode;
    hide Register;
    var b := [0, 7, 255];
    var f := b + Le32(Register(ONES, b));
    CrcFrameExact(b, Le32(Register(ONES, b)));
    assert f[..7] == f;
    TurnUndefined(Simple, id, f);
    OneTurn(Simple, id, f);
  }

  /** No part of a stream of packed frames makes a receiver undefined, or fail. */
  lemma {:induction false} PackedDefined(c: Codec, id: nat, ps: seq<Packet>, s: seq<byte>)
    requires c.Valid() && AllOk(c, id, ps) && s <= Stream(c, id, ps)
    ensures Decode(c, id, s).Ok?
  {
    hide Decode;
    PrefixDecode(c, id, ps, s);
  }
}
