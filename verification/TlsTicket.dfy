/** tls1.2_ticket.c: the client and server ends of the ticket protocol. A handshake
    of whole messages, then a stream of records in both directions. */
module TlsTicket {
  import opened Bytes
  import opened Framing
  import opened Packets
  import opened ClientHello

  // ---------- Records ----------

  function Record(d: seq<byte>): seq<byte> { [0x17, 3, 3, Hi(|d|), Lo(|d|)] + d }

  function Plain(d: seq<byte>): Packet { Packet(d, []) }

  /** The splitting loop for long buffers: rand(k) is the k-th random draw. */
  function Pieces(data: seq<byte>, rand: nat -> nat, k: nat): (ps: seq<Packet>)
    decreases |data|
  {
    if |data| > 2048 then
      var n := PieceLen(|data|, rand(k));
      [Plain(data[..n])] + Pieces(data[n..], rand, k + 1)
    else if data != [] then [Plain(data)]
    else []
  }

  function PieceLen(left: nat, draw: nat): (n: nat)
    requires left > 2048
    ensures 100 <= n <= left && n < 4196
  {
    if draw % 4096 + 100 > left then left else draw % 4096 + 100
  }

  /** The records of one call in the streaming state. */
  function Records(data: seq<byte>, rand: nat -> nat): seq<Packet> {
    if |data| < 1024 then [Plain(data)] else Pieces(data, rand, 0)
  }

  lemma {:induction false} PiecesExact(data: seq<byte>, rand: nat -> nat, k: nat)
    ensures var ps := Pieces(data, rand, k);
            && Payloads(ps) == data && AllOk(ServerRecord, 0, ps)
            && FrameLens(ServerRecord, ps) == |data| + 5 * |ps|
            && 100 * |ps| <= (if |data| > 2048 then |data| - 1849 else 100)
    decreases |data|
  {
    hide Payloads;
    hide AllOk;
    hide FrameLens;
    hide PieceLen;
    NoRecords();
    if |data| > 2048 {
      var n := PieceLen(|data|, rand(k));
      PiecesExact(data[n..], rand, k + 1);
      PieceFirst(data[..n], Pieces(data[n..], rand, k + 1));
      assert data == data[..n] + data[n..];
    } else if data != [] {
      PieceFirst(data, []);
      assert data + [] == data && [Plain(data)] + [] == [Plain(data)];
    }
  }

  lemma {:induction false} NoRecords()
    ensures Payloads([]) == [] && AllOk(ServerRecord, 0, []) && FrameLens(ServerRecord, []) == 0
  {
  }

  /** One more record in front. */
  lemma {:induction false} PieceFirst(d: seq<byte>, ps: seq<Packet>)
    requires |d| < 65536 && AllOk(ServerRecord, 0, ps)
    ensures var qs := [Plain(d)] + ps;
            && Payloads(qs) == d + Payloads(ps) && AllOk(ServerRecord, 0, qs)
            && FrameLens(ServerRecord, qs) == |d| + 5 + FrameLens(ServerRecord, ps)
  {
    assert ([Plain(d)] + ps)[1..] == ps;
  }

  /** Up to 2048 bytes make one record; of more, a piece of 100 to 4195 bytes is taken for
      each draw until at most 2048 are left. */
  lemma {:induction false} RecordsExact(data: seq<byte>, rand: nat -> nat, k: nat)
    ensures |data| <= 2048 ==> Records(data, rand) == [Plain(data)]
    ensures |data| > 2048 ==>
              var n := if rand(k) % 4096 + 100 < |data| then rand(k) % 4096 + 100 else |data|;
              && Records(data, rand) == Pieces(data, rand, 0)
              && Pieces(data, rand, k) == [Plain(data[..n])] + Pieces(data[n..], rand, k + 1)
    ensures 0 < |data| <= 2048 ==> Pieces(data, rand, k) == [Plain(data)]
    ensures Pieces([], rand, k) == []
  {
  }

  /** With the smallest draws the bound on the number of pieces is reached. */
  lemma {:induction false} ShortPieces(data: seq<byte>, k: nat)
    requires |data| > 2048
    ensures |Pieces(data, _ => 0, k)| == (|data| - 1849) / 100
    decreases |data|
  {
    if |data| - 100 > 2048 { ShortPieces(data[100..], k + 1); }
  }

  /** The output buffer of datalength + 2048 bytes is large enough for every draw
      exactly up to 42848 bytes. */
  lemma {:induction false} SplitFits(data: seq<byte>)
    ensures (forall rand: nat -> nat :: FrameLens(ServerRecord, Pieces(data, rand, 0)) <= |data| + 2048) <==>
            |data| <= 42848
  {
    if |data| <= 42848 {
      forall rand: nat -> nat ensures FrameLens(ServerRecord, Pieces(data, rand, 0)) <= |data| + 2048 {
        PiecesExact(data, rand, 0);
      }
    } else {
      ShortPieces(data, 0);
      PiecesExact(data, _ => 0, 0);
      assert FrameLens(ServerRecord, Pieces(data, _ => 0, 0)) > |data| + 2048;
    }
  }

  lemma {:induction false} RecordIsFrame(d: seq<byte>)
    requires |d| < 65536
    ensures PacketOk(ServerRecord, 0, Plain(d)) && FrameOf(ServerRecord, 0, Plain(d)) == Record(d)
  {
    hide Hi;
    hide Lo;
    var h := Header(ServerRecord, 0, |d|);
    assert h + [] + d + [] == Record(d);
  }

  /** Streams of records join. */
  lemma {:induction false} StreamAppend(ps: seq<Packet>, qs: seq<Packet>)
    requires AllOk(ServerRecord, 0, ps) && AllOk(ServerRecord, 0, qs)
    ensures AllOk(ServerRecord, 0, ps + qs)
    ensures Stream(ServerRecord, 0, ps + qs) == Stream(ServerRecord, 0, ps) + Stream(ServerRecord, 0, qs)
    ensures Payloads(ps + qs) == Payloads(ps) + Payloads(qs)
  {
    hide Stream;
    hide AllOk;
    hide Payloads;
    CountIsSum(ServerRecord, 0, |ps|);
    StreamJoin(ServerRecord, 0, ps, qs);
    PayloadsJoin(ps, qs);
  }

  lemma {:induction false} StreamOne(d: seq<byte>)
    requires |d| < 65536
    ensures AllOk(ServerRecord, 0, [Plain(d)]) && Payloads([Plain(d)]) == d
    ensures Stream(ServerRecord, 0, [Plain(d)]) == Record(d)
  {
    RecordIsFrame(d);
    assert [Plain(d)][1..] == [];
  }

  /** Writing one record behind what the output buffer holds. */
  method PackData(data: seq<byte>, start: nat, n: nat, out: array<byte>, len: nat)
    requires start + n <= |data| && len + n + 5 <= out.Length
    modifies out
    ensures out[..len + n + 5] == old(out[..len]) + Record(data[start..start + n])
  {
    Store(out, len, [0x17, 3, 3, Hi(n), Lo(n)]);
    assert out[..len] == old(out[..len]);
    assert out[len..len + 5] == [0x17, 3, 3, Hi(n), Lo(n)];
    ghost var was := out[..len + 5];
    assert was == old(out[..len]) + [0x17, 3, 3, Hi(n), Lo(n)];
    Store(out, len + 5, data[start..start + n]);
    assert out[..len + 5] == was;
    assert out[..len + 5 + n] == was + data[start..start + n];
  }

  /** The pieces from start on: the next one, then the others. */
  lemma {:induction false} NextPiece(data: seq<byte>, rand: nat -> nat, start: nat, k: nat, n: nat, ps: seq<Packet>)
    requires start < |data| && AllOk(ServerRecord, 0, ps)
    requires n == if |data| - start > 2048 then PieceLen(|data| - start, rand(k)) else |data| - start
    ensures var d := Plain(data[start..start + n]);
            && AllOk(ServerRecord, 0, ps + [d])
            && ps + Pieces(data[start..], rand, k) == (ps + [d]) + Pieces(data[start + n..], rand, k + 1)
            && Stream(ServerRecord, 0, ps + [d]) == Stream(ServerRecord, 0, ps) + Record(data[start..start + n])
  {
    hide Stream;
    hide AllOk;
    hide Payloads;
    var d := data[start..start + n];
    assert data[start..][..n] == d && data[start..][n..] == data[start + n..];
    StreamOne(d);
    StreamAppend(ps, [Plain(d)]);
    if |data| - start <= 2048 { assert data[start..] == d && data[start + n..] == []; }
    assert Pieces(data[start..], rand, k) == [Plain(d)] + Pieces(data[start + n..], rand, k + 1);
  }

  /** The record loop of client_encode and server_encode. The limit on the input is
      the size up to which its buffer suffices for every draw. */
  method SplitRecords(data: seq<byte>, rand: nat -> nat) returns (out: seq<byte>)
    requires |data| <= 42848
    ensures AllOk(ServerRecord, 0, Pieces(data, rand, 0)) && out == Stream(ServerRecord, 0, Pieces(data, rand, 0))
  {
    hide Stream;
    hide AllOk;
    hide Record;
    hide Pieces;
    var buffer := new byte[|data| + 2048];
    var start, len, k := 0, 0, 0;
    ghost var ps: seq<Packet> := [];
    StreamNone();
    assert data[0..] == data && ps + Pieces(data, rand, 0) == Pieces(data, rand, 0);
    while |data| - start > 2048
      invariant start <= |data| && AllOk(ServerRecord, 0, ps)
      invariant Pieces(data, rand, 0) == ps + Pieces(data[start..], rand, k)
      invariant len == start + 5 * k && 100 * k <= start && (k > 0 ==> 100 * (k - 1) + 2048 < |data|)
      invariant buffer[..len] == Stream(ServerRecord, 0, ps)
    {
      var n := PieceLen(|data| - start, rand(k));
      NextPiece(data, rand, start, k, n, ps);
      PackData(data, start, n, buffer, len);
      ps := ps + [Plain(data[start..start + n])];
      len, start, k := len + n + 5, start + n, k + 1;
    }
    if |data| - start > 0 {
      NextPiece(data, rand, start, k, |data| - start, ps);
      PackData(data, start, |data| - start, buffer, len);
      ps := ps + [Plain(data[start..start + (|data| - start)])];
      len, start, k := len + (|data| - start) + 5, |data|, k + 1;
    }
    assert data[start..] == [];
    NoPieces(rand, k);
    assert ps + [] == ps;
    return buffer[..len];
  }

  lemma {:induction false} NoPieces(rand: nat -> nat, k: nat)
    ensures Pieces([], rand, k) == []
  {
  }

  lemma {:induction false} StreamNone()
    ensures AllOk(ServerRecord, 0, []) && Stream(ServerRecord, 0, []) == []
  {
  }

  /** One call in the streaming state. */
  method EncodeRecords(data: seq<byte>, rand: nat -> nat) returns (out: seq<byte>)
    requires |data| <= 42848
    ensures AllOk(ServerRecord, 0, Records(data, rand)) && Payloads(Records(data, rand)) == data
    ensures out == Stream(ServerRecord, 0, Records(data, rand))
  {
    hide Stream;
    hide AllOk;
    hide Payloads;
    if |data| < 1024 {
      StreamOne(data);
      return Record(data);
    } else {
      PiecesExact(data, rand, 0);
      out := SplitRecords(data, rand);
    }
  }

  /** One turn of the receive loop. */
  lemma {:induction false} Turn(c: Codec, x: seq<byte>)
    requires (c.ServerRecord? || c.ClientRecord?) && |x| > 5
    ensures var size := U16(x[3], x[4]);
            if !c.HeaderOk(0, x) then Decode(c, 0, x) == Fail
            else if size + 5 > |x| then Decode(c, 0, x) == Ok([], x, 0)
            else Decode(c, 0, x) == Prepend(x[5..size + 5], Decode(c, 0, x[size + 5..]))
  {
    var size := U16(x[3], x[4]);
    if c.HeaderOk(0, x) && size + 5 <= |x| {
      assert x[..size + 5][5..size + 5] == x[5..size + 5];
      assert Finish(c, 0, x[..size + 5]) == Frame(x[5..size + 5], size + 5, 0);
    }
  }

  /** The receive loop of client_decode (lax) and server_decode. */
  method Drain(strict: bool, buffered: seq<byte>) returns (ok: bool, out: seq<byte>, rest: seq<byte>)
    ensures var d := Decode(if strict then ServerRecord else ClientRecord, 0, buffered);
            if ok then d == Ok(out, rest, 0) else d == Fail
  {
    hide Decode;
    hide U16;
    ghost var c: Codec := if strict then ServerRecord else ClientRecord;
    out, rest := [], buffered;
    PrependNothing(Decode(c, 0, buffered));
    while |rest| > 5
      invariant Decode(c, 0, buffered) == Prepend(out, Decode(c, 0, rest))
      decreases |rest|
    {
      Turn(c, rest);
      if rest[0] != 0x17 || (strict && (rest[1] != 3 || rest[2] != 3)) {
        return false, [], [];
      }
      var size := U16(rest[3], rest[4]);
      if size + 5 > |rest| {
        assert out + [] == out;
        return true, out, rest;
      }
      PrependTwice(out, rest[5..size + 5], Decode(c, 0, rest[size + 5..]));
      out, rest := out + rest[5..size + 5], rest[size + 5..];
    }
    Idle(c, rest);
    assert out + [] == out;
    return true, out, rest;
  }

  lemma {:induction false} Idle(c: Codec, x: seq<byte>)
    requires (c.ServerRecord? || c.ClientRecord?) && |x| <= 5
    ensures Decode(c, 0, x) == Ok([], x, 0)
  {
  }

  // ---------- The handshake messages ----------

  /** What both ends keep per connection; id is the client id, which the server
      takes over from the hello. */
  datatype Local = Local(status: nat, send: seq<byte>, recv: seq<byte>, id: seq<byte>)

  /** The clock and the random bytes a call draws. */
  datatype Chance = Chance(time: seq<byte>, salt: seq<byte>, ticket: seq<byte>, fin: seq<byte>, tail: seq<byte>,
                           host: seq<byte>, rand: nat -> nat)

  predicate Drawn(ch: Chance) {
    |ch.time| == 4 && |ch.salt| == 18 && |ch.ticket| == 208 && |ch.fin| == 22 && |ch.tail| == 10 && |ch.host| < 256
  }

  /** Ten bytes of keyed hash. */
  function Tag(mac: Mac, key: seq<byte>, id: seq<byte>, msg: seq<byte>): seq<byte> {
    var h := mac(key + id, msg);
    if |h| >= 10 then h[..10] else h
  }

  /** tls12_ticket_pack_auth_data. */
  function Auth(mac: Mac, key: seq<byte>, id: seq<byte>, ch: Chance): seq<byte> {
    ch.time + ch.salt + Tag(mac, key, id, ch.time + ch.salt)
  }

  const FIN: seq<byte> := [0x14, 3, 3, 0, 1, 1, 0x16, 3, 3, 0, 0x20]

  /** ChangeCipherSpec and Finished of the client. */
  function Fin(mac: Mac, key: seq<byte>, id: seq<byte>, ch: Chance): seq<byte> {
    FIN + ch.fin + Tag(mac, key, id, FIN + ch.fin)
  }

  /** The answer of the server. Its last ten bytes, a hash over a buffer that is not
      yet filled, are not looked at by the client. */
  function Answer(mac: Mac, key: seq<byte>, id: seq<byte>, ch: Chance): seq<byte> {
    [0x16, 3, 3, 0, 81, 2, 0, 0, 77, 3, 3] + Auth(mac, key, id, ch) + [0x20] + id
    + [0xc0, 0x2f, 0, 0, 5, 0xff, 1, 0, 1, 0] + FIN + ch.fin + ch.tail
  }

  /** The answer is three whole records: a ServerHello of version 1.2 with the id and suite
      c02f, a ChangeCipherSpec, and 32 bytes of handshake (section 7.4.1.3 of RFC 5246). */
  lemma {:induction false} AnswerRecords(mac: Mac, key: seq<byte>, id: seq<byte>, ch: Chance)
    requires IsMac(mac) && Drawn(ch) && |id| == 32
    ensures var x := Answer(mac, key, id, ch);
            && |x| == 129 && x[..11] == [0x16, 3, 3, 0, 81, 2, 0, 0, 77, 3, 3]
            && x[11..33] == ch.time + ch.salt && x[33..43] == mac(key + id, ch.time + ch.salt)[..10]
            && x[43] == 32 && x[44..76] == id && x[76..86] == [0xc0, 0x2f, 0, 0, 5, 0xff, 1, 0, 1, 0]
            && x[86..92] == [0x14, 3, 3, 0, 1, 1] && x[92..97] == [0x16, 3, 3, 0, 32]
  {
    var v, t := ch.time + ch.salt, Tag(mac, key, id, ch.time + ch.salt);
    var a: seq<byte> := [0x16, 3, 3, 0, 81, 2, 0, 0, 77, 3, 3];
    var b: seq<byte> := [0xc0, 0x2f, 0, 0, 5, 0xff, 1, 0, 1, 0];
    var x := a + (v + t) + [0x20] + id + b + FIN + ch.fin + ch.tail;
    assert x == Answer(mac, key, id, ch);
    hide Tag;
    assert x[..11] == a && x[11..43] == v + t && x[43] == 0x20 && x[44..76] == id && x[76..86] == b && x[86..97] == FIN;
    assert x[11..33] == x[11..43][..22] && x[33..43] == x[11..43][22..];
    assert x[86..92] == x[86..97][..6] && x[92..97] == x[86..97][6..];
  }

  // ---------- The four entry points ----------

  datatype Sent = Sent(l: Local, out: seq<byte>)

  function RecordBytes(data: seq<byte>, rand: nat -> nat): seq<byte> {
    RecordsOk(data, rand);
    Stream(ServerRecord, 0, Records(data, rand))
  }

  lemma {:induction false} RecordsOk(data: seq<byte>, rand: nat -> nat)
    ensures AllOk(ServerRecord, 0, Records(data, rand)) && Payloads(Records(data, rand)) == data
  {
    hide AllOk;
    hide Payloads;
    if |data| < 1024 { StreamOne(data); } else { PiecesExact(data, rand, 0); }
  }

  function ClientEncode(mac: Mac, key: seq<byte>, l: Local, data: seq<byte>, ch: Chance): Sent {
    if l.status == 8 then Sent(l, RecordBytes(data, ch.rand))
    else
      var send := l.send + Record(data);
      if l.status == 0 then
        Sent(l.(status := 1, send := send), Hello(Auth(mac, key, l.id, ch), l.id, Block(Sni(ch.host), ch.ticket)))
      else if data == [] then Sent(l.(status := 8, send := []), Fin(mac, key, l.id, ch) + send)
      else Sent(l.(send := send), [])
  }

  function ServerEncode(mac: Mac, key: seq<byte>, l: Local, data: seq<byte>, ch: Chance): Sent {
    if l.status == 8 then Sent(l, RecordBytes(data, ch.rand))
    else Sent(l.(status := 3), Answer(mac, key, l.id, ch))
  }

  datatype Reply =
    | Error                    // -1: the connection is closed
    | Overrun                  // a session id copied beyond the 32 bytes kept for it
    | SendBack                 // needsendback
    | Data(out: seq<byte>)

  datatype Got = Got(l: Local, r: Reply)

  function TakeRecords(c: Codec, l: Local, x: seq<byte>): Got {
    var d := Decode(c, 0, l.recv + x);
    if d.Ok? then Got(l.(recv := d.rest), Data(d.out)) else Got(l, Error)
  }

  function ClientDecode(mac: Mac, key: seq<byte>, l: Local, x: seq<byte>): Got {
    if l.status == 8 then TakeRecords(ClientRecord, l, x)
    else if |x| < 76 || Tag(mac, key, l.id, x[11..33]) != x[33..43] then Got(l, Error)
    else Got(l, SendBack)
  }

  /** The clock of the server, its start time and the tolerance set by the
      parameter; zero means none. */
  datatype Clock = Clock(now: int, startup: int, tolerance: nat)

  function Utc(x: seq<byte>): int
    requires |x| == 4
  {
    Signed(x[0]) * 0x1000000 + x[1] as int * 0x10000 + x[2] as int * 0x100 + x[3] as int
  }

  /** The difference is kept in an int. */
  function Int32(v: int): int {
    var w := v % 0x1_0000_0000;
    if w < 0x8000_0000 then w else w - 0x1_0000_0000
  }

  predicate TimeOk(clock: Clock, utc: int) {
    clock.tolerance > 0 ==>
      && 0 - clock.tolerance <= Int32(utc - clock.now) <= clock.tolerance
      && utc - clock.startup >= 0 - clock.tolerance / 2
  }

  /** Until 2038 the test is what it looks like: without a tolerance it is none; otherwise
      the client's clock, sent with its first byte first, is within the tolerance of the
      server's, and not half of it before the server's start. */
  lemma {:induction false} TimeExact(clock: Clock, x: seq<byte>)
    requires |x| == 4 && x[0] < 128 && 0 <= clock.now < 0x8000_0000
    ensures var utc := ((x[0] as int * 256 + x[1] as int) * 256 + x[2] as int) * 256 + x[3] as int;
            TimeOk(clock, Utc(x)) <==>
              || clock.tolerance == 0
              || (&& clock.now - clock.tolerance <= utc <= clock.now + clock.tolerance
                  && utc >= clock.startup - clock.tolerance / 2)
  {
    var d := Utc(x) - clock.now;
    if d < 0 { assert d % 0x1_0000_0000 == d + 0x1_0000_0000; }
  }

  /** From 2038 on a time stamp is read as a negative number, and every hello is turned
      down when a tolerance is set. */
  lemma {:induction false} TimeWraps(clock: Clock, x: seq<byte>)
    requires |x| == 4 && x[0] >= 128 && clock.tolerance > 0 && clock.startup > clock.tolerance / 2
    ensures !TimeOk(clock, Utc(x))
  {
  }

  /** The tests on a client hello, in the order of the source. They look at fixed places
      of the receive buffer, which is as long as BUF_SIZE at least: behind a short
      message they see what the buffer held before. */
  function TakeHello(mac: Mac, key: seq<byte>, l: Local, x: seq<byte>, stale: seq<byte>, clock: Clock): Got
    requires |x| + |stale| >= BUF_SIZE
  {
    var l' := l.(status := 2);
    var y, n := x + stale, |x|;
    if y[..3] != [0x16, 3, 1] then Got(l', Error)
    else if U16(y[3], y[4]) != n - 5 then Got(l', Error)
    else if y[5] != 1 || y[6] != 0 then Got(l', Error)
    else if U16(y[7], y[8]) != n - 9 then Got(l', Error)
    else if y[9] != 3 || y[10] != 3 then Got(l', Error)
    else if Signed(y[43]) < 32 then Got(l', Error)
    else if y[43] > 32 then Got(l', Overrun)
    else
      var id := y[44..76];
      if !TimeOk(clock, Utc(y[11..15])) || Tag(mac, key, id, y[11..33]) != y[33..43] then Got(l'.(id := id), Error)
      else Got(l'.(id := id), SendBack)
  }

  function ServerDecode(mac: Mac, key: seq<byte>, l: Local, x: seq<byte>, stale: seq<byte>, clock: Clock): Got
    requires |x| + |stale| >= BUF_SIZE
  {
    if l.status == 8 then TakeRecords(ServerRecord, l, x)
    else if l.status == 3 then
      if |x| < 43 || x[..11] != FIN || Tag(mac, key, l.id, x[..33]) != x[33..43] then Got(l, Error)
      else TakeRecords(ServerRecord, l.(status := 8, recv := x[43..]), [])
    else TakeHello(mac, key, l, x, stale, clock)
  }

  // ---------- What the three tests let through ----------

  /** Waiting for a hello, the server answers if and only if the fixed fields are in order,
      the session id has 32 bytes, the clocks agree, and the hash is that of the time and
      the random bytes under its key and the session id. */
  lemma {:induction false} HelloExact(mac: Mac, key: seq<byte>, l: Local, x: seq<byte>, stale: seq<byte>, clock: Clock)
    requires IsMac(mac) && |x| + |stale| >= BUF_SIZE && l.status != 8 && l.status != 3
    ensures var y := x + stale;
            ServerDecode(mac, key, l, x, stale, clock).r == SendBack <==>
              && HelloShape(x, stale) && y[43] == 32 && TimeOk(clock, Utc(y[11..15]))
              && mac(key + y[44..76], y[11..33])[..10] == y[33..43]
    ensures var r := ServerDecode(mac, key, l, x, stale, clock).r; r == SendBack || r == Error || r == Overrun
  {
    hide U16;
    hide TimeOk;
    hide Utc;
    hide Decode;
    var y := x + stale;
    assert y[..3] == [0x16, 3, 1] <==> y[0] == 0x16 && y[1] == 3 && y[2] == 1;
  }

  /** Before the stream, the client goes on if and only if it has 76 bytes and their hash is
      that of 22 of them under its key and its id. */
  lemma {:induction false} AnswerExact(mac: Mac, key: seq<byte>, l: Local, x: seq<byte>)
    requires IsMac(mac) && l.status != 8
    ensures ClientDecode(mac, key, l, x).r == SendBack <==>
              |x| >= 76 && mac(key + l.id, x[11..33])[..10] == x[33..43]
    ensures ClientDecode(mac, key, l, x).r == SendBack || ClientDecode(mac, key, l, x).r == Error
    ensures ClientDecode(mac, key, l, x).l == l
  {
  }

  /** Waiting for the last handshake message, the server goes on to the records if and only
      if the fixed bytes of both messages are there and the hash is that of all before it
      under its key and the client's id. */
  lemma {:induction false} FinExact(mac: Mac, key: seq<byte>, l: Local, x: seq<byte>, stale: seq<byte>, clock: Clock)
    requires IsMac(mac) && |x| + |stale| >= BUF_SIZE && l.status == 3
    ensures var g := ServerDecode(mac, key, l, x, stale, clock);
            if |x| >= 43 && x[..11] == [0x14, 3, 3, 0, 1, 1, 0x16, 3, 3, 0, 0x20]
               && mac(key + l.id, x[..33])[..10] == x[33..43]
            then match Decode(ServerRecord, 0, x[43..])
              case Ok(out, rest, _) => g == Got(l.(status := 8, recv := rest), Data(out))
              case _ => g == Got(l.(status := 8, recv := x[43..]), Error)
            else g == Got(l, Error)
  {
    hide Decode;
    if |x| >= 43 { assert x[43..] + [] == x[43..]; }
  }

  // ---------- Session ids that do not fit ----------

  /** The fixed fields of a hello are in order, its two lengths included. */
  predicate HelloShape(x: seq<byte>, stale: seq<byte>)
    requires |x| + |stale| >= BUF_SIZE
  {
    var y := x + stale;
    && y[0] == 0x16 && y[1] == 3 && y[2] == 1 && U16(y[3], y[4]) + 5 == |x|
    && y[5] == 1 && y[6] == 0 && U16(y[7], y[8]) + 9 == |x| && y[9] == 3 && y[10] == 3
  }

  /** The server copies past the end of its client id if and only if it is waiting for a
      hello and gets one with sound fixed fields whose session id is 33 to 127 bytes
      long, whatever its hash and its time are. */
  lemma {:induction false} OverrunExact(mac: Mac, key: seq<byte>, l: Local, x: seq<byte>, stale: seq<byte>,
                                        clock: Clock)
    requires |x| + |stale| >= BUF_SIZE
    ensures ServerDecode(mac, key, l, x, stale, clock).r == Overrun <==>
            l.status != 8 && l.status != 3 && HelloShape(x, stale) && 33 <= (x + stale)[43] <= 127
  {
    hide U16;
    hide Tag;
    hide TimeOk;
    hide Utc;
    hide Decode;
    var y := x + stale;
    assert y[..3] == [0x16, 3, 1] <==> y[0] == 0x16 && y[1] == 3 && y[2] == 1;
  }

  /** A client's hello is answered or turned down, never copied out of bounds. */
  lemma {:induction false} OwnHelloFits(mac: Mac, key: seq<byte>, l: Local, auth: seq<byte>, id: seq<byte>,
                                        block: seq<byte>, stale: seq<byte>, clock: Clock)
    requires |auth| == 32 && |id| == 32 && |Hello(auth, id, block)| + |stale| >= BUF_SIZE
    ensures ServerDecode(mac, key, l, Hello(auth, id, block), stale, clock).r != Overrun
  {
    hide Hello;
    hide ServerDecode;
    var x := Hello(auth, id, block);
    HelloLayout(auth, id, block);
    OverrunExact(mac, key, l, x, stale, clock);
    assert (x + stale)[43] == x[43];
  }

  /** Any hello of a client with one byte changed: its session id length. */
  lemma {:induction false} LongIdOverruns(mac: Mac, key: seq<byte>, l: Local, auth: seq<byte>, id: seq<byte>,
                                          block: seq<byte>, n: byte, stale: seq<byte>, clock: Clock)
    requires |auth| == 32 && |id| == 32 && |block| < 60000 && 33 <= n <= 127 && l.status == 0
    requires |Hello(auth, id, block)| + |stale| >= BUF_SIZE
    ensures ServerDecode(mac, key, l, Hello(auth, id, block)[43 := n], stale, clock).r == Overrun
  {
    hide Hello;
    hide ServerDecode;
    hide Hi;
    hide Lo;
    hide U16;
    var h := Hello(auth, id, block);
    HelloLayout(auth, id, block);
    var x := h[43 := n];
    U16RoundTrip(|h| - 5);
    U16RoundTrip(|h| - 9);
    OverrunExact(mac, key, l, x, stale, clock);
    var y, f := x + stale, h[..11];
    assert forall k :: 0 <= k < 11 ==> y[k] == f[k];
  }

  /** One such hello: all zeros but for its framing, with a session id of 33 bytes. */
  lemma {:induction false} OverrunWitness(mac: Mac, key: seq<byte>, stale: seq<byte>, clock: Clock)
    requires |stale| >= BUF_SIZE
    ensures var zeros := seq(32, _ => 0);
            var x := Hello(zeros, zeros, [])[43 := 33];
            ServerDecode(mac, key, Local(0, [], [], zeros), x, stale, clock).r == Overrun
  {
    hide ServerDecode;
    var zeros := seq(32, _ => 0);
    LongIdOverruns(mac, key, Local(0, [], [], zeros), zeros, zeros, [], 33, stale, clock);
  }

  /** One end of a connection: the client's or the server's local data. */
  class Peer {
    const mac: Mac
    const key: seq<byte>
    var status: nat
    var send: seq<byte>
    var recv: seq<byte>
    var id: seq<byte>

    constructor (mac: Mac, key: seq<byte>, id: seq<byte>)
      ensures this.mac == mac && this.key == key && State() == Local(0, [], [], id)
    {
      this.mac, this.key, this.id := mac, key, id;
      status, send, recv := 0, [], [];
    }

    function State(): Local
      reads this
    {
      Local(status, send, recv, id)
    }

    method EncodeAsClient(data: seq<byte>, ch: Chance) returns (out: seq<byte>)
      requires IsMac(mac) && Drawn(ch) && |id| == 32 && (status == 8 ==> |data| <= 42848)
      modifies this
      ensures Sent(State(), out) == ClientEncode(mac, key, old(State()), data, ch)
    {
      if status == 8 {
        out := EncodeRecords(data, ch.rand);
        return;
      }
      send := send + Record(data);
      if status == 0 {
        var auth := PackAuth(mac, key, id, ch);
        out := BuildHello(auth, id, Block(Sni(ch.host), ch.ticket));
        status := 1;
      } else if data == [] {
        out := FIN + ch.fin;
        out := out + Tag(mac, key, id, out);
        out := out + send;
        send := [];
        status := 8;
      } else {
        out := [];
      }
    }

    method EncodeAsServer(data: seq<byte>, ch: Chance) returns (out: seq<byte>)
      requires IsMac(mac) && Drawn(ch) && |id| == 32 && (status == 8 ==> |data| <= 42848)
      modifies this
      ensures Sent(State(), out) == ServerEncode(mac, key, old(State()), data, ch)
    {
      if status == 8 {
        out := EncodeRecords(data, ch.rand);
        return;
      }
      status := 3;
      var auth := PackAuth(mac, key, id, ch);
      out := BuildAnswer(auth, id, ch);
    }

    method DecodeAsClient(x: seq<byte>) returns (r: Reply)
      modifies this
      ensures Got(State(), r) == ClientDecode(mac, key, old(State()), x)
    {
      if status == 8 {
        var ok, out, rest := Drain(false, recv + x);
        if !ok { return Error; }
        recv := rest;
        return Data(out);
      }
      if |x| < 76 { return Error; }
      if Tag(mac, key, id, x[11..33]) != x[33..43] { return Error; }
      return SendBack;
    }

    method DecodeAsServer(x: seq<byte>, stale: seq<byte>, clock: Clock) returns (r: Reply)
      requires |x| + |stale| >= BUF_SIZE
      modifies this
      ensures Got(State(), r) == ServerDecode(mac, key, old(State()), x, stale, clock)
    {
      hide TakeHello;
      if status != 8 && status != 3 {
        r := AnswerHello(x, stale, clock);
        return;
      }
      var more := x;
      if status == 3 {
        if |x| < 43 || x[..11] != FIN || Tag(mac, key, id, x[..33]) != x[33..43] { return Error; }
        status, recv, more := 8, x[43..], [];
      }
      var ok, out, rest := Drain(true, recv + more);
      if !ok { return Error; }
      recv := rest;
      return Data(out);
    }

    /** The handshake part of server_decode. */
    method AnswerHello(x: seq<byte>, stale: seq<byte>, clock: Clock) returns (r: Reply)
      requires |x| + |stale| >= BUF_SIZE
      modifies this
      ensures Got(State(), r) == TakeHello(mac, key, old(State()), x, stale, clock)
    {
      hide U16;
      hide Utc;
      var y, n := x + stale, |x|;
      status := 2;
      if y[..3] != [0x16, 3, 1] { return Error; }
      if U16(y[3], y[4]) != n - 5 { return Error; }
      if y[5] != 1 || y[6] != 0 { return Error; }
      if U16(y[7], y[8]) != n - 9 { return Error; }
      if y[9] != 3 || y[10] != 3 { return Error; }
      if Signed(y[43]) < 32 { return Error; }
      if y[43] > 32 { return Overrun; }
      id := y[44..76];
      var hash := Tag(mac, key, id, y[11..33]);
      if !TimeOk(clock, Utc(y[11..15])) { return Error; }
      if hash != y[33..43] { return Error; }
      return SendBack;
    }
  }

  method PackAuth(mac: Mac, key: seq<byte>, id: seq<byte>, ch: Chance) returns (out: seq<byte>)
    requires IsMac(mac) && Drawn(ch)
    ensures out == Auth(mac, key, id, ch) && |out| == 32
  {
    out := ch.time + ch.salt;
    out := out + Tag(mac, key, id, out);
  }

  /** server_encode writes the first 86 bytes from their end to their front. */
  method BuildAnswer(auth: seq<byte>, id: seq<byte>, ch: Chance) returns (out: seq<byte>)
    requires |auth| == 32 && |id| == 32
    ensures out == [0x16, 3, 3, 0, 81, 2, 0, 0, 77, 3, 3] + auth + [0x20] + id
                   + [0xc0, 0x2f, 0, 0, 5, 0xff, 1, 0, 1, 0] + FIN + ch.fin + ch.tail
  {
    var tail: seq<byte> := [0xc0, 0x2f, 0, 0, 5, 0xff, 1, 0, 1, 0];
    out := id + tail;
    out := [0x20] + out;
    out := auth + out;
    out := [3, 3] + out;
    assert |out| == 77;
    out := [2, 0, Hi(|out|), Lo(|out|)] + out;
    assert |out| == 81;
    out := [0x16, 3, 3, Hi(|out|), Lo(|out|)] + out;
    assert out == [0x16, 3, 3, 0, 81, 2, 0, 0, 77, 3, 3] + auth + [0x20] + id + tail;
    out := out + FIN;
    out := out + ch.fin;
    out := out + ch.tail;
  }
}
