/** The framed byte streams of the server: the chunks of encrypt.c, the five
    frame families of auth.c and verify.c, and the records of tls1.2_ticket.c.

    Every receive loop of the source has the same shape: wait for enough bytes
    to read a header, test it, wait for the whole frame, test its trailer, emit
    the payload, drop the frame and try again. Parse is one turn of that loop
    and Decode the loop itself; what differs between the families is collected
    in the small functions on Codec. */
module Framing {
  import opened Bits
  import opened Bytes
  import opened Checksums

  /** A keyed hash: HMAC-SHA1 or HMAC-MD5, of which only "same input, same
      output" and the output length matter. */
  type Mac = (seq<byte>, seq<byte>) -> seq<byte>

  ghost predicate IsMac(mac: Mac) {
    forall key, msg :: |mac(key, msg)| >= 10
  }

  datatype Codec =
    | Chunk(mac: Mac, iv: seq<byte>)
    | Simple
    | Sha1
    | Sha1V2
    | Sha1V4
    | Aes128(mac: Mac, userKey: seq<byte>)
    | ServerRecord
    | ClientRecord
  {
    ghost predicate Valid() {
      (Chunk? ==> IsMac(mac)) && (Aes128? ==> IsMac(mac))
    }

    /** The loop does nothing while at most this many bytes are buffered. */
    function Guard(): nat {
      match this
      case Chunk(_, _) => 1
      case Simple => 2
      case Sha1 => 2
      case Sha1V2 => 2
      case Sha1V4 => 4
      case Aes128(_, _) => 4
      case ServerRecord => 5
      case ClientRecord => 5
    }

    /** The key of the frame numbered id. */
    function Key(id: nat): seq<byte> {
      match this
      case Chunk(_, iv) => iv + Be32(id)
      case Aes128(_, key) => key + Le32(id)
      case _ => []
    }

    /** Tests made on the bytes before the length is used. */
    predicate HeaderOk(id: nat, x: seq<byte>)
      requires |x| > Guard()
    {
      match this
      case Sha1V4 => x[3] as int * 256 + x[2] as int == Crc(x[..2]) % 65536
      case Aes128(mac, _) => var h := mac(Key(id), x[..2]); |h| >= 2 && h[..2] == x[2..4]
      case ServerRecord => x[0] == 0x17 && x[1] == 3 && x[2] == 3
      case ClientRecord => x[0] == 0x17
      case _ => true
    }

    /** No frame the receiver goes on with is shorter. */
    function MinLen(): nat {
      match this
      case Chunk(_, _) => 12
      case ServerRecord => 5
      case ClientRecord => 5
      case Aes128(_, _) => 8
      case _ => 7
    }

    /** Length of the whole frame, as its header announces it. */
    function Length(x: seq<byte>): (n: nat)
      requires |x| > Guard()
      ensures LengthOk(n) ==> n >= MinLen()
    {
      match this
      case Chunk(_, _) => U16(x[0], x[1]) + 12
      case Aes128(_, _) => U16(x[1], x[0])
      case ServerRecord => U16(x[3], x[4]) + 5
      case ClientRecord => U16(x[3], x[4]) + 5
      case _ => U16(x[0], x[1])
    }

    /** Announced lengths the receiver goes on with. */
    predicate LengthOk(n: nat) {
      match this
      case Chunk(_, _) => true
      case ServerRecord => true
      case ClientRecord => true
      case Aes128(_, _) => 8 <= n < 8192
      case _ => 7 <= n < 8192
    }

    /** Tests made on a complete frame. */
    predicate TrailerOk(id: nat, f: seq<byte>)
      requires |f| >= MinLen()
    {
      match this
      case Chunk(mac, _) => var h := mac(Key(id), f[12..]); |h| >= 10 && h[..10] == f[2..12]
      case Simple => CrcFrameOk(f)
      case Sha1 => AdlerFrameOk(f)
      case Sha1V2 => AdlerFrameOk(f)
      case Sha1V4 => AdlerFrameOk(f)
      case Aes128(mac, _) =>
        var h := mac(Key(id), f[..|f| - 4]); |h| >= 4 && h[..4] == f[|f| - 4..]
      case ServerRecord => true
      case ClientRecord => true
    }

    /** Where the payload starts, read from the padding length field. */
    function DataPos(f: seq<byte>): nat
      requires |f| >= MinLen()
    {
      match this
      case Chunk(_, _) => 12
      case Simple => 2 + f[2]
      case Sha1 => 2 + f[2]
      case Sha1V2 => if f[2] < 255 then 2 + f[2] else 2 + U16(f[3], f[4])
      case Sha1V4 => if f[4] < 255 then 4 + f[4] else 4 + U16(f[5], f[6])
      case Aes128(_, _) => if f[4] < 255 then 4 + f[4] else 4 + U16(f[6], f[5])
      case ServerRecord => 5
      case ClientRecord => 5
    }

    /** Bytes after the payload. */
    function TrailerLen(): nat {
      match this
      case Chunk(_, _) => 0
      case ServerRecord => 0
      case ClientRecord => 0
      case _ => 4
    }

    /** The frame counter, a 32-bit word; families without one do not count. */
    function Next(id: nat): nat {
      if Chunk? || Aes128? then (id + 1) % WORD else id
    }
  }

  datatype Step =
    | More
    | Bad
    | Lying   // the padding reaches past the payload's end: the copy has a negative length
    | Frame(payload: seq<byte>, size: nat, id: nat)

  /** What a turn does with a complete frame. */
  function Finish(c: Codec, id: nat, f: seq<byte>): (r: Step)
    requires |f| >= c.MinLen()
    ensures r.Frame? ==> r.size == |f| && |r.payload| <= |f|
    ensures !r.More?
  {
    if !c.TrailerOk(id, f) then Bad
    else
      var from, to := c.DataPos(f), |f| - c.TrailerLen();
      if from > to then Lying else Frame(f[from..to], |f|, c.Next(id))
  }

  /** One turn of a receive loop over the bytes buffered so far. */
  function Parse(c: Codec, id: nat, x: seq<byte>): (r: Step)
    ensures r.Frame? ==> 0 < r.size <= |x| && |r.payload| <= r.size
  {
    if |x| <= c.Guard() then More
    else if !c.HeaderOk(id, x) || !c.LengthOk(c.Length(x)) then Bad
    else if c.Length(x) > |x| then More
    else Finish(c, id, x[..c.Length(x)])
  }

  /** The cases of a turn. */
  lemma {:induction false} TurnCases(c: Codec, id: nat, x: seq<byte>)
    requires |x| > c.Guard()
    ensures var r, n := Parse(c, id, x), c.Length(x);
      if !c.HeaderOk(id, x) || !c.LengthOk(n) then r == Bad
      else if n > |x| then r == More
      else
        var f := x[..n];
        if !c.TrailerOk(id, f) then r == Bad
        else if c.DataPos(f) > n - c.TrailerLen() then r == Lying
        else r == Frame(f[c.DataPos(f)..n - c.TrailerLen()], n, c.Next(id))
  {
    hide Codec.HeaderOk;
    hide Codec.LengthOk;
    hide Codec.TrailerOk;
    hide Codec.DataPos;
    hide Codec.Next;
  }

  /** What the loop has produced when it stops. */
  datatype Decoded =
    | Fail
    | Undefined
    | Ok(out: seq<byte>, rest: seq<byte>, id: nat)

  function Prepend(p: seq<byte>, d: Decoded): Decoded {
    if d.Ok? then Ok(p + d.out, d.rest, d.id) else d
  }

  function Decode(c: Codec, id: nat, x: seq<byte>): Decoded
    decreases |x|
  {
    match Parse(c, id, x)
    case More => Ok([], x, id)
    case Bad => Fail
    case Lying => Undefined
    case Frame(p, n, id') => Prepend(p, Decode(c, id', x[n..]))
  }

  // ---------- Independence of fragmentation ----------

  /** Header tests only see the bytes that are already there. */
  lemma {:induction false} HeaderMonotone(c: Codec, id: nat, x: seq<byte>, y: seq<byte>)
    requires |x| > c.Guard()
    ensures c.HeaderOk(id, x + y) == c.HeaderOk(id, x) && c.Length(x + y) == c.Length(x)
  {
    assert (x + y)[..2] == x[..2];
    if c.Aes128? { assert (x + y)[2..4] == x[2..4]; }
  }

  /** A turn that did something does the same when more bytes are buffered. */
  lemma {:induction false} ParseMonotone(c: Codec, id: nat, x: seq<byte>, y: seq<byte>)
    requires !Parse(c, id, x).More?
    ensures Parse(c, id, x + y) == Parse(c, id, x)
  {
    HeaderMonotone(c, id, x, y);
    var n := c.Length(x);
    if n <= |x| { assert (x + y)[..n] == x[..n]; }
  }

  /** Go on with y after a first run that ended in d. */
  function Resume(c: Codec, d: Decoded, y: seq<byte>): Decoded {
    if d.Ok? then Prepend(d.out, Decode(c, d.id, d.rest + y)) else d
  }

  lemma {:induction false} ResumePrepend(c: Codec, p: seq<byte>, d: Decoded, y: seq<byte>)
    ensures Resume(c, Prepend(p, d), y) == Prepend(p, Resume(c, d, y))
  {
    if d.Ok? { PrependTwice(p, d.out, Decode(c, d.id, d.rest + y)); }
  }

  /** Running the loop on a first part of the input, then on what it left
      together with the second part, is running it on the whole. */
  lemma {:induction false} DecodeSplit(c: Codec, id: nat, x: seq<byte>, y: seq<byte>)
    ensures Decode(c, id, x + y) == Resume(c, Decode(c, id, x), y)
    decreases |x|
  {
    hide Parse;
    var r := Parse(c, id, x);
    if r.More? {
      PrependNothing(Decode(c, id, x + y));
    } else {
      ParseMonotone(c, id, x, y);
      if r.Frame? {
        assert (x + y)[r.size..] == x[r.size..] + y;
        DecodeSplit(c, r.id, x[r.size..], y);
        ResumePrepend(c, r.payload, Decode(c, r.id, x[r.size..]), y);
      }
    }
  }

  lemma {:induction false} PrependNothing(d: Decoded)
    ensures Prepend([], d) == d
  {
    if d.Ok? { assert [] + d.out == d.out; }
  }

  lemma {:induction false} PrependTwice(p: seq<byte>, q: seq<byte>, d: Decoded)
    ensures Prepend(p, Prepend(q, d)) == Prepend(p + q, d)
  {
    if d.Ok? { assert p + (q + d.out) == (p + q) + d.out; }
  }

  /** A receiver fed buffer by buffer: what one call leaves unparsed is kept in
      front of the next buffer, and a failed call ends the connection. */
  function FeedAll(c: Codec, id: nat, pending: seq<byte>, bufs: seq<seq<byte>>): Decoded
    decreases |bufs|
  {
    if bufs == [] then Ok([], pending, id)
    else
      var d := Decode(c, id, pending + bufs[0]);
      if d.Ok? then Prepend(d.out, FeedAll(c, d.id, d.rest, bufs[1..])) else d
  }

  /** No input fragmentation changes the output, the leftover, the counter or
      the verdict. */
  lemma {:induction false} Fragmentation(c: Codec, id: nat, pending: seq<byte>, bufs: seq<seq<byte>>)
    requires Parse(c, id, pending).More?
    ensures FeedAll(c, id, pending, bufs) == Decode(c, id, pending + Flatten(bufs))
    decreases |bufs|
  {
    if bufs == [] {
      assert pending + Flatten(bufs) == pending;
    } else {
      var x, y := pending + bufs[0], Flatten(bufs[1..]);
      assert pending + Flatten(bufs) == x + y;
      DecodeSplit(c, id, x, y);
      var d := Decode(c, id, x);
      if d.Ok? {
        DecodeRest(c, id, x);
        Fragmentation(c, d.id, d.rest, bufs[1..]);
      }
    }
  }

  /** The loop only stops when the next turn has nothing to do. */
  lemma {:induction false} DecodeRest(c: Codec, id: nat, x: seq<byte>)
    requires Decode(c, id, x).Ok?
    ensures var d := Decode(c, id, x); Parse(c, d.id, d.rest).More? && |d.out| + |d.rest| <= |x|
    decreases |x|
  {
    var r := Parse(c, id, x);
    if r.Frame? { DecodeRest(c, r.id, x[r.size..]); }
  }

  /** An incomplete frame of a family with a length limit is shorter than the
      limit, so the receive buffer of twice that size always has room for
      another buffer of that size. */
  lemma {:induction false} PendingBound(c: Codec, id: nat, x: seq<byte>)
    requires Parse(c, id, x).More? && c.LengthOk(8191) && !c.LengthOk(8192)
    ensures |x| < 8191
  {
  }

  // ---------- Frames whose padding lies ----------

  /** A family whose frames carry a padding field. */
  predicate Padded(c: Codec) {
    !(c.Chunk? || c.ServerRecord? || c.ClientRecord?)
  }

  /** A complete frame that passes every test of the receiver, with a padding field
      that leaves less than nothing for the payload: length - position - 4 < 0. */
  predicate Overpadded(c: Codec, id: nat, x: seq<byte>) {
    && Padded(c) && |x| > c.Guard() && c.HeaderOk(id, x) && c.LengthOk(c.Length(x)) && c.Length(x) <= |x|
    && var f := x[..c.Length(x)];
    c.TrailerOk(id, f) && c.DataPos(f) + 4 > |f|
  }

  /** A turn is undefined exactly on such a frame; chunks and records have none. */
  lemma {:induction false} TurnUndefined(c: Codec, id: nat, x: seq<byte>)
    ensures Parse(c, id, x).Lying? <==> Overpadded(c, id, x)
  {
  }

  /** Where a run of the loop stops: the counter and the bytes of the first turn that
      does not take a frame. */
  function Stop(c: Codec, id: nat, x: seq<byte>): (nat, seq<byte>)
    decreases |x|
  {
    var r := Parse(c, id, x);
    if r.Frame? then Stop(c, r.id, x[r.size..]) else (id, x)
  }

  /** A run is undefined if and only if the first frame it cannot take is one whose
      padding lies. */
  lemma {:induction false} UndefinedExact(c: Codec, id: nat, x: seq<byte>)
    ensures var (id', y) := Stop(c, id, x); Decode(c, id, x).Undefined? <==> Overpadded(c, id', y)
    decreases |x|
  {
    hide Overpadded;
    var r := Parse(c, id, x);
    if r.Frame? { UndefinedExact(c, r.id, x[r.size..]); } else { TurnUndefined(c, id, x); }
  }

  /** Chunks and records: no run is undefined. */
  lemma {:induction false} UnpaddedDefined(c: Codec, id: nat, x: seq<byte>)
    requires !Padded(c)
    ensures !Decode(c, id, x).Undefined?
  {
    hide Decode;
    hide Stop;
    UndefinedExact(c, id, x);
  }
}
