/** encrypt.c: the one-time-auth chunks. ss_gen_hash frames a buffer in place;
    ss_check_hash strips the frames of a byte stream in place, keeping the bytes
    of an unfinished chunk for the next call. */
module ChunkStream {
  import opened Bits
  import opened Bytes
  import opened Framing
  import opened Packets

  /** buffer_t: data.Length is the capacity. */
  class Buffer {
    var data: array<byte>
    var len: nat

    constructor (capacity: nat)
      ensures fresh(data) && data.Length == capacity && len == 0
    {
      data := new byte[capacity](_ => 0);
      len := 0;
    }

    ghost predicate Valid()
      reads this
    {
      len <= data.Length
    }

    /** The bytes in use. */
    ghost function Content(): seq<byte>
      requires Valid()
      reads this, data
    {
      data[..len]
    }

    /** brealloc: grow to at least max(size, capacity), keeping the contents. */
    method Realloc(size: nat, capacity: nat)
      modifies this`data
      ensures data == old(data) || fresh(data)
      ensures data.Length >= old(data.Length) && data.Length >= size && data.Length >= capacity
      ensures data[..old(data.Length)] == old(data[..])
    {
      var want := if size > capacity then size else capacity;
      if data.Length < want {
        var d := new byte[want](_ => 0);
        ghost var was := data[..];
        for i := 0 to data.Length
          invariant d[..i] == was[..i] && data[..] == was
        {
          d[i] := data[i];
        }
        data := d;
      }
    }
  }

  /** chunk_t: the chunk being collected. len is only meaningful once the two
      length bytes are in. */
  class Collector {
    var idx: nat
    var len: nat
    var counter: nat
    var buf: Buffer

    constructor ()
      ensures Valid() && fresh(buf) && fresh(buf.data) && Held() == [] && counter == 0
    {
      buf := new Buffer(0);
      idx, len, counter := 0, 0, 0;
    }

    ghost predicate Valid()
      reads this, buf, buf.data
    {
      && counter < WORD && len < 65536
      && idx <= buf.data.Length
      && (idx >= 2 ==> len == U16(buf.data[0], buf.data[1]) && idx < len + 12 <= buf.data.Length)
    }

    /** The same, part way through a call: n bytes are in. */
    ghost predicate Collecting(n: nat)
      reads this, buf, buf.data
    {
      && counter < WORD && len < 65536 && 2 <= buf.data.Length && n <= buf.data.Length
      && (n >= 2 ==> len == U16(buf.data[0], buf.data[1]) && n <= len + 12 <= buf.data.Length)
    }

    /** Append one byte; the second one completes the length. */
    method Take(n: nat, b: byte, capacity: nat)
      requires Collecting(n) && (n >= 2 ==> n < len + 12)
      modifies this`len, buf`data, buf.data
      ensures Collecting(n + 1) && buf.data[..n + 1] == old(buf.data[..n]) + [b]
      ensures n >= 2 ==> len == old(len)
      ensures buf.data == old(buf.data) || fresh(buf.data)
    {
      buf.data[n] := b;
      assert buf.data[..n + 1] == old(buf.data[..n]) + [b];
      if n + 1 == 2 {
        len := U16(buf.data[0], buf.data[1]);
        ghost var held := buf.data[..2];
        buf.Realloc(len + 12, capacity);
        assert buf.data[..2] == held;
        assert buf.data[0] == held[0] && buf.data[1] == held[1];
      }
    }

    /** The bytes of the unfinished chunk. */
    ghost function Held(): seq<byte>
      requires Valid()
      reads this, buf, buf.data
    {
      buf.data[..idx]
    }
  }

  /** Copy a finished chunk back into the caller's buffer: the bytes not yet
      read move first, towards either end, and the payload fills the gap. */
  method Emit(a: array<byte>, j: nat, k: nat, rest: nat, payload: seq<byte>)
    requires k + rest <= a.Length && j + |payload| + rest <= a.Length
    modifies a
    ensures a[..j + |payload|] == old(a[..j]) + payload
    ensures a[j + |payload|..j + |payload| + rest] == old(a[k..k + rest])
  {
    Move(a, j + |payload|, k, rest);
    assert a[..j] == old(a[..j]);
    assert a[j + |payload|..j + |payload| + rest] == old(a[k..k + rest]);
    label moved:
    Store(a, j, payload);
    assert a[..j] == old@moved(a[..j]);
    assert a[j..j + |payload|] == payload;
    assert a[..j + |payload|] == a[..j] + a[j..j + |payload|];
    assert a[j + |payload|..j + |payload| + rest] == old@moved(a[j + |payload|..j + |payload| + rest]);
  }

  /** A chunk missing its end makes the receiver wait. */
  lemma {:induction false} Unfinished(c: Codec, id: nat, held: seq<byte>)
    requires c.Chunk? && (|held| < 2 || |held| < U16(held[0], held[1]) + 12)
    ensures Decode(c, id, held) == Ok([], held, id)
  {
  }

  /** A finished chunk is accepted exactly when its tag matches. */
  lemma {:induction false} Finished(c: Codec, id: nat, held: seq<byte>, rest: seq<byte>)
    requires c.Chunk? && c.Valid() && |held| >= 12 && |held| == U16(held[0], held[1]) + 12
    ensures Decode(c, id, held + rest) ==
      if c.mac(c.iv + Be32(id), held[12..])[..10] == held[2..12]
      then Prepend(held[12..], Decode(c, (id + 1) % WORD, rest)) else Fail
  {
    var x := held + rest;
    assert x[..|held|] == held && x[|held|..] == rest;
    assert held[12..|held|] == held[12..];
  }

  /** The relation the loop of ss_check_hash keeps: what is still to be done
      with the collected and the unread bytes, after the bytes already
      emitted, gives what the specification gives for the whole input. */
  ghost predicate OnTrack(c: Codec, id0: nat, x: seq<byte>, out: seq<byte>, id: nat, held: seq<byte>,
                          unread: seq<byte>) {
    Decode(c, id0, x) == Prepend(out, Decode(c, id, held + unread))
  }

  lemma {:induction false} TrackTake(c: Codec, id0: nat, x: seq<byte>, out: seq<byte>, id: nat, held: seq<byte>,
                                     unread: seq<byte>)
    requires unread != [] && OnTrack(c, id0, x, out, id, held, unread)
    ensures OnTrack(c, id0, x, out, id, held + [unread[0]], unread[1..])
  {
    assert held + unread == held + [unread[0]] + unread[1..];
  }

  lemma {:induction false} TrackFinish(c: Codec, id0: nat, x: seq<byte>, out: seq<byte>, id: nat, held: seq<byte>,
                                       unread: seq<byte>)
    requires c.Chunk? && c.Valid() && |held| >= 12 && |held| == U16(held[0], held[1]) + 12
    requires OnTrack(c, id0, x, out, id, held, unread)
    ensures if c.mac(c.iv + Be32(id), held[12..])[..10] == held[2..12]
      then OnTrack(c, id0, x, out + held[12..], (id + 1) % WORD, [], unread) else Decode(c, id0, x) == Fail
  {
    Finished(c, id, held, unread);
    assert [] + unread == unread;
    PrependTwice(out, held[12..], Decode(c, (id + 1) % WORD, unread));
  }

  lemma {:induction false} TrackEnd(c: Codec, id0: nat, x: seq<byte>, out: seq<byte>, id: nat, held: seq<byte>)
    requires c.Chunk? && (|held| < 2 || |held| < U16(held[0], held[1]) + 12)
    requires OnTrack(c, id0, x, out, id, held, [])
    ensures Decode(c, id0, x) == Ok(out, held, id)
  {
    assert held + [] == held && out + [] == out;
    Unfinished(c, id, held);
  }

  /** The loop variables of ss_check_hash: input bytes seen, output bytes
      written, read position, bytes in the collector. */
  datatype Cursor = Cursor(i: nat, j: nat, k: nat, cidx: nat)

  /** What one call is about: the codec, the whole input and its shape. */
  datatype Job = Job(c: Codec, id0: nat, x: seq<byte>, blen: nat, heldLen: nat, len0: nat)

  /** The in-place moves stay inside the buffer: until the first chunk is
      finished the reader is at its original place, afterwards it trails the
      writer by what the collector holds. */
  ghost predicate InBounds(job: Job, cur: Cursor, first: bool, len: nat, room: nat) {
    && cur.i <= job.blen && job.len0 + job.blen <= room && cur.k + (job.blen - cur.i) <= room
    && (if first then cur.j == 0 && cur.k == cur.i && cur.cidx == job.heldLen + cur.i
                      && (job.heldLen >= 2 ==> len == job.len0)
        else cur.k == cur.j + cur.cidx)
  }

  /** The collector holds cidx bytes, the unread input starts at k. */
  ghost predicate Tracking(buf: Buffer, chunk: Collector, job: Job, cur: Cursor)
    reads buf, buf.data, chunk, chunk.buf, chunk.buf.data
  {
    && buf.data != chunk.buf.data && chunk.Collecting(cur.cidx) && cur.i <= job.blen
    && cur.k + (job.blen - cur.i) <= buf.data.Length && cur.j <= buf.data.Length
    && OnTrack(job.c, job.id0, job.x, buf.data[..cur.j], chunk.counter,
               chunk.buf.data[..cur.cidx], buf.data[cur.k..cur.k + (job.blen - cur.i)])
  }

  ghost predicate LoopInv(buf: Buffer, chunk: Collector, job: Job, cur: Cursor, first: bool)
    reads buf, buf.data, chunk, chunk.buf, chunk.buf.data
  {
    && Tracking(buf, chunk, job, cur) && (cur.cidx >= 2 ==> cur.cidx < chunk.len + 12)
    && InBounds(job, cur, first, chunk.len, buf.data.Length)
  }

  /** Test the tag of a finished chunk and write its payload back. */
  method FinishChunk(buf: Buffer, chunk: Collector, mac: Mac, iv: seq<byte>, blen: nat, ghost job: Job, cur: Cursor)
    returns (ok: bool)
    requires job.c == Chunk(mac, iv) && IsMac(mac) && job.blen == blen
    requires Tracking(buf, chunk, job, cur) && cur.cidx == chunk.len + 12
    requires cur.j + chunk.len + (blen - cur.i) <= buf.data.Length
    modifies buf.data, chunk`counter
    ensures buf.data != chunk.buf.data
    ensures ok ==> var j := cur.j + chunk.len; Tracking(buf, chunk, job, Cursor(cur.i, j, j, 0))
    ensures !ok ==> Decode(job.c, job.id0, job.x) == Fail
  {
    hide Decode;
    hide OnTrack;
    hide U16;
    hide Be32;
    var unread := blen - cur.i;
    var payload, sent := chunk.buf.data[12..cur.cidx], chunk.buf.data[2..12];
    var tag := mac(iv + Be32(chunk.counter), payload);
    ok := tag[..10] == sent;
    ghost var held := chunk.buf.data[..cur.cidx];
    assert held[12..] == payload && held[2..12] == sent;
    assert held[0] == chunk.buf.data[0] && held[1] == chunk.buf.data[1];
    TrackFinish(job.c, job.id0, job.x, buf.data[..cur.j], chunk.counter, held, buf.data[cur.k..cur.k + unread]);
    if ok {
      Emit(buf.data, cur.j, cur.k, unread, payload);
      chunk.counter := (chunk.counter + 1) % WORD;
      assert chunk.buf.data[..0] == [];
    }
  }

  /** Move one input byte into the collector. */
  method Absorb(buf: Buffer, chunk: Collector, capacity: nat, blen: nat, ghost job: Job, cur: Cursor)
    returns (next: Cursor)
    requires Tracking(buf, chunk, job, cur) && (cur.cidx >= 2 ==> cur.cidx < chunk.len + 12)
    requires job.blen == blen && cur.i < blen && buf != chunk.buf
    modifies chunk`len, chunk.buf`data, chunk.buf.data
    ensures chunk.buf.data == old(chunk.buf.data) || fresh(chunk.buf.data)
    ensures next == Cursor(cur.i + 1, cur.j, cur.k + 1, cur.cidx + 1)
    ensures buf.data != chunk.buf.data
    ensures Tracking(buf, chunk, job, next) && (cur.cidx >= 2 ==> chunk.len == old(chunk.len))
  {
    hide Decode;
    hide OnTrack;
    ghost var unread, held := buf.data[cur.k..cur.k + (blen - cur.i)], chunk.buf.data[..cur.cidx];
    TrackTake(job.c, job.id0, job.x, buf.data[..cur.j], chunk.counter, held, unread);
    chunk.Take(cur.cidx, buf.data[cur.k], capacity);
    assert buf.data[cur.k + 1..cur.k + 1 + (blen - cur.i - 1)] == unread[1..];
    next := Cursor(cur.i + 1, cur.j, cur.k + 1, cur.cidx + 1);
  }

  /** A finished chunk fits where it has to be written back. */
  lemma {:induction false} FinishFits(job: Job, cur: Cursor, first: bool, len: nat, room: nat)
    requires InBounds(job, cur, first, len, room) && cur.i < job.blen && cur.cidx + 1 == len + 12
    ensures cur.j + len + (job.blen - cur.i - 1) <= room
    ensures InBounds(job, Cursor(cur.i + 1, cur.j + len, cur.j + len, 0), false, len, room)
  {
  }

  /** One turn of the loop of ss_check_hash. */
  method ReadByte(buf: Buffer, chunk: Collector, mac: Mac, iv: seq<byte>, capacity: nat, blen: nat,
                  ghost job: Job, cur: Cursor, ghost first: bool)
    returns (ok: bool, cur': Cursor, ghost first': bool)
    requires job.c == Chunk(mac, iv) && IsMac(mac) && job.blen == blen
    requires LoopInv(buf, chunk, job, cur, first) && cur.i < blen
    requires buf != chunk.buf
    modifies buf.data, chunk`len, chunk`counter, chunk.buf`data, chunk.buf.data
    ensures chunk.buf.data == old(chunk.buf.data) || fresh(chunk.buf.data)
    ensures buf.data != chunk.buf.data
    ensures ok ==> cur'.i == cur.i + 1 && LoopInv(buf, chunk, job, cur', first')
    ensures !ok ==> Decode(job.c, job.id0, job.x) == Fail
  {
    hide Decode;
    hide Tracking;
    var next := Absorb(buf, chunk, capacity, blen, job, cur);
    ok, cur', first' := true, next, first;
    if next.cidx == chunk.len + 12 {
      FinishFits(job, cur, first, chunk.len, buf.data.Length);
      ok := FinishChunk(buf, chunk, mac, iv, blen, job, next);
      var j := cur.j + chunk.len;
      cur', first' := Cursor(cur.i + 1, j, j, 0), false;
    }
  }

  /** All bytes read: what is left is an unfinished chunk. */
  lemma {:induction false} LoopEnd(buf: Buffer, chunk: Collector, job: Job, cur: Cursor, first: bool)
    requires LoopInv(buf, chunk, job, cur, first) && job.c.Chunk? && cur.i == job.blen
    ensures buf.data != chunk.buf.data && cur.j <= buf.data.Length && chunk.Collecting(cur.cidx)
    ensures cur.cidx >= 2 ==> cur.cidx < chunk.len + 12
    ensures Decode(job.c, job.id0, job.x) == Ok(buf.data[..cur.j], chunk.buf.data[..cur.cidx], chunk.counter)
  {
    hide Decode;
    hide OnTrack;
    assert buf.data[cur.k..cur.k + 0] == [];
    TrackEnd(job.c, job.id0, job.x, buf.data[..cur.j], chunk.counter, chunk.buf.data[..cur.cidx]);
  }

  /** ss_check_hash: on success the buffer holds the payloads of the chunks the
      stream has completed, the collector the bytes after them. */
  method CheckHash(buf: Buffer, chunk: Collector, mac: Mac, iv: seq<byte>, capacity: nat) returns (ok: bool)
    requires IsMac(mac) && capacity >= 2
    requires buf.Valid() && chunk.Valid() && buf != chunk.buf && buf.data != chunk.buf.data
    modifies buf, buf.data, chunk`idx, chunk`len, chunk`counter, chunk.buf`data, chunk.buf.data
    ensures buf.data != chunk.buf.data
    ensures buf.data == old(buf.data) || fresh(buf.data)
    ensures chunk.buf.data == old(chunk.buf.data) || fresh(chunk.buf.data)
    ensures var d := old(Decode(Chunk(mac, iv), chunk.counter, chunk.Held() + buf.Content()));
      if ok then buf.Valid() && chunk.Valid() && d == Ok(buf.Content(), chunk.Held(), chunk.counter) else d == Fail
  {
    hide Decode;
    hide LoopInv;
    var blen := buf.len;
    ghost var job := Job(Chunk(mac, iv), chunk.counter, chunk.Held() + buf.Content(), blen, chunk.idx, chunk.len);
    var cur := Cursor(0, 0, 0, chunk.idx);
    ghost var first := true;
    Prepare(buf, chunk, capacity, job);
    ok := true;
    while cur.i < blen
      invariant LoopInv(buf, chunk, job, cur, first) && cur.i <= blen
      invariant buf.data == old(buf.data) || fresh(buf.data)
      invariant chunk.buf.data == old(chunk.buf.data) || fresh(chunk.buf.data)
      decreases blen - cur.i
    {
      ok, cur, first := ReadByte(buf, chunk, mac, iv, capacity, blen, job, cur, first);
      if !ok { return; }
    }
    LoopEnd(buf, chunk, job, cur, first);
    buf.len := cur.j;
    chunk.idx := cur.cidx;
  }

  lemma {:induction false} Kept(a: seq<byte>, b: seq<byte>, n: nat)
    requires n <= |a| <= |b| && b[..|a|] == a
    ensures b[..n] == a[..n]
  {
    assert b[..|a|][..n] == b[..n];
  }

  /** The two reallocations at the head of ss_check_hash. */
  method Prepare(buf: Buffer, chunk: Collector, capacity: nat, ghost job: Job)
    requires capacity >= 2 && buf.Valid() && chunk.Valid() && buf != chunk.buf && buf.data != chunk.buf.data
    requires job.x == chunk.Held() + buf.Content() && job.blen == buf.len && job.id0 == chunk.counter
    requires job.heldLen == chunk.idx && job.len0 == chunk.len
    modifies buf`data, chunk.buf`data
    ensures LoopInv(buf, chunk, job, Cursor(0, 0, 0, chunk.idx), true)
    ensures buf.data == old(buf.data) || fresh(buf.data)
    ensures chunk.buf.data == old(chunk.buf.data) || fresh(chunk.buf.data)
  {
    hide Decode;
    ghost var held, unread := chunk.Held(), buf.Content();
    ghost var hold, full := chunk.buf.data[..], buf.data[..];
    chunk.buf.Realloc(chunk.len + buf.len, capacity);
    Kept(hold, chunk.buf.data[..], chunk.idx);
    if chunk.idx >= 2 {
      Kept(hold, chunk.buf.data[..], 2);
      assert chunk.buf.data[..2][0] == hold[..2][0] && chunk.buf.data[..2][1] == hold[..2][1];
    }
    buf.Realloc(chunk.len + buf.len, capacity);
    Kept(full, buf.data[..], buf.len);
    assert buf.data[0..0 + buf.len] == buf.data[..buf.len] && buf.data[..0] == [];
    PrependNothing(Decode(job.c, job.id0, job.x));
  }

  /** ss_gen_hash: frame the buffer in place. The length field is 16 bits wide,
      so longer buffers announce their length modulo 65536. */
  method GenHash(buf: Buffer, counter: nat, mac: Mac, iv: seq<byte>, capacity: nat) returns (counter': nat)
    requires IsMac(mac) && buf.Valid() && counter < WORD
    modifies buf, buf.data
    ensures buf.data == old(buf.data) || fresh(buf.data)
    ensures buf.Valid() && counter' == (counter + 1) % WORD
    ensures var p := old(buf.Content());
      buf.Content() == [Hi(|p|), Lo(|p|)] + mac(iv + Be32(counter), p)[..10] + p
  {
    hide Be32;
    hide Hi;
    hide Lo;
    var blen := buf.len;
    ghost var p := buf.Content();
    buf.Realloc(12 + blen, capacity);
    assert buf.data[..blen] == p;
    var hash := mac(iv + Be32(counter), buf.data[..blen]);
    LayFrame(buf.data, blen, hash[..10], [Hi(blen), Lo(blen)]);
    buf.len := blen + 12;
    counter' := (counter + 1) % WORD;
  }

  /** Payload up by twelve bytes, then hash and length in front of it. */
  method LayFrame(a: array<byte>, n: nat, hash: seq<byte>, size: seq<byte>)
    requires 12 + n <= a.Length && |hash| == 10 && |size| == 2
    modifies a
    ensures a[..n + 12] == size + hash + old(a[..n])
  {
    ghost var s := a[..];
    Move(a, 12, 0, n);
    ghost var s1 := a[..];
    Store(a, 2, hash);
    ghost var s2 := a[..];
    Store(a, 0, size);
    FrameLaid(s, n, hash, size, s1, s2, a[..]);
  }

  /** The three moves of ss_gen_hash, on contents. */
  lemma {:induction false} FrameLaid(s: seq<byte>, n: nat, hash: seq<byte>, size: seq<byte>, s1: seq<byte>,
                                     s2: seq<byte>, s3: seq<byte>)
    requires 12 + n <= |s| && |hash| == 10 && |size| == 2
    requires s1 == s[..12] + s[0..0 + n] + s[12 + n..]
    requires s2 == s1[..2] + hash + s1[2 + |hash|..]
    requires s3 == s2[..0] + size + s2[0 + |size|..]
    ensures s3[..n + 12] == size + hash + s[..n]
  {
    var rest := s[12 + n..];
    assert s1[12..] == s[..n] + rest;
    assert s2[2..] == hash + (s[..n] + rest);
    assert s3 == size + (hash + (s[..n] + rest));
    assert s3 == (size + hash + s[..n]) + rest;
  }

  /** What ss_gen_hash writes, for a payload of any length. */
  function Framed(c: Codec, id: nat, p: seq<byte>): seq<byte>
    requires c.Chunk? && c.Valid()
  {
    [Hi(|p|), Lo(|p|)] + c.mac(c.iv + Be32(id), p)[..10] + p
  }

  /** ss_check_hash undoes ss_gen_hash exactly for payloads that fit the 16-bit
      length field, whatever the hash function is. */
  lemma {:induction false} FramedExact(c: Codec, id: nat, p: seq<byte>)
    requires c.Chunk? && c.Valid()
    ensures Decode(c, id, Framed(c, id, p)) == Ok(p, [], (id + 1) % WORD) <==> |p| < 65536
  {
    var f := Framed(c, id, p);
    if |p| < 65536 {
      var pk := Packet(p, []);
      assert FrameOf(c, id, pk) == f;
      assert f + [] == f;
      RoundTrip(c, id, pk, []);
      assert Decode(c, (id + 1) % WORD, []) == Ok([], [], (id + 1) % WORD);
      assert f[|f|..] == [];
    } else {
      var r := Parse(c, id, f);
      if r.Frame? && Decode(c, r.id, f[r.size..]).Ok? {
        assert |r.payload| == U16(f[0], f[1]) < |p|;
        ChunkOverhead(c, r.id, f[r.size..]);
      }
    }
  }

  /** Every decoded chunk costs twelve bytes. */
  lemma {:induction false} ChunkOverhead(c: Codec, id: nat, x: seq<byte>)
    requires c.Chunk? && c.Valid() && Decode(c, id, x).Ok?
    ensures var d := Decode(c, id, x);
      |d.out| + |d.rest| <= |x| && (d.rest != x ==> |d.out| + |d.rest| + 12 <= |x|)
    decreases |x|
  {
    var r := Parse(c, id, x);
    if r.Frame? { ChunkOverhead(c, r.id, x[r.size..]); }
  }
}
