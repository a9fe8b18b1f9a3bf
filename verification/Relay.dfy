/** server.c: the relay of one TCP connection, as a machine over its watchers, stages
    and two buffers. The callbacks run one at a time; sockets decide how much of a
    send is taken. What decoding and encoding make of the bytes read is part of the
    event; what they ask for in the header stages is computed in Addressing. */
module Relay {
  import opened Bytes
  import Addressing

  /** A buffer_t: its block of memory, length of the unsent part, and where it starts. */
  datatype Buf = Buf(arr: seq<byte>, len: nat, idx: nat)

  predicate BufOk(b: Buf) { b.idx + b.len <= |b.arr| }

  function Pending(b: Buf): (r: seq<byte>)
    requires BufOk(b)
    ensures |r| == b.len
  {
    b.arr[b.idx..b.idx + b.len]
  }

  /** New contents written from the start of the block, over what was there; the block
      has been made larger when they need more room. */
  function Fill(b: Buf, p: seq<byte>): Buf {
    Buf(p + (if |b.arr| > |p| then b.arr[|p|..] else []), |p|, b.idx)
  }

  /** In the stage Overrun a copy has gone past the end of a block of memory, and
      nothing is known of what follows. */
  datatype Stage = Init | Handshake | Parse | Resolve | Stream | Failed | Closed | Overrun

  /** Whether a DNS query is pending, the armed watchers, the buffers (up towards the
      remote, down towards the client), and the history: bytes to pass on and bytes the
      sockets took. */
  datatype Conn = Conn(stage: Stage, hasRemote: bool, connected: bool, asking: bool,
                       clientRead: bool, remoteWrite: bool, remoteRead: bool, clientWrite: bool,
                       up: Buf, down: Buf,
                       upIn: seq<byte>, upOut: seq<byte>, downIn: seq<byte>, downOut: seq<byte>)

  function Block(): (b: seq<byte>)
    ensures |b| == BUF_SIZE
  {
    seq(BUF_SIZE, _ => 0)
  }

  /** balloc: an empty buffer with a block of BUF_SIZE bytes. */
  const EMPTY_BUF: Buf := Buf(Block(), 0, 0)

  const FRESH: Conn := Conn(Init, false, false, false, true, false, false, false, EMPTY_BUF, EMPTY_BUF, [], [], [], [])

  /** Result of a send of n bytes: EAGAIN, an error, or how many were taken. */
  datatype Send = Again | Broken | Taken(n: nat)

  /** Outcome of the header stages: too few bytes to look at, an incomplete header, a
      malformed one, a dropped connection, or a payload for an address or for a name,
      for which a query could be submitted or not. After a malformed header what the
      client sends is ignored. */
  datatype Request =
    | Short
    | More
    | Malformed
    | Dropped
    | Ignored
    | Direct(p: seq<byte>)
    | Named(p: seq<byte>, submitted: bool)

  /** What the answer of the header stages leads to. A name that is a written address needs
      no query; a target may be out of reach. */
  function Ask(env: Addressing.Env, a: Addressing.Answer, reachable: bool, submitted: bool): Request {
    match a
    case Wait => More
    case Malformed => Malformed
    case Refuse => Dropped
    case Reach(to, _, p) =>
      if to.Name? && !env.literal(to.host) then Named(p, submitted) else if reachable then Direct(p) else Dropped
  }

  datatype Event =
    | Header(r: Request)                      // server_recv_cb before streaming
    | ClientQuiet                             // server_recv_cb: nothing to pass on yet
    | ClientData(p: seq<byte>, s: Send)       // server_recv_cb in the stream
    | Resolved(ok: bool)                      // server_resolve_cb
    | RemoteReady(alive: bool, s: Send)       // remote_send_cb
    | RemoteData(p: seq<byte>, s: Send)       // remote_recv_cb
    | ClientReady(s: Send)                    // server_send_cb
    | Gone                                    // end of file, an error, or the timeout

  /** Callbacks only run for armed watchers, and a send takes what there is at most. */
  ghost predicate Can(c: Conn, e: Event) {
    !c.stage.Overrun? && match e
    case Header(r) => c.clientRead && (if r.Ignored? then c.stage.Failed? else c.stage.Init? || c.stage.Handshake?)
    case ClientQuiet => c.clientRead && c.stage.Stream?
    case ClientData(p, s) => c.clientRead && c.stage.Stream? && (s.Taken? ==> s.n <= |p|)
    case Resolved(_) => c.asking
    case RemoteReady(_, s) => c.remoteWrite && (s.Taken? ==> s.n <= c.up.len)
    case RemoteData(p, s) => c.remoteRead && (s.Taken? ==> s.n <= |p|)
    case ClientReady(s) => c.clientWrite && (s.Taken? ==> s.n <= c.down.len)
    case Gone => !c.stage.Closed?
  }

  function Shut(c: Conn): (d: Conn)
    ensures d.stage.Closed? && d.upIn == c.upIn && d.upOut == c.upOut && d.downIn == c.downIn && d.downOut == c.downOut
  {
    c.(stage := Closed, asking := false,
       clientRead := false, remoteWrite := false, remoteRead := false, clientWrite := false)
  }

  /** A remote is made and takes over the payload. Its buffer is not made larger for
      that: a payload that does not fit is copied past its end. */
  function Connect(c: Conn, payload: seq<byte>): (d: Conn)
    ensures (d.stage == c.stage || d.stage.Overrun?) && d.asking == c.asking
    ensures d.upIn == c.upIn && d.upOut == c.upOut && d.downIn == c.downIn && d.downOut == c.downOut
  {
    if |payload| > |EMPTY_BUF.arr| then c.(stage := Overrun)
    else
      c.(hasRemote := true, connected := false, remoteWrite := true, clientRead := false,
         up := if payload == [] then EMPTY_BUF else Fill(EMPTY_BUF, payload),
         down := if payload == [] then c.down else Buf(c.down.arr, 0, 0))
  }

  function HeaderStep(c: Conn, r: Request): (d: Conn)
    ensures r.Ignored? ==> d.stage == c.stage && d.asking == c.asking
  {
    match r
    case Short => c
    case More => c.(stage := Handshake, down := Buf(c.down.arr, 0, 0))
    case Malformed => c.(stage := Failed, down := Buf(c.down.arr, 0, 0))
    case Dropped => Shut(c)
    case Ignored => c.(down := Buf(c.down.arr, 0, 0))
    case Direct(p) => RequestStep(c, p, false, false)
    case Named(p, submitted) => RequestStep(c, p, true, submitted)
  }

  /** The payload behind a complete header waits for the connection. */
  function RequestStep(c: Conn, p: seq<byte>, named: bool, submitted: bool): Conn {
    var d := c.(down := Fill(c.down, p), upIn := c.upIn + p);
    if named then d.(stage := Resolve, asking := submitted, clientRead := false)
    else Connect(d.(stage := Parse), d.down.arr[..|p|])
  }

  /** Passing on what the client sent. */
  function UpStep(c: Conn, p: seq<byte>, s: Send): (d: Conn)
    ensures (d.stage == c.stage || d.stage.Closed?) && (d.asking ==> c.asking)
  {
    var d := c.(up := Fill(c.up, p), upIn := c.upIn + p);
    match s
    case Again => d.(up := d.up.(idx := 0), clientRead := false, remoteWrite := true)
    case Broken => Shut(d)
    case Taken(n) =>
      var e := d.(upOut := d.upOut + p[..if n <= |p| then n else |p|]);
      if n < |p| then e.(up := e.up.(len := |p| - n, idx := n), clientRead := false, remoteWrite := true)
      else e
  }

  /** Passing on what the remote sent. */
  function DownStep(c: Conn, p: seq<byte>, s: Send): (d: Conn)
    ensures (d.stage == c.stage || d.stage.Closed?) && (d.asking ==> c.asking)
  {
    var d := c.(down := Fill(c.down, p), downIn := c.downIn + p);
    match s
    case Again => d.(down := d.down.(idx := 0), remoteRead := false, clientWrite := true)
    case Broken => Shut(d)
    case Taken(n) =>
      var e := d.(downOut := d.downOut + p[..if n <= |p| then n else |p|]);
      if n < |p| then e.(down := e.down.(len := |p| - n, idx := n), remoteRead := false, clientWrite := true)
      else e
  }

  /** The remote's socket has taken n of the unsent bytes. */
  function RemoteTook(c: Conn, n: nat): (d: Conn)
    requires BufOk(c.up)
    ensures (d.stage == c.stage || d.stage.Stream?) && d.asking == c.asking
  {
    var k := if n <= c.up.len then n else c.up.len;
    var d := c.(upOut := c.upOut + Pending(c.up)[..k]);
    if n < c.up.len then d.(up := Buf(c.up.arr, c.up.len - n, c.up.idx + n))
    else
      d.(up := Buf(c.up.arr, 0, 0), remoteWrite := false, clientRead := true,
         remoteRead := c.remoteRead || !c.stage.Stream?, stage := Stream)
  }

  /** The remote's socket is writable. */
  function RemoteReadyStep(c: Conn, alive: bool, s: Send): (d: Conn)
    requires BufOk(c.up)
    ensures (d.stage == c.stage || d.stage.Stream? || d.stage.Closed?) && (d.asking ==> c.asking)
  {
    if !c.connected && !alive then Shut(c)
    else
      var d := c.(connected := true);
      if !c.connected && c.up.len == 0 then
        d.(stage := Stream, remoteWrite := false, clientRead := true, remoteRead := true)
      else if c.up.len == 0 then Shut(d)
      else match s
        case Again => d
        case Broken => Shut(d)
        case Taken(n) => RemoteTook(d, n)
  }

  /** The client's socket is writable. */
  function ClientReadyStep(c: Conn, s: Send): (d: Conn)
    requires BufOk(c.down)
    ensures (d.stage == c.stage || d.stage.Closed?) && (d.asking ==> c.asking)
  {
    if !c.hasRemote || c.down.len == 0 then Shut(c)
    else match s
      case Again => c
      case Broken => Shut(c)
      case Taken(n) => ClientTook(c, n)
  }

  /** The client's socket has taken n of the unsent bytes. */
  function ClientTook(c: Conn, n: nat): (d: Conn)
    requires BufOk(c.down)
    ensures d.stage == c.stage && d.asking == c.asking
  {
    var k := if n <= c.down.len then n else c.down.len;
    var d := c.(downOut := c.downOut + Pending(c.down)[..k]);
    if n < c.down.len then d.(down := Buf(c.down.arr, c.down.len - n, c.down.idx + n))
    else d.(down := Buf(c.down.arr, 0, 0), clientWrite := false, remoteRead := true)
  }

  function ResolvedStep(c: Conn, ok: bool): (d: Conn)
    requires BufOk(c.down)
    ensures (d.stage == c.stage || d.stage.Closed? || d.stage.Overrun?) && !d.asking
  {
    if !ok then Shut(c) else Connect(c.(asking := false), Pending(c.down))
  }

  function Step(c: Conn, e: Event): Conn
    requires BufOk(c.up) && BufOk(c.down)
  {
    match e
    case Header(r) => HeaderStep(c, r)
    case ClientQuiet => c.(up := c.up.(len := 0))
    case ClientData(p, s) => UpStep(c, p, s)
    case Resolved(ok) => ResolvedStep(c, ok)
    case RemoteReady(alive, s) => RemoteReadyStep(c, alive, s)
    case RemoteData(p, s) => DownStep(c, p, s)
    case ClientReady(s) => ClientReadyStep(c, s)
    case Gone => Shut(c)
  }

  // ---------- Every reachable state ----------

  /** Unsent bytes of a buffer: only those of an armed writer count. */
  function Unsent(armed: bool, b: Buf): seq<byte>
    requires BufOk(b)
  {
    if armed then Pending(b) else []
  }

  ghost predicate Inv(c: Conn) {
    && BufOk(c.up) && BufOk(c.down)
    && (c.asking ==> c.stage.Resolve? && !c.hasRemote)
    && (!c.remoteWrite ==> c.up.idx == 0 || c.stage.Closed?)
    && (!c.clientWrite ==> c.down.idx == 0 || c.stage.Closed?)
    && match c.stage
       case Closed =>
         && !c.clientRead && !c.remoteWrite && !c.remoteRead && !c.clientWrite
         && c.upOut <= c.upIn && c.downOut <= c.downIn
       case Overrun => !c.remoteWrite && !c.asking && |c.upIn| > BUF_SIZE && c.upOut == c.downIn == c.downOut == []
       case Stream =>
         && c.hasRemote && c.connected
         && c.clientRead == !c.remoteWrite && c.remoteRead == !c.clientWrite
         && c.upOut + Unsent(c.remoteWrite, c.up) == c.upIn
         && c.downOut + Unsent(c.clientWrite, c.down) == c.downIn
       case _ =>
         && !c.remoteRead && !c.clientWrite && c.downIn == c.downOut == []
         && (if c.stage.Parse? || (c.stage.Resolve? && c.hasRemote) then
               c.hasRemote && !c.clientRead && c.remoteWrite && c.upOut + Pending(c.up) == c.upIn
                 && (!c.connected ==> c.up.idx == 0)
             else
               && !c.hasRemote && !c.remoteWrite && c.upOut == []
               && if c.stage.Resolve? then !c.clientRead && c.upIn == Pending(c.down)
                  else c.clientRead && c.upIn == [])
  }

  lemma {:induction false} FillPending(b: Buf, p: seq<byte>)
    ensures var f := Fill(b, p).(idx := 0); BufOk(f) && Pending(f) == p && f.arr[..|p|] == p
  {
  }

  lemma {:induction false} FillRest(b: Buf, p: seq<byte>, n: nat)
    requires n <= |p|
    ensures var f := Fill(b, p).(len := |p| - n, idx := n); BufOk(f) && p[..n] + Pending(f) == p
  {
    var f := Fill(b, p).(len := |p| - n, idx := n);
    assert Pending(f) == p[n..];
  }

  lemma {:induction false} PendingRest(b: Buf, n: nat)
    requires BufOk(b) && n <= b.len
    ensures var r := Buf(b.arr, b.len - n, b.idx + n); BufOk(r) && Pending(b)[..n] + Pending(r) == Pending(b)
  {
  }

  /** A request by address overruns the remote's buffer exactly when its payload is
      larger than the buffer. Otherwise the payload behind a header waits whole: in the
      remote's buffer, or in the server's while the name is resolved. Nothing is read
      from the client meanwhile. */
  lemma {:induction false} RequestWaits(c: Conn, p: seq<byte>, named: bool, submitted: bool)
    requires Inv(c) && c.clientRead && (c.stage.Init? || c.stage.Handshake?)
    ensures var d := RequestStep(c, p, named, submitted);
            && Inv(d) && d.upIn == p && d.upOut == []
            && (d.stage.Overrun? <==> !named && |p| > BUF_SIZE)
            && (!d.stage.Overrun? ==>
                  && !d.clientRead && Pending(if named then d.down else d.up) == p
                  && (if named then d.stage.Resolve? && !d.hasRemote && d.asking == submitted
                      else d.stage.Parse? && d.hasRemote && d.remoteWrite && !d.asking && |d.up.arr| == BUF_SIZE))
  {
    hide Pending;
    FillPending(c.down, p);
    FillPending(EMPTY_BUF, p);
    assert [] + p == p;
    EmptyPending(EMPTY_BUF);
  }

  lemma {:induction false} HeaderKeeps(c: Conn, r: Request)
    requires Inv(c) && Can(c, Header(r))
    ensures Inv(HeaderStep(c, r))
  {
    hide RequestStep;
    if r.Direct? || r.Named? {
      RequestWaits(c, r.p, r.Named?, r.Named? && r.submitted);
    }
  }

  lemma {:induction false} EmptyPending(b: Buf)
    requires BufOk(b)
    ensures b.len == 0 ==> Pending(b) == []
  {
  }

  lemma {:induction false} UpKeeps(c: Conn, p: seq<byte>, s: Send)
    requires Inv(c) && Can(c, ClientData(p, s))
    ensures Inv(UpStep(c, p, s))
  {
    hide Pending;
    FillPending(c.up, p);
    assert c.upOut + [] == c.upOut;
    if s.Taken? {
      FillRest(c.up, p, s.n);
      Associate(c.upOut, p[..s.n], Pending(Fill(c.up, p).(len := |p| - s.n, idx := s.n)));
    }
  }

  lemma {:induction false} DownKeeps(c: Conn, p: seq<byte>, s: Send)
    requires Inv(c) && Can(c, RemoteData(p, s))
    ensures Inv(DownStep(c, p, s))
  {
    hide Pending;
    FillPending(c.down, p);
    assert c.downOut + [] == c.downOut;
    if s.Taken? {
      FillRest(c.down, p, s.n);
      Associate(c.downOut, p[..s.n], Pending(Fill(c.down, p).(len := |p| - s.n, idx := s.n)));
    }
  }

  lemma {:induction false} RemoteTookKeeps(c: Conn, n: nat)
    requires Inv(c) && c.remoteWrite && c.connected && n <= c.up.len
    ensures Inv(RemoteTook(c, n))
  {
    hide Pending;
    PendingRest(c.up, n);
    var r := Buf(c.up.arr, c.up.len - n, c.up.idx + n);
    EmptyPending(r);
    Associate(c.upOut, Pending(c.up)[..n], Pending(r));
    var out := c.upOut + Pending(c.up)[..n];
    assert out + [] == out && c.downOut + [] == c.downOut;
  }

  lemma {:induction false} RemoteReadyKeeps(c: Conn, alive: bool, s: Send)
    requires Inv(c) && Can(c, RemoteReady(alive, s))
    ensures Inv(RemoteReadyStep(c, alive, s))
  {
    hide Pending;
    hide RemoteTook;
    EmptyPending(c.up);
    assert c.upOut + [] == c.upOut && c.downOut + [] == c.downOut;
    if c.up.len > 0 && s.Taken? && (c.connected || alive) {
      RemoteTookKeeps(c.(connected := true), s.n);
    }
  }

  lemma {:induction false} ClientReadyKeeps(c: Conn, s: Send)
    requires Inv(c) && Can(c, ClientReady(s))
    ensures Inv(ClientReadyStep(c, s))
  {
    hide Pending;
    if s.Taken? {
      PendingRest(c.down, s.n);
      var r := Buf(c.down.arr, c.down.len - s.n, c.down.idx + s.n);
      EmptyPending(r);
      Associate(c.downOut, Pending(c.down)[..s.n], Pending(r));
    }
  }

  /** With an address found, the payload moves to the remote's buffer, or past its end. */
  lemma {:induction false} ResolvedKeeps(c: Conn, ok: bool)
    requires Inv(c) && Can(c, Resolved(ok))
    ensures var d := ResolvedStep(c, ok);
            && Inv(d) && c.upIn == Pending(c.down) && (d.stage.Overrun? <==> ok && |c.upIn| > BUF_SIZE)
            && (ok && |c.upIn| <= BUF_SIZE ==> d.hasRemote && d.remoteWrite && Pending(d.up) == c.upIn)
  {
    hide Pending;
    var p := Pending(c.down);
    FillPending(EMPTY_BUF, p);
    assert [] + p == p;
    EmptyPending(EMPTY_BUF);
  }

  /** Every callback keeps the invariant, however much the sockets take. */
  lemma {:induction false} StepKeeps(c: Conn, e: Event)
    requires Inv(c) && Can(c, e)
    ensures Inv(Step(c, e))
  {
    hide Inv;
    match e
    case Header(r) => HeaderKeeps(c, r);
    case ClientQuiet => QuietKeeps(c);
    case ClientData(p, s) => UpKeeps(c, p, s);
    case Resolved(ok) => ResolvedKeeps(c, ok);
    case RemoteReady(alive, s) => RemoteReadyKeeps(c, alive, s);
    case RemoteData(p, s) => DownKeeps(c, p, s);
    case ClientReady(s) => ClientReadyKeeps(c, s);
    case Gone => GoneKeeps(c);
  }

  lemma {:induction false} QuietKeeps(c: Conn)
    requires Inv(c) && Can(c, ClientQuiet)
    ensures Inv(c.(up := c.up.(len := 0)))
  {
  }

  lemma {:induction false} GoneKeeps(c: Conn)
    requires Inv(c)
    ensures Inv(Shut(c))
  {
  }

  // ---------- Whole runs ----------

  lemma {:induction false} FreshInv()
    ensures Inv(FRESH)
  {
  }

  ghost predicate Runs(c: Conn, es: seq<Event>)
    requires Inv(c)
    decreases |es|
  {
    es == [] || (Can(c, es[0]) && (StepKeeps(c, es[0]); Runs(Step(c, es[0]), es[1..])))
  }

  ghost function End(c: Conn, es: seq<Event>): (d: Conn)
    requires Inv(c) && Runs(c, es)
    ensures Inv(d)
    decreases |es|
  {
    if es == [] then c
    else
      StepKeeps(c, es[0]);
      End(Step(c, es[0]), es[1..])
  }

  // ---------- Payloads larger than the remote's buffer ----------

  predicate Asks(e: Event) { e.Header? && (e.r.Direct? || e.r.Named?) }

  /** The request came with more than BUF_SIZE bytes of payload, and a remote was made for
      it: at once for an address, for a name when it was resolved. */
  predicate Oversized(es: seq<Event>) {
    exists i :: 0 <= i < |es| && Asks(es[i]) && |es[i].r.p| > BUF_SIZE && (es[i].r.Direct? || Resolved(true) in es)
  }

  /** Behind the header stages there are no more requests, and answers only to a pending
      query. */
  lemma {:induction false} OneRequest(c: Conn, es: seq<Event>)
    requires Inv(c) && Runs(c, es) && !c.stage.Init? && !c.stage.Handshake?
    ensures forall i :: 0 <= i < |es| ==> !Asks(es[i])
    ensures !c.asking ==> Resolved(true) !in es
    decreases |es|
  {
    hide Inv;
    hide Can;
    hide Step;
    if es != [] {
      StepKeeps(c, es[0]);
      InvBufs(c);
      BehindHeader(c, es[0]);
      var d, rest := Step(c, es[0]), es[1..];
      OneRequest(d, rest);
      assert es == [es[0]] + rest;
      forall i | 0 <= i < |es| ensures !Asks(es[i]) { if i > 0 { assert es[i] == rest[i - 1]; } }
    }
  }

  lemma {:induction false} BehindHeader(c: Conn, e: Event)
    requires BufOk(c.up) && BufOk(c.down) && Can(c, e) && !c.stage.Init? && !c.stage.Handshake?
    ensures var d := Step(c, e); !d.stage.Init? && !d.stage.Handshake? && (d.asking ==> c.asking && !e.Resolved?)
    ensures !Asks(e) && (e.Resolved? ==> c.asking)
  {
    hide Pending;
    hide Fill;
    hide HeaderStep;
    hide ResolvedStep;
    hide UpStep;
    hide DownStep;
    hide RemoteReadyStep;
    hide ClientReadyStep;
  }

  /** While a query is pending nothing happens but its answer, or the end. */
  lemma {:induction false} AskingWaits(c: Conn, e: Event)
    requires Inv(c) && Can(c, e)
    ensures c.asking ==> e.Resolved? || e.Gone?
  {
    hide Pending;
  }

  /** What the rest of a run must contain for its end to be an overrun. */
  ghost predicate WillOverrun(c: Conn, es: seq<Event>) {
    if c.stage.Init? || c.stage.Handshake? then Oversized(es)
    else c.stage.Overrun? || (c.asking && |c.upIn| > BUF_SIZE && Resolved(true) in es)
  }

  lemma {:induction false} OversizedFirst(e: Event, rest: seq<Event>)
    ensures Asks(e) && (forall i :: 0 <= i < |rest| ==> !Asks(rest[i])) ==>
              (Oversized([e] + rest) <==> |e.r.p| > BUF_SIZE && (e.r.Direct? || Resolved(true) in rest))
    ensures !Asks(e) && !e.Resolved? ==> (Oversized([e] + rest) <==> Oversized(rest))
  {
    var es := [e] + rest;
    assert forall i :: 0 <= i < |rest| ==> es[i + 1] == rest[i];
    assert forall i :: 0 < i < |es| ==> es[i] == rest[i - 1];
    assert es[0] == e;
  }

  lemma {:induction false} RequestOverruns(c: Conn, e: Event, rest: seq<Event>)
    requires Inv(c) && Can(c, e) && Asks(e) && Inv(Step(c, e)) && Runs(Step(c, e), rest)
    ensures WillOverrun(c, [e] + rest) <==> WillOverrun(Step(c, e), rest)
  {
    hide Inv;
    hide RequestStep;
    hide Oversized;
    InvBufs(c);
    RequestWaits(c, e.r.p, e.r.Named?, e.r.Named? && e.r.submitted);
    OneRequest(Step(c, e), rest);
    OversizedFirst(e, rest);
  }

  lemma {:induction false} StillHeader(c: Conn, e: Event)
    requires Inv(c) && Can(c, e) && (c.stage.Init? || c.stage.Handshake?) && !Asks(e)
    ensures var d := Step(c, e); !d.stage.Overrun? && !d.asking && !e.Resolved?
  {
    hide Pending;
    hide Fill;
  }

  lemma {:induction false} NoneAsked(es: seq<Event>)
    requires forall i :: 0 <= i < |es| ==> !Asks(es[i])
    ensures !Oversized(es)
  {
  }

  lemma {:induction false} HeaderOverruns(c: Conn, e: Event, rest: seq<Event>)
    requires Inv(c) && Can(c, e) && Inv(Step(c, e)) && Runs(Step(c, e), rest)
    requires (c.stage.Init? || c.stage.Handshake?) && !Asks(e)
    ensures WillOverrun(c, [e] + rest) <==> WillOverrun(Step(c, e), rest)
  {
    hide Inv;
    hide Step;
    hide Oversized;
    InvBufs(c);
    StillHeader(c, e);
    OversizedFirst(e, rest);
    var d := Step(c, e);
    if !d.stage.Init? && !d.stage.Handshake? {
      OneRequest(d, rest);
      NoneAsked(rest);
    }
  }

  lemma {:induction false} LateOverrun(c: Conn, e: Event)
    requires Inv(c) && Can(c, e) && !c.stage.Init? && !c.stage.Handshake?
    ensures Step(c, e).stage.Overrun? <==> e == Resolved(true) && |c.upIn| > BUF_SIZE
    ensures c.asking && Step(c, e).asking ==> Step(c, e).upIn == c.upIn
  {
    hide Pending;
    hide Fill;
    AskingWaits(c, e);
    if e.Resolved? { ResolvedKeeps(c, e.ok); }
  }

  lemma {:induction false} AnswerOverruns(c: Conn, e: Event, rest: seq<Event>)
    requires Inv(c) && Can(c, e) && Inv(Step(c, e)) && Runs(Step(c, e), rest)
    requires !c.stage.Init? && !c.stage.Handshake?
    ensures WillOverrun(c, [e] + rest) <==> WillOverrun(Step(c, e), rest)
  {
    hide Inv;
    hide Step;
    hide Oversized;
    InvBufs(c);
    BehindHeader(c, e);
    AskingWaits(c, e);
    LateOverrun(c, e);
    OneRequest(Step(c, e), rest);
  }

  lemma {:induction false} OverrunStep(c: Conn, es: seq<Event>)
    requires Inv(c) && Runs(c, es) && es != []
    ensures WillOverrun(c, es) <==> WillOverrun(Step(c, es[0]), es[1..])
  {
    hide Inv;
    hide Step;
    hide WillOverrun;
    var e, rest := es[0], es[1..];
    StepKeeps(c, e);
    InvBufs(c);
    assert es == [e] + rest;
    if !c.stage.Init? && !c.stage.Handshake? { AnswerOverruns(c, e, rest);
    } else if Asks(e) { RequestOverruns(c, e, rest);
    } else { HeaderOverruns(c, e, rest); }
  }

  /** A run ends with a copy past the remote's buffer if and only if its request had a
      payload larger than that buffer, and a remote was made for it. */
  lemma {:induction false} OverrunExact(c: Conn, es: seq<Event>)
    requires Inv(c) && Runs(c, es)
    ensures End(c, es).stage.Overrun? <==> WillOverrun(c, es)
    decreases |es|
  {
    hide Inv;
    hide Step;
    if es != [] {
      OverrunStep(c, es);
      StepKeeps(c, es[0]);
      InvBufs(c);
      OverrunExact(Step(c, es[0]), es[1..]);
    }
  }

  /** In every run: memory is overrun if and only if a request with more than BUF_SIZE
      bytes of payload got its remote. In every state reached by any other run: while
      streaming, exactly one of client read and remote write and exactly one of remote
      read and client write is armed, and the bytes taken followed by the unsent ones are
      the bytes to pass on, either way; and at any time, closed or not, what was sent is a
      prefix of what was to be sent. */
  lemma {:induction false} EveryState(es: seq<Event>)
    requires Runs(FRESH, es)
    ensures var c := End(FRESH, es);
            && (c.stage.Overrun? <==> Oversized(es))
            && (!Oversized(es) ==>
                  && BufOk(c.up) && BufOk(c.down) && c.upOut <= c.upIn && c.downOut <= c.downIn
                  && (c.stage.Stream? ==>
                        && c.clientRead != c.remoteWrite && c.remoteRead != c.clientWrite
                        && c.upOut + Unsent(c.remoteWrite, c.up) == c.upIn
                        && c.downOut + Unsent(c.clientWrite, c.down) == c.downIn))
  {
    var c := End(FRESH, es);
    OverrunExact(FRESH, es);
    if !c.stage.Stream? && !c.stage.Closed? { assert c.upOut <= c.upIn; }
  }

  /** Such runs for any payload that is too large. */
  lemma {:induction false} OverrunWitness(p: seq<byte>)
    requires |p| > BUF_SIZE
    ensures var es := [Header(Short), Header(Direct(p))]; Runs(FRESH, es) && End(FRESH, es).stage.Overrun?
    ensures var es := [Header(Named(p, true)), Resolved(true)]; Runs(FRESH, es) && End(FRESH, es).stage.Overrun?
  {
    hide Inv;
    hide RequestStep;
    hide ResolvedStep;
    FreshInv();
    var e, f := Header(Direct(p)), Header(Named(p, true));
    assert Step(FRESH, Header(Short)) == FRESH;
    RequestWaits(FRESH, p, false, false);
    RequestWaits(FRESH, p, true, true);
    assert [e][1..] == [];
    assert Runs(FRESH, [e]) && End(FRESH, [e]).stage.Overrun?;
    assert [Header(Short), e][1..] == [e];
    assert [f, Resolved(true)][1..] == [Resolved(true)] && [Resolved(true)][1..] == [];
    InvBufs(Step(FRESH, f));
    ResolvedKeeps(Step(FRESH, f), true);
  }

  // ---------- What ends a connection, and what is lost ----------

  /** The end of the connection: an end of file or timeout, a dropped request, a name that
      is not resolved, a send that fails, a remote that cannot be reached, and a writable
      socket with nothing to send. */
  predicate Ends(c: Conn, e: Event) {
    match e
    case Gone => true
    case Header(r) => r.Dropped?
    case Resolved(ok) => !ok
    case ClientData(_, s) => s.Broken?
    case RemoteData(_, s) => s.Broken?
    case RemoteReady(alive, s) =>
      if c.connected then c.up.len == 0 || s.Broken? else !alive || (c.up.len > 0 && s.Broken?)
    case ClientReady(s) => c.down.len == 0 || s.Broken?
    case ClientQuiet => false
  }

  /** A step closes the connection exactly when its event is one of those; otherwise the
      stage is the one the event leads to. */
  lemma {:induction false} StageExact(c: Conn, e: Event)
    requires Inv(c) && Can(c, e)
    ensures Step(c, e).stage ==
      if Ends(c, e) then Closed
      else match e
        case Header(r) =>
          (match r
           case More => Handshake
           case Malformed => Failed
           case Direct(p) => if |p| > BUF_SIZE then Overrun else Parse
           case Named(_, _) => Resolve
           case _ => c.stage)
        case Resolved(_) => if |c.upIn| > BUF_SIZE then Overrun else Resolve
        case RemoteReady(_, s) => if c.up.len == 0 || (s.Taken? && s.n == c.up.len) then Stream else c.stage
        case _ => c.stage
  {
    hide Fill;
    hide RemoteReadyStep;
    hide ClientReadyStep;
    hide ResolvedStep;
    hide HeaderStep;
    match e
    case Header(r) => HeaderStage(c, r);
    case Resolved(ok) => ResolvedStage(c, ok);
    case RemoteReady(alive, s) => RemoteReadyStage(c, alive, s);
    case ClientReady(s) => ClientReadyStage(c, s);
    case _ =>
  }

  lemma {:induction false} HeaderStage(c: Conn, r: Request)
    requires Inv(c) && Can(c, Header(r))
    ensures HeaderStep(c, r).stage == match r
      case Short => c.stage
      case More => Handshake
      case Malformed => Failed
      case Dropped => Closed
      case Ignored => c.stage
      case Direct(p) => if |p| > BUF_SIZE then Overrun else Parse
      case Named(_, _) => Resolve
  {
    hide Pending;
    FillPending(c.down, if Asks(Header(r)) then r.p else []);
    hide Fill;
  }

  lemma {:induction false} ResolvedStage(c: Conn, ok: bool)
    requires Inv(c) && Can(c, Resolved(ok))
    ensures ResolvedStep(c, ok).stage == if !ok then Closed else if |c.upIn| > BUF_SIZE then Overrun else Resolve
  {
    hide Pending;
    hide Fill;
  }

  lemma {:induction false} RemoteReadyStage(c: Conn, alive: bool, s: Send)
    requires Inv(c) && Can(c, RemoteReady(alive, s))
    ensures RemoteReadyStep(c, alive, s).stage ==
            if Ends(c, RemoteReady(alive, s)) then Closed
            else if c.up.len == 0 || (s.Taken? && s.n == c.up.len) then Stream else c.stage
  {
    hide Pending;
    hide Inv;
    InvBufs(c);
    hide RemoteTook;
    if s.Taken? { TookStage(c.(connected := true), s.n); }
  }

  lemma {:induction false} TookStage(c: Conn, n: nat)
    requires BufOk(c.up)
    ensures RemoteTook(c, n).stage == if n < c.up.len then c.stage else Stream
  {
    hide Pending;
  }

  lemma {:induction false} ClientReadyStage(c: Conn, s: Send)
    requires Inv(c) && Can(c, ClientReady(s))
    ensures ClientReadyStep(c, s).stage == if Ends(c, ClientReady(s)) then Closed else c.stage
  {
    hide Pending;
    hide ClientTook;
  }

  /** What an event adds to what was given, and what the sockets took: all that was read,
      and what was taken of it or of what was waiting. */
  function GivenUp(e: Event): seq<byte> { if e.ClientData? then e.p else if Asks(e) then e.r.p else [] }

  function GivenDown(e: Event): seq<byte> { if e.RemoteData? then e.p else [] }

  function TakenUp(c: Conn, e: Event): seq<byte>
    requires BufOk(c.up)
  {
    if e.ClientData? && e.s.Taken? && e.s.n <= |e.p| then e.p[..e.s.n]
    else if e.RemoteReady? && e.s.Taken? && e.s.n <= c.up.len && !Ends(c, e) then Pending(c.up)[..e.s.n]
    else []
  }

  function TakenDown(c: Conn, e: Event): seq<byte>
    requires BufOk(c.down)
  {
    if e.RemoteData? && e.s.Taken? && e.s.n <= |e.p| then e.p[..e.s.n]
    else if e.ClientReady? && e.s.Taken? && e.s.n <= c.down.len && !Ends(c, e) then Pending(c.down)[..e.s.n]
    else []
  }

  ghost predicate Adds(c: Conn, e: Event, d: Conn)
    requires BufOk(c.up) && BufOk(c.down)
  {
    && d.upIn == c.upIn + GivenUp(e) && d.downIn == c.downIn + GivenDown(e)
    && d.upOut == c.upOut + TakenUp(c, e) && d.downOut == c.downOut + TakenDown(c, e)
  }

  lemma {:induction false} Unadded(c: Conn)
    ensures c.upIn + [] == c.upIn && c.downIn + [] == c.downIn && c.upOut + [] == c.upOut && c.downOut + [] == c.downOut
  {
  }

  lemma {:induction false} HistoryExact(c: Conn, e: Event)
    requires Inv(c) && Can(c, e)
    ensures BufOk(c.up) && BufOk(c.down) && Adds(c, e, Step(c, e))
  {
    hide Fill;
    hide Pending;
    hide Inv;
    hide UpStep;
    hide DownStep;
    hide HeaderStep;
    hide ResolvedStep;
    hide RemoteReadyStep;
    hide ClientReadyStep;
    InvBufs(c);
    Unadded(c);
    match e
    case Header(r) => HeaderHistory(c, r);
    case ClientData(p, s) => UpHistory(c, p, s);
    case RemoteData(p, s) => DownHistory(c, p, s);
    case Resolved(ok) => ResolvedHistory(c, ok);
    case RemoteReady(alive, s) => RemoteReadyHistory(c, alive, s);
    case ClientReady(s) =>
      WriterHasRemote(c);
      ClientReadyHistory(c, s);
    case _ =>
  }

  lemma {:induction false} WriterHasRemote(c: Conn)
    requires Inv(c)
    ensures c.clientWrite && !c.stage.Overrun? ==> c.hasRemote
  {
  }

  lemma {:induction false} HeaderHistory(c: Conn, r: Request)
    requires BufOk(c.up) && BufOk(c.down) && Can(c, Header(r))
    ensures Adds(c, Header(r), HeaderStep(c, r))
  {
    hide Shut;
    hide Connect;
    hide Pending;
    Unadded(c);
    FillPending(c.down, if Asks(Header(r)) then r.p else []);
    hide Fill;
  }

  /** The bytes of a read, and those the other socket took at once. */
  lemma {:induction false} DataHistory(c: Conn, e: Event)
    requires BufOk(c.up) && BufOk(c.down) && (e.ClientData? || e.RemoteData?) && (e.s.Taken? ==> e.s.n <= |e.p|)
    ensures var out := if e.s.Taken? then e.p[..e.s.n] else [];
            if e.ClientData?
            then GivenUp(e) == e.p && TakenUp(c, e) == out && GivenDown(e) == TakenDown(c, e) == []
            else GivenDown(e) == e.p && TakenDown(c, e) == out && GivenUp(e) == TakenUp(c, e) == []
  {
    hide Pending;
  }

  lemma {:induction false} UpHistory(c: Conn, p: seq<byte>, s: Send)
    requires BufOk(c.up) && BufOk(c.down) && Can(c, ClientData(p, s))
    ensures Adds(c, ClientData(p, s), UpStep(c, p, s))
  {
    hide Shut;
    hide Fill;
    Unadded(c);
    DataHistory(c, ClientData(p, s));
    hide GivenUp;
    hide GivenDown;
    hide TakenUp;
    hide TakenDown;
  }

  lemma {:induction false} DownHistory(c: Conn, p: seq<byte>, s: Send)
    requires BufOk(c.up) && BufOk(c.down) && Can(c, RemoteData(p, s))
    ensures Adds(c, RemoteData(p, s), DownStep(c, p, s))
  {
    hide Shut;
    hide Fill;
    Unadded(c);
    DataHistory(c, RemoteData(p, s));
    hide GivenUp;
    hide GivenDown;
    hide TakenUp;
    hide TakenDown;
  }

  lemma {:induction false} ResolvedHistory(c: Conn, ok: bool)
    requires BufOk(c.up) && BufOk(c.down) && Can(c, Resolved(ok))
    ensures Adds(c, Resolved(ok), ResolvedStep(c, ok))
  {
    hide Shut;
    hide Connect;
    hide Fill;
    hide Pending;
    Unadded(c);
  }

  lemma {:induction false} RemoteReadyHistory(c: Conn, alive: bool, s: Send)
    requires BufOk(c.up) && BufOk(c.down) && Can(c, RemoteReady(alive, s))
    ensures Adds(c, RemoteReady(alive, s), RemoteReadyStep(c, alive, s))
  {
    hide Shut;
    hide Pending;
    hide RemoteTook;
    hide TakenUp;
    Unadded(c);
    RemoteTakes(c, alive, s);
    if s.Taken? { TookHistory(c.(connected := true), s.n); }
  }

  lemma {:induction false} RemoteTakes(c: Conn, alive: bool, s: Send)
    requires BufOk(c.up) && Can(c, RemoteReady(alive, s))
    ensures TakenUp(c, RemoteReady(alive, s)) ==
            if (c.connected || alive) && c.up.len > 0 && s.Taken? then Pending(c.up)[..s.n] else []
  {
    hide Pending;
    EmptyPending(c.up);
    if s.Taken? && c.up.len == 0 { assert Pending(c.up)[..s.n] == []; }
  }

  lemma {:induction false} TookHistory(c: Conn, n: nat)
    requires BufOk(c.up) && n <= c.up.len
    ensures var d := RemoteTook(c, n);
            && d.upOut == c.upOut + Pending(c.up)[..n]
            && d.upIn == c.upIn && d.downIn == c.downIn && d.downOut == c.downOut
  {
    hide Pending;
  }

  lemma {:induction false} ClientReadyHistory(c: Conn, s: Send)
    requires BufOk(c.up) && BufOk(c.down) && Can(c, ClientReady(s)) && (c.clientWrite ==> c.hasRemote)
    ensures Adds(c, ClientReady(s), ClientReadyStep(c, s))
  {
    hide Shut;
    hide Pending;
    hide ClientTook;
    Unadded(c);
    EmptyPending(c.down);
    if s.Taken? { ClientTookHistory(c, s.n); }
  }

  lemma {:induction false} ClientTookHistory(c: Conn, n: nat)
    requires BufOk(c.down) && n <= c.down.len
    ensures var d := ClientTook(c, n);
            && d.downOut == c.downOut + Pending(c.down)[..n]
            && d.upIn == c.upIn && d.downIn == c.downIn && d.upOut == c.upOut
  {
    hide Pending;
  }

  /** The bytes given by the client that wait to be sent, in whichever buffer they are. */
  function Waiting(c: Conn): seq<byte>
    requires BufOk(c.up) && BufOk(c.down)
  {
    if c.stage.Stream? then Unsent(c.remoteWrite, c.up)
    else if c.hasRemote then Pending(c.up)
    else if c.stage.Resolve? then Pending(c.down)
    else []
  }

  /** A run without an event that ends the connection. */
  ghost predicate Calm(c: Conn, es: seq<Event>)
    requires Inv(c) && Runs(c, es)
    decreases |es|
  {
    es == [] || (!Ends(c, es[0]) && (StepKeeps(c, es[0]); Calm(Step(c, es[0]), es[1..])))
  }

  lemma {:induction false} StaysOpen(c: Conn, es: seq<Event>)
    requires Inv(c) && Runs(c, es) && Calm(c, es) && !c.stage.Closed?
    ensures !End(c, es).stage.Closed?
    decreases |es|
  {
    hide Inv;
    hide Step;
    hide Can;
    if es != [] {
      StepKeeps(c, es[0]);
      InvBufs(c);
      StageExact(c, es[0]);
      StaysOpen(Step(c, es[0]), es[1..]);
    }
  }

  /** Unless something ends the connection or overruns memory, it stays open, and at every
      moment what was sent and what waits are all that was given, either way. */
  lemma {:induction false} NothingLost(es: seq<Event>)
    requires Runs(FRESH, es) && Calm(FRESH, es) && !Oversized(es)
    ensures var c := End(FRESH, es);
            && !c.stage.Closed? && BufOk(c.up) && BufOk(c.down)
            && c.upOut + Waiting(c) == c.upIn && c.downOut + Unsent(c.clientWrite, c.down) == c.downIn
  {
    StaysOpen(FRESH, es);
    EveryState(es);
    OpenWaits(End(FRESH, es));
  }

  lemma {:induction false} OpenWaits(c: Conn)
    requires Inv(c) && !c.stage.Closed? && !c.stage.Overrun?
    ensures BufOk(c.up) && BufOk(c.down)
    ensures c.upOut + Waiting(c) == c.upIn && c.downOut + Unsent(c.clientWrite, c.down) == c.downIn
  {
    hide Pending;
    if !c.stage.Stream? { assert c.downOut + [] == c.downIn; }
    assert [] + Waiting(c) == Waiting(c);
  }

  // ---------- Connections nothing will happen to ----------

  /** Open and sound, with no watcher armed and no query pending. */
  predicate Stuck(c: Conn) {
    !c.stage.Closed? && !c.stage.Overrun? && !c.clientRead && !c.remoteWrite && !c.remoteRead && !c.clientWrite
      && !c.asking
  }

  /** A stuck connection waits for its timeout: no callback of a socket or of the
      resolver can run. */
  lemma {:induction false} StuckWaits(c: Conn, e: Event)
    requires Stuck(c) && Can(c, e)
    ensures e == Gone
  {
  }

  /** A step leaves a connection stuck exactly when it starts a look-up for which no
      query could be submitted. */
  lemma {:induction false} StuckStep(c: Conn, e: Event)
    requires Inv(c) && Can(c, e)
    ensures Stuck(Step(c, e)) <==> e.Header? && e.r.Named? && !e.r.submitted
  {
    hide Pending;
    hide Fill;
  }

  lemma {:induction false} EndLast(c: Conn, es: seq<Event>)
    requires Inv(c) && Runs(c, es) && es != []
    ensures var n := |es| - 1;
            && Runs(c, es[..n]) && Can(End(c, es[..n]), es[n]) && End(c, es) == Step(End(c, es[..n]), es[n])
    decreases |es|
  {
    hide Inv;
    hide Can;
    hide Step;
    var n := |es| - 1;
    InvBufs(c);
    StepKeeps(c, es[0]);
    if n == 0 {
      assert es[..0] == [] && es[1..] == [];
    } else {
      EndLast(Step(c, es[0]), es[1..]);
      assert es[1..][..n - 1] == es[..n][1..] && es[..n][0] == es[0];
    }
  }

  /** In every run: a connection is stuck if and only if the last thing that happened to
      it was a request by name for which no query could be submitted. In every other
      open state a watcher is armed or a query is pending; and with both readers armed
      everything has been passed on. */
  lemma {:induction false} NothingStuck(es: seq<Event>)
    requires Runs(FRESH, es)
    ensures var c, n := End(FRESH, es), |es| - 1;
            && (Stuck(c) <==> n >= 0 && es[n].Header? && es[n].r.Named? && !es[n].r.submitted)
            && (c.stage.Stream? && c.clientRead && c.remoteRead ==> c.upOut == c.upIn && c.downOut == c.downIn)
  {
    hide Step;
    var c, n := End(FRESH, es), |es| - 1;
    assert c.upOut + [] == c.upOut && c.downOut + [] == c.downOut;
    if n >= 0 {
      EndLast(FRESH, es);
      StuckStep(End(FRESH, es[..n]), es[n]);
    }
  }

  /** One such run. */
  lemma {:induction false} StuckWitness(p: seq<byte>)
    ensures Runs(FRESH, [Header(Named(p, false))]) && Stuck(End(FRESH, [Header(Named(p, false))]))
  {
    hide Inv;
    hide Step;
    var e := Header(Named(p, false));
    FreshInv();
    StepKeeps(FRESH, e);
    StuckStep(FRESH, e);
    assert [e][1..] == [];
  }

  lemma {:induction false} FirstUnsent(b: Buf, n: nat)
    requires BufOk(b) && n <= b.len
    ensures b.arr[b.idx..b.idx + n] == Pending(b)[..n]
  {
    var p := Pending(b)[..n];
    assert |p| == n && forall k :: 0 <= k < n ==> p[k] == b.arr[b.idx..b.idx + n][k];
  }

  lemma {:induction false} WholeSlice(s: seq<byte>)
    ensures s[..|s|] == s
  {
  }

  lemma {:induction false} InvBufs(c: Conn)
    requires Inv(c)
    ensures BufOk(c.up) && BufOk(c.down)
  {
  }

  lemma {:induction false} CanHeader(c: Conn, r: Request)
    requires Can(c, Header(r))
    ensures c.clientRead && (if r.Ignored? then c.stage.Failed? else c.stage.Init? || c.stage.Handshake?)
  {
  }

  /** Bytes that were looked at end the first stage. */
  lemma {:induction false} HeaderEnds(c: Conn, r: Request)
    ensures r != Short && r != Ignored ==> !HeaderStep(c, r).stage.Init?
    ensures c.clientRead && (c.stage.Init? || c.stage.Handshake?) && r != Ignored ==> Can(c, Header(r))
  {
    hide Fill;
  }

  // ---------- The callbacks ----------

  /** The structures server_t and remote_t of one connection. */
  class Connection {
    var stage: Stage
    var hasRemote: bool
    var connected: bool
    var asking: bool
    var clientRead: bool
    var remoteWrite: bool
    var remoteRead: bool
    var clientWrite: bool
    var up: Buf
    var down: Buf
    var header: seq<byte>
    ghost var upIn: seq<byte>
    ghost var upOut: seq<byte>
    ghost var downIn: seq<byte>
    ghost var downOut: seq<byte>

    ghost function State(): Conn
      reads this
    {
      Conn(stage, hasRemote, connected, asking, clientRead, remoteWrite, remoteRead, clientWrite, up, down,
           upIn, upOut, downIn, downOut)
    }

    /** header_buf is empty until the first piece of a header. */
    predicate Collects()
      reads this
    {
      stage.Init? ==> header == []
    }

    constructor ()
      ensures State() == FRESH && Inv(State()) && Collects()
    {
      stage, hasRemote, connected, asking := Init, false, false, false;
      clientRead, remoteWrite, remoteRead, clientWrite := true, false, false, false;
      up, down, header := EMPTY_BUF, EMPTY_BUF, [];
      upIn, upOut, downIn, downOut := [], [], [], [];
    }

    method Close()
      modifies this
      ensures State() == Shut(old(State()))
    {
      stage, asking, clientRead, remoteWrite, remoteRead, clientWrite := Closed, false, false, false, false, false;
    }

    /** A new remote takes over the payload; the client is not read from meanwhile. */
    method NewRemote(payload: seq<byte>)
      modifies this
      ensures State() == Connect(old(State()), payload)
    {
      hide Fill;
      hide Block;
      var block := EMPTY_BUF;
      if |payload| > |block.arr| { stage := Overrun; return; }
      hasRemote, connected, up := true, false, block;
      if |payload| > 0 {
        up := Fill(up, payload);
        down := Buf(down.arr, 0, 0);
      }
      clientRead, remoteWrite := false, true;
    }

    /** server_recv_cb before the stream, with the bytes decoded: the request is the one
        these bytes make with the ones collected, and every piece of a header is kept. */
    method ServerRecvBytes(env: Addressing.Env, i: Addressing.Input, reachable: bool, submitted: bool)
      requires Inv(State()) && Collects() && clientRead && (stage.Init? || stage.Handshake?)
      requires Addressing.EnvOk(env) && Addressing.InputOk(i)
      modifies this
      ensures var a := Addressing.Receive(env, old(header), i);
              && State() == HeaderStep(old(State()), Ask(env, a, reachable, submitted))
              && Inv(State()) && Collects() && (a.Wait? ==> header == old(header) + i.x)
    {
      hide Inv;
      hide HeaderStep;
      hide Addressing.Parse;
      hide Addressing.Look;
      var a;
      var all := header + i.x;
      match Addressing.Look(env, i.x, i.stale) {
        case Incomplete => a := Addressing.Wait;
        case Wrong => a := Addressing.Malformed;
        case Complete =>
          Addressing.LookLength(env, i);
          a := Addressing.ParseRequest(env, all);
      }
      var r := Ask(env, a, reachable, submitted);
      HeaderEnds(State(), r);
      ServerRecvHeader(r);
      header := all;
    }

    /** server_recv_cb before the stream. */
    method ServerRecvHeader(r: Request)
      requires Inv(State()) && Can(State(), Header(r))
      modifies this
      ensures State() == HeaderStep(old(State()), r) && Inv(State())
    {
      hide Inv;
      hide Fill;
      hide RequestStep;
      hide Can;
      HeaderKeeps(State(), r);
      CanHeader(State(), r);
      if r == Ignored || r == More || r == Malformed {
        down := Buf(down.arr, 0, 0);
        if r != Ignored { stage := if r == More then Handshake else Failed; }
      } else if r == Dropped {
        Close();
      } else if r.Direct? || r.Named? {
        Request(r.p, r.Named?, r.Named? && r.submitted);
      }
    }

    /** The end of server_recv_cb for a complete header: the payload waits whole, and the
        client is not read from, unless it goes past the remote's buffer. */
    method Request(p: seq<byte>, named: bool, submitted: bool)
      requires Inv(State()) && clientRead && (stage.Init? || stage.Handshake?)
      modifies this
      ensures State() == RequestStep(old(State()), p, named, submitted) && Inv(State())
      ensures stage.Overrun? <==> !named && |p| > BUF_SIZE
      ensures !stage.Overrun? ==> BufOk(up) && BufOk(down) && Pending(if named then down else up) == p
      ensures !stage.Overrun? ==> !clientRead && (named ==> asking == submitted) && (!named ==> remoteWrite)
      ensures upIn == p && upOut == []
    {
      hide Inv;
      hide RequestStep;
      hide Pending;
      RequestWaits(State(), p, named, submitted);
      InvBufs(RequestStep(State(), p, named, submitted));
      Park(p, named, submitted);
    }

    /** Its assignments. */
    method Park(p: seq<byte>, named: bool, submitted: bool)
      modifies this
      ensures State() == RequestStep(old(State()), p, named, submitted)
    {
      hide Fill;
      hide Connect;
      FillPending(down, p);
      down, upIn := Fill(down, p), upIn + p;
      if named {
        stage, asking, clientRead := Resolve, submitted, false;
      } else {
        stage := Parse;
        NewRemote(down.arr[..|p|]);
      }
    }

    /** server_recv_cb in the stream. */
    method ServerRecv(p: seq<byte>, s: Send)
      requires Inv(State()) && Can(State(), ClientData(p, s))
      modifies this
      ensures State() == UpStep(old(State()), p, s) && Inv(State())
    {
      hide Inv;
      hide Fill;
      hide Pending;
      UpKeeps(State(), p, s);
      var b := Fill(up, p);
      upIn := upIn + p;
      if s == Again {
        up := b.(idx := 0);
        clientRead, remoteWrite := false, true;
      } else if s == Broken {
        up := b;
        Close();
      } else {
        UpSent(b, p, s.n);
      }
    }

    /** A send that took n bytes: the others wait for the socket. */
    method UpSent(b: Buf, p: seq<byte>, n: nat)
      requires n <= |p|
      modifies this`up, this`upOut, this`clientRead, this`remoteWrite
      ensures up == (if n < |p| then b.(len := |p| - n, idx := n) else b) && upOut == old(upOut) + p[..n]
      ensures n < |p| ==> !clientRead && remoteWrite
      ensures n == |p| ==> clientRead == old(clientRead) && remoteWrite == old(remoteWrite)
    {
      upOut := upOut + p[..n];
      if n < |p| {
        up := b.(len := |p| - n, idx := n);
        clientRead, remoteWrite := false, true;
      } else {
        up := b;
      }
    }

    /** server_resolve_cb. */
    method ServerResolve(ok: bool)
      requires Inv(State()) && Can(State(), Resolved(ok))
      modifies this
      ensures State() == ResolvedStep(old(State()), ok) && Inv(State())
      ensures stage.Overrun? <==> ok && old(|upIn|) > BUF_SIZE
      ensures ok && !stage.Overrun? ==> BufOk(up) && Pending(up) == old(upIn) && remoteWrite
    {
      hide Inv;
      hide Pending;
      hide Connect;
      ResolvedKeeps(State(), ok);
      InvBufs(State());
      InvBufs(ResolvedStep(State(), ok));
      FirstUnsent(down, down.len);
      WholeSlice(Pending(down));
      if !ok {
        Close();
      } else {
        asking := false;
        NewRemote(down.arr[down.idx..down.idx + down.len]);
      }
    }

    /** remote_send_cb. */
    method RemoteSend(alive: bool, s: Send)
      requires Inv(State()) && Can(State(), RemoteReady(alive, s))
      modifies this
      ensures State() == RemoteReadyStep(old(State()), alive, s) && Inv(State())
    {
      hide Inv;
      hide Pending;
      hide RemoteTook;
      RemoteReadyKeeps(State(), alive, s);
      InvBufs(State());
      if !connected {
        if !alive { Close(); return; }
        connected := true;
        if up.len == 0 {
          StartStream();
          return;
        }
      }
      if up.len == 0 || s == Broken {
        Close();
      } else if s.Taken? {
        RemoteTaken(s.n);
      }
    }

    /** Connected with nothing to send: both sides are read from now on. */
    method StartStream()
      modifies this`stage, this`remoteWrite, this`clientRead, this`remoteRead
      ensures State() == old(State()).(stage := Stream, remoteWrite := false, clientRead := true, remoteRead := true)
    {
      stage, remoteWrite, clientRead, remoteRead := Stream, false, true, true;
    }

    /** The end of remote_send_cb, after a successful send. */
    method RemoteTaken(n: nat)
      requires BufOk(up) && n <= up.len
      modifies this`up, this`upOut, this`stage, this`remoteWrite, this`clientRead, this`remoteRead
      ensures State() == RemoteTook(old(State()), n)
    {
      hide Pending;
      FirstUnsent(up, n);
      upOut := upOut + up.arr[up.idx..up.idx + n];
      if n < up.len {
        up := Buf(up.arr, up.len - n, up.idx + n);
      } else {
        UpDrained();
      }
    }

    /** All sent: the client is read from again, and from the first time on the remote. */
    method UpDrained()
      modifies this`up, this`stage, this`remoteWrite, this`clientRead, this`remoteRead
      ensures State() == old(State()).(up := Buf(old(up.arr), 0, 0), remoteWrite := false, clientRead := true,
                                       remoteRead := old(remoteRead) || !old(stage).Stream?, stage := Stream)
    {
      up := Buf(up.arr, 0, 0);
      remoteWrite, clientRead := false, true;
      if stage != Stream { stage, remoteRead := Stream, true; }
    }

    /** remote_recv_cb. */
    method RemoteRecv(p: seq<byte>, s: Send)
      requires Inv(State()) && Can(State(), RemoteData(p, s))
      modifies this
      ensures State() == DownStep(old(State()), p, s) && Inv(State())
    {
      hide Inv;
      hide Fill;
      hide Pending;
      DownKeeps(State(), p, s);
      var b := Fill(down, p);
      downIn := downIn + p;
      if s == Again {
        down := b.(idx := 0);
        remoteRead, clientWrite := false, true;
      } else if s == Broken {
        down := b;
        Close();
      } else {
        DownSent(b, p, s.n);
      }
    }

    /** A send that took n bytes: the others wait for the socket. */
    method DownSent(b: Buf, p: seq<byte>, n: nat)
      requires n <= |p|
      modifies this`down, this`downOut, this`remoteRead, this`clientWrite
      ensures down == (if n < |p| then b.(len := |p| - n, idx := n) else b) && downOut == old(downOut) + p[..n]
      ensures n < |p| ==> !remoteRead && clientWrite
      ensures n == |p| ==> remoteRead == old(remoteRead) && clientWrite == old(clientWrite)
    {
      downOut := downOut + p[..n];
      if n < |p| {
        down := b.(len := |p| - n, idx := n);
        remoteRead, clientWrite := false, true;
      } else {
        down := b;
      }
    }

    /** server_send_cb. */
    method ServerSend(s: Send)
      requires Inv(State()) && Can(State(), ClientReady(s))
      modifies this
      ensures State() == ClientReadyStep(old(State()), s) && Inv(State())
    {
      hide Inv;
      hide Pending;
      hide RemoteTook;
      hide ClientTook;
      ClientReadyKeeps(State(), s);
      InvBufs(State());
      if !hasRemote || down.len == 0 || s == Broken {
        Close();
      } else if s.Taken? {
        ClientTaken(s.n);
      }
    }

    /** The end of server_send_cb, after a successful send. */
    method ClientTaken(n: nat)
      requires BufOk(down) && n <= down.len
      modifies this
      ensures State() == ClientTook(old(State()), n)
    {
      hide Pending;
      FirstUnsent(down, n);
      downOut := downOut + down.arr[down.idx..down.idx + n];
      if n < down.len {
        down := Buf(down.arr, down.len - n, down.idx + n);
      } else {
        down := Buf(down.arr, 0, 0);
        clientWrite, remoteRead := false, true;
      }
    }
  }
}
