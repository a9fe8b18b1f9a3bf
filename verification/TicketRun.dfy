/** Runs of the ticket protocol: two ends, a network that delivers handshake messages
    whole and cuts the record streams anywhere, in any interleaving. */
module TicketRun {
  import opened Bytes
  import opened Framing
  import opened Packets
  import opened ClientHello
  import opened TlsTicket
  import StreamCipher

  // ---------- One direction of the record stream ----------

  lemma {:induction false} SameStream(ps: seq<Packet>)
    requires AllOk(ServerRecord, 0, ps)
    ensures AllOk(ClientRecord, 0, ps) && Stream(ClientRecord, 0, ps) == Stream(ServerRecord, 0, ps)
    decreases |ps|
  {
    hide Hi;
    hide Lo;
    if ps != [] { SameStream(ps[1..]); }
  }

  /** Of the records ps, the receiver has taken the bytes seen, delivered out and
      kept recv; the other bytes are in flight. */
  ghost predicate Flow(c: Codec, ps: seq<Packet>, seen: seq<byte>, flight: seq<byte>, recv: seq<byte>, out: seq<byte>) {
    && (c.ServerRecord? || c.ClientRecord?)
    && AllOk(ServerRecord, 0, ps) && seen + flight == Stream(ServerRecord, 0, ps)
    && Decode(c, 0, seen) == Ok(out, recv, 0)
  }

  lemma {:induction false} FlowDecode(c: Codec, ps: seq<Packet>, s: seq<byte>)
    requires (c.ServerRecord? || c.ClientRecord?) && AllOk(ServerRecord, 0, ps) && s <= Stream(ServerRecord, 0, ps)
    ensures AllOk(c, 0, ps) && s <= Stream(c, 0, ps)
    ensures Delivered(c, 0, ps, s, Decode(c, 0, s)) && Decode(c, 0, s).Ok? && Decode(c, 0, s).id == 0
  {
    hide AllOk;
    hide Stream;
    hide Decode;
    SameStream(ps);
    PrefixDecode(c, 0, ps, s);
    CountIsSum(c, 0, Completed(c, ps, |s|));
  }

  /** Taking any number of bytes from the network. */
  lemma {:induction false} FlowTake(c: Codec, ps: seq<Packet>, seen: seq<byte>, flight: seq<byte>, recv: seq<byte>,
                                    out: seq<byte>, n: nat)
    requires Flow(c, ps, seen, flight, recv, out) && n <= |flight|
    ensures var d := Decode(c, 0, recv + flight[..n]);
            d.Ok? && Flow(c, ps, seen + flight[..n], flight[n..], d.rest, out + d.out)
  {
    hide AllOk;
    hide Stream;
    hide Decode;
    var x := flight[..n];
    assert seen + flight == (seen + x) + flight[n..];
    FlowDecode(c, ps, seen + x);
    DecodeSplit(c, 0, seen, x);
  }

  /** Adding records at the end. */
  lemma {:induction false} FlowGive(c: Codec, ps: seq<Packet>, seen: seq<byte>, flight: seq<byte>, recv: seq<byte>,
                                    out: seq<byte>, qs: seq<Packet>)
    requires Flow(c, ps, seen, flight, recv, out) && AllOk(ServerRecord, 0, qs)
    ensures Flow(c, ps + qs, seen, flight + Stream(ServerRecord, 0, qs), recv, out)
  {
    hide AllOk;
    hide Stream;
    hide Decode;
    hide Payloads;
    StreamAppend(ps, qs);
    Associate(seen, flight, Stream(ServerRecord, 0, qs));
  }

  lemma {:induction false} PayloadsPrefix(ps: seq<Packet>, k: nat)
    requires k <= |ps|
    ensures Payloads(ps[..k]) <= Payloads(ps)
  {
    hide Payloads;
    PayloadsJoin(ps[..k], ps[k..]);
    assert ps[..k] + ps[k..] == ps;
  }

  /** What was delivered is a prefix of what was given, and all of it when nothing
      is in flight. */
  lemma {:induction false} FlowPrefix(c: Codec, ps: seq<Packet>, seen: seq<byte>, flight: seq<byte>, recv: seq<byte>,
                                      out: seq<byte>)
    requires Flow(c, ps, seen, flight, recv, out)
    ensures out <= Payloads(ps)
    ensures flight == [] ==> out == Payloads(ps)
  {
    hide AllOk;
    hide Stream;
    hide Decode;
    hide Payloads;
    FlowDecode(c, ps, seen);
    PayloadsPrefix(ps, Completed(c, ps, |seen|));
    if flight == [] {
      assert seen + flight == seen;
      StreamLength(c, 0, ps);
      SameStream(ps);
      Drained(c, 0, ps);
    }
  }

  // ---------- The world ----------

  datatype Net = Net(mac: Mac, key: seq<byte>, id: seq<byte>, serverId: seq<byte>)

  ghost predicate NetOk(net: Net) { IsMac(net.mac) && |net.id| == 32 && |net.serverId| == 32 }

  /** The two ends, the bytes in flight either way, what the applications gave and
      received, and the history of records and of bytes taken. */
  datatype World = World(client: Local, server: Local, up: seq<byte>, down: seq<byte>,
                         given: seq<byte>, got: seq<byte>, served: seq<byte>, read: seq<byte>,
                         sent: seq<Packet>, seen: seq<byte>, replies: seq<Packet>, heard: seq<byte>)

  datatype Action =
    | Give(data: seq<byte>, ch: Chance)        // client_encode for the application
    | HelloArrives(clock: Clock, ch: Chance, stale: seq<byte>)   // server_decode, then server_encode
    | AnswerArrives(ch: Chance)                // client_decode, then client_encode of nothing
    | UpArrives(n: nat, clock: Clock, stale: seq<byte>)          // server_decode of n bytes
    | Serve(data: seq<byte>, ch: Chance)       // server_encode for the application
    | DownArrives(n: nat)                      // client_decode of n bytes

  datatype Outcome = Lost | Then(w: World)

  function Begin(net: Net): World {
    World(Local(0, [], [], net.id), Local(0, [], [], net.serverId), [], [], [], [], [], [], [], [], [], [])
  }

  /** What the callers keep to, and that handshake messages arrive whole. */
  ghost predicate Can(w: World, a: Action) {
    match a
    case Give(data, ch) =>
      && Drawn(ch) && (w.client.status == 8 ==> |data| <= 42848)
      && (w.client.status != 8 ==> |data| < 65536) && (w.client.status == 1 ==> data != [])
    case HelloArrives(_, ch, stale) =>
      w.client.status == 1 && w.server.status == 0 && Drawn(ch) && |w.up| + |stale| >= BUF_SIZE
    case AnswerArrives(ch) => w.client.status == 1 && w.server.status == 3 && Drawn(ch)
    case UpArrives(n, _, stale) =>
      n <= |w.up| && n + |stale| >= BUF_SIZE && w.client.status == 8
        && (w.server.status == 8 || (w.server.status == 3 && n >= 43))
    case Serve(data, ch) => w.server.status == 8 && Drawn(ch) && |data| <= 42848
    case DownArrives(n) => w.client.status == 8 && n <= |w.down|
  }

  function Next(net: Net, w: World, a: Action): Outcome
    requires Can(w, a)
  {
    match a
    case Give(data, ch) =>
      var s := ClientEncode(net.mac, net.key, w.client, data, ch);
      Then(w.(client := s.l, up := w.up + s.out, given := w.given + data,
              sent := w.sent + if w.client.status == 8 then Records(data, ch.rand) else [Plain(data)]))
    case HelloArrives(clock, ch, stale) =>
      var g := ServerDecode(net.mac, net.key, w.server, w.up, stale, clock);
      if g.r != SendBack then Lost
      else
        var s := ServerEncode(net.mac, net.key, g.l, [], ch);
        Then(w.(server := s.l, up := [], down := w.down + s.out))
    case AnswerArrives(ch) =>
      var g := ClientDecode(net.mac, net.key, w.client, w.down);
      if g.r != SendBack then Lost
      else
        var s := ClientEncode(net.mac, net.key, g.l, [], ch);
        Then(w.(client := s.l, down := [], up := w.up + s.out, sent := w.sent + [Plain([])]))
    case UpArrives(n, clock, stale) =>
      var x := w.up[..n];
      var g := ServerDecode(net.mac, net.key, w.server, x, stale, clock);
      if !g.r.Data? then Lost
      else Then(w.(server := g.l, up := w.up[n..], got := w.got + g.r.out,
                   seen := w.seen + if w.server.status == 3 then x[43..] else x))
    case Serve(data, ch) =>
      var s := ServerEncode(net.mac, net.key, w.server, data, ch);
      Then(w.(server := s.l, down := w.down + s.out, served := w.served + data,
              replies := w.replies + Records(data, ch.rand)))
    case DownArrives(n) =>
      var g := ClientDecode(net.mac, net.key, w.client, w.down[..n]);
      if !g.r.Data? then Lost
      else Then(w.(client := g.l, down := w.down[n..], read := w.read + g.r.out, heard := w.heard + w.down[..n]))
  }

  // ---------- What every reachable world satisfies ----------

  ghost predicate HelloSent(net: Net, x: seq<byte>) {
    && |x| >= 110 && |x| < 65536
    && x[..11] == [0x16, 3, 1, Hi(|x| - 5), Lo(|x| - 5), 1, 0, Hi(|x| - 9), Lo(|x| - 9), 3, 3]
    && x[43] == 32 && x[44..76] == net.id && Tag(net.mac, net.key, net.id, x[11..33]) == x[33..43]
  }

  ghost predicate AnswerSent(net: Net, x: seq<byte>) {
    |x| == 129 && Tag(net.mac, net.key, net.id, x[11..33]) == x[33..43]
  }

  ghost predicate FinSent(net: Net, x: seq<byte>) {
    |x| >= 43 && x[..11] == FIN && Tag(net.mac, net.key, net.id, x[..33]) == x[33..43]
  }

  /** Before its last handshake message the client queues its records. */
  ghost predicate Queued(net: Net, w: World) {
    && w.client.status == 1 && AllOk(ServerRecord, 0, w.sent) && w.client.send == Stream(ServerRecord, 0, w.sent)
    && w.got == w.seen == []
  }

  ghost predicate Quiet(w: World) {
    w.served == w.read == w.heard == w.client.recv == [] && w.replies == []
  }

  ghost predicate Inv(net: Net, w: World) {
    && AllOk(ServerRecord, 0, w.sent) && AllOk(ServerRecord, 0, w.replies)
    && Payloads(w.sent) == w.given && Payloads(w.replies) == w.served
    && w.client.id == net.id
    && (if w.client.status == 0 then
          w == Begin(net)
        else if w.server.status == 0 then
          Queued(net, w) && Quiet(w) && HelloSent(net, w.up) && w.down == []
        else
          && w.server.id == net.id
          && if w.client.status != 8 then
               Queued(net, w) && Quiet(w) && w.server.status == 3 && w.up == [] && AnswerSent(net, w.down)
             else
               && Flow(ClientRecord, w.replies, w.heard, w.down, w.client.recv, w.read)
               && if w.server.status == 3 then
                    && Quiet(w) && w.down == [] && w.got == w.seen == []
                    && FinSent(net, w.up) && w.up[43..] == Stream(ServerRecord, 0, w.sent)
                  else
                    w.server.status == 8 && Flow(ServerRecord, w.sent, w.seen, w.up, w.server.recv, w.got))
  }

  lemma {:induction false} TagLength(mac: Mac, key: seq<byte>, id: seq<byte>, msg: seq<byte>)
    requires IsMac(mac)
    ensures |Tag(mac, key, id, msg)| == 10
  {
  }

  lemma {:induction false} AuthLayout(net: Net, ch: Chance)
    requires NetOk(net) && Drawn(ch)
    ensures var auth := Auth(net.mac, net.key, net.id, ch);
            && |auth| == 32 && auth[..4] == ch.time
            && auth[22..32] == Tag(net.mac, net.key, net.id, auth[..22])
  {
    hide Tag;
    var v := ch.time + ch.salt;
    TagLength(net.mac, net.key, net.id, v);
    var auth := Auth(net.mac, net.key, net.id, ch);
    assert auth[..22] == v;
  }

  lemma {:induction false} HelloGood(net: Net, ch: Chance)
    requires NetOk(net) && Drawn(ch)
    ensures HelloSent(net, Hello(Auth(net.mac, net.key, net.id, ch), net.id, Block(Sni(ch.host), ch.ticket)))
  {
    hide Hello;
    hide Auth;
    hide Block;
    hide Tag;
    hide Hi;
    hide Lo;
    var auth, block := Auth(net.mac, net.key, net.id, ch), Block(Sni(ch.host), ch.ticket);
    AuthLayout(net, ch);
    BlockLength(Sni(ch.host), ch.ticket);
    HelloLayout(auth, net.id, block);
    var h := Hello(auth, net.id, block);
    assert h[11..33] == h[11..43][..22] && h[33..43] == h[11..43][22..32];
  }

  lemma {:induction false} AnswerGood(net: Net, ch: Chance)
    requires NetOk(net) && Drawn(ch)
    ensures AnswerSent(net, Answer(net.mac, net.key, net.id, ch))
  {
    hide Auth;
    hide Tag;
    AuthLayout(net, ch);
    var auth, a := Auth(net.mac, net.key, net.id, ch), Answer(net.mac, net.key, net.id, ch);
    assert a[11..43] == auth;
    assert a[11..33] == a[11..43][..22] && a[33..43] == a[11..43][22..32];
  }

  lemma {:induction false} FinGood(net: Net, ch: Chance, rest: seq<byte>)
    requires NetOk(net) && Drawn(ch)
    ensures var x := Fin(net.mac, net.key, net.id, ch) + rest; FinSent(net, x) && x[43..] == rest
  {
    hide Tag;
    var v := FIN + ch.fin;
    TagLength(net.mac, net.key, net.id, v);
    var x := Fin(net.mac, net.key, net.id, ch) + rest;
    assert x[..33] == v && x[..11] == FIN;
  }

  /** The server answers a hello of the client exactly when the clocks agree, and turns
      it down otherwise, whatever else its buffer holds. */
  lemma {:induction false} HelloAnswered(net: Net, l: Local, x: seq<byte>, stale: seq<byte>, clock: Clock)
    requires HelloSent(net, x) && l.status == 0 && |x| + |stale| >= BUF_SIZE
    ensures var g := ServerDecode(net.mac, net.key, l, x, stale, clock);
            && g.l == l.(status := 2, id := net.id)
            && g.r == if TimeOk(clock, Utc(x[11..15])) then SendBack else Error
  {
    hide Tag;
    hide Utc;
    hide TimeOk;
    hide Hi;
    hide Lo;
    hide U16;
    var n, y, z := |x|, x[..11], x + stale;
    U16RoundTrip(n - 5);
    U16RoundTrip(n - 9);
    assert forall k :: 0 <= k < 11 ==> z[k] == y[k];
    assert z[..3] == [0x16, 3, 1];
    assert z[43] == x[43] && z[44..76] == x[44..76] && z[11..15] == x[11..15];
    assert z[11..33] == x[11..33] && z[33..43] == x[33..43];
  }

  // ---------- Every step keeps it ----------

  lemma {:induction false} GiveKeeps(net: Net, w: World, a: Action)
    requires NetOk(net) && Inv(net, w) && a.Give? && Can(w, a)
    ensures Next(net, w, a).Then? && Inv(net, Next(net, w, a).w)
  {
    hide AllOk;
    hide Stream;
    hide Payloads;
    hide Records;
    hide Record;
    hide Hello;
    hide Fin;
    hide Flow;
    hide HelloSent;
    hide AnswerSent;
    hide FinSent;
    var s := w.client.status;
    if s == 8 {
      RecordsOk(a.data, a.ch.rand);
      var qs := Records(a.data, a.ch.rand);
      StreamAppend(w.sent, qs);
      if w.server.status == 8 {
        FlowGive(ServerRecord, w.sent, w.seen, w.up, w.server.recv, w.got, qs);
      } else {
        FinGrows(net, w.up, Stream(ServerRecord, 0, qs));
      }
    } else {
      StreamOne(a.data);
      StreamAppend(w.sent, [Plain(a.data)]);
      if s == 0 {
        HelloGood(net, a.ch);
        StreamNone();
        var h := Hello(Auth(net.mac, net.key, net.id, a.ch), net.id, Block(Sni(a.ch.host), a.ch.ticket));
        assert [] + h == h && [] + Record(a.data) == Record(a.data);
      } else {
        assert w.up + [] == w.up;
      }
    }
  }

  lemma {:induction false} FinGrows(net: Net, x: seq<byte>, y: seq<byte>)
    requires FinSent(net, x)
    ensures FinSent(net, x + y) && (x + y)[43..] == x[43..] + y
  {
    assert (x + y)[..11] == x[..11] && (x + y)[..33] == x[..33] && (x + y)[33..43] == x[33..43];
  }

  lemma {:induction false} HelloKeeps(net: Net, w: World, a: Action)
    requires NetOk(net) && Inv(net, w) && a.HelloArrives? && Can(w, a)
    ensures |w.up| >= 110
    ensures Next(net, w, a).Then? <==> TimeOk(a.clock, Utc(w.up[11..15]))
    ensures Next(net, w, a).Then? ==> Inv(net, Next(net, w, a).w)
  {
    hide AllOk;
    hide Stream;
    hide Payloads;
    hide ServerDecode;
    hide TimeOk;
    hide Utc;
    hide Answer;
    hide AnswerSent;
    HelloAnswered(net, w.server, w.up, a.stale, a.clock);
    AnswerGood(net, a.ch);
    var s := Answer(net.mac, net.key, net.id, a.ch);
    assert [] + s == s;
  }

  lemma {:induction false} AnswerKeeps(net: Net, w: World, a: Action)
    requires NetOk(net) && Inv(net, w) && a.AnswerArrives? && Can(w, a)
    ensures Next(net, w, a).Then? && Inv(net, Next(net, w, a).w)
  {
    hide AllOk;
    hide Stream;
    hide Payloads;
    hide Record;
    hide Fin;
    hide FinSent;
    hide Tag;
    hide TakeRecords;
    hide Decode;
    StreamOne([]);
    StreamAppend(w.sent, [Plain([])]);
    FinGood(net, a.ch, w.client.send + Record([]));
    StreamNone();
    Idle(ClientRecord, []);
    var s := Fin(net.mac, net.key, net.id, a.ch) + (w.client.send + Record([]));
    assert [] + s == s && w.given + [] == w.given;
  }

  lemma {:induction false} FinKeeps(net: Net, w: World, a: Action)
    requires NetOk(net) && Inv(net, w) && a.UpArrives? && Can(w, a) && w.server.status == 3
    ensures Next(net, w, a).Then? && Inv(net, Next(net, w, a).w)
  {
    hide AllOk;
    hide Stream;
    hide Payloads;
    hide Decode;
    hide Tag;
    var x, s := w.up[..a.n], w.up[43..];
    assert x[..11] == w.up[..11] && x[..33] == w.up[..33] && x[33..43] == w.up[33..43];
    assert [] + s == s;
    Idle(ServerRecord, []);
    assert Flow(ServerRecord, w.sent, [], s, [], []);
    FlowTake(ServerRecord, w.sent, [], s, [], [], a.n - 43);
    assert s[..a.n - 43] == x[43..] && s[a.n - 43..] == w.up[a.n..];
    assert [] + x[43..] == x[43..] == x[43..] + [];
  }

  lemma {:induction false} UpKeeps(net: Net, w: World, a: Action)
    requires NetOk(net) && Inv(net, w) && a.UpArrives? && Can(w, a) && w.server.status == 8
    ensures Next(net, w, a).Then? && Inv(net, Next(net, w, a).w)
  {
    hide AllOk;
    hide Stream;
    hide Payloads;
    hide Decode;
    FlowTake(ServerRecord, w.sent, w.seen, w.up, w.server.recv, w.got, a.n);
  }

  lemma {:induction false} DownKeeps(net: Net, w: World, a: Action)
    requires NetOk(net) && Inv(net, w) && a.DownArrives? && Can(w, a)
    ensures Next(net, w, a).Then? && Inv(net, Next(net, w, a).w)
  {
    hide AllOk;
    hide Stream;
    hide Payloads;
    hide Decode;
    FlowTake(ClientRecord, w.replies, w.heard, w.down, w.client.recv, w.read, a.n);
    if w.server.status == 3 { assert w.down[a.n..] == [] && w.heard + w.down[..a.n] == []; }
  }

  lemma {:induction false} ServeKeeps(net: Net, w: World, a: Action)
    requires NetOk(net) && Inv(net, w) && a.Serve? && Can(w, a)
    ensures Next(net, w, a).Then? && Inv(net, Next(net, w, a).w)
  {
    hide AllOk;
    hide Stream;
    hide Payloads;
    hide Records;
    hide Flow;
    RecordsOk(a.data, a.ch.rand);
    var qs := Records(a.data, a.ch.rand);
    StreamAppend(w.replies, qs);
    FlowGive(ClientRecord, w.replies, w.heard, w.down, w.client.recv, w.read, qs);
  }

  /** The clocks of the two ends agree well enough when the hello arrives. */
  ghost predicate Timely(w: World, a: Action) {
    a.HelloArrives? ==> |w.up| >= 15 && TimeOk(a.clock, Utc(w.up[11..15]))
  }

  lemma {:induction false} StepKeeps(net: Net, w: World, a: Action)
    requires NetOk(net) && Inv(net, w) && Can(w, a) && Timely(w, a)
    ensures Next(net, w, a).Then? && Inv(net, Next(net, w, a).w)
  {
    hide Inv;
    hide Next;
    match a
    case Give(_, _) => GiveKeeps(net, w, a);
    case HelloArrives(_, _, _) => HelloKeeps(net, w, a);
    case AnswerArrives(_) => AnswerKeeps(net, w, a);
    case UpArrives(_, _, _) => if w.server.status == 3 { FinKeeps(net, w, a); } else { UpKeeps(net, w, a); }
    case Serve(_, _) => ServeKeeps(net, w, a);
    case DownArrives(_) => DownKeeps(net, w, a);
  }

  /** A run: every action is possible when it happens, and is answered. */
  ghost predicate Runs(net: Net, w: World, acts: seq<Action>)
    decreases |acts|
  {
    acts == [] || (Can(w, acts[0]) && Timely(w, acts[0]) && match Next(net, w, acts[0])
                   case Lost => true
                   case Then(w') => Runs(net, w', acts[1..]))
  }

  /** The world a run ends in; Lost if an end gave up on the way. */
  function End(net: Net, w: World, acts: seq<Action>): Outcome
    requires Runs(net, w, acts)
    decreases |acts|
  {
    if acts == [] then Then(w)
    else match Next(net, w, acts[0])
      case Lost => Lost
      case Then(w') => End(net, w', acts[1..])
  }

  lemma {:induction false} RunKeeps(net: Net, w: World, acts: seq<Action>)
    requires NetOk(net) && Inv(net, w) && Runs(net, w, acts)
    ensures End(net, w, acts).Then? && Inv(net, End(net, w, acts).w)
    decreases |acts|
  {
    hide Inv;
    hide Next;
    if acts != [] {
      StepKeeps(net, w, acts[0]);
      RunKeeps(net, Next(net, w, acts[0]).w, acts[1..]);
    }
  }

  lemma {:induction false} InvDelivers(net: Net, w: World)
    requires Inv(net, w)
    ensures w.got <= w.given && w.read <= w.served
    ensures w.client.status == w.server.status == 8 && w.up == [] ==> w.got == w.given
    ensures w.client.status == w.server.status == 8 && w.down == [] ==> w.read == w.served
  {
    hide Flow;
    hide Stream;
    hide AllOk;
    hide Payloads;
    if w.client.status == 8 {
      FlowPrefix(ClientRecord, w.replies, w.heard, w.down, w.client.recv, w.read);
      if w.server.status == 8 { FlowPrefix(ServerRecord, w.sent, w.seen, w.up, w.server.recv, w.got); }
    }
  }

  /** In every run, from the first call on, with any random draws, any data, any
      fragmentation of the record streams and any interleaving: neither end ever
      gives up, what the server has delivered is a prefix of what the client was
      given, including what it queued before the handshake ended, and likewise for
      the way back; and nothing is missing once a channel is drained. */
  lemma {:induction false} EveryRun(net: Net, acts: seq<Action>)
    requires NetOk(net) && Runs(net, Begin(net), acts)
    ensures End(net, Begin(net), acts).Then?
    ensures var w := End(net, Begin(net), acts).w;
            && w.got <= w.given && w.read <= w.served
            && (w.client.status == w.server.status == 8 && w.up == [] ==> w.got == w.given)
            && (w.client.status == w.server.status == 8 && w.down == [] ==> w.read == w.served)
  {
    hide Next;
    BeginInv(net);
    RunKeeps(net, Begin(net), acts);
    InvDelivers(net, End(net, Begin(net), acts).w);
  }

  lemma {:induction false} BeginInv(net: Net)
    requires NetOk(net)
    ensures Inv(net, Begin(net))
  {
  }

  /** Once the client has spoken and the clocks agree, the three whole messages
      complete the handshake, and the server has everything the client queued. */
  lemma {:induction false} HandshakeCompletes(net: Net, w: World, clock: Clock, ch: Chance, ch': Chance,
                                              stale: seq<byte>)
    returns (w1: World, w2: World, w3: World)
    requires NetOk(net) && Inv(net, w) && w.client.status == 1 && w.server.status == 0 && Drawn(ch) && Drawn(ch')
    requires Timely(w, HelloArrives(clock, ch, stale)) && |stale| >= BUF_SIZE
    ensures Can(w, HelloArrives(clock, ch, stale)) && Next(net, w, HelloArrives(clock, ch, stale)) == Then(w1)
    ensures Can(w1, AnswerArrives(ch')) && Next(net, w1, AnswerArrives(ch')) == Then(w2)
    ensures Can(w2, UpArrives(|w2.up|, clock, stale)) && Next(net, w2, UpArrives(|w2.up|, clock, stale)) == Then(w3)
    ensures w3.client.status == w3.server.status == 8 && w3.up == [] && w3.got == w3.given == w.given
  {
    hide Inv;
    var a := HelloArrives(clock, ch, stale);
    StepKeeps(net, w, a);
    w1 := Next(net, w, a).w;
    HelloStatus(net, w, a);
    var b := AnswerArrives(ch');
    StepKeeps(net, w1, b);
    w2 := Next(net, w1, b).w;
    AnswerStatus(net, w1, b);
    var c := UpArrives(|w2.up|, clock, stale);
    StepKeeps(net, w2, c);
    w3 := Next(net, w2, c).w;
    FinStatus(net, w2, c);
    InvDelivers(net, w3);
  }

  lemma {:induction false} HelloStatus(net: Net, w: World, a: Action)
    requires Inv(net, w) && Can(w, a) && a.HelloArrives? && Next(net, w, a).Then?
    ensures var w' := Next(net, w, a).w; w'.client.status == 1 && w'.server.status == 3 && w'.given == w.given
  {
    hide Stream;
    hide AllOk;
    HelloAnswered(net, w.server, w.up, a.stale, a.clock);
  }

  lemma {:induction false} AnswerStatus(net: Net, w: World, a: Action)
    requires Inv(net, w) && Can(w, a) && a.AnswerArrives? && Next(net, w, a).Then? && Inv(net, Next(net, w, a).w)
    ensures var w' := Next(net, w, a).w;
            w'.client.status == 8 && w'.server.status == 3 && w'.given == w.given && |w'.up| >= 43
  {
    hide Stream;
    hide AllOk;
    hide Flow;
    hide Payloads;
    hide TakeRecords;
  }

  lemma {:induction false} FinStatus(net: Net, w: World, a: Action)
    requires Can(w, a) && a.UpArrives? && a.n == |w.up| && w.server.status == 3 && Next(net, w, a).Then?
    ensures var w' := Next(net, w, a).w;
            w'.client.status == 8 && w'.server.status == 8 && w'.given == w.given && w'.up == []
  {
    hide Decode;
  }

  // ---------- Handshake messages that arrive in parts ----------

  /** The server answers a part of a client's hello if and only if it is the whole hello, and
      the clocks agree; it turns any other part down. */
  lemma {:induction false} HelloCut(net: Net, l: Local, x: seq<byte>, n: nat, stale: seq<byte>, clock: Clock)
    requires HelloSent(net, x) && l.status == 0 && n <= |x| && n + |stale| >= BUF_SIZE
    ensures var r := ServerDecode(net.mac, net.key, l, x[..n], stale, clock).r;
            && (r == SendBack <==> n == |x| && TimeOk(clock, Utc(x[11..15])))
            && (r != SendBack ==> r == Error)
  {
    hide Tag;
    hide Utc;
    hide TimeOk;
    hide Hi;
    hide Lo;
    if n == |x| {
      assert x[..n] == x;
      HelloAnswered(net, l, x, stale, clock);
    } else if n >= 5 {
      var y := x[..n] + stale;
      U16RoundTrip(|x| - 5);
      assert y[3] == x[..11][3] && y[4] == x[..11][4];
    }
  }

  /** The client goes on with a part of the server's answer if and only if it has the first
      76 bytes. */
  lemma {:induction false} AnswerCut(net: Net, l: Local, x: seq<byte>, n: nat)
    requires AnswerSent(net, x) && l.status == 1 && l.id == net.id && n <= |x|
    ensures ClientDecode(net.mac, net.key, l, x[..n]).r == if n >= 76 then SendBack else Error
  {
    hide Tag;
    if n >= 76 { assert x[..n][11..33] == x[11..33] && x[..n][33..43] == x[33..43]; }
  }

  /** The server goes on with a part of the client's last handshake message, and of the
      records behind it, if and only if the message is whole. */
  lemma {:induction false} FinCut(net: Net, l: Local, x: seq<byte>, n: nat, stale: seq<byte>, clock: Clock)
    requires FinSent(net, x) && l.status == 3 && l.id == net.id && n <= |x| && n + |stale| >= BUF_SIZE
    ensures var g := ServerDecode(net.mac, net.key, l, x[..n], stale, clock);
            if n >= 43 then g.l.status == 8 else g == Got(l, Error)
  {
    hide Tag;
    hide Decode;
    if n >= 43 {
      var y := x[..n];
      assert y[..11] == x[..11] && y[..33] == x[..33] && y[33..43] == x[33..43];
    }
  }

  /** The network may cut the stream right behind the client's last handshake message.
      The server then hands an empty first buffer to ss_decrypt, and the process ends
      when the cipher has a nonce. */
  lemma {:induction false} CutBehindHandshake(net: Net, w: World, clock: Clock, stale: seq<byte>,
                                              ks: seq<byte> -> StreamCipher.Keystream, iv: seq<byte>, rest: seq<byte>)
    requires NetOk(net) && Inv(net, w) && w.client.status == 8 && w.server.status == 3 && 43 + |stale| >= BUF_SIZE
    requires 0 < |iv| <= StreamCipher.MAX_IV && StreamCipher.InMemory(|rest|)
    ensures Can(w, UpArrives(43, clock, stale)) && Next(net, w, UpArrives(43, clock, stale)).Then?
    ensures var w' := Next(net, w, UpArrives(43, clock, stale)).w;
            w'.server.status == 8 && w'.got == []
              && StreamCipher.DecryptAll(ks, |iv|, [w'.got, rest]) == StreamCipher.Ended
  {
    hide Decode;
    hide Tag;
    hide Stream;
    hide AllOk;
    hide Payloads;
    hide StreamCipher.DecryptAll;
    var x := w.up[..43];
    assert x[..11] == w.up[..11] && x[..33] == w.up[..33] && x[33..43] == w.up[33..43] && x[43..] == [];
    var none: seq<byte> := [];
    assert none + none == none;
    Idle(ServerRecord, none);
    StreamCipher.EmptyFirstEnds(ks, iv, rest);
  }
}
