/** The layers together: pre_encrypt, ss_encrypt and the encoder of the ticket protocol on
    one side, its decoder, ss_decrypt and post_decrypt on the other, over any run of the
    protocol and either way. */
module Tunnel {
  import opened Bytes
  import opened Framing
  import opened Packets
  import opened FrameLayer
  import opened StreamCipher
  import Ticket = TlsTicket
  import Run = TicketRun
  import opened Addressing
  import Relay

  // ---------- What the layers hand to each other ----------

  /** What each call of pre_encrypt returns. */
  function Wires(c: Codec, id: nat, calls: seq<Call>): seq<seq<byte>>
    requires c.Valid() && CallsOk(c, id, calls)
    decreases |calls|
  {
    if calls == [] then []
    else
      [Stream(c, id, Plan(calls[0].data, calls[0].pads))]
      + Wires(c, Count(c, id, Units(|calls[0].data|)), calls[1..])
  }

  lemma {:induction false} WiresFlat(c: Codec, id: nat, calls: seq<Call>)
    requires c.Valid() && CallsOk(c, id, calls)
    ensures Flatten(Wires(c, id, calls)) == Wire(c, id, calls) && |Wires(c, id, calls)| == |calls|
    decreases |calls|
  {
    hide Stream;
    hide Plan;
    hide Units;
    hide Count;
    hide AllOk;
    if calls != [] {
      var id' := Count(c, id, Units(|calls[0].data|));
      WiresFlat(c, id', calls[1..]);
      var ws := Wires(c, id, calls);
      assert ws[0] == Stream(c, id, Plan(calls[0].data, calls[0].pads)) && ws[1..] == Wires(c, id', calls[1..]);
    }
  }

  /** What the client gives to client_encode in a run. */
  function Gave(acts: seq<Run.Action>): seq<seq<byte>> {
    if acts == [] then [] else (if acts[0].Give? then [acts[0].data] else []) + Gave(acts[1..])
  }

  /** What server_decode hands to ss_decrypt in a run. */
  function Handed(net: Run.Net, w: Run.World, acts: seq<Run.Action>): seq<seq<byte>>
    requires Run.Runs(net, w, acts)
    decreases |acts|
  {
    if acts == [] then []
    else match Run.Next(net, w, acts[0])
      case Lost => []
      case Then(w') =>
        (if acts[0].UpArrives? && |w.got| <= |w'.got| then [w'.got[|w.got|..]] else []) + Handed(net, w', acts[1..])
  }

  /** What the server gives to server_encode in a run. */
  function Served(acts: seq<Run.Action>): seq<seq<byte>> {
    if acts == [] then [] else (if acts[0].Serve? then [acts[0].data] else []) + Served(acts[1..])
  }

  /** What client_decode hands to the client's ss_decrypt in a run. */
  function HandedBack(net: Run.Net, w: Run.World, acts: seq<Run.Action>): seq<seq<byte>>
    requires Run.Runs(net, w, acts)
    decreases |acts|
  {
    if acts == [] then []
    else match Run.Next(net, w, acts[0])
      case Lost => []
      case Then(w') =>
        (if acts[0].DownArrives? && |w.read| <= |w'.read| then [w'.read[|w.read|..]] else [])
        + HandedBack(net, w', acts[1..])
  }

  lemma {:induction false} FlattenFirst(a: seq<byte>, s: seq<seq<byte>>)
    ensures Flatten([a] + s) == a + Flatten(s) && [] + s == s
  {
    assert ([a] + s)[1..] == s;
  }

  /** One action: what was given and what was handed on, either way. */
  lemma {:induction false} OneAction(net: Run.Net, w: Run.World, a: Run.Action)
    requires Run.Can(w, a) && Run.Next(net, w, a).Then?
    ensures var w' := Run.Next(net, w, a).w;
            && w'.given == w.given + (if a.Give? then a.data else [])
            && w'.served == w.served + (if a.Serve? then a.data else [])
            && w.got <= w'.got && (!a.UpArrives? ==> w'.got == w.got)
            && w.read <= w'.read && (!a.DownArrives? ==> w'.read == w.read)
  {
    hide Ticket.ClientEncode;
    hide Ticket.ServerEncode;
    hide Ticket.ClientDecode;
    hide Ticket.ServerDecode;
    assert w.given + [] == w.given && w.served + [] == w.served;
  }

  /** Adding one more buffer, or none. */
  lemma {:induction false} AddFirst(sum: seq<byte>, some: bool, a: seq<byte>, s: seq<seq<byte>>)
    ensures Flatten((if some then [a] else []) + s) == (if some then a else []) + Flatten(s)
    ensures sum + (if some then a else []) + Flatten(s) == sum + Flatten((if some then [a] else []) + s)
  {
    FlattenFirst(a, s);
    assert [] + Flatten(s) == Flatten(s);
    Associate(sum, if some then a else [], Flatten(s));
  }

  lemma {:induction false} Grown(a: seq<byte>, b: seq<byte>)
    requires a <= b
    ensures b == a + b[|a|..]
  {
  }

  /** Over a run, all that was given and all that was handed on is what the end of the
      run records. */
  lemma {:induction false} Accounted(net: Run.Net, w: Run.World, acts: seq<Run.Action>)
    requires Run.Runs(net, w, acts) && Run.End(net, w, acts).Then?
    ensures var e := Run.End(net, w, acts).w;
            && e.given == w.given + Flatten(Gave(acts)) && e.got == w.got + Flatten(Handed(net, w, acts))
            && e.served == w.served + Flatten(Served(acts)) && e.read == w.read + Flatten(HandedBack(net, w, acts))
    decreases |acts|
  {
    hide Run.Can;
    hide Run.Next;
    hide Flatten;
    if acts == [] {
      Nothing(w.given);
      Nothing(w.got);
      Nothing(w.served);
      Nothing(w.read);
    } else {
      var a, rest, w' := acts[0], acts[1..], Run.Next(net, w, acts[0]).w;
      OneAction(net, w, a);
      Accounted(net, w', rest);
      Grown(w.got, w'.got);
      Grown(w.read, w'.read);
      if a.Give? {
        AddFirst(w.given, true, a.data, Gave(rest));
      } else {
        AddFirst(w.given, false, [], Gave(rest));
      }
      if a.Serve? {
        AddFirst(w.served, true, a.data, Served(rest));
      } else {
        AddFirst(w.served, false, [], Served(rest));
      }
      AddFirst(w.got, a.UpArrives?, w'.got[|w.got|..], Handed(net, w', rest));
      AddFirst(w.read, a.DownArrives?, w'.read[|w.read|..], HandedBack(net, w', rest));
    }
  }

  lemma {:induction false} Nothing(s: seq<byte>)
    ensures s + Flatten([]) == s && s + [] == s && [] + s == s
  {
  }

  // ---------- The layers ----------

  /** What a receiver makes of the buffers its decoder returns: the process ends, or
      post_decrypt gets the plaintexts. */
  datatype Outcome = ProcessEnds | Frames(d: Decoded)

  function Unwrapped(ks: seq<byte> -> Keystream, n: nat, c: Codec, id: nat, cut: seq<seq<byte>>): Outcome
    requires cut != [] && n <= MAX_IV && forall k :: 0 <= k < |cut| ==> InMemory(|cut[k]|)
  {
    match DecryptAll(ks, n, cut)
    case Ended => ProcessEnds
    case Plaintext(bufs) => Frames(FeedAll(c, id, [], bufs))
  }

  /** Decryption and unframing of any part of the stream: the process ends if and only if
      the first buffer is shorter than the nonce; otherwise what comes out is a prefix of
      the data given, and all of it at the end. */
  lemma {:induction false} LayersDeliver(ks: seq<byte> -> Keystream, iv: seq<byte>, c: Codec, id: nat,
                                         calls: seq<Call>, cut: seq<seq<byte>>)
    requires |iv| <= MAX_IV && Padded(c) && c.Valid() && CallsOk(c, id, calls) && calls != []
    requires cut != [] && forall k :: 0 <= k < |cut| ==> InMemory(|cut[k]|)
    requires Flatten(cut) <= Flatten(EncryptAll(ks(iv), iv, false, 0, Wires(c, id, calls)))
    ensures var r := Unwrapped(ks, |iv|, c, id, cut);
            var whole := Flatten(EncryptAll(ks(iv), iv, false, 0, Wires(c, id, calls)));
            && (r.ProcessEnds? <==> |cut[0]| < |iv|)
            && (r.Frames? ==> r.d.Ok? && r.d.out <= Given(calls))
            && (r.Frames? && Flatten(cut) == whole ==> r.d == Ok(Given(calls), [], PackId(c, id, calls)))
  {
    hide EncryptAll;
    hide FeedAll;
    hide Wire;
    hide Wires;
    hide Wanted;
    hide CallsOk;
    WantedExact(|cut[0]|, |iv|, 0);
    if |cut[0]| >= |iv| {
      WiresFlat(c, id, calls);
      Recovers(ks, iv, Wires(c, id, calls), cut);
      EncryptSegments(ks(iv), iv, false, 0, Wires(c, id, calls));
      var bufs := DecryptAll(ks, |iv|, cut).bufs;
      PartOfWire(c, id, calls, bufs);
      if |Flatten(bufs)| == |Wire(c, id, calls)| { Lockstep(c, id, calls, bufs); }
    }
  }

  lemma {:induction false} PartOfWire(c: Codec, id: nat, calls: seq<Call>, bufs: seq<seq<byte>>)
    requires Padded(c) && c.Valid() && CallsOk(c, id, calls) && Flatten(bufs) <= Wire(c, id, calls)
    ensures var d := FeedAll(c, id, [], bufs); d.Ok? && d.out <= Given(calls)
  {
    hide FeedAll;
    hide Stream;
    hide Wire;
    hide Payloads;
    CallsFit(c, id, calls);
    WireIsStream(c, id, calls);
    var ps := Plans(calls);
    Delivery(c, id, ps, bufs);
    Run.PayloadsPrefix(ps, Completed(c, ps, |Flatten(bufs)|));
  }

  /** From the data given to the client's layers to the data the server's layers deliver,
      in every run of the ticket protocol, under every cut and interleaving: the process
      ends if and only if the first buffer server_decode returns is shorter than the
      nonce. Otherwise nothing is turned down, what has been delivered is a prefix of what
      was given, and once the channel is drained it is all of it, with equal counters. */
  lemma {:induction false} EveryTunnel(net: Run.Net, acts: seq<Run.Action>, ks: seq<byte> -> Keystream, iv: seq<byte>,
                                       c: Codec, id: nat, calls: seq<Call>)
    requires Run.NetOk(net) && Run.Runs(net, Run.Begin(net), acts)
    requires |iv| <= MAX_IV && Padded(c) && c.Valid() && CallsOk(c, id, calls) && calls != []
    requires Gave(acts) == EncryptAll(ks(iv), iv, false, 0, Wires(c, id, calls))
    requires var cut := Handed(net, Run.Begin(net), acts);
             cut != [] && forall k :: 0 <= k < |cut| ==> InMemory(|cut[k]|)
    ensures Run.End(net, Run.Begin(net), acts).Then?
    ensures var w, cut := Run.End(net, Run.Begin(net), acts).w, Handed(net, Run.Begin(net), acts);
            var r, all := Unwrapped(ks, |iv|, c, id, cut), Frames(Ok(Given(calls), [], PackId(c, id, calls)));
            && (r.ProcessEnds? <==> |cut[0]| < |iv|)
            && (r.Frames? ==> r.d.Ok? && r.d.out <= Given(calls))
            && (w.client.status == w.server.status == 8 && w.up == [] ==> (r == all <==> |cut[0]| >= |iv|))
  {
    hide Run.Next;
    hide Run.Can;
    hide EncryptAll;
    hide Wires;
    hide Unwrapped;
    hide CallsOk;
    var w0, cut := Run.Begin(net), Handed(net, Run.Begin(net), acts);
    Run.EveryRun(net, acts);
    Accounted(net, w0, acts);
    Nothing(Flatten(Gave(acts)));
    Nothing(Flatten(cut));
    LayersDeliver(ks, iv, c, id, calls, cut);
  }

  /** The same for the way back, from the server's layers to the client's. */
  lemma {:induction false} EveryTunnelBack(net: Run.Net, acts: seq<Run.Action>, ks: seq<byte> -> Keystream,
                                           iv: seq<byte>, c: Codec, id: nat, calls: seq<Call>)
    requires Run.NetOk(net) && Run.Runs(net, Run.Begin(net), acts)
    requires |iv| <= MAX_IV && Padded(c) && c.Valid() && CallsOk(c, id, calls) && calls != []
    requires Served(acts) == EncryptAll(ks(iv), iv, false, 0, Wires(c, id, calls))
    requires var cut := HandedBack(net, Run.Begin(net), acts);
             cut != [] && forall k :: 0 <= k < |cut| ==> InMemory(|cut[k]|)
    ensures Run.End(net, Run.Begin(net), acts).Then?
    ensures var w, cut := Run.End(net, Run.Begin(net), acts).w, HandedBack(net, Run.Begin(net), acts);
            var r, all := Unwrapped(ks, |iv|, c, id, cut), Frames(Ok(Given(calls), [], PackId(c, id, calls)));
            && (r.ProcessEnds? <==> |cut[0]| < |iv|)
            && (r.Frames? ==> r.d.Ok? && r.d.out <= Given(calls))
            && (w.client.status == w.server.status == 8 && w.down == [] ==> (r == all <==> |cut[0]| >= |iv|))
  {
    hide Run.Next;
    hide Run.Can;
    hide EncryptAll;
    hide Wires;
    hide Unwrapped;
    hide CallsOk;
    var w0, cut := Run.Begin(net), HandedBack(net, Run.Begin(net), acts);
    Run.EveryRun(net, acts);
    Accounted(net, w0, acts);
    Nothing(Flatten(Served(acts)));
    Nothing(Flatten(cut));
    LayersDeliver(ks, iv, c, id, calls, cut);
  }

  // ---------- A request too large for the remote's buffer ----------

  /** A request for an address with 2893 bytes behind its header, framed by pre_encrypt of
      verify_simple. */
  function LargeCall(env: Env, ip: seq<byte>, port: seq<byte>, payload: seq<byte>): Call
    requires |ip| == 4
  {
    Call(Written(env, false, V4(ip), port) + payload, [[0], [0]])
  }

  lemma {:induction false} LargeFrames(id: nat, call: Call)
    requires |call.data| == 2900 && call.pads == [[0], [0]]
    ensures Units(2900) == 2
    ensures Plan(call.data, call.pads) == [Packet(call.data[..2000], [0]), Packet(call.data[2000..], [0])]
    ensures CallsOk(Simple, id, [call])
  {
    assert Units(900) == 1 && Units(2900) == 2;
    var d := call.data[2000..];
    assert d[..900] == d && d[900..] == [];
    assert [[0], [0]][1..] == [[0]];
    assert Plan(d, [[0]]) == [Packet(d, [0])] + Plan([], [[0]][1..]);
    var ps := Plan(call.data, call.pads);
    assert AllOk(Simple, id, ps) by { assert ps[1..] == [Packet(d, [0])] && ps[1..][1..] == []; }
    assert [call][1..] == [];
  }

  /** Its two frames, of 2007 and 907 bytes, may arrive in two reads of less than BUF_SIZE
      bytes: the first yields nothing, the second everything. */
  lemma {:induction false} LargeArrives(id: nat, call: Call)
    requires |call.data| == 2900 && call.pads == [[0], [0]]
    ensures CallsOk(Simple, id, [call])
    ensures var s := Wire(Simple, id, [call]);
            && |s| == 2914 && FeedAll(Simple, id, [], [s[..984]]) == Ok([], s[..984], id)
            && FeedAll(Simple, id, [], [s[..984], s[984..]]) == Ok(call.data, [], id)
  {
    hide FeedAll;
    hide Stream;
    hide CallsOk;
    LargeFrames(id, call);
    CallsFit(Simple, id, [call]);
    WireIsStream(Simple, id, [call]);
    var ps, s := Plans([call]), Wire(Simple, id, [call]);
    assert ps == [Packet(call.data[..2000], [0]), Packet(call.data[2000..], [0])] by { assert [call][1..] == []; }
    assert ps[1..] == [Packet(call.data[2000..], [0])] && ps[1..][1..] == [];
    StreamLength(Simple, id, ps);
    FlattenTwo(s[..984], s[984..]);
    assert s[..984] + s[984..] == s;
    Delivery(Simple, id, ps, [s[..984]]);
    assert ps[..0] == [] && s[..984][0..] == s[..984];
    Lockstep(Simple, id, [call], [s[..984], s[984..]]);
    assert Given([call]) == call.data by { assert [call][1..] == []; }
    assert PackId(Simple, id, [call]) == id by { SimpleCount(id, 2); assert [call][1..] == []; }
  }

  lemma {:induction false} SimpleCount(id: nat, k: nat)
    ensures Count(Simple, id, k) == id
    decreases k
  {
    if k > 0 { SimpleCount(id, k - 1); }
  }

  lemma {:induction false} FlattenTwo(a: seq<byte>, b: seq<byte>)
    ensures Flatten([a]) == a && Flatten([a, b]) == a + b
  {
    assert [a][1..] == [] && [a, b][1..] == [b] && [b][1..] == [];
  }

  /** The server then copies its payload past the end of the remote's buffer, whatever the
      address and the payload are. */
  lemma {:induction false} LargeOverruns(env: Env, id: nat, ip: seq<byte>, port: seq<byte>, payload: seq<byte>,
                                         stale: seq<byte>)
    requires EnvOk(env) && !env.auth && |ip| == 4 && |port| == 2 && |payload| == 2893
    ensures var call := LargeCall(env, ip, port, payload);
            && CallsOk(Simple, id, [call])
            && var s := Wire(Simple, id, [call]);
            && |s| == 2914 && |s[..984]| < BUF_SIZE && |s[984..]| < BUF_SIZE
            && FeedAll(Simple, id, [], [s[..984]]) == Ok([], s[..984], id)
            && FeedAll(Simple, id, [], [s[..984], s[984..]]) == Ok(call.data, [], id)
            && |call.data| >= BUF_SIZE
            && var a := Addressing.Receive(env, [], Input(call.data, stale));
            var es := [Relay.Header(Relay.Short), Relay.Header(Relay.Ask(env, a, true, false))];
            a == Reach(V4(ip), port, payload) && Relay.Runs(Relay.FRESH, es)
              && Relay.End(Relay.FRESH, es).stage.Overrun?
  {
    hide FeedAll;
    hide Wire;
    hide CallsOk;
    hide Relay.Inv;
    hide Relay.Runs;
    hide Addressing.Receive;
    var call := LargeCall(env, ip, port, payload);
    LargeArrives(id, call);
    WholeHeader(env, false, V4(ip), port, payload, stale);
    Relay.OverrunWitness(payload);
  }
}
