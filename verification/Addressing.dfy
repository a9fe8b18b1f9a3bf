/** server.c: the header in front of a connection's data, which names the target. It is
    tested for completeness buffer by buffer, collected if need be, and parsed. */
module Addressing {
  import opened Bytes
  import opened Framing
  import opened Packets

  const TAG: nat := 10

  datatype Address = V4(ip: seq<byte>) | Name(host: seq<byte>) | V6(ip: seq<byte>)

  predicate AddressOk(a: Address) {
    match a
    case V4(ip) => |ip| == 4
    case Name(host) => |host| < 256
    case V6(ip) => |ip| == 16
  }

  /** What the server is configured with: whether headers must be authenticated, the keyed
      hash with the key and the connection's nonce, which names are written addresses,
      and which ones are turned down, for their form or by a rule. */
  datatype Env = Env(auth: bool, mac: Mac, key: seq<byte>, iv: seq<byte>,
                     literal: seq<byte> -> bool, refused: seq<byte> -> bool)

  ghost predicate EnvOk(env: Env) { IsMac(env.mac) }

  // ---------- The format ----------

  /** The type without the flag for one-time authentication, which is bit 4. */
  function Masked(b: byte): byte { b - 16 * (b / 16 % 2) }

  predicate Flagged(b: byte) { b / 16 % 2 == 1 }

  predicate Tagged(env: Env, b: byte) { env.auth || Flagged(b) }

  /** The length of a header, without its tag, from its first two bytes; 0 for an unknown
      type. */
  function PlainLen(b0: byte, b1: byte): (n: nat)
    ensures n == 0 || n >= 4
  {
    match Masked(b0)
    case 1 => 7
    case 3 => 4 + b1
    case 4 => 19
    case _ => 0
  }

  function HeaderLen(env: Env, b0: byte, b1: byte): nat {
    if PlainLen(b0, b1) == 0 then 0 else PlainLen(b0, b1) + if Tagged(env, b0) then TAG else 0
  }

  /** A header as a client writes it. */
  function Plain(flag: bool, a: Address, port: seq<byte>): seq<byte>
    requires AddressOk(a)
  {
    var f := if flag then 16 else 0;
    match a
    case V4(ip) => [1 + f] + ip + port
    case Name(host) => [3 + f, |host|] + host + port
    case V6(ip) => [4 + f] + ip + port
  }

  function Tag(env: Env, h: seq<byte>): seq<byte> {
    var t := env.mac(env.iv + env.key, h);
    if |t| >= TAG then t[..TAG] else t
  }

  function Written(env: Env, flag: bool, a: Address, port: seq<byte>): seq<byte>
    requires AddressOk(a)
  {
    var h := Plain(flag, a, port);
    h + if env.auth || flag then Tag(env, h) else []
  }

  // ---------- The tests ----------

  datatype Verdict = Incomplete | Complete | Wrong

  /** is_header_complete. It reads the first byte of the buffer even when there is none:
      behind a short message the buffer holds what it held before. */
  function Look(env: Env, x: seq<byte>, stale: seq<byte>): Verdict
    requires |x| + |stale| >= BUF_SIZE
  {
    var y := x + stale;
    if Masked(y[0]) == 3 && |x| < 2 then Incomplete
    else
      var n := HeaderLen(env, y[0], y[1]);
      if n == 0 then Wrong else if |x| >= n then Complete else Incomplete
  }

  /** The test in terms of the bytes: the type decides what is right, and the first byte of
      what the buffer held before is taken for the type when there is none. */
  lemma {:induction false} LookExact(env: Env, x: seq<byte>, stale: seq<byte>)
    requires |x| + |stale| >= BUF_SIZE
    ensures var r, b := Look(env, x, stale), (x + stale)[0];
            var tag := if env.auth || b >= 16 then 10 else 0;
            && (r.Wrong? <==> b != 1 && b != 17 && b != 3 && b != 19 && b != 4 && b != 20)
            && (r.Complete? <==>
                  || ((b == 1 || b == 17) && |x| >= 7 + tag)
                  || ((b == 4 || b == 20) && |x| >= 19 + tag)
                  || ((b == 3 || b == 19) && |x| >= 2 && |x| >= 4 + x[1] as int + tag))
  {
    var b := (x + stale)[0];
    assert |x| >= 2 ==> (x + stale)[1] == x[1];
    MaskedIs(b);
  }

  lemma {:induction false} MaskedIs(b: byte)
    ensures Masked(b) == 1 <==> b == 1 || b == 17
    ensures Masked(b) == 3 <==> b == 3 || b == 19
    ensures Masked(b) == 4 <==> b == 4 || b == 20
    ensures b == 1 || b == 3 || b == 4 || b == 17 || b == 19 || b == 20 ==> (Flagged(b) <==> b >= 16)
  {
  }

  datatype Answer = Wait | Malformed | Refuse | Reach(to: Address, port: seq<byte>, p: seq<byte>)

  /** The address and port behind the type. */
  function Target(z: seq<byte>): Address
    requires |z| >= 4 && 0 < PlainLen(z[0], z[1]) <= |z|
  {
    var n := PlainLen(z[0], z[1]);
    match Masked(z[0])
    case 1 => V4(z[1..n - 2])
    case 3 => Name(z[2..n - 2])
    case _ => V6(z[1..n - 2])
  }

  /** With one-time authentication the payload comes in chunks. */
  function Unchunked(env: Env, tagged: bool, rest: seq<byte>): Option<seq<byte>> {
    if !tagged then Some(rest)
    else match Decode(Chunk(env.mac, env.iv), 0, rest)
      case Ok(out, _, _) => Some(out)
      case _ => None
  }

  /** Without authentication the payload is what stands behind the header; with it, of the
      chunks of any data that have arrived it is the data of the complete ones, and nothing
      is taken when the first chunk is not right. */
  lemma {:induction false} UnchunkedExact(env: Env, ps: seq<Packet>, s: seq<byte>)
    requires EnvOk(env) && AllOk(Chunk(env.mac, env.iv), 0, ps) && s <= Stream(Chunk(env.mac, env.iv), 0, ps)
    ensures Unchunked(env, false, s) == Some(s)
    ensures Unchunked(env, true, s) == Some(Payloads(ps[..Completed(Chunk(env.mac, env.iv), ps, |s|)]))
  {
    hide Decode;
    hide Stream;
    PrefixDecode(Chunk(env.mac, env.iv), 0, ps, s);
  }

  lemma {:induction false} ForgedChunk(env: Env, n: nat, hash: seq<byte>, p: seq<byte>, rest: seq<byte>)
    requires EnvOk(env) && |p| == n < 65536 && |hash| == 10 && hash != env.mac(env.iv + Be32(0), p)[..10]
    ensures Unchunked(env, true, [Hi(n), Lo(n)] + hash + p + rest) == None
  {
    var c, x := Chunk(env.mac, env.iv), [Hi(n), Lo(n)] + hash + p + rest;
    U16RoundTrip(n);
    var f := x[..n + 12];
    assert f[2..12] == hash && f[12..] == p;
    assert Framing.Parse(c, 0, x).Bad?;
  }

  predicate Turned(env: Env, a: Address) { a.Name? && env.refused(a.host) }

  /** What a complete request asks for. */
  function Parse(env: Env, z: seq<byte>): Answer
    requires |z| >= 4
  {
    var m, n := PlainLen(z[0], z[1]), HeaderLen(env, z[0], z[1]);
    if n == 0 || |z| < n || (Tagged(env, z[0]) && z[m..n] != Tag(env, z[..m])) || Turned(env, Target(z)) then Refuse
    else match Unchunked(env, Tagged(env, z[0]), z[n..])
      case None => Refuse
      case Some(p) => Reach(Target(z), z[m - 2..m], p)
  }

  // ---------- Writing and parsing ----------

  lemma {:induction false} PlainLayout(flag: bool, a: Address, port: seq<byte>, rest: seq<byte>)
    requires AddressOk(a) && |port| == 2
    ensures var h := Plain(flag, a, port);
            var z := h + rest;
            && |h| >= 4 && PlainLen(z[0], z[1]) == |h| && Flagged(z[0]) == flag
            && z[..|h|] == h && Target(z) == a && z[|h| - 2..|h|] == port
  {
    var f := if flag then 16 else 0;
    match a {
      case V4(ip) => Parts([1 + f], ip, port, rest);
      case Name(host) => Parts([3 + f, |host|], host, port, rest);
      case V6(ip) => Parts([4 + f], ip, port, rest);
    }
  }

  lemma {:induction false} Parts(t: seq<byte>, b: seq<byte>, port: seq<byte>, rest: seq<byte>)
    ensures var h := t + b + port;
            var z := h + rest;
            && z[..|h|] == h && z[..|t|] == t && z[|t|..|h| - |port|] == b && z[|h| - |port|..|h|] == port
            && forall i :: 0 <= i < |t| ==> z[i] == t[i]
  {
  }

  lemma {:induction false} WrittenLayout(env: Env, flag: bool, a: Address, port: seq<byte>, rest: seq<byte>)
    requires EnvOk(env) && AddressOk(a) && |port| == 2
    ensures var h, w := Plain(flag, a, port), Written(env, flag, a, port);
            var z := w + rest;
            && |h| >= 4 && |w| <= |z| && PlainLen(z[0], z[1]) == |h| && HeaderLen(env, z[0], z[1]) == |w|
            && Tagged(env, z[0]) == (env.auth || flag) && z[..|h|] == h && z[|h|..|w|] == w[|h|..] && z[|w|..] == rest
            && Target(z) == a && z[|h| - 2..|h|] == port
  {
    hide Plain;
    hide Target;
    hide PlainLen;
    hide Masked;
    hide Flagged;
    var h, w := Plain(flag, a, port), Written(env, flag, a, port);
    PlainLayout(flag, a, port, w[|h|..] + rest);
    assert w == h + w[|h|..];
    Associate(h, w[|h|..], rest);
  }

  /** What a written header and the bytes behind it ask for. */
  function Asked(env: Env, flag: bool, a: Address, port: seq<byte>, rest: seq<byte>): Answer
    requires AddressOk(a)
  {
    match Unchunked(env, env.auth || flag, rest)
    case None => Refuse
    case Some(p) => if Turned(env, a) then Refuse else Reach(a, port, p)
  }

  /** Whatever address, port and payload are written, parsing gives them back, unless the
      name is turned down or a chunk of the payload is forged; and the header is seen to
      be complete. */
  lemma {:induction false} ParsesBack(env: Env, flag: bool, a: Address, port: seq<byte>, rest: seq<byte>)
    requires EnvOk(env) && AddressOk(a) && |port| == 2
    ensures var z := Written(env, flag, a, port) + rest;
            |z| >= 4 && Parse(env, z) == Asked(env, flag, a, port, rest)
    ensures forall stale :: |Written(env, flag, a, port) + rest| + |stale| >= BUF_SIZE ==>
              Look(env, Written(env, flag, a, port) + rest, stale) == Complete
  {
    hide Plain;
    hide Target;
    hide PlainLen;
    hide Masked;
    hide Flagged;
    hide Unchunked;
    hide Tag;
    WrittenLayout(env, flag, a, port, rest);
  }

  /** Only what a client could have written is taken: a request that is parsed begins with
      exactly the header of its address and port. */
  lemma {:induction false} OnlyWritten(env: Env, z: seq<byte>)
    requires EnvOk(env) && |z| >= 4 && Parse(env, z).Reach?
    ensures var r := Parse(env, z);
            AddressOk(r.to) && |r.port| == 2 && Written(env, Flagged(z[0]), r.to, r.port) <= z
  {
    hide Unchunked;
    hide Tag;
    var r := Parse(env, z);
    var m, n := PlainLen(z[0], z[1]), HeaderLen(env, z[0], z[1]);
    PlainIsPrefix(z);
    assert z[..n] == z[..m] + z[m..n];
  }

  lemma {:induction false} PlainIsPrefix(z: seq<byte>)
    requires |z| >= 4 && 0 < PlainLen(z[0], z[1]) <= |z|
    ensures var m, a := PlainLen(z[0], z[1]), Target(z);
            AddressOk(a) && Plain(Flagged(z[0]), a, z[m - 2..m]) == z[..m]
  {
    var m, port := PlainLen(z[0], z[1]), z[PlainLen(z[0], z[1]) - 2..PlainLen(z[0], z[1])];
    var f := if Flagged(z[0]) then 16 else 0;
    match Masked(z[0])
    case 1 => Pieces(z, [1 + f], z[1..5], port);
    case 3 => Pieces(z, [3 + f, z[1]], z[2..m - 2], port);
    case _ => Pieces(z, [4 + f], z[1..17], port);
  }

  lemma {:induction false} Pieces(z: seq<byte>, t: seq<byte>, b: seq<byte>, port: seq<byte>)
    requires |t| + |b| + |port| <= |z| && (forall i :: 0 <= i < |t| ==> z[i] == t[i])
    requires b == z[|t|..|t| + |b|] && port == z[|t| + |b|..|t| + |b| + |port|]
    ensures t + b + port == z[..|t| + |b| + |port|]
  {
    assert t == z[..|t|];
  }

  /** The parsing stage of server_recv_cb, test by test. */
  method ParseRequest(env: Env, z: seq<byte>) returns (r: Answer)
    requires EnvOk(env) && |z| >= 4
    ensures r == Parse(env, z)
  {
    hide Tag;
    hide Unchunked;
    var offset, tagged := 1, env.auth || Flagged(z[0]);
    if tagged {
      var m := PlainLen(z[0], z[1]);
      if m == 0 || |z| < m + TAG || z[m..m + TAG] != Tag(env, z[..m]) { return Refuse; }
    }
    var to;
    match Masked(z[0]) {
      case 1 =>
        if |z| < 7 { return Refuse; }
        to, offset := V4(z[1..5]), 5;
      case 3 =>
        if z[1] + 4 > |z| { return Refuse; }
        var len: int := z[1];
        to, offset := Name(z[2..2 + len]), 2 + len;
        if env.refused(to.host) { return Refuse; }
      case 4 =>
        if |z| < 19 { return Refuse; }
        to, offset := V6(z[1..17]), 17;
      case _ =>
        return Refuse;
    }
    var port := z[offset..offset + 2];
    offset := offset + 2 + if tagged then TAG else 0;
    if |z| < offset { return Refuse; }
    var p := Unchunked(env, tagged, z[offset..]);
    return if p == None then Refuse else Reach(to, port, p.value);
  }

  // ---------- Headers in pieces ----------

  /** A buffer of decoded bytes, and what the memory behind it held. */
  datatype Input = Input(x: seq<byte>, stale: seq<byte>)

  predicate InputOk(i: Input) { |i.x| + |i.stale| >= BUF_SIZE }

  predicate AllInputs(ins: seq<Input>) { forall k :: 0 <= k < |ins| ==> InputOk(ins[k]) }

  function Content(ins: seq<Input>): seq<byte> { if ins == [] then [] else ins[0].x + Content(ins[1..]) }

  lemma {:induction false} LookLength(env: Env, i: Input)
    requires InputOk(i)
    ensures Look(env, i.x, i.stale).Complete? ==> |i.x| >= 4
  {
  }

  /** The header stages: held is what has been collected. The test for completeness looks
      at the last buffer alone. */
  function Receive(env: Env, held: seq<byte>, i: Input): Answer
    requires InputOk(i)
  {
    match Look(env, i.x, i.stale)
    case Incomplete => Wait
    case Wrong => Malformed
    case Complete => LookLength(env, i); Parse(env, held + i.x)
  }

  /** The first answer to a list of buffers. */
  function Feed(env: Env, held: seq<byte>, ins: seq<Input>): Answer
    requires AllInputs(ins)
    decreases |ins|
  {
    if ins == [] then Wait
    else
      var r := Receive(env, held, ins[0]);
      if r.Wait? then Feed(env, held + ins[0].x, ins[1..]) else r
  }

  /** The first buffer that does not look like an incomplete header. */
  function Settling(env: Env, ins: seq<Input>): (k: nat)
    requires AllInputs(ins)
    ensures k <= |ins| && (k < |ins| ==> !Look(env, ins[k].x, ins[k].stale).Incomplete?)
    ensures forall i :: 0 <= i < k ==> Look(env, ins[i].x, ins[i].stale).Incomplete?
    decreases |ins|
  {
    if ins == [] || !Look(env, ins[0].x, ins[0].stale).Incomplete? then 0 else 1 + Settling(env, ins[1..])
  }

  /** That buffer decides: with the verdict on it alone, and the bytes up to its end. */
  lemma {:induction false} FeedSettles(env: Env, held: seq<byte>, ins: seq<Input>)
    requires AllInputs(ins)
    ensures var k := Settling(env, ins);
            if k == |ins| then Feed(env, held, ins) == Wait
            else if Look(env, ins[k].x, ins[k].stale).Wrong? then Feed(env, held, ins) == Malformed
            else |Content(ins[..k + 1])| >= 4 && Feed(env, held, ins) == Parse(env, held + Content(ins[..k + 1]))
    decreases |ins|
  {
    hide Look;
    hide Parse;
    if ins != [] {
      var i := ins[0];
      LookLength(env, i);
      if Look(env, i.x, i.stale).Incomplete? {
        FeedSettles(env, held + i.x, ins[1..]);
        var k := Settling(env, ins[1..]);
        if k < |ins| - 1 {
          assert ins[..k + 2] == [i] + ins[1..][..k + 1];
          assert held + i.x + Content(ins[1..][..k + 1]) == held + Content(ins[..k + 2]);
        }
      } else {
        assert ins[..1] == [i] && ins[..1][1..] == [];
        assert Content(ins[..1]) == i.x;
        ParseWaitsNot(env, held, i);
      }
    }
  }

  lemma {:induction false} ParseWaitsNot(env: Env, held: seq<byte>, i: Input)
    requires InputOk(i) && !Look(env, i.x, i.stale).Incomplete?
    ensures !Receive(env, held, i).Wait?
  {
  }

  /** Every part of a written header but the whole is seen to be incomplete, once its first
      byte is there. */
  lemma {:induction false} PartIncomplete(env: Env, flag: bool, a: Address, port: seq<byte>, x: seq<byte>,
                                          stale: seq<byte>)
    requires EnvOk(env) && AddressOk(a) && |port| == 2 && |x| + |stale| >= BUF_SIZE
    requires x <= Written(env, flag, a, port) && 1 <= |x| < |Written(env, flag, a, port)|
    ensures Look(env, x, stale) == Incomplete
  {
    hide Plain;
    hide Target;
    hide Tag;
    var w := Written(env, flag, a, port);
    WrittenLayout(env, flag, a, port, []);
    assert w + [] == w;
    var y := x + stale;
    assert y[0] == w[0];
    if |x| >= 2 { assert y[1] == w[1]; }
  }

  /** A part of a header is not parsed. */
  lemma {:induction false} PartRefused(env: Env, flag: bool, a: Address, port: seq<byte>, z: seq<byte>)
    requires EnvOk(env) && AddressOk(a) && |port| == 2
    requires z <= Written(env, flag, a, port) && 4 <= |z| < |Written(env, flag, a, port)|
    ensures Parse(env, z) == Refuse
  {
    hide Plain;
    hide Target;
    hide PlainLen;
    hide Masked;
    hide Flagged;
    hide Unchunked;
    hide Tag;
    var w := Written(env, flag, a, port);
    WrittenLayout(env, flag, a, port, []);
    assert w + [] == w;
  }

  /** For every header, every payload, and every way of cutting what has arrived: the request is taken
      as it was written, with the payload that has arrived, if and only if the first
      buffer that does not look like an incomplete header looks like a complete one, and
      the header has arrived by then. If it has not, the request is refused; if that buffer
      looks wrong, the connection fails; and if there is none, nothing happens, whether
      the header has arrived or not. */
  lemma {:induction false} CutHeader(env: Env, flag: bool, a: Address, port: seq<byte>, rest: seq<byte>,
                                     ins: seq<Input>)
    requires EnvOk(env) && AddressOk(a) && |port| == 2 && AllInputs(ins)
    requires Content(ins) <= Written(env, flag, a, port) + rest
    ensures var k, w := Settling(env, ins), |Written(env, flag, a, port)|;
            if k == |ins| then Feed(env, [], ins) == Wait
            else if Look(env, ins[k].x, ins[k].stale).Wrong? then Feed(env, [], ins) == Malformed
            else
              var n := |Content(ins[..k + 1])|;
              && n <= w + |rest|
              && Feed(env, [], ins) == if n < w then Refuse else Asked(env, flag, a, port, rest[..n - w])
  {
    hide Look;
    hide Parse;
    hide Written;
    hide Asked;
    hide Feed;
    hide Content;
    var k := Settling(env, ins);
    FeedSettles(env, [], ins);
    if k < |ins| && Look(env, ins[k].x, ins[k].stale).Complete? {
      var z := Content(ins[..k + 1]);
      ContentPrefix(ins, k + 1);
      assert [] + z == z;
      PartAsked(env, flag, a, port, rest, z);
    }
  }

  /** Parsing any part of a written request. */
  lemma {:induction false} PartAsked(env: Env, flag: bool, a: Address, port: seq<byte>, rest: seq<byte>, z: seq<byte>)
    requires EnvOk(env) && AddressOk(a) && |port| == 2 && |z| >= 4 && z <= Written(env, flag, a, port) + rest
    ensures var w := |Written(env, flag, a, port)|;
            Parse(env, z) == if |z| < w then Refuse else Asked(env, flag, a, port, rest[..|z| - w])
  {
    hide Parse;
    hide Written;
    hide Asked;
    var w := Written(env, flag, a, port);
    if |z| < |w| {
      assert z <= w;
      PartRefused(env, flag, a, port, z);
    } else {
      var part := rest[..|z| - |w|];
      assert z == w + part;
      ParsesBack(env, flag, a, port, part);
    }
  }

  lemma {:induction false} ContentPrefix(ins: seq<Input>, k: nat)
    requires k <= |ins|
    ensures Content(ins[..k]) <= Content(ins)
    decreases k
  {
    if k > 0 {
      ContentPrefix(ins[1..], k - 1);
      assert ins[..k][0] == ins[0] && ins[..k][1..] == ins[1..][..k - 1];
    }
  }

  /** A header that arrives whole in the first buffer is taken at once. */
  lemma {:induction false} WholeHeader(env: Env, flag: bool, a: Address, port: seq<byte>, rest: seq<byte>,
                                       stale: seq<byte>)
    requires EnvOk(env) && AddressOk(a) && |port| == 2
    requires |Written(env, flag, a, port) + rest| + |stale| >= BUF_SIZE
    ensures Receive(env, [], Input(Written(env, flag, a, port) + rest, stale)) == Asked(env, flag, a, port, rest)
  {
    hide Look;
    hide Parse;
    hide Written;
    hide Unchunked;
    var x := Written(env, flag, a, port) + rest;
    ParsesBack(env, flag, a, port, rest);
    assert [] + x == x;
  }

  /** The same header in two pieces need not be: 127.0.0.1:80 cut behind three bytes. */
  lemma {:induction false} CutLost(env: Env, stale: seq<byte>)
    requires !env.auth && |stale| >= BUF_SIZE
    ensures Written(env, false, V4([127, 0, 0, 1]), [0, 80]) == [1, 127, 0] + [0, 1, 0, 80]
    ensures AllInputs([Input([1, 127, 0], stale), Input([0, 1, 0, 80], stale)])
    ensures Feed(env, [], [Input([1, 127, 0], stale), Input([0, 1, 0, 80], stale)]) == Malformed
  {
    var a, b := Input([1, 127, 0], stale), Input([0, 1, 0, 80], stale);
    assert Look(env, a.x, stale) == Incomplete && Look(env, b.x, stale) == Wrong;
    assert [a, b][1..] == [b];
  }
}
