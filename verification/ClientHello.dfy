/** The ClientHello that tls1.2_ticket.c writes, and the parser of tls.c that looks
    for the server name in one (section 7.4.1.2 of RFC 5246, section 3 of RFC 6066). */
module ClientHello {
  import opened Bytes

  // ---------- The parser of tls.c ----------

  /** A host name, or a negative return code. */
  datatype Found = Name(host: seq<byte>) | Code(c: int)

  const INCOMPLETE := Code(-1)
  const NO_NAME := Code(-2)
  const INVALID := Code(-5)

  /** The C string at the start of a buffer: strncpy stops at a NUL. */
  function CString(s: seq<byte>): seq<byte> {
    if s == [] || s[0] == 0 then [] else [s[0]] + CString(s[1..])
  }

  /** The entries of a server name list. */
  function Names(d: seq<byte>): Found
    decreases |d|
  {
    if |d| <= 3 then (if |d| == 0 then NO_NAME else INVALID)
    else
      var n := U16(d[1], d[2]);
      if 3 + n > |d| then INVALID
      else if d[0] == 0 then Name(CString(d[3..3 + n]))
      else Names(d[3 + n..])
  }

  /** A server name extension: two bytes of list length, then the entries. */
  function ServerName(d: seq<byte>): Found {
    if |d| < 2 then INVALID else Names(d[2..])
  }

  /** The extensions, up to the first server name. */
  function Extensions(d: seq<byte>): Found
    decreases |d|
  {
    if |d| < 4 then (if |d| == 0 then NO_NAME else INVALID)
    else
      var n := U16(d[2], d[3]);
      if 4 + n > |d| then INVALID
      else if d[0] == 0 && d[1] == 0 then ServerName(d[4..4 + n])
      else Extensions(d[4 + n..])
  }

  method ParseServerName(d: seq<byte>) returns (r: Found)
    ensures r == ServerName(d)
  {
    var pos := 2;
    while pos + 3 < |d|
      invariant 2 <= pos && (pos <= |d| ==> ServerName(d) == Names(d[pos..]))
      invariant pos > |d| ==> |d| < 2
    {
      var n := U16(d[pos + 1], d[pos + 2]);
      if pos + 3 + n > |d| { return INVALID; }
      Slices(d, pos, 3, 3 + n);
      if d[pos] == 0 {
        return Name(CString(d[pos + 3..pos + 3 + n]));
      }
      pos := pos + 3 + n;
    }
    return if pos != |d| then INVALID else NO_NAME;
  }

  method ParseExtensions(d: seq<byte>) returns (r: Found)
    ensures r == Extensions(d)
  {
    hide U16;
    hide ServerName;
    var pos := 0;
    while pos + 4 <= |d|
      invariant if pos <= |d| then Extensions(d) == Extensions(d[pos..]) else Extensions(d) == INVALID
      decreases |d| - pos
    {
      var n := U16(d[pos + 2], d[pos + 3]);
      if d[pos] == 0 && d[pos + 1] == 0 {
        if pos + 4 + n > |d| { return INVALID; }
        Slices(d, pos, 4, 4 + n);
        r := ParseServerName(d[pos + 4..pos + 4 + n]);
        return;
      }
      if pos + 4 + n <= |d| { Slices(d, pos, 4, 4 + n); }
      pos := pos + 4 + n;
    }
    return if pos != |d| then INVALID else NO_NAME;
  }

  /** A plain char is signed. */
  function Signed(b: byte): int { if b < 128 then b else b - 256 }

  /** The fields between the random and the extensions: each starts with its length,
      one or two bytes wide. */
  function SkipField(d: seq<byte>, pos: nat, wide: bool): int {
    if pos + (if wide then 2 else 1) > |d| then -1
    else if wide then pos + 2 + U16(d[pos], d[pos + 1])
    else pos + 1 + d[pos]
  }

  /** The ClientHello inside one whole record. */
  function HelloName(d: seq<byte>): Found
    requires |d| >= 5
  {
    if |d| == 5 || d[5] != 1 then INVALID
    else
      var p1 := SkipField(d, 43, false);
      var p2 := if p1 < 0 then -1 else SkipField(d, p1, true);
      var p3 := if p2 < 0 then -1 else SkipField(d, p2, false);
      if p3 < 0 then INVALID
      else if p3 == |d| && d[1] == 3 && d[2] == 0 then NO_NAME
      else if p3 + 2 > |d| || p3 + 2 + U16(d[p3], d[p3 + 1]) > |d| then INVALID
      else Extensions(d[p3 + 2..p3 + 2 + U16(d[p3], d[p3 + 1])])
  }

  /** parse_tls_header on the bytes received so far. */
  function ParsePacket(d: seq<byte>): Found {
    if |d| < 5 then INCOMPLETE
    else if d[0] >= 128 && d[2] == 1 then NO_NAME
    else if d[0] != 0x16 then INVALID
    else if Signed(d[1]) < 3 then NO_NAME
    else
      var n := U16(d[3], d[4]) + 5;
      if |d| < n then INCOMPLETE else HelloName(d[..n])
  }

  // ---------- The message of client_encode ----------

  /** An extension of the hello. */
  datatype Extension = Extension(kind: nat, data: seq<byte>)

  function ExtensionBytes(e: Extension): seq<byte> {
    [Hi(e.kind), Lo(e.kind), Hi(|e.data|), Lo(|e.data|)] + e.data
  }

  function ExtensionList(es: seq<Extension>): seq<byte> {
    if es == [] then [] else ExtensionBytes(es[0]) + ExtensionList(es[1..])
  }

  predicate Encodable(es: seq<Extension>) {
    forall k :: 0 <= k < |es| ==> es[k].kind < 65536 && |es[k].data| < 65536
  }

  /** The first server name of a list of extensions. */
  function FirstName(es: seq<Extension>): Found {
    if es == [] then NO_NAME
    else if es[0].kind == 0 then ServerName(es[0].data)
    else FirstName(es[1..])
  }

  /** The parser finds the first server name of every list of extensions. */
  lemma {:induction false} ExtensionsExact(es: seq<Extension>)
    requires Encodable(es)
    ensures Extensions(ExtensionList(es)) == FirstName(es)
  {
    if es != [] {
      ExtensionFirst(es[0], ExtensionList(es[1..]));
      ExtensionsExact(es[1..]);
    }
  }

  lemma {:induction false} ExtensionFirst(e: Extension, rest: seq<byte>)
    requires e.kind < 65536 && |e.data| < 65536
    ensures Extensions(ExtensionBytes(e) + rest) == if e.kind == 0 then ServerName(e.data) else Extensions(rest)
  {
    hide ServerName;
    hide U16;
    var d, n := ExtensionBytes(e) + rest, |e.data|;
    assert d[0] == Hi(e.kind) && d[1] == Lo(e.kind) && d[2] == Hi(n) && d[3] == Lo(n);
    U16RoundTrip(n);
    assert e.kind == 0 <==> Hi(e.kind) == 0 && Lo(e.kind) == 0;
    assert d[4..4 + n] == e.data && d[4 + n..] == rest;
  }

  /** Every input is a list of extensions as far as the parser goes through it: up to the first
      server name, whose contents give the answer, or to the end, or to bytes that are no
      whole extension. */
  lemma {:induction false} ExtensionsOnly(d: seq<byte>) returns (es: seq<Extension>, rest: seq<byte>)
    ensures Encodable(es) && d == ExtensionList(es) + rest
    ensures forall k :: 0 <= k < |es| - 1 ==> es[k].kind != 0
    ensures if es != [] && es[|es| - 1].kind == 0 then Extensions(d) == ServerName(es[|es| - 1].data)
            else Extensions(d) == (if rest == [] then NO_NAME else INVALID)
                 && (rest == [] || |rest| < 4 || |rest| < 4 + U16(rest[2], rest[3]))
    decreases |d|
  {
    hide ServerName;
    hide U16;
    hide ExtensionBytes;
    if |d| < 4 || |d| < 4 + U16(d[2], d[3]) {
      es, rest := [], d;
      assert [] + d == d;
    } else {
      hide Extensions;
      var n := U16(d[2], d[3]);
      var e := Extension(U16(d[0], d[1]), d[4..4 + n]);
      ExtensionThere(d);
      ExtensionFirst(e, d[4 + n..]);
      var fs := [];
      if e.kind == 0 {
        rest := d[4 + n..];
        assert [] + rest == rest;
      } else {
        fs, rest := ExtensionsOnly(d[4 + n..]);
      }
      es := [e] + fs;
      ListFirst(e, fs, rest);
    }
  }

  lemma {:induction false} ListFirst(e: Extension, fs: seq<Extension>, rest: seq<byte>)
    ensures var es := [e] + fs;
            && ExtensionBytes(e) + (ExtensionList(fs) + rest) == ExtensionList(es) + rest
            && (forall k :: 0 < k < |es| ==> es[k] == fs[k - 1]) && es[0] == e
  {
    hide ExtensionBytes;
    assert ([e] + fs)[1..] == fs;
    Associate(ExtensionBytes(e), ExtensionList(fs), rest);
  }

  lemma {:induction false} ExtensionThere(d: seq<byte>)
    requires |d| >= 4 && |d| >= 4 + U16(d[2], d[3])
    ensures var n, kind := U16(d[2], d[3]), U16(d[0], d[1]);
            var e := Extension(kind, d[4..4 + n]);
            kind < 65536 && n < 65536 && d == ExtensionBytes(e) + d[4 + n..]
  {
    hide U16;
    hide Hi;
    hide Lo;
    HiLo(d[0], d[1]);
    HiLo(d[2], d[3]);
    var n := U16(d[2], d[3]);
    var e := Extension(U16(d[0], d[1]), d[4..4 + n]);
    assert ExtensionBytes(e) == [d[0], d[1], d[2], d[3]] + d[4..4 + n];
    FourFront(d, n);
  }

  lemma {:induction false} FourFront(d: seq<byte>, n: nat)
    requires |d| >= 4 + n
    ensures d == [d[0], d[1], d[2], d[3]] + d[4..4 + n] + d[4 + n..]
  {
  }

  lemma {:induction false} HiLo(a: byte, b: byte)
    ensures Hi(U16(a, b)) == a && Lo(U16(a, b)) == b
  {
  }

  /** An entry of a server name list. */
  function NameEntry(kind: byte, name: seq<byte>): seq<byte> {
    [kind, Hi(|name|), Lo(|name|)] + name
  }

  lemma {:induction false} EntryFirst(kind: byte, name: seq<byte>, tail: seq<byte>)
    requires 0 < |name| + |tail| && |name| < 65536
    ensures Names(NameEntry(kind, name) + tail) == if kind == 0 then Name(CString(name)) else Names(tail)
  {
    hide CString;
    hide U16;
    hide Hi;
    hide Lo;
    var d := NameEntry(kind, name) + tail;
    U16RoundTrip(|name|);
    assert d[0] == kind && d[1] == Hi(|name|) && d[2] == Lo(|name|);
    assert d[3..3 + |name|] == name && d[3 + |name|..] == tail;
  }

  /** The entries in front of the first host name are skipped, whatever their kind. */
  lemma {:induction false} NamesExact(skipped: seq<seq<byte>>, kinds: seq<byte>, name: seq<byte>, rest: seq<byte>)
    requires |skipped| == |kinds| && (forall k :: 0 <= k < |kinds| ==> kinds[k] != 0 && |skipped[k]| < 65536)
    requires 0 < |name| < 65536
    ensures Names(Entries(kinds, skipped) + (NameEntry(0, name) + rest)) == Name(CString(name))
    decreases |kinds|
  {
    hide CString;
    hide Names;
    hide NameEntry;
    var last := NameEntry(0, name) + rest;
    if kinds == [] {
      assert [] + last == last;
      EntryFirst(0, name, rest);
    } else {
      var more := Entries(kinds[1..], skipped[1..]);
      NamesExact(skipped[1..], kinds[1..], name, rest);
      EntryLength(0, name);
      EntryFirst(kinds[0], skipped[0], more + last);
      Associate(NameEntry(kinds[0], skipped[0]), more, last);
    }
  }

  lemma {:induction false} EntryLength(kind: byte, name: seq<byte>)
    ensures |NameEntry(kind, name)| == 3 + |name|
  {
  }

  function Entries(kinds: seq<byte>, names: seq<seq<byte>>): seq<byte>
    requires |kinds| == |names|
  {
    if kinds == [] then [] else NameEntry(kinds[0], names[0]) + Entries(kinds[1..], names[1..])
  }

  /** The record and the fixed fields, byte by byte: what is not whole yet, what can have no
      name, what is no hello, and where the extensions are. */
  lemma {:induction false} PacketExact(d: seq<byte>)
    requires |d| >= 5
    ensures var n := d[3] as int * 256 + d[4] as int + 5;
            ParsePacket(d) ==
              if d[0] >= 128 && d[2] == 1 then NO_NAME
              else if d[0] != 22 then INVALID
              else if d[1] < 3 || d[1] >= 128 then NO_NAME
              else if |d| < n then INCOMPLETE
              else HelloName(d[..n])
    ensures |d| >= 46 && d[5] == 1 ==>
              var s := 44 + d[43] as int;
              |d| >= s + 2 ==>
                var c := s + 2 + d[s] as int * 256 + d[s + 1] as int;
                |d| >= c + 1 ==>
                  var m := c + 1 + d[c] as int;
                  HelloName(d) ==
                    if m == |d| && d[1] == 3 && d[2] == 0 then NO_NAME
                    else if |d| < m + 2 || |d| < m + 2 + (d[m] as int * 256 + d[m + 1] as int) then INVALID
                    else Extensions(d[m + 2..m + 2 + (d[m] as int * 256 + d[m + 1] as int)])
    ensures |d| == 5 || d[5] != 1 || |d| < 44 || |d| < 46 + d[43] as int
            || |d| < 47 + d[43] as int + (d[44 + d[43] as int] as int * 256 + d[45 + d[43] as int] as int) ==>
              HelloName(d) == INVALID
  {
    hide Extensions;
  }

  /** The name sent for a host: none when the host ends in a digit. */
  function Sni(host: seq<byte>): (name: seq<byte>) {
    if host != [] && 48 <= host[|host| - 1] <= 57 then [] else host
  }

  function SniData(name: seq<byte>): seq<byte> {
    [Hi(|name| + 3), Lo(|name| + 3), 0, Hi(|name|), Lo(|name|)] + name
  }

  lemma {:induction false} CStringExact(s: seq<byte>)
    ensures CString(s) == s <==> 0 !in s
  {
    if s != [] {
      if s[0] != 0 {
        CStringExact(s[1..]);
        assert CString(s)[1..] == CString(s[1..]);
        assert s == [s[0]] + s[1..];
      }
    }
  }

  /** A server name extension gives its name back; an empty one is refused. */
  lemma {:induction false} SniExact(name: seq<byte>)
    requires |name| < 65000 && 0 !in name
    ensures ServerName(SniData(name)) == if name == [] then INVALID else Name(name)
  {
    hide Hi;
    hide Lo;
    hide U16;
    hide CString;
    var d := SniData(name)[2..];
    U16RoundTrip(|name|);
    assert d == [0, Hi(|name|), Lo(|name|)] + name;
    if name != [] {
      assert d[3..3 + |name|] == name;
      CStringExact(name);
    }
  }

  const CIPHERS: seq<byte> :=
    [0x00, 0x1c, 0xc0, 0x2b, 0xc0, 0x2f, 0xcc, 0xa9, 0xcc, 0xa8, 0xcc, 0x14, 0xcc, 0x13, 0xc0, 0x0a,
     0xc0, 0x14, 0xc0, 0x09, 0xc0, 0x13, 0x00, 0x9c, 0x00, 0x35, 0x00, 0x2f, 0x00, 0x0a, 0x01, 0x00]

  const DATA1: seq<byte> := [0xff, 0x01, 0x00, 0x01, 0x00]

  const DATA2: seq<byte> := [0x00, 0x17, 0x00, 0x00, 0x00, 0x23, 0x00, 0xd0]

  const ALGORITHMS: seq<byte> :=
    [0x00, 0x0d, 0x00, 0x16, 0x00, 0x14, 0x06, 0x01, 0x06, 0x03, 0x05, 0x01, 0x05, 0x03, 0x04, 0x01,
     0x04, 0x03, 0x03, 0x01, 0x03, 0x03, 0x02, 0x01, 0x02, 0x03]

  const STATUS: seq<byte> :=
    [0x00, 0x05, 0x00, 0x05, 0x01, 0x00, 0x00, 0x00, 0x00, 0x00, 0x12, 0x00, 0x00, 0x75, 0x50, 0x00,
     0x00]

  const CURVES: seq<byte> :=
    [0x00, 0x0b, 0x00, 0x02, 0x01, 0x00, 0x00, 0x0a, 0x00, 0x06, 0x00, 0x04, 0x00, 0x17, 0x00, 0x18]

  const DATA3: seq<byte> := ALGORITHMS + STATUS + CURVES

  /** The extension block as client_encode assembles it. */
  function Block(name: seq<byte>, ticket: seq<byte>): seq<byte> {
    DATA1 + ([0, 0, Hi(|name| + 5), Lo(|name| + 5)] + SniData(name)) + DATA2 + ticket + DATA3
  }

  /** The extensions the block is made of. */
  function HelloExtensions(name: seq<byte>, ticket: seq<byte>): seq<Extension> {
    [Extension(0xff01, [0]), Extension(0, SniData(name)), Extension(0x17, []), Extension(0x23, ticket)]
    + [Extension(0x0d, ALGORITHMS[4..])]
    + [Extension(0x05, [1, 0, 0, 0, 0]), Extension(0x12, []), Extension(0x7550, [])]
    + [Extension(0x0b, [1, 0]), Extension(0x0a, [0, 4, 0, 0x17, 0, 0x18])]
  }

  lemma {:induction false} ListAppend(a: seq<Extension>, b: seq<Extension>)
    ensures ExtensionList(a + b) == ExtensionList(a) + ExtensionList(b)
  {
    hide ExtensionBytes;
    if a == [] {
      assert a + b == b;
    } else {
      var x, y := ExtensionList(a[1..]), ExtensionList(b);
      ListAppend(a[1..], b);
      assert (a + b)[0] == a[0] && (a + b)[1..] == a[1..] + b;
      Associate(ExtensionBytes(a[0]), x, y);
    }
  }

  lemma {:induction false} One(e: Extension)
    ensures ExtensionList([e]) == ExtensionBytes(e)
  {
    assert ExtensionList([e][1..]) == [];
  }

  lemma {:induction false} Two(d: Extension, e: Extension)
    ensures ExtensionList([d, e]) == ExtensionBytes(d) + ExtensionBytes(e)
  {
    hide ExtensionBytes;
    One(e);
    assert [d, e][1..] == [e];
  }

  lemma {:induction false} AlgorithmsPart()
    ensures ExtensionList([Extension(0x0d, ALGORITHMS[4..])]) == ALGORITHMS
  {
    var e := Extension(0x0d, ALGORITHMS[4..]);
    One(e);
    assert ExtensionBytes(e) == [0, 0x0d, 0, 0x16] + ALGORITHMS[4..];
    assert ALGORITHMS[..4] == [0, 0x0d, 0, 0x16];
  }

  lemma {:induction false} StatusPart()
    ensures ExtensionList([Extension(0x05, [1, 0, 0, 0, 0]), Extension(0x12, []), Extension(0x7550, [])]) == STATUS
  {
    var a, b, c := Extension(0x05, [1, 0, 0, 0, 0]), Extension(0x12, []), Extension(0x7550, []);
    Two(b, c);
    assert [a, b, c][1..] == [b, c];
    assert ExtensionBytes(a) == [0, 5, 0, 5, 1, 0, 0, 0, 0];
    assert ExtensionBytes(b) == [0, 0x12, 0, 0];
    assert ExtensionBytes(c) == [0x75, 0x50, 0, 0];
  }

  lemma {:induction false} CurvesPart()
    ensures ExtensionList([Extension(0x0b, [1, 0]), Extension(0x0a, [0, 4, 0, 0x17, 0, 0x18])]) == CURVES
  {
    var a, b := Extension(0x0b, [1, 0]), Extension(0x0a, [0, 4, 0, 0x17, 0, 0x18]);
    Two(a, b);
    assert ExtensionBytes(a) == [0, 0x0b, 0, 2, 1, 0];
    assert ExtensionBytes(b) == [0, 0x0a, 0, 6, 0, 4, 0, 0x17, 0, 0x18];
  }

  lemma {:induction false} FrontPart(name: seq<byte>, ticket: seq<byte>)
    requires |ticket| == 208
    ensures ExtensionList([Extension(0xff01, [0]), Extension(0, SniData(name)), Extension(0x17, []),
            Extension(0x23, ticket)])
         == DATA1 + ([0, 0, Hi(|name| + 5), Lo(|name| + 5)] + SniData(name)) + DATA2 + ticket
  {
    hide SniData;
    var a, b, c, d := Extension(0xff01, [0]), Extension(0, SniData(name)), Extension(0x17, []), Extension(0x23, ticket);
    Two(a, b);
    Two(c, d);
    ListAppend([a, b], [c, d]);
    assert [a, b] + [c, d] == [a, b, c, d];
    FrontBytes(name, ticket);
  }

  lemma {:induction false} FrontBytes(name: seq<byte>, ticket: seq<byte>)
    requires |ticket| == 208
    ensures ExtensionBytes(Extension(0xff01, [0])) == DATA1
    ensures ExtensionBytes(Extension(0, SniData(name))) == [0, 0, Hi(|name| + 5), Lo(|name| + 5)] + SniData(name)
    ensures ExtensionBytes(Extension(0x17, [])) + ExtensionBytes(Extension(0x23, ticket)) == DATA2 + ticket
  {
  }

  /** The block the client assembles from fixed parts is a list of extensions, each
      with its right length, that fills the block exactly. */
  lemma {:induction false} BlockIsList(name: seq<byte>, ticket: seq<byte>)
    requires |ticket| == 208
    ensures ExtensionList(HelloExtensions(name, ticket)) == Block(name, ticket)
  {
    hide ExtensionList;
    hide SniData;
    var a := [Extension(0xff01, [0]), Extension(0, SniData(name)), Extension(0x17, []), Extension(0x23, ticket)];
    var b := [Extension(0x0d, ALGORITHMS[4..])];
    var c := [Extension(0x05, [1, 0, 0, 0, 0]), Extension(0x12, []), Extension(0x7550, [])];
    var d := [Extension(0x0b, [1, 0]), Extension(0x0a, [0, 4, 0, 0x17, 0, 0x18])];
    ListAppend(a + b + c, d);
    ListAppend(a + b, c);
    ListAppend(a, b);
    FrontPart(name, ticket);
    AlgorithmsPart();
    StatusPart();
    CurvesPart();
  }

  /** The parser finds exactly the name in the block. */
  lemma {:induction false} BlockName(name: seq<byte>, ticket: seq<byte>)
    requires |ticket| == 208 && |name| < 65000 && 0 !in name
    ensures Extensions(Block(name, ticket)) == if name == [] then INVALID else Name(name)
  {
    hide Extensions;
    hide ServerName;
    hide SniData;
    hide ExtensionList;
    var es := HelloExtensions(name, ticket);
    BlockIsList(name, ticket);
    SniLength(name);
    assert Encodable(es);
    ExtensionsExact(es);
    SniExact(name);
    assert es[0].kind != 0 && es[1..][0] == Extension(0, SniData(name));
    assert FirstName(es) == FirstName(es[1..]);
  }

  lemma {:induction false} SniLength(name: seq<byte>)
    ensures |SniData(name)| == |name| + 5
  {
  }

  /** The random field: time, 18 random bytes and ten bytes of hash; the session id
      is the client id. */
  function HelloBody(auth: seq<byte>, id: seq<byte>, block: seq<byte>): seq<byte> {
    [3, 3] + auth + [0x20] + id + CIPHERS + [Hi(|block|), Lo(|block|)] + block
  }

  function Hello(auth: seq<byte>, id: seq<byte>, block: seq<byte>): seq<byte> {
    var body := HelloBody(auth, id, block);
    [0x16, 3, 1, Hi(|body| + 4), Lo(|body| + 4), 1, 0, Hi(|body|), Lo(|body|)] + body
  }

  /** client_encode writes the message from its end to its front, each length when
      what it covers is complete. */
  method BuildHello(auth: seq<byte>, id: seq<byte>, block: seq<byte>) returns (out: seq<byte>)
    requires |auth| == 32 && |id| == 32
    ensures out == Hello(auth, id, block)
    ensures |out| == 11 + 32 + 1 + 32 + |CIPHERS| + 2 + |block|
  {
    out := block;
    out := [Hi(|out|), Lo(|out|)] + out;
    out := CIPHERS + out;
    out := id + out;
    out := [0x20] + out;
    out := auth + out;
    out := [3, 3] + out;
    assert out == HelloBody(auth, id, block);
    out := [1, 0, Hi(|out|), Lo(|out|)] + out;
    out := [Hi(|out|), Lo(|out|)] + out;
    out := [3, 1] + out;
    out := [0x16] + out;
    assert out == Hello(auth, id, block);
  }

  lemma {:induction false} HelloLayout(auth: seq<byte>, id: seq<byte>, block: seq<byte>)
    requires |auth| == 32 && |id| == 32
    ensures var h := Hello(auth, id, block);
            && |h| == 110 + |block| && h[11..43] == auth && h[43] == 32 && h[44..76] == id
            && h[76] == 0 && h[77] == 28 && h[106] == 1 && h[107] == 0
            && h[108] == Hi(|block|) && h[109] == Lo(|block|) && h[110..] == block
            && h[..11] == [0x16, 3, 1, Hi(|h| - 5), Lo(|h| - 5), 1, 0, Hi(|h| - 9), Lo(|h| - 9), 3, 3]
  {
    hide Hi;
    hide Lo;
    hide Hello;
    hide HelloBody;
    var h, n := Hello(auth, id, block), 101 + |block|;
    var front: seq<byte> := [0x16, 3, 1, Hi(n + 4), Lo(n + 4), 1, 0, Hi(n), Lo(n), 3, 3];
    var size: seq<byte> := [Hi(|block|), Lo(|block|)];
    HelloParts(auth, id, block);
    var r4 := CIPHERS + (size + block);
    var r3 := id + r4;
    var r2 := [0x20] + r3;
    var r1 := auth + r2;
    Peel(front, r1, h, 0);
    Peel(auth, r2, h, 11);
    Peel([0x20], r3, h, 43);
    Peel(id, r4, h, 44);
    Peel(CIPHERS, size + block, h, 76);
    Peel(size, block, h, 108);
    CipherBytes(h);
    assert h[43] == h[43..44][0];
    assert h[108] == h[108..110][0] && h[109] == h[108..110][1];
  }

  lemma {:induction false} HelloParts(auth: seq<byte>, id: seq<byte>, block: seq<byte>)
    requires |auth| == 32 && |id| == 32
    ensures |CIPHERS| == 32 && |Hello(auth, id, block)| == 110 + |block|
    ensures var n := 101 + |block|;
            Hello(auth, id, block)[0..] ==
              [0x16, 3, 1, Hi(n + 4), Lo(n + 4), 1, 0, Hi(n), Lo(n), 3, 3]
              + (auth + ([0x20] + (id + (CIPHERS + ([Hi(|block|), Lo(|block|)] + block)))))
  {
    hide Hi;
    hide Lo;
  }

  /** What stands at a position, and what follows it. */
  lemma {:induction false} Peel(a: seq<byte>, rest: seq<byte>, s: seq<byte>, at: nat)
    requires at <= |s| && s[at..] == a + rest
    ensures at + |a| <= |s| && s[at..at + |a|] == a && s[at + |a|..] == rest
  {
    Slices(s, at, 0, |a|);
    assert s[at..][..|a|] == a && s[at..][|a|..] == rest;
    assert s[at..][0..|a|] == s[at..][..|a|];
  }

  lemma {:induction false} CipherBytes(h: seq<byte>)
    requires |h| >= 108 && h[76..108] == CIPHERS
    ensures h[76] == 0 && h[77] == 28 && h[106] == 1 && h[107] == 0
  {
    assert h[76] == h[76..108][0] && h[77] == h[76..108][1] && h[106] == h[76..108][30] && h[107] == h[76..108][31];
    assert CIPHERS[0] == 0 && CIPHERS[1] == 28 && CIPHERS[30] == 1 && CIPHERS[31] == 0;
  }

  /** For every host name, session id and random bytes, and whatever follows the
      message, the parser of tls.c finds in the ClientHello exactly the name sent;
      it rejects the hello exactly when no name is sent, that is, for a host that is
      empty or ends in a digit. */
  lemma {:induction false} SniRoundTrip(auth: seq<byte>, id: seq<byte>, ticket: seq<byte>, host: seq<byte>,
                                        y: seq<byte>)
    requires |auth| == 32 && |id| == 32 && |ticket| == 208 && |host| < 256 && 0 !in host
    ensures ParsePacket(Hello(auth, id, Block(Sni(host), ticket)) + y)
         == if host == [] || 48 <= host[|host| - 1] <= 57 then INVALID else Name(host)
  {
    hide Extensions;
    hide Block;
    hide Hi;
    hide Lo;
    hide U16;
    hide Hello;
    var name := Sni(host);
    var block := Block(name, ticket);
    var h := Hello(auth, id, block);
    BlockLength(name, ticket);
    HelloLayout(auth, id, block);
    U16RoundTrip(|h| - 5);
    U16RoundTrip(|block|);
    U16RoundTrip(28);
    assert Hi(28) == 0 && Lo(28) == 28 by { Small(); }
    var d := h + y;
    assert h[..11] == d[..11];
    assert d[0] == d[..11][0] && d[1] == d[..11][1] && d[2] == d[..11][2] && d[3] == d[..11][3] && d[4] == d[..11][4];
    assert d[..|h|] == h;
    assert h[5] == h[..11][5];
    assert SkipField(h, 43, false) == 76;
    assert SkipField(h, 76, true) == 106;
    assert SkipField(h, 106, false) == 108;
    BlockName(name, ticket);
    assert h[110..110 + |block|] == block;
  }

  lemma {:induction false} Small()
    ensures Hi(28) == 0 && Lo(28) == 28
  {
  }

  lemma {:induction false} BlockLength(name: seq<byte>, ticket: seq<byte>)
    requires |ticket| == 208
    ensures |Block(name, ticket)| == 289 + |name|
  {
  }
}
