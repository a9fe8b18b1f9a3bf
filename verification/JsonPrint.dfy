/** json.c: what the parser makes of printed values. A printer for values, independent
    of the parser's flags, and the proof that the parser reads every printed value as
    exactly that value. */
module JsonPrint {
  import opened Bytes
  import opened Json

  /** White space: any string over these four characters. */
  type Ws = s: seq<byte> | forall k :: 0 <= k < |s| ==> s[k] == 32 || s[k] == 9 || s[k] == 10 || s[k] == 13

  /** A value as it is written. */
  datatype Value =
    | Nil | Yes | No
    | Number(n: Decimal)
    | Text(chars: seq<Piece>)
    | Array(items: Items)
    | Object(members: Members)

  /** A number: sign, integer digits, fraction digits if any, exponent if any. */
  datatype Decimal = Decimal(neg: bool, whole: seq<byte>, fraction: seq<byte>, exponent: Exponent)

  datatype Exponent = NoExponent | Exponent(letter: byte, sign: seq<byte>, digits: seq<byte>)

  /** A character of a string: itself, a backslash in front of it, or four hexadecimal digits. */
  datatype Piece = Raw(b: byte) | Escaped(b: byte) | Hex(h1: byte, h2: byte, h3: byte, h4: byte)

  /** The elements of an array, with the white space before and after each. The parser takes
      a comma behind the last one. */
  datatype Items =
    | NoItems(comma: bool, gap: Ws)
    | Item(gap: Ws, first: Value, after: Ws, rest: Items)

  /** The members of an object, with the white space before the name, before and after the
      colon, and after the value. */
  datatype Members =
    | NoMembers(comma: bool, gap: Ws)
    | Member(gap: Ws, name: seq<Piece>, before: Ws, mid: Ws, value: Value, after: Ws, rest: Members)

  predicate AllDigits(ds: seq<byte>) { forall k :: 0 <= k < |ds| ==> 48 <= ds[k] <= 57 }

  /** Numbers have no leading zeros, and digits in their exponent. The parser takes a minus
      sign for a number, also in front of an exponent. */
  predicate NumberOk(n: Decimal) {
    && (if n.whole == [] then n.neg && n.fraction == [] else n.whole[0] == 48 ==> |n.whole| == 1)
    && AllDigits(n.whole) && AllDigits(n.fraction) && ExponentOk(n.exponent)
  }

  predicate ExponentOk(e: Exponent) {
    e.Exponent? ==>
      && (e.letter == 101 || e.letter == 69) && (e.sign == [] || e.sign == [43] || e.sign == [45])
      && e.digits != [] && AllDigits(e.digits)
  }

  predicate IsHex(b: byte) { 48 <= b <= 57 || 65 <= b <= 70 || 97 <= b <= 102 }

  /** Any character but a NUL may follow a backslash. */
  predicate PieceOk(p: Piece) {
    match p
    case Raw(b) => b != 0 && b != 34 && b != 92
    case Escaped(b) => b != 0 && b != 117
    case Hex(h1, h2, h3, h4) => IsHex(h1) && IsHex(h2) && IsHex(h3) && IsHex(h4)
  }

  predicate PiecesOk(w: seq<Piece>) { forall k :: 0 <= k < |w| ==> PieceOk(w[k]) }

  predicate ValueOk(v: Value) {
    match v
    case Number(n) => NumberOk(n)
    case Text(w) => PiecesOk(w)
    case Array(items) => ItemsOk(items)
    case Object(members) => MembersOk(members)
    case _ => true
  }

  predicate ItemsOk(items: Items) { items.NoItems? || (ValueOk(items.first) && ItemsOk(items.rest)) }

  predicate MembersOk(ms: Members) {
    ms.NoMembers? || (PiecesOk(ms.name) && ValueOk(ms.value) && MembersOk(ms.rest))
  }

  // ---------- What strings mean ----------

  function Nibble(h: byte): (n: nat)
    requires IsHex(h)
    ensures n < 16
  {
    if h <= 57 then h - 48 else if h <= 70 then h - 55 else h - 87
  }

  /** UTF-8 of a 16-bit value (section 3 of RFC 3629). */
  function Encoded(u: nat): (r: seq<byte>)
    requires u < 65536
    ensures 1 <= |r| <= 3
  {
    if u < 0x80 then [u]
    else if u < 0x800 then [0xC0 + u / 64, 0x80 + u % 64]
    else [0xE0 + u / 4096, 0x80 + u / 64 % 64, 0x80 + u % 64]
  }

  /** The bytes a character stands for. */
  function Meaning(p: Piece): (r: seq<byte>)
    requires PieceOk(p)
    ensures 1 <= |r| <= 3
  {
    match p
    case Raw(b) => [b]
    case Escaped(b) =>
      [if b == 98 then 8 else if b == 102 then 12 else if b == 110 then 10 else if b == 114 then 13
       else if b == 116 then 9 else b]
    case Hex(h1, h2, h3, h4) => Encoded(Nibble(h1) * 4096 + Nibble(h2) * 256 + Nibble(h3) * 16 + Nibble(h4))
  }

  function Meant(w: seq<Piece>): seq<byte>
    requires PiecesOk(w)
  {
    if w == [] then [] else Meaning(w[0]) + Meant(w[1..])
  }

  // ---------- Printing ----------

  function Spell(p: Piece): (r: seq<byte>)
    ensures |r| >= 1
  {
    match p
    case Raw(b) => [b]
    case Escaped(b) => [92, b]
    case Hex(h1, h2, h3, h4) => [92, 117, h1, h2, h3, h4]
  }

  function Spelled(w: seq<Piece>): seq<byte> {
    if w == [] then [] else Spell(w[0]) + Spelled(w[1..])
  }

  function Print(v: Value): (r: seq<byte>)
    requires ValueOk(v)
    ensures |r| >= 1
    decreases v, 0
  {
    match v
    case Nil => [110, 117, 108, 108]
    case Yes => [116, 114, 117, 101]
    case No => [102, 97, 108, 115, 101]
    case Number(n) => PrintNumber(n)
    case Text(w) => [34] + (Spelled(w) + [34])
    case Array(items) => [91] + PrintFirst(items)
    case Object(ms) => [123] + PrintFirstMember(ms)
  }

  function PrintNumber(n: Decimal): (r: seq<byte>)
    requires NumberOk(n)
    ensures |r| >= 1
  {
    (if n.neg then [45] else []) + (n.whole + (PrintFraction(n.fraction) + PrintExponent(n.exponent)))
  }

  function PrintFraction(ds: seq<byte>): seq<byte> { if ds == [] then [] else [46] + ds }

  function PrintExponent(e: Exponent): seq<byte> { if e.NoExponent? then [] else [e.letter] + (e.sign + e.digits) }

  function PrintFirst(items: Items): (r: seq<byte>)
    requires ItemsOk(items)
    ensures |r| >= 1
    decreases items, 0
  {
    if items.NoItems? then items.gap + [93]
    else items.gap + (Print(items.first) + (items.after + PrintItems(items.rest)))
  }

  /** The other elements, and the closing bracket. */
  function PrintItems(items: Items): (r: seq<byte>)
    requires ItemsOk(items)
    ensures |r| >= 1
    decreases items, 1
  {
    if items.NoItems? && !items.comma then PrintFirst(items) else [44] + PrintFirst(items)
  }

  function PrintFirstMember(ms: Members): (r: seq<byte>)
    requires MembersOk(ms)
    ensures |r| >= 1
    decreases ms, 0
  {
    if ms.NoMembers? then ms.gap + [125]
    else ms.gap + (PrintName(ms.name, ms.before) + (ms.mid + (Print(ms.value) + (ms.after + PrintMembers(ms.rest)))))
  }

  function PrintName(name: seq<Piece>, before: Ws): seq<byte> {
    [34] + (Spelled(name) + ([34] + (before + [58])))
  }

  function PrintMembers(ms: Members): (r: seq<byte>)
    requires MembersOk(ms)
    ensures |r| >= 1
    decreases ms, 1
  {
    if ms.NoMembers? && !ms.comma then PrintFirstMember(ms) else [44] + PrintFirstMember(ms)
  }

  // ---------- The storage events of a value ----------

  function Adds(w: seq<Piece>): seq<Event>
    requires PiecesOk(w)
  {
    if w == [] then [] else [Add(Meaning(w[0]))] + Adds(w[1..])
  }

  function Events(v: Value): seq<Event>
    requires ValueOk(v)
  {
    match v
    case Nil => [New(Null)]
    case Yes => [New(Bool(true))]
    case No => [New(Bool(false))]
    case Number(_) => [New(Num)]
    case Text(w) => [New(Str)] + (Adds(w) + [CloseStr])
    case Array(items) => [New(Arr)] + ItemEvents(items)
    case Object(ms) => [New(Obj)] + MemberEvents(ms)
  }

  function ItemEvents(items: Items): seq<Event>
    requires ItemsOk(items)
  {
    if items.NoItems? then [] else Events(items.first) + ([Pop] + ItemEvents(items.rest))
  }

  function MemberEvents(ms: Members): seq<Event>
    requires MembersOk(ms)
  {
    if ms.NoMembers? then []
    else [Key] + (Adds(ms.name) + ([CloseKey] + (Events(ms.value) + ([Pop] + MemberEvents(ms.rest)))))
  }

  // ---------- Reading ----------

  /** The text x stands at position i. */
  predicate Stands(s: seq<byte>, i: nat, x: seq<byte>) { i + |x| <= |s| && s[i..i + |x|] == x }

  lemma {:induction false} StandsSplit(s: seq<byte>, i: nat, x: seq<byte>, y: seq<byte>)
    requires Stands(s, i, x + y)
    ensures Stands(s, i, x) && Stands(s, i + |x|, y)
  {
    var z := s[i..i + |x + y|];
    assert z[..|x|] == x && z[|x|..] == y;
    assert s[i..i + |x|] == z[..|x|] && s[i + |x|..i + |x| + |y|] == z[|x|..];
  }

  lemma {:induction false} StandsAt(s: seq<byte>, i: nat, x: seq<byte>, k: nat)
    requires Stands(s, i, x) && k < |x|
    ensures Ch(s, i + k) == x[k]
  {
    assert s[i..i + |x|][k] == s[i + k];
  }

  /** One turn of the first pass. */
  lemma {:induction false} Turn(s: seq<byte>, c: Ctl)
    requires Inv(s, c) && Step(true, s, c).Go?
    ensures var o := Step(true, s, c); Inv(s, o.c) && Run(true, s, c) == After(o.ev, Run(true, s, o.c))
  {
    hide Step;
    StepSound(true, s, c);
  }

  /** White space is skipped between tokens: before a value, a comma, a colon or a closing
      bracket, between members, and behind the document. */
  predicate Between(c: Ctl) {
    !c.inStr && (c.done || c.seek || (c.stack != [] && Top(c).kind.Obj?))
  }

  lemma {:induction false} SpaceTurn(s: seq<byte>, c: Ctl)
    requires Between(c)
    requires Ch(s, c.i) == 32 || Ch(s, c.i) == 9 || Ch(s, c.i) == 10 || Ch(s, c.i) == 13
    ensures Step(true, s, c) == Go(c.(i := c.i + 1), [])
  {
    hide Finish;
  }

  lemma {:induction false} SkipSpace(s: seq<byte>, c: Ctl, w: Ws)
    requires Inv(s, c) && Between(c) && Stands(s, c.i, w)
    ensures var d := c.(i := c.i + |w|); Inv(s, d) && Run(true, s, c) == Run(true, s, d)
    decreases |w|
  {
    hide Run;
    hide Step;
    hide Inv;
    if w != [] {
      StandsAt(s, c.i, w, 0);
      SpaceTurn(s, c);
      Turn(s, c);
      var d := c.(i := c.i + 1);
      AfterNone(Run(true, s, d));
      assert w == [w[0]] + w[1..];
      StandsSplit(s, c.i, [w[0]], w[1..]);
      SkipSpace(s, d, w[1..]);
    }
  }

  /** A character of a string. */
  lemma {:induction false} ReadPiece(s: seq<byte>, c: Ctl, p: Piece)
    requires Inv(s, c) && c.inStr && !c.esc && c.strLen <= c.i <= UINT_LIMIT && PieceOk(p) && Stands(s, c.i, Spell(p))
    ensures var d := c.(i := c.i + |Spell(p)|, strLen := c.strLen + |Meaning(p)|);
            Inv(s, d) && Run(true, s, c) == After([Add(Meaning(p))], Run(true, s, d))
  {
    hide Run;
    hide Step;
    hide Meaning;
    var x := Spell(p);
    StandsAt(s, c.i, x, 0);
    if p.Raw? {
      RawTurn(s, c, p);
      Turn(s, c);
    } else {
      var e := c.(i := c.i + 1, esc := true);
      BackslashTurn(s, c);
      Turn(s, c);
      EscapeTurn(s, e, p);
      Turn(s, e);
      var d := c.(i := c.i + |x|, strLen := c.strLen + |Meaning(p)|);
      AfterTwice([], [Add(Meaning(p))], Run(true, s, d));
      assert [] + [Add(Meaning(p))] == [Add(Meaning(p))];
    }
  }

  lemma {:induction false} RawTurn(s: seq<byte>, c: Ctl, p: Piece)
    requires c.inStr && !c.esc && c.stack != [] && c.strLen <= UINT_LIMIT && p.Raw? && PieceOk(p) && Ch(s, c.i) == p.b
    ensures Meaning(p) == [p.b] && Step(true, s, c) == Go(c.(i := c.i + 1, strLen := c.strLen + 1), [Add([p.b])])
  {
    hide Finish;
  }

  lemma {:induction false} BackslashTurn(s: seq<byte>, c: Ctl)
    requires c.inStr && !c.esc && c.stack != [] && c.strLen <= UINT_LIMIT && Ch(s, c.i) == 92
    ensures Step(true, s, c) == Go(c.(i := c.i + 1, esc := true), [])
  {
    hide Finish;
  }

  lemma {:induction false} EscapeTurn(s: seq<byte>, e: Ctl, p: Piece)
    requires e.i >= 1 && e.inStr && e.esc && e.stack != [] && e.strLen <= UINT_LIMIT && !p.Raw? && PieceOk(p)
    requires Stands(s, e.i - 1, Spell(p))
    ensures Step(true, s, e) ==
            Go(e.(i := e.i + |Spell(p)| - 1, esc := false, strLen := e.strLen + |Meaning(p)|), [Add(Meaning(p))])
  {
    hide SeekStep;
    hide ObjectStep;
    hide DigitStep;
    hide Finish;
    hide EscapeStep;
    var x := Spell(p);
    StandsAt(s, e.i - 1, x, 1);
    assert Step(true, s, e) == EscapeStep(s, e, x[1]);
    if p.Hex? { HexEscape(s, e, p); } else { PlainEscape(s, e, p); }
  }

  lemma {:induction false} PlainEscape(s: seq<byte>, e: Ctl, p: Piece)
    requires p.Escaped? && PieceOk(p)
    ensures EscapeStep(s, e, p.b) == AddBytes(e, Meaning(p), e.i + 1)
  {
    hide HexValue;
    hide Utf8;
    hide AddBytes;
  }

  lemma {:induction false} HexEscape(s: seq<byte>, e: Ctl, p: Piece)
    requires p.Hex? && PieceOk(p) && e.i >= 1 && Stands(s, e.i - 1, Spell(p))
    ensures EscapeStep(s, e, 117) == AddBytes(e, Meaning(p), e.i + 5)
  {
    hide Utf8;
    var x := Spell(p);
    StandsAt(s, e.i - 1, x, 2);
    StandsAt(s, e.i - 1, x, 3);
    StandsAt(s, e.i - 1, x, 4);
    StandsAt(s, e.i - 1, x, 5);
    NibbleIsHex(p.h1);
    NibbleIsHex(p.h2);
    NibbleIsHex(p.h3);
    NibbleIsHex(p.h4);
    EncodedIsUtf8(Nibble(p.h1) * 16 + Nibble(p.h2), Nibble(p.h3) * 16 + Nibble(p.h4));
  }

  lemma {:induction false} NibbleIsHex(h: byte)
    ensures IsHex(h) ==> HexValue(h) == Nibble(h)
    ensures !IsHex(h) ==> HexValue(h) == 255
  {
  }

  lemma {:induction false} EncodedIsUtf8(b1: nat, b2: nat)
    requires b1 < 256 && b2 < 256
    ensures Encoded(b1 * 256 + b2) == Utf8(b1, b2)
  {
    SixBits(b1 / 16, b1 % 16, b2 / 64, b2 % 64);
    assert b1 * 256 + b2 == ((b1 / 16 * 16 + b1 % 16) * 4 + b2 / 64) * 64 + b2 % 64;
  }

  lemma {:induction false} SixBits(q: nat, r: nat, p: nat, m: nat)
    requires q < 16 && r < 16 && p < 4 && m < 64
    ensures var u := ((q * 16 + r) * 4 + p) * 64 + m;
            u % 64 == m && u / 64 == (q * 16 + r) * 4 + p && u / 64 % 64 == r * 4 + p && u / 4096 == q
  {
    var u := ((q * 16 + r) * 4 + p) * 64 + m;
    assert u / 64 == q * 64 + (r * 4 + p);
    assert u == q * 4096 + ((r * 4 + p) * 64 + m);
  }

  lemma {:induction false} ReadChars(s: seq<byte>, c: Ctl, w: seq<Piece>)
    requires Inv(s, c) && c.inStr && !c.esc && c.strLen <= c.i && |s| <= UINT_LIMIT && PiecesOk(w)
    requires Stands(s, c.i, Spelled(w))
    ensures var d := c.(i := c.i + |Spelled(w)|, strLen := c.strLen + |Meant(w)|);
            Inv(s, d) && d.strLen <= d.i && Run(true, s, c) == After(Adds(w), Run(true, s, d))
    decreases |w|
  {
    hide Run;
    hide Inv;
    hide Stands;
    hide Spell;
    hide Meaning;
    if w == [] {
      AfterNone(Run(true, s, c));
    } else {
      StandsSplit(s, c.i, Spell(w[0]), Spelled(w[1..]));
      ReadPiece(s, c, w[0]);
      MeaningShort(w[0]);
      var d := c.(i := c.i + |Spell(w[0])|, strLen := c.strLen + |Meaning(w[0])|);
      ReadChars(s, d, w[1..]);
      var e := c.(i := c.i + |Spelled(w)|, strLen := c.strLen + |Meant(w)|);
      AfterTwice([Add(Meaning(w[0]))], Adds(w[1..]), Run(true, s, e));
    }
  }

  lemma {:induction false} MeaningShort(p: Piece)
    requires PieceOk(p)
    ensures |Meaning(p)| <= |Spell(p)|
  {
  }

  lemma {:induction false} AfterNone(v: Verdict)
    ensures After([], v) == v
  {
    if v.Accepted? { assert [] + v.ev == v.ev; }
  }

  lemma {:induction false} RunOnward(s: seq<byte>, c: Ctl)
    requires Inv(s, c)
    ensures var o := Step(true, s, c); (o.Go? ==> Inv(s, o.c)) && Run(true, s, c) == Onward(true, s, o)
  {
    hide Step;
    StepSound(true, s, c);
  }

  lemma {:induction false} OnwardPrefix(s: seq<byte>, ev: seq<Event>, o: Outcome)
    requires !o.Accept? && (o.Go? ==> Inv(s, o.c))
    ensures Onward(true, s, Prefix(ev, o)) == After(ev, Onward(true, s, o))
  {
    hide Run;
    if o.Go? { AfterTwice(ev, o.ev, Run(true, s, o.c)); }
  }

  /** Looking for a value, with room in every count. */
  ghost predicate Seeking(s: seq<byte>, c: Ctl) {
    && Inv(s, c) && c.seek && !c.comma && !c.colon && !c.inStr && !c.esc && !c.done && |s| <= UINT_LIMIT
    && Small(c.stack, c.i)
  }

  /** No more elements than characters were read. */
  predicate Small(stack: seq<Open>, i: nat) { forall k :: 0 <= k < |stack| ==> stack[k].length <= i }

  /** A value on top of base is complete. */
  ghost predicate Closing(base: seq<Open>, d: Ctl) {
    && |d.stack| == |base| + 1 && d.stack[..|base|] == base
    && !d.inStr && !d.esc && !d.seek && !d.colon && !d.done
  }

  /** Reading from c on leads to the events ev and then to the end of d at j. */
  ghost predicate Leads(s: seq<byte>, c: Ctl, ev: seq<Event>, d: Ctl, j: nat)
    requires Inv(s, c)
  {
    && d.stack != []
    && var o := Finish(d, j);
    (o.Go? ==> Inv(s, o.c)) && Run(true, s, c) == After(ev, Onward(true, s, o))
  }

  /** A complete value: its end is a reachable state. */
  lemma {:induction false} ClosingSound(s: seq<byte>, c: Ctl, d: Ctl, j: nat)
    requires Inv(s, c) && (c.stack == [] || Container(Top(c).kind)) && Closing(c.stack, d) && c.i < j <= |s|
    ensures var o := Finish(d, j); (o.Go? || o.Fail?) && (o.Go? ==> Inv(s, o.c))
  {
    forall k | 0 <= k < |d.stack| - 1 ensures Container(d.stack[k].kind) {
      assert d.stack[k] == d.stack[..|c.stack|][k];
    }
    FinishSound(s, d, j, c);
  }

  /** A turn that opens a value and completes it. */
  lemma {:induction false} AtomLeads(s: seq<byte>, c: Ctl, kind: Kind, j: nat)
    requires Seeking(s, c) && c.i < j <= |s|
    requires Step(true, s, c) == Prefix([New(kind)], Finish(NewValue(c, kind), j))
    ensures Closing(c.stack, NewValue(c, kind)) && Leads(s, c, [New(kind)], NewValue(c, kind), j)
  {
    hide Step;
    hide Finish;
    var d := NewValue(c, kind);
    ClosingSound(s, c, d, j);
    RunOnward(s, c);
    OnwardPrefix(s, [New(kind)], Finish(d, j));
  }

  lemma {:induction false} ReadLiteral(s: seq<byte>, c: Ctl, v: Value)
    requires Seeking(s, c) && (v.Nil? || v.Yes? || v.No?) && Stands(s, c.i, Print(v))
    ensures var kind := if v.Nil? then Null else Bool(v.Yes?);
            Closing(c.stack, NewValue(c, kind)) && Leads(s, c, Events(v), NewValue(c, kind), c.i + |Print(v)|)
  {
    hide Run;
    var kind := if v.Nil? then Null else Bool(v.Yes?);
    LiteralTurn(s, c, Print(v), kind);
    AtomLeads(s, c, kind, c.i + |Print(v)|);
  }

  lemma {:induction false} LiteralTurn(s: seq<byte>, c: Ctl, x: seq<byte>, kind: Kind)
    requires Seeking(s, c) && Stands(s, c.i, x)
    requires (x == [110, 117, 108, 108] && kind == Null) || (x == [116, 114, 117, 101] && kind == Bool(true))
             || (x == [102, 97, 108, 115, 101] && kind == Bool(false))
    ensures Step(true, s, c) == Prefix([New(kind)], Finish(NewValue(c, kind), c.i + |x|))
  {
    hide Finish;
    hide StringStep;
    hide DigitStep;
    hide ObjectStep;
    hide NumberStep;
    StandsAt(s, c.i, x, 0);
    forall k | 0 <= k < |x| - 1 ensures Ch(s, c.i + 1 + k) == x[1..][k] { StandsAt(s, c.i, x, k + 1); }
    assert LiteralStep(s, c, x[1..], kind) == Prefix([New(kind)], Finish(NewValue(c, kind), c.i + |x|));
  }

  // Numbers.

  /** Reading goes on to the end of the number at j. */
  ghost predicate NumberEnds(s: seq<byte>, c: Ctl, j: nat)
    requires Inv(s, c) && c.stack != []
  {
    var o := Finish(c, j);
    (o.Go? ==> Inv(s, o.c)) && Run(true, s, c) == Onward(true, s, o)
  }

  /** One character of the number. */
  lemma {:induction false} NumberChar(s: seq<byte>, c: Ctl, d: Ctl, j: nat)
    requires Inv(s, c) && InNumber(c) && Step(true, s, c) == Go(d, []) && d == c.(i := d.i, num := d.num)
    ensures Inv(s, d) && InNumber(d) && Run(true, s, c) == Run(true, s, d)
    ensures NumberEnds(s, d, j) ==> NumberEnds(s, c, j)
  {
    hide Run;
    hide Finish;
    hide Step;
    Turn(s, c);
    AfterNone(Run(true, s, d));
    FinishForgets(c, d, j);
  }

  /** A character that is no part of a number ends it. */
  lemma {:induction false} NumberStops(s: seq<byte>, c: Ctl)
    requires Inv(s, c) && InNumber(c) && !IsNumChar(Ch(s, c.i)) && (c.num.dbl || c.num.e ==> c.num.digits > 0)
    ensures NumberEnds(s, c, c.i)
  {
    hide Run;
    hide Finish;
    RunOnward(s, c);
    assert Step(true, s, c) == Finish(c, c.i);
  }

  /** Digits of any part of a number. */
  function TakeDigit(n: NumState, b: byte): NumState {
    if n.e then n.(digits := n.digits + 1, sign := true)
    else if n.dbl then n.(digits := n.digits + 1)
    else n.(digits := n.digits + 1, zero := n.digits == 0 && b == 48)
  }

  function TakeDigits(n: NumState, ds: seq<byte>): NumState
    decreases |ds|
  {
    if ds == [] then n else TakeDigits(TakeDigit(n, ds[0]), ds[1..])
  }

  lemma {:induction false} DigitsShape(n: NumState, ds: seq<byte>)
    ensures var m := TakeDigits(n, ds);
            m.e == n.e && m.dbl == n.dbl && m.digits == n.digits + |ds| && (n.dbl ==> m.zero == n.zero)
    decreases |ds|
  {
    if ds != [] { DigitsShape(TakeDigit(n, ds[0]), ds[1..]); }
  }

  lemma {:induction false} ReadDigits(s: seq<byte>, c: Ctl, ds: seq<byte>, j: nat)
    requires Inv(s, c) && InNumber(c) && Stands(s, c.i, ds) && AllDigits(ds)
    requires c.num.e || c.num.dbl
             || ((c.num.zero ==> ds == []) && (c.num.digits == 0 && ds != [] && ds[0] == 48 ==> |ds| == 1))
    ensures var d := c.(i := c.i + |ds|, num := TakeDigits(c.num, ds));
            && Inv(s, d) && InNumber(d) && Run(true, s, c) == Run(true, s, d)
            && (NumberEnds(s, d, j) ==> NumberEnds(s, c, j))
    decreases |ds|
  {
    hide NumberEnds;
    hide Run;
    hide Inv;
    hide Stands;
    hide Step;
    if ds != [] {
      StandsAt(s, c.i, ds, 0);
      assert ds == [ds[0]] + ds[1..];
      StandsSplit(s, c.i, [ds[0]], ds[1..]);
      var d := c.(i := c.i + 1, num := TakeDigit(c.num, ds[0]));
      DigitTurn(s, c);
      NumberChar(s, c, d, j);
      ReadDigits(s, d, ds[1..], j);
    }
  }

  lemma {:induction false} DigitTurn(s: seq<byte>, c: Ctl)
    requires InNumber(c) && IsDigit(Ch(s, c.i)) && (c.num.zero ==> c.num.e || c.num.dbl)
    ensures Step(true, s, c) == Go(c.(i := c.i + 1, num := TakeDigit(c.num, Ch(s, c.i))), [])
  {
    hide Finish;
  }

  /** The exponent behind its letter, and the end. */
  lemma {:induction false} ReadSigned(s: seq<byte>, d: Ctl, sign: seq<byte>, ds: seq<byte>, j: nat)
    requires Inv(s, d) && InNumber(d) && d.num.e && !d.num.sign && Stands(s, d.i, sign) && Stands(s, d.i + |sign|, ds)
    requires (sign == [] || sign == [43] || sign == [45]) && ds != [] && AllDigits(ds)
    requires j == d.i + |sign| + |ds| && !IsNumChar(Ch(s, j))
    ensures NumberEnds(s, d, j)
  {
    hide Stands;
    hide NumberEnds;
    hide Inv;
    hide InNumber;
    hide AllDigits;
    hide Step;
    hide TakeDigits;
    hide IsNumChar;
    if sign == [] {
      ReadDigits(s, d, ds, j);
      DigitsShape(d.num, ds);
      NumberStops(s, d.(i := j, num := TakeDigits(d.num, ds)));
    } else {
      StandsAt(s, d.i, sign, 0);
      var f := d.(i := d.i + 1, num := d.num.(sign := true));
      SignTurn(s, d);
      NumberChar(s, d, f, j);
      ReadDigits(s, f, ds, j);
      DigitsShape(f.num, ds);
      NumberStops(s, f.(i := j, num := TakeDigits(f.num, ds)));
    }
  }

  /** The exponent with its letter. */
  lemma {:induction false} ReadPower(s: seq<byte>, c: Ctl, b: byte, sign: seq<byte>, ds: seq<byte>, j: nat)
    requires Inv(s, c) && InNumber(c) && !c.num.e && !c.num.sign && (c.num.dbl ==> c.num.digits > 0)
    requires (b == 101 || b == 69) && Stands(s, c.i, [b]) && Stands(s, c.i + 1, sign) && Stands(s, c.i + 1 + |sign|, ds)
    requires (sign == [] || sign == [43] || sign == [45]) && ds != [] && AllDigits(ds)
    requires j == c.i + 1 + |sign| + |ds| && !IsNumChar(Ch(s, j))
    ensures NumberEnds(s, c, j)
  {
    hide NumberEnds;
    hide Inv;
    hide InNumber;
    hide AllDigits;
    hide Step;
    hide IsNumChar;
    hide Stands;
    StandsAt(s, c.i, [b], 0);
    var d := c.(i := c.i + 1, num := c.num.(e := true, dbl := true, digits := 0, zero := false));
    ExponentTurn(s, c);
    NumberChar(s, c, d, j);
    ReadSigned(s, d, sign, ds, j);
  }

  /** The exponent, or none, and the end. */
  lemma {:induction false} ReadExponent(s: seq<byte>, c: Ctl, e: Exponent)
    requires Inv(s, c) && InNumber(c) && !c.num.e && !c.num.sign && (c.num.dbl ==> c.num.digits > 0)
    requires Stands(s, c.i, PrintExponent(e)) && ExponentOk(e) && !IsNumChar(Ch(s, c.i + |PrintExponent(e)|))
    ensures NumberEnds(s, c, c.i + |PrintExponent(e)|)
  {
    hide NumberEnds;
    hide Inv;
    hide InNumber;
    hide AllDigits;
    hide IsNumChar;
    hide Stands;
    if e.NoExponent? {
      NumberStops(s, c);
    } else {
      StandsSplit(s, c.i, [e.letter], e.sign + e.digits);
      StandsSplit(s, c.i + 1, e.sign, e.digits);
      ReadPower(s, c, e.letter, e.sign, e.digits, c.i + |PrintExponent(e)|);
    }
  }

  lemma {:induction false} ExponentTurn(s: seq<byte>, c: Ctl)
    requires InNumber(c) && (Ch(s, c.i) == 101 || Ch(s, c.i) == 69) && !c.num.e && (c.num.dbl ==> c.num.digits > 0)
    ensures Step(true, s, c) ==
            Go(c.(i := c.i + 1, num := c.num.(e := true, dbl := true, digits := 0, zero := false)), [])
  {
    hide Finish;
  }

  lemma {:induction false} SignTurn(s: seq<byte>, c: Ctl)
    requires InNumber(c) && (Ch(s, c.i) == 43 || Ch(s, c.i) == 45) && c.num.e && !c.num.sign
    ensures Step(true, s, c) == Go(c.(i := c.i + 1, num := c.num.(sign := true)), [])
  {
    hide Finish;
  }

  lemma {:induction false} PointTurn(s: seq<byte>, c: Ctl)
    requires InNumber(c) && Ch(s, c.i) == 46 && !c.num.e && !c.num.dbl && c.num.digits > 0
    ensures Step(true, s, c) == Go(c.(i := c.i + 1, num := c.num.(dbl := true, digits := 0)), [])
  {
    hide Finish;
  }

  /** The fraction behind its point, and the rest. */
  lemma {:induction false} ReadPoint(s: seq<byte>, c: Ctl, ds: seq<byte>, e: Exponent, j: nat)
    requires Inv(s, c) && InNumber(c) && !c.num.e && !c.num.dbl && !c.num.sign && c.num.digits > 0
    requires Stands(s, c.i, [46]) && Stands(s, c.i + 1, ds) && Stands(s, c.i + 1 + |ds|, PrintExponent(e))
    requires ds != [] && AllDigits(ds) && ExponentOk(e) && j == c.i + 1 + |ds| + |PrintExponent(e)|
    requires !IsNumChar(Ch(s, j))
    ensures NumberEnds(s, c, j)
  {
    hide Stands;
    hide NumberEnds;
    hide Inv;
    hide InNumber;
    hide AllDigits;
    hide Step;
    hide TakeDigits;
    hide IsNumChar;
    hide ExponentOk;
    hide PrintExponent;
    StandsAt(s, c.i, [46], 0);
    var d := c.(i := c.i + 1, num := c.num.(dbl := true, digits := 0));
    PointTurn(s, c);
    NumberChar(s, c, d, j);
    ReadDigits(s, d, ds, j);
    DigitsShape(d.num, ds);
    FractionUnsigned(d.num, ds);
    ReadExponent(s, d.(i := d.i + |ds|, num := TakeDigits(d.num, ds)), e);
  }

  /** The fraction, or none, and the rest. */
  lemma {:induction false} ReadFraction(s: seq<byte>, c: Ctl, ds: seq<byte>, e: Exponent, j: nat)
    requires Inv(s, c) && InNumber(c) && !c.num.e && !c.num.dbl && !c.num.sign && (ds != [] ==> c.num.digits > 0)
    requires AllDigits(ds) && ExponentOk(e) && j == c.i + |PrintFraction(ds)| + |PrintExponent(e)|
    requires Stands(s, c.i, PrintFraction(ds)) && Stands(s, c.i + |PrintFraction(ds)|, PrintExponent(e))
             && !IsNumChar(Ch(s, j))
    ensures NumberEnds(s, c, j)
  {
    hide Stands;
    hide NumberEnds;
    hide Inv;
    hide InNumber;
    hide AllDigits;
    hide IsNumChar;
    hide ExponentOk;
    hide PrintExponent;
    if ds == [] {
      ReadExponent(s, c, e);
    } else {
      StandsSplit(s, c.i, [46], ds);
      ReadPoint(s, c, ds, e, j);
    }
  }

  lemma {:induction false} FractionUnsigned(n: NumState, ds: seq<byte>)
    requires !n.e
    ensures TakeDigits(n, ds).sign == n.sign
    decreases |ds|
  {
    if ds != [] { FractionUnsigned(TakeDigit(n, ds[0]), ds[1..]); }
  }

  /** A number behind its sign. */
  lemma {:induction false} ReadUnsigned(s: seq<byte>, d: Ctl, n: Decimal, j: nat)
    requires Inv(s, d) && InNumber(d) && d.num == NO_NUM.(neg := d.num.neg) && NumberOk(n)
    requires Stands(s, d.i, n.whole + (PrintFraction(n.fraction) + PrintExponent(n.exponent)))
    requires j == d.i + |n.whole + (PrintFraction(n.fraction) + PrintExponent(n.exponent))| && !IsNumChar(Ch(s, j))
    ensures NumberEnds(s, d, j)
  {
    hide Stands;
    hide NumberEnds;
    hide Inv;
    hide InNumber;
    hide AllDigits;
    hide TakeDigits;
    hide IsNumChar;
    hide ExponentOk;
    hide PrintFraction;
    hide PrintExponent;
    StandsSplit(s, d.i, n.whole, PrintFraction(n.fraction) + PrintExponent(n.exponent));
    StandsSplit(s, d.i + |n.whole|, PrintFraction(n.fraction), PrintExponent(n.exponent));
    ReadDigits(s, d, n.whole, j);
    DigitsShape(d.num, n.whole);
    FractionUnsigned(d.num, n.whole);
    ReadFraction(s, d.(i := d.i + |n.whole|, num := TakeDigits(d.num, n.whole)), n.fraction, n.exponent, j);
  }

  lemma {:induction false} ReadNumber(s: seq<byte>, c: Ctl, n: Decimal) returns (d: Ctl)
    requires Seeking(s, c) && NumberOk(n) && Stands(s, c.i, PrintNumber(n)) && !IsNumChar(Ch(s, c.i + |PrintNumber(n)|))
    ensures Closing(c.stack, d) && Leads(s, c, [New(Num)], d, c.i + |PrintNumber(n)|)
  {
    hide Run;
    hide Finish;
    hide Step;
    hide PrintFraction;
    hide PrintExponent;
    hide ExponentOk;
    hide Inv;
    var sign := if n.neg then [45] else [];
    StandsSplit(s, c.i, sign, n.whole + (PrintFraction(n.fraction) + PrintExponent(n.exponent)));
    StandsAt(s, c.i, PrintNumber(n), 0);
    NumberEntry(s, c);
    Turn(s, c);
    d := Step(true, s, c).c;
    NumberTurn(s, c);
    ReadUnsigned(s, d, n, c.i + |PrintNumber(n)|);
  }

  lemma {:induction false} NumberTurn(s: seq<byte>, c: Ctl)
    requires NumberAt(s, c)
    ensures Step(true, s, c) ==
            Go(NewValue(c, Num).(i := c.i + (if Ch(s, c.i) == 45 then 1 else 0),
                                 num := NO_NUM.(neg := Ch(s, c.i) == 45)), [New(Num)])
  {
  }

  /** The closing quote of a string value. */
  lemma {:induction false} TextEnds(s: seq<byte>, b: Ctl)
    requires Inv(s, b) && b.inStr && !b.esc && Top(b).kind.Str? && b.strLen <= UINT_LIMIT && Ch(s, b.i) == 34
    ensures var d := b.(inStr := false);
            Closing(b.stack[..|b.stack| - 1], d) && Leads(s, b, [CloseStr], d, b.i + 1)
  {
    hide Run;
    hide Finish;
    hide Step;
    var d := b.(inStr := false);
    QuoteEnds(s, b);
    RunOnward(s, b);
    FinishSound(s, d, b.i + 1, b);
    OnwardPrefix(s, [CloseStr], Finish(d, b.i + 1));
  }

  lemma {:induction false} ReadText(s: seq<byte>, c: Ctl, w: seq<Piece>) returns (d: Ctl)
    requires Seeking(s, c) && PiecesOk(w) && Stands(s, c.i, [34] + (Spelled(w) + [34]))
    ensures Closing(c.stack, d) && Leads(s, c, [New(Str)] + (Adds(w) + [CloseStr]), d, c.i + 2 + |Spelled(w)|)
  {
    hide Run;
    hide Inv;
    hide Finish;
    hide Step;
    hide Leads;
    hide Spelled;
    hide Meant;
    hide Adds;
    var j := c.i + 1 + |Spelled(w)|;
    StandsSplit(s, c.i, [34], Spelled(w) + [34]);
    StandsSplit(s, c.i + 1, Spelled(w), [34]);
    StandsAt(s, c.i, [34], 0);
    StandsAt(s, j, [34], 0);
    QuoteTurn(s, c);
    Turn(s, c);
    var a := NewValue(c, Str).(i := c.i + 1, inStr := true, strLen := 0);
    ReadChars(s, a, w);
    var b := a.(i := j, strLen := |Meant(w)|);
    TextEnds(s, b);
    d := b.(inStr := false);
    LeadsOn(s, a, Adds(w), b, [CloseStr], d, j + 1);
    LeadsOn(s, c, [New(Str)], a, Adds(w) + [CloseStr], d, j + 1);
    assert b.stack[..|b.stack| - 1] == c.stack;
  }

  lemma {:induction false} QuoteTurn(s: seq<byte>, c: Ctl)
    requires Seeking(s, c) && Ch(s, c.i) == 34
    ensures Step(true, s, c) == Go(NewValue(c, Str).(i := c.i + 1, inStr := true, strLen := 0), [New(Str)])
  {
  }

  lemma {:induction false} QuoteEnds(s: seq<byte>, b: Ctl)
    requires b.inStr && !b.esc && b.stack != [] && b.strLen <= UINT_LIMIT && Ch(s, b.i) == 34
    ensures Top(b).kind.Str? ==> Step(true, s, b) == Prefix([CloseStr], Finish(b.(inStr := false), b.i + 1))
    ensures Top(b).kind.Obj? ==>
            Step(true, s, b) == Go(b.(i := b.i + 1, inStr := false, seek := true, colon := true), [CloseKey])
  {
    hide Finish;
  }

  /** The turn after an element of an array or object: the state the parent goes on
      with. */
  function Resumed(d: Ctl, j: nat): Ctl
    requires |d.stack| >= 2
  {
    var n := |d.stack|;
    var p := d.stack[n - 2];
    d.(i := j, comma := true, num := NO_NUM, seek := p.kind.Arr?,
       stack := d.stack[..n - 2] + [p.(length := p.length + 1)])
  }

  lemma {:induction false} ElementEnds(s: seq<byte>, c: Ctl, ev: seq<Event>, d: Ctl, j: nat)
    requires Seeking(s, c) && c.stack != [] && Closing(c.stack, d) && c.i < j <= |s| && Leads(s, c, ev, d, j)
    ensures var e := Resumed(d, j);
            Inv(s, e) && Small(e.stack, j) && Run(true, s, c) == After(ev + [Pop], Run(true, s, e))
    ensures Resumed(d, j).stack == c.stack[..|c.stack| - 1] + [Top(c).(length := Top(c).length + 1)]
  {
    hide Run;
    var e, n := Resumed(d, j), |d.stack|;
    assert d.stack[n - 2] == d.stack[..n - 1][n - 2] == Top(c);
    assert d.stack[..n - 2] == d.stack[..n - 1][..n - 2] == c.stack[..|c.stack| - 1];
    assert Top(c).length + 1 <= j;
    assert Finish(d, j) == Go(e, [Pop]);
    AfterTwice(ev, [Pop], Run(true, s, e));
    forall k | 0 <= k < |e.stack| ensures e.stack[k].length <= j {
      if k < |e.stack| - 1 { assert e.stack[k] == c.stack[k]; }
    }
  }

  lemma {:induction false} BracketTurn(s: seq<byte>, c: Ctl)
    requires Seeking(s, c)
    ensures Ch(s, c.i) == 91 ==> Step(true, s, c) == Go(NewValue(c, Arr).(i := c.i + 1, seek := true), [New(Arr)])
    ensures Ch(s, c.i) == 123 ==> Step(true, s, c) == Go(NewValue(c, Obj).(i := c.i + 1), [New(Obj)])
  {
  }

  /** Between the elements of an array. */
  lemma {:induction false} ArrayTurn(s: seq<byte>, e: Ctl)
    requires Inv(s, e) && e.seek && e.stack != [] && Top(e).kind.Arr?
    ensures Ch(s, e.i) == 93 ==> Step(true, s, e) == Finish(e.(comma := false, seek := false), e.i + 1)
    ensures Ch(s, e.i) == 44 && e.comma ==> Step(true, s, e) == Go(e.(i := e.i + 1, comma := false), [])
  {
    hide Finish;
  }

  /** The closing bracket. */
  lemma {:induction false} ArrayEnds(s: seq<byte>, e: Ctl)
    requires Inv(s, e) && e.seek && e.stack != [] && Top(e).kind.Arr? && Ch(s, e.i) == 93
    ensures var d := e.(comma := false, seek := false);
            Closing(e.stack[..|e.stack| - 1], d) && Leads(s, e, [], d, e.i + 1)
  {
    hide Run;
    hide Finish;
    hide Step;
    ArrayTurn(s, e);
    RunOnward(s, e);
    AfterNone(Run(true, s, e));
  }

  /** White space, commas and closing brackets are no part of a number. */
  lemma {:induction false} NotNumber(s: seq<byte>, i: nat, w: Ws, x: seq<byte>)
    requires x != [] && Stands(s, i, w + x)
    requires x[0] == 32 || x[0] == 9 || x[0] == 10 || x[0] == 13 || x[0] == 44 || x[0] == 93 || x[0] == 125
    ensures !IsNumChar(Ch(s, i))
  {
    StandsAt(s, i, w + x, 0);
  }

  /** From one reading to the reading of what follows it. */
  lemma {:induction false} LeadsOn(s: seq<byte>, c: Ctl, ev: seq<Event>, e: Ctl, ev': seq<Event>, d: Ctl, j: nat)
    requires Inv(s, c) && Inv(s, e) && Run(true, s, c) == After(ev, Run(true, s, e)) && Leads(s, e, ev', d, j)
    ensures Leads(s, c, ev + ev', d, j)
  {
    hide Run;
    hide Finish;
    AfterTwice(ev, ev', Onward(true, s, Finish(d, j)));
  }

  /** Skipping white space does not change where reading leads. */
  lemma {:induction false} LeadsSpaced(s: seq<byte>, c: Ctl, w: Ws, ev: seq<Event>, d: Ctl, j: nat)
    requires Inv(s, c) && Between(c) && Stands(s, c.i, w)
    ensures var e := c.(i := c.i + |w|); Inv(s, e) && (Leads(s, e, ev, d, j) ==> Leads(s, c, ev, d, j))
  {
    hide Run;
    hide Finish;
    SkipSpace(s, c, w);
  }

  /** Behind an element of an array. */
  ghost predicate InArray(s: seq<byte>, e: Ctl) {
    && Inv(s, e) && e.seek && !e.colon && !e.inStr && !e.esc && !e.done && e.stack != [] && Top(e).kind.Arr?
    && |s| <= UINT_LIMIT && Small(e.stack, e.i)
  }

  lemma {:induction false} ReadItems(s: seq<byte>, e: Ctl, items: Items) returns (d: Ctl)
    requires ItemsOk(items) && InArray(s, e) && e.comma && Stands(s, e.i, PrintItems(items))
    ensures Closing(e.stack[..|e.stack| - 1], d) && Leads(s, e, ItemEvents(items), d, e.i + |PrintItems(items)|)
    decreases items, 3
  {
    hide Stands;
    hide Run;
    hide Inv;
    hide Finish;
    hide Step;
    hide Leads;
    hide PrintFirst;
    if items.NoItems? && !items.comma {
      d := ReadClosing(s, e, items);
    } else {
      var x := PrintFirst(items);
      StandsSplit(s, e.i, [44], x);
      StandsAt(s, e.i, [44], 0);
      ArrayTurn(s, e);
      Turn(s, e);
      var c := e.(i := e.i + 1, comma := false);
      d := ReadFirst(s, c, items);
      LeadsOn(s, e, [], c, ItemEvents(items), d, e.i + 1 + |x|);
      assert [] + ItemEvents(items) == ItemEvents(items);
    }
  }

  /** The end of an array. */
  lemma {:induction false} ReadClosing(s: seq<byte>, e: Ctl, items: Items) returns (d: Ctl)
    requires items.NoItems? && InArray(s, e) && Stands(s, e.i, PrintFirst(items))
    ensures Closing(e.stack[..|e.stack| - 1], d) && Leads(s, e, [], d, e.i + |PrintFirst(items)|)
  {
    hide Stands;
    hide Run;
    hide Inv;
    hide Finish;
    hide Step;
    hide Leads;
    hide Small;
    StandsSplit(s, e.i, items.gap, [93]);
    var f := e.(i := e.i + |items.gap|);
    StandsAt(s, f.i, [93], 0);
    SkipSpace(s, e, items.gap);
    ArrayEnds(s, f);
    d := f.(comma := false, seek := false);
    LeadsSpaced(s, e, items.gap, [], d, f.i + 1);
  }

  /** From the opening bracket or a comma on. */
  lemma {:induction false} ReadFirst(s: seq<byte>, c: Ctl, items: Items) returns (d: Ctl)
    requires ItemsOk(items) && InArray(s, c) && !c.comma && Stands(s, c.i, PrintFirst(items))
    ensures Closing(c.stack[..|c.stack| - 1], d) && Leads(s, c, ItemEvents(items), d, c.i + |PrintFirst(items)|)
    decreases items, 2
  {
    hide Stands;
    hide Run;
    hide Inv;
    hide Finish;
    hide Step;
    hide Leads;
    if items.NoItems? {
      d := ReadClosing(s, c, items);
    } else {
      var x := Print(items.first) + (items.after + PrintItems(items.rest));
      StandsSplit(s, c.i, items.gap, x);
      SkipSpace(s, c, items.gap);
      var f := c.(i := c.i + |items.gap|);
      d := ReadElements(s, f, items, x);
      LeadsSpaced(s, c, items.gap, ItemEvents(items), d, f.i + |x|);
    }
  }

  /** The elements of an array, the next one first. */
  lemma {:induction false} ReadElements(s: seq<byte>, c: Ctl, items: Items, z: seq<byte>) returns (d: Ctl)
    requires items.Item? && ItemsOk(items) && Seeking(s, c) && c.stack != [] && Top(c).kind.Arr?
    requires z == Print(items.first) + (items.after + PrintItems(items.rest)) && Stands(s, c.i, z)
    ensures Closing(c.stack[..|c.stack| - 1], d) && Leads(s, c, ItemEvents(items), d, c.i + |z|)
    decreases items, 1
  {
    hide Stands;
    hide Run;
    hide Inv;
    hide Finish;
    hide Step;
    hide Leads;
    hide Small;
    hide IsNumChar;
    hide Print;
    hide PrintItems;
    var x, y := Print(items.first), PrintItems(items.rest);
    StandsSplit(s, c.i, x, items.after + y);
    ItemsTail(items.rest);
    NotNumber(s, c.i + |x|, items.after, y);
    var d1 := ReadValue(s, c, items.first);
    StandsSplit(s, c.i + |x|, items.after, y);
    var f := BehindElement(s, c, Events(items.first), d1, c.i + |x|, items.after);
    d := ReadItems(s, f, items.rest);
    LeadsOn(s, c, Events(items.first) + [Pop], f, ItemEvents(items.rest), d, f.i + |y|);
    assert (Events(items.first) + [Pop]) + ItemEvents(items.rest) == ItemEvents(items);
  }

  lemma {:induction false} SmallLater(stack: seq<Open>, i: nat, j: nat)
    requires Small(stack, i) && i <= j
    ensures Small(stack, j)
  {
  }

  lemma {:induction false} ItemsTail(items: Items)
    requires ItemsOk(items)
    ensures var b := PrintItems(items)[0]; b == 44 || b == 93 || b == 32 || b == 9 || b == 10 || b == 13
  {
    if items.NoItems? && !items.comma && items.gap != [] { assert PrintItems(items)[0] == items.gap[0]; }
  }

  lemma {:induction false} LastOpen(base: seq<Open>, o: Open)
    ensures var t := base + [o]; t[..|t| - 1] == base && t[|t| - 1] == o
  {
  }

  lemma {:induction false} ReadArray(s: seq<byte>, c: Ctl, items: Items) returns (d: Ctl)
    requires ItemsOk(items) && Seeking(s, c) && Stands(s, c.i, [91] + PrintFirst(items))
    ensures Closing(c.stack, d) && Leads(s, c, [New(Arr)] + ItemEvents(items), d, c.i + 1 + |PrintFirst(items)|)
    decreases items, 4
  {
    hide Stands;
    hide Run;
    hide Inv;
    hide Finish;
    hide Step;
    hide Leads;
    hide PrintFirst;
    StandsSplit(s, c.i, [91], PrintFirst(items));
    StandsAt(s, c.i, [91], 0);
    BracketTurn(s, c);
    Turn(s, c);
    var a := NewValue(c, Arr).(i := c.i + 1, seek := true);
    assert a.stack[..|a.stack| - 1] == c.stack;
    d := ReadFirst(s, a, items);
    LeadsOn(s, c, [New(Arr)], a, ItemEvents(items), d, c.i + 1 + |PrintFirst(items)|);
  }

  /** Every printed value is read as that value. */
  lemma {:induction false} ReadValue(s: seq<byte>, c: Ctl, v: Value) returns (d: Ctl)
    requires ValueOk(v) && Seeking(s, c) && Stands(s, c.i, Print(v)) && !IsNumChar(Ch(s, c.i + |Print(v)|))
    ensures Closing(c.stack, d) && Leads(s, c, Events(v), d, c.i + |Print(v)|)
    decreases v, 5
  {
    hide Run;
    hide Finish;
    hide Leads;
    hide Stands;
    hide Seeking;
    hide Small;
    hide IsNumChar;
    hide NumberOk;
    hide PiecesOk;
    hide ItemsOk;
    hide MembersOk;
    hide PrintNumber;
    hide PrintFirst;
    hide PrintFirstMember;
    hide Spelled;
    hide ItemEvents;
    hide MemberEvents;
    hide Adds;
    match v
    case Number(n) => d := ReadNumber(s, c, n);
    case Text(w) => d := ReadText(s, c, w);
    case Array(items) => d := ReadArray(s, c, items);
    case Object(ms) => d := ReadObject(s, c, ms);
    case _ =>
      ReadLiteral(s, c, v);
      d := NewValue(c, if v.Nil? then Null else Bool(v.Yes?));
  }

  // Objects.

  lemma {:induction false} ObjectTurn(s: seq<byte>, o: Ctl)
    requires Inv(s, o) && !o.inStr && !o.done && !o.seek && o.stack != [] && Top(o).kind.Obj?
    ensures Ch(s, o.i) == 34 && !o.comma ==> Step(true, s, o) == Go(o.(i := o.i + 1, inStr := true, strLen := 0), [Key])
    ensures Ch(s, o.i) == 44 && o.comma ==> Step(true, s, o) == Go(o.(i := o.i + 1, comma := false), [])
    ensures Ch(s, o.i) == 125 ==> Step(true, s, o) == Finish(o.(comma := false), o.i + 1)
  {
    hide Finish;
  }

  lemma {:induction false} ColonTurn(s: seq<byte>, c: Ctl)
    requires Inv(s, c) && c.seek && c.colon && !c.comma && Ch(s, c.i) == 58
    ensures Step(true, s, c) == Go(c.(i := c.i + 1, colon := false), [])
  {
  }

  lemma {:induction false} ObjectEnds(s: seq<byte>, o: Ctl)
    requires Inv(s, o) && !o.inStr && !o.done && !o.seek && o.stack != [] && Top(o).kind.Obj? && Ch(s, o.i) == 125
    ensures var d := o.(comma := false); Closing(o.stack[..|o.stack| - 1], d) && Leads(s, o, [], d, o.i + 1)
  {
    hide Run;
    hide Finish;
    hide Step;
    ObjectTurn(s, o);
    RunOnward(s, o);
    AfterNone(Run(true, s, o));
  }

  /** Between the members of an object. */
  ghost predicate InObject(s: seq<byte>, o: Ctl) {
    && Inv(s, o) && !o.inStr && !o.esc && !o.colon && !o.done && !o.seek && o.stack != [] && Top(o).kind.Obj?
    && |s| <= UINT_LIMIT && Small(o.stack, o.i)
  }

  /** The name of a member and the colon. */
  lemma {:induction false} ReadName(s: seq<byte>, o: Ctl, name: seq<Piece>, before: Ws) returns (c: Ctl)
    requires InObject(s, o) && !o.comma && PiecesOk(name) && Stands(s, o.i, PrintName(name, before))
    ensures Seeking(s, c) && c.stack == o.stack && c.i == o.i + |PrintName(name, before)|
    ensures Run(true, s, o) == After([Key] + (Adds(name) + [CloseKey]), Run(true, s, c))
  {
    hide Run;
    hide Inv;
    hide Finish;
    hide Step;
    hide Spelled;
    hide Meant;
    hide Adds;
    hide Stands;
    var tail := [34] + (before + [58]);
    StandsSplit(s, o.i, [34], Spelled(name) + tail);
    StandsSplit(s, o.i + 1, Spelled(name), tail);
    StandsAt(s, o.i, [34], 0);
    var j := o.i + 1 + |Spelled(name)|;
    ObjectTurn(s, o);
    Turn(s, o);
    var a := o.(i := o.i + 1, inStr := true, strLen := 0);
    ReadChars(s, a, name);
    var b := a.(i := j, strLen := |Meant(name)|);
    c := NameEnds(s, b, before);
    SmallLater(o.stack, o.i, c.i);
    AfterTwice(Adds(name), [CloseKey], Run(true, s, c));
    AfterTwice([Key], Adds(name) + [CloseKey], Run(true, s, c));
  }

  /** The closing quote of a member name, and the colon. */
  lemma {:induction false} NameEnds(s: seq<byte>, b: Ctl, before: Ws) returns (c: Ctl)
    requires Inv(s, b) && b.inStr && !b.esc && Top(b).kind.Obj? && b.strLen <= UINT_LIMIT
    requires Stands(s, b.i, [34] + (before + [58]))
    ensures c == b.(i := b.i + 2 + |before|, inStr := false, seek := true)
    ensures Inv(s, c) && Run(true, s, b) == After([CloseKey], Run(true, s, c))
  {
    hide Run;
    hide Step;
    hide Stands;
    StandsSplit(s, b.i, [34], before + [58]);
    StandsSplit(s, b.i + 1, before, [58]);
    StandsAt(s, b.i, [34], 0);
    StandsAt(s, b.i + 1 + |before|, [58], 0);
    QuoteEnds(s, b);
    Turn(s, b);
    var e := b.(i := b.i + 1, inStr := false, seek := true, colon := true);
    SkipSpace(s, e, before);
    var f := e.(i := e.i + |before|);
    ColonTurn(s, f);
    Turn(s, f);
    c := f.(i := f.i + 1, colon := false);
    AfterNone(Run(true, s, c));
  }

  lemma {:induction false} ReadMembers(s: seq<byte>, o: Ctl, ms: Members) returns (d: Ctl)
    requires MembersOk(ms) && InObject(s, o) && o.comma && Stands(s, o.i, PrintMembers(ms))
    ensures Closing(o.stack[..|o.stack| - 1], d) && Leads(s, o, MemberEvents(ms), d, o.i + |PrintMembers(ms)|)
    decreases ms, 3
  {
    hide Stands;
    hide Run;
    hide Inv;
    hide Finish;
    hide Step;
    hide Leads;
    hide PrintFirstMember;
    if ms.NoMembers? && !ms.comma {
      d := ReadBrace(s, o, ms);
    } else {
      var x := PrintFirstMember(ms);
      StandsSplit(s, o.i, [44], x);
      StandsAt(s, o.i, [44], 0);
      ObjectTurn(s, o);
      Turn(s, o);
      var c := o.(i := o.i + 1, comma := false);
      d := ReadFirstMember(s, c, ms);
      LeadsOn(s, o, [], c, MemberEvents(ms), d, o.i + 1 + |x|);
      assert [] + MemberEvents(ms) == MemberEvents(ms);
    }
  }

  /** The end of an object. */
  lemma {:induction false} ReadBrace(s: seq<byte>, o: Ctl, ms: Members) returns (d: Ctl)
    requires ms.NoMembers? && InObject(s, o) && Stands(s, o.i, PrintFirstMember(ms))
    ensures Closing(o.stack[..|o.stack| - 1], d) && Leads(s, o, [], d, o.i + |PrintFirstMember(ms)|)
  {
    hide Stands;
    hide Run;
    hide Inv;
    hide Finish;
    hide Step;
    hide Leads;
    hide Small;
    StandsSplit(s, o.i, ms.gap, [125]);
    var f := o.(i := o.i + |ms.gap|);
    StandsAt(s, f.i, [125], 0);
    SkipSpace(s, o, ms.gap);
    ObjectEnds(s, f);
    d := f.(comma := false);
    LeadsSpaced(s, o, ms.gap, [], d, f.i + 1);
  }

  /** From the opening brace or a comma on. */
  lemma {:induction false} ReadFirstMember(s: seq<byte>, o: Ctl, ms: Members) returns (d: Ctl)
    requires MembersOk(ms) && InObject(s, o) && !o.comma && Stands(s, o.i, PrintFirstMember(ms))
    ensures Closing(o.stack[..|o.stack| - 1], d) && Leads(s, o, MemberEvents(ms), d, o.i + |PrintFirstMember(ms)|)
    decreases ms, 2
  {
    hide Stands;
    hide Run;
    hide Inv;
    hide Finish;
    hide Step;
    hide Leads;
    hide Small;
    hide PrintName;
    if ms.NoMembers? {
      d := ReadBrace(s, o, ms);
    } else {
      var x := MemberText(ms);
      StandsSplit(s, o.i, ms.gap, x);
      SkipSpace(s, o, ms.gap);
      var f := o.(i := o.i + |ms.gap|);
      SmallLater(o.stack, o.i, f.i);
      d := ReadMember(s, f, ms);
      LeadsSpaced(s, o, ms.gap, MemberEvents(ms), d, f.i + |x|);
    }
  }

  function MemberText(ms: Members): seq<byte>
    requires ms.Member? && MembersOk(ms)
  {
    PrintName(ms.name, ms.before) + (ms.mid + (Print(ms.value) + (ms.after + PrintMembers(ms.rest))))
  }

  /** The members of an object, the next one first. */
  lemma {:induction false} ReadMember(s: seq<byte>, o: Ctl, ms: Members) returns (d: Ctl)
    requires ms.Member? && MembersOk(ms) && InObject(s, o) && !o.comma && Stands(s, o.i, MemberText(ms))
    ensures Closing(o.stack[..|o.stack| - 1], d) && Leads(s, o, MemberEvents(ms), d, o.i + |MemberText(ms)|)
    decreases ms, 1
  {
    hide Stands;
    hide Run;
    hide Inv;
    hide Finish;
    hide Step;
    hide Leads;
    hide Small;
    hide Print;
    hide PrintName;
    hide PrintMembers;
    hide Adds;
    hide Events;
    hide MemberEvents;
    var head, z := PrintName(ms.name, ms.before), Print(ms.value) + (ms.after + PrintMembers(ms.rest));
    StandsSplit(s, o.i, head, ms.mid + z);
    var c := ReadName(s, o, ms.name, ms.before);
    StandsSplit(s, c.i, ms.mid, z);
    SkipSpace(s, c, ms.mid);
    var f := c.(i := c.i + |ms.mid|);
    SmallLater(c.stack, c.i, f.i);
    d := ReadRest(s, f, ms, z);
    var ev := (Events(ms.value) + [Pop]) + MemberEvents(ms.rest);
    LeadsSpaced(s, c, ms.mid, ev, d, f.i + |z|);
    LeadsOn(s, o, [Key] + (Adds(ms.name) + [CloseKey]), c, ev, d, f.i + |z|);
    MemberEventsForm(ms);
  }

  /** From a member's value on. */
  lemma {:induction false} ReadRest(s: seq<byte>, c: Ctl, ms: Members, z: seq<byte>) returns (d: Ctl)
    requires ms.Member? && MembersOk(ms) && Seeking(s, c) && c.stack != [] && Top(c).kind.Obj?
    requires z == Print(ms.value) + (ms.after + PrintMembers(ms.rest)) && Stands(s, c.i, z)
    ensures Closing(c.stack[..|c.stack| - 1], d)
    ensures Leads(s, c, (Events(ms.value) + [Pop]) + MemberEvents(ms.rest), d, c.i + |z|)
    decreases ms, 0
  {
    hide Stands;
    hide Run;
    hide Inv;
    hide Finish;
    hide Step;
    hide Leads;
    hide Small;
    hide IsNumChar;
    hide Print;
    hide PrintMembers;
    hide Events;
    hide MemberEvents;
    var x, y := Print(ms.value), PrintMembers(ms.rest);
    StandsSplit(s, c.i, x, ms.after + y);
    MembersTail(ms.rest);
    NotNumber(s, c.i + |x|, ms.after, y);
    var d1 := ReadValue(s, c, ms.value);
    StandsSplit(s, c.i + |x|, ms.after, y);
    var f := BehindElement(s, c, Events(ms.value), d1, c.i + |x|, ms.after);
    d := ReadMembers(s, f, ms.rest);
    LeadsOn(s, c, Events(ms.value) + [Pop], f, MemberEvents(ms.rest), d, f.i + |y|);
  }

  /** The state behind an element and the white space that follows it. */
  lemma {:induction false} BehindElement(s: seq<byte>, c: Ctl, ev: seq<Event>, d: Ctl, j: nat, w: Ws) returns (f: Ctl)
    requires Seeking(s, c) && c.stack != [] && Closing(c.stack, d) && c.i < j <= |s| && Leads(s, c, ev, d, j)
    requires Stands(s, j, w) && Container(Top(c).kind)
    ensures f == Resumed(d, j).(i := j + |w|) && Inv(s, f) && Small(f.stack, f.i)
    ensures Run(true, s, c) == After(ev + [Pop], Run(true, s, f))
    ensures f.stack != [] && Top(f).kind == Top(c).kind && f.stack[..|f.stack| - 1] == c.stack[..|c.stack| - 1]
  {
    hide Stands;
    hide Run;
    hide Inv;
    hide Finish;
    hide Leads;
    hide Small;
    ElementEnds(s, c, ev, d, j);
    var e := Resumed(d, j);
    LastOpen(c.stack[..|c.stack| - 1], Top(c).(length := Top(c).length + 1));
    SkipSpace(s, e, w);
    f := e.(i := j + |w|);
    SmallLater(e.stack, j, f.i);
  }

  lemma {:induction false} MembersTail(ms: Members)
    requires MembersOk(ms)
    ensures var b := PrintMembers(ms)[0]; b == 44 || b == 125 || b == 32 || b == 9 || b == 10 || b == 13
  {
    if ms.NoMembers? && !ms.comma && ms.gap != [] { assert PrintMembers(ms)[0] == ms.gap[0]; }
  }

  lemma {:induction false} MemberEventsForm(ms: Members)
    requires ms.Member? && MembersOk(ms)
    ensures ([Key] + (Adds(ms.name) + [CloseKey])) + ((Events(ms.value) + [Pop]) + MemberEvents(ms.rest)) ==
            MemberEvents(ms)
  {
    hide Events;
    hide Adds;
  }

  lemma {:induction false} ReadObject(s: seq<byte>, c: Ctl, ms: Members) returns (d: Ctl)
    requires MembersOk(ms) && Seeking(s, c) && Stands(s, c.i, [123] + PrintFirstMember(ms))
    ensures Closing(c.stack, d) && Leads(s, c, [New(Obj)] + MemberEvents(ms), d, c.i + 1 + |PrintFirstMember(ms)|)
    decreases ms, 4
  {
    hide Stands;
    hide Run;
    hide Inv;
    hide Finish;
    hide Step;
    hide Leads;
    hide PrintFirstMember;
    StandsSplit(s, c.i, [123], PrintFirstMember(ms));
    StandsAt(s, c.i, [123], 0);
    BracketTurn(s, c);
    Turn(s, c);
    var o := NewValue(c, Obj).(i := c.i + 1);
    assert o.stack[..|o.stack| - 1] == c.stack;
    d := ReadFirstMember(s, o, ms);
    LeadsOn(s, c, [New(Obj)], o, MemberEvents(ms), d, c.i + 1 + |PrintFirstMember(ms)|);
  }

  // ---------- Whole texts ----------

  /** A text: a value with white space around it. What follows a NUL is not looked at. */
  datatype Document = Document(before: Ws, v: Value, after: Ws, tail: seq<byte>)

  predicate DocumentOk(t: Document) { ValueOk(t.v) && (t.tail == [] || t.tail[0] == 0) }

  function Written(t: Document): seq<byte>
    requires DocumentOk(t)
  {
    t.before + (Print(t.v) + (t.after + t.tail))
  }

  /** The parser accepts every written value, with any white space between its tokens and any
      spelling of its strings and numbers, and reads exactly that value: its storage events
      are those of the value, in order. */
  lemma {:induction false} PrintedIsRead(t: Document)
    requires DocumentOk(t) && |Written(t)| <= UINT_LIMIT
    ensures Inv(Written(t), START) && Run(true, Written(t), START) == Accepted(Events(t.v))
  {
    hide Print;
    hide Events;
    hide Stands;
    hide Run;
    var s, x, y := Written(t), Print(t.v), t.after + t.tail;
    StandsWhole(s);
    StandsSplit(s, 0, t.before, x + y);
    SkipSpace(s, START, t.before);
    var c := START.(i := |t.before|);
    StandsSplit(s, c.i, x, y);
    var j := c.i + |x|;
    BehindValue(s, j, t.after, t.tail);
    var d := ReadValue(s, c, t.v);
    StandsSplit(s, j, t.after, t.tail);
    ReadEnd(s, c, Events(t.v), d, j, t);
  }

  lemma {:induction false} StandsWhole(s: seq<byte>)
    ensures Stands(s, 0, s)
  {
    assert s[0..0 + |s|] == s;
  }

  lemma {:induction false} BehindValue(s: seq<byte>, j: nat, w: Ws, tail: seq<byte>)
    requires Stands(s, j, w + tail) && |s| == j + |w + tail| && (tail == [] || tail[0] == 0)
    ensures !IsNumChar(Ch(s, j)) && Ch(s, j + |w|) == 0
  {
    if w + tail != [] { StandsAt(s, j, w + tail, 0); }
    if tail != [] { StandsAt(s, j, w + tail, |w|); }
  }

  /** White space behind the value, and the end. */
  lemma {:induction false} ReadEnd(s: seq<byte>, c: Ctl, ev: seq<Event>, d: Ctl, j: nat, t: Document)
    requires Inv(s, c) && c.stack == [] && Closing([], d) && Leads(s, c, ev, d, j)
    requires Stands(s, j, t.after) && Ch(s, j + |t.after|) == 0
    ensures Run(true, s, c) == Accepted(ev)
  {
    hide Run;
    hide Stands;
    var e := d.(i := j, comma := true, num := NO_NUM, done := true);
    assert Finish(d, j) == Go(e, []);
    SkipSpace(s, e, t.after);
    AtEnd(s, e.(i := j + |t.after|));
    AfterNone(Run(true, s, e));
    assert ev + [] == ev;
  }

  lemma {:induction false} AtEnd(s: seq<byte>, c: Ctl)
    requires Inv(s, c) && c.done && Ch(s, c.i) == 0
    ensures Run(true, s, c) == Accepted([])
  {
  }
}
