/** json.c: the parser accepts written values and nothing else. From every accepted run the
    value that was written is recovered, with its white space and its spelling. */
module JsonGrammar {
  import opened Bytes
  import opened Json
  import opened JsonStore
  import opened JsonPrint
  import opened JsonRoundTrip

  // ---------- Accepted states ----------

  /** Reading on from here ends in acceptance. */
  ghost predicate Good(s: seq<byte>, c: Ctl) { Inv(s, c) && Run(true, s, c).Accepted? }

  lemma {:induction false} Goes(s: seq<byte>, c: Ctl)
    requires Good(s, c)
    ensures var o := Step(true, s, c); o.Accept? || (o.Go? && Good(s, o.c))
  {
    hide Step;
    RunOnward(s, c);
  }

  lemma {:induction false} GoodLeads(s: seq<byte>, c: Ctl, ev: seq<Event>, d: Ctl, j: nat)
    requires Good(s, c) && Leads(s, c, ev, d, j)
    ensures var o := Finish(d, j); o.Go? && Good(s, o.c)
  {
    hide Run;
  }

  lemma {:induction false} StandsJoin(s: seq<byte>, i: nat, x: seq<byte>, y: seq<byte>)
    requires Stands(s, i, x) && Stands(s, i + |x|, y)
    ensures Stands(s, i, x + y)
  {
    assert s[i..i + |x| + |y|] == s[i..i + |x|] + s[i + |x|..i + |x| + |y|];
  }

  lemma {:induction false} StandsOne(s: seq<byte>, i: nat, b: byte)
    requires Ch(s, i) == b && b != 0
    ensures Stands(s, i, [b])
  {
  }

  predicate Blank(b: byte) { b == 32 || b == 9 || b == 10 || b == 13 }

  lemma {:induction false} FindSpace(s: seq<byte>, i: nat) returns (w: Ws)
    requires i <= |s|
    ensures Stands(s, i, w) && !Blank(Ch(s, i + |w|))
    decreases |s| - i
  {
    w := [];
    if Blank(Ch(s, i)) {
      var v := FindSpace(s, i + 1);
      StandsOne(s, i, s[i]);
      StandsJoin(s, i, [s[i]], v);
      w := [s[i]] + v;
    }
  }

  // ---------- Strings ----------

  lemma {:induction false} FindPiece(s: seq<byte>, c: Ctl) returns (p: Piece)
    requires Good(s, c) && c.inStr && !c.esc && Ch(s, c.i) != 34
    ensures PieceOk(p) && Stands(s, c.i, Spell(p))
  {
    hide Run;
    Goes(s, c);
    StringGoes(s, c);
    var b := Ch(s, c.i);
    StandsOne(s, c.i, b);
    if b == 92 {
      BackslashTurn(s, c);
      p := FindEscape(s, c.(i := c.i + 1, esc := true));
    } else {
      p := Raw(b);
    }
  }

  lemma {:induction false} StringGoes(s: seq<byte>, c: Ctl)
    requires Inv(s, c) && c.inStr && (Step(true, s, c).Go? || Step(true, s, c).Accept?)
    ensures c.stack != [] && Ch(s, c.i) != 0 && c.strLen <= UINT_LIMIT
    ensures c.esc ==> Step(true, s, c) == EscapeStep(s, c, Ch(s, c.i))
  {
    hide Finish;
    hide EscapeStep;
  }

  lemma {:induction false} FindEscape(s: seq<byte>, e: Ctl) returns (p: Piece)
    requires Good(s, e) && e.inStr && e.esc && e.i >= 1 && Stands(s, e.i - 1, [92])
    ensures !p.Raw? && PieceOk(p) && Stands(s, e.i - 1, Spell(p))
  {
    hide Run;
    hide Step;
    hide Stands;
    hide EscapeStep;
    Goes(s, e);
    StringGoes(s, e);
    var b := Ch(s, e.i);
    StandsOne(s, e.i, b);
    if b == 117 {
      var h1, h2, h3, h4 := Ch(s, e.i + 1), Ch(s, e.i + 2), Ch(s, e.i + 3), Ch(s, e.i + 4);
      HexGoes(s, e);
      p := Hex(h1, h2, h3, h4);
      FourStand(s, e.i + 1);
      StandsJoin(s, e.i, [117], [h1, h2, h3, h4]);
      StandsJoin(s, e.i - 1, [92], [117] + [h1, h2, h3, h4]);
      assert [92] + ([117] + [h1, h2, h3, h4]) == Spell(p);
    } else {
      p := Escaped(b);
      StandsJoin(s, e.i - 1, [92], [b]);
      assert [92] + [b] == Spell(p);
    }
  }

  lemma {:induction false} FourStand(s: seq<byte>, i: nat)
    requires i + 4 <= |s|
    ensures Stands(s, i, [Ch(s, i), Ch(s, i + 1), Ch(s, i + 2), Ch(s, i + 3)])
  {
  }

  lemma {:induction false} HexGoes(s: seq<byte>, e: Ctl)
    requires EscapeStep(s, e, 117).Go? || EscapeStep(s, e, 117).Accept?
    ensures IsHex(Ch(s, e.i + 1)) && IsHex(Ch(s, e.i + 2)) && IsHex(Ch(s, e.i + 3)) && IsHex(Ch(s, e.i + 4))
    ensures e.i + 4 < |s|
  {
    hide Utf8;
    NibbleIsHex(Ch(s, e.i + 1));
    NibbleIsHex(Ch(s, e.i + 2));
    NibbleIsHex(Ch(s, e.i + 3));
    NibbleIsHex(Ch(s, e.i + 4));
  }

  lemma {:induction false} FindChars(s: seq<byte>, c: Ctl) returns (w: seq<Piece>)
    requires Good(s, c) && c.inStr && !c.esc && c.strLen <= c.i && |s| <= UINT_LIMIT
    ensures PiecesOk(w) && Stands(s, c.i, Spelled(w)) && Ch(s, c.i + |Spelled(w)|) == 34
    decreases |s| - c.i
  {
    hide Run;
    hide Stands;
    hide Spell;
    hide Meaning;
    if Ch(s, c.i) == 34 {
      w := [];
      StandsNothing(s, c.i);
    } else {
      var p := FindPiece(s, c);
      ReadPiece(s, c, p);
      MeaningShort(p);
      var d := c.(i := c.i + |Spell(p)|, strLen := c.strLen + |Meaning(p)|);
      var v := FindChars(s, d);
      StandsJoin(s, c.i, Spell(p), Spelled(v));
      w := [p] + v;
      assert w[1..] == v;
    }
  }

  lemma {:induction false} StandsNothing(s: seq<byte>, i: nat)
    requires i <= |s|
    ensures Stands(s, i, [])
  {
  }

  // ---------- Numbers ----------

  lemma {:induction false} FindDigits(s: seq<byte>, i: nat) returns (ds: seq<byte>)
    requires i <= |s|
    ensures AllDigits(ds) && Stands(s, i, ds) && !IsDigit(Ch(s, i + |ds|))
    decreases |s| - i
  {
    ds := [];
    if IsDigit(Ch(s, i)) {
      var v := FindDigits(s, i + 1);
      StandsOne(s, i, s[i]);
      StandsJoin(s, i, [s[i]], v);
      ds := [s[i]] + v;
    }
  }

  /** No digit follows a leading zero. */
  lemma {:induction false} FindWhole(s: seq<byte>, d: Ctl) returns (ds: seq<byte>)
    requires Good(s, d) && InNumber(d) && d.num == NO_NUM.(neg := d.num.neg)
    ensures AllDigits(ds) && Stands(s, d.i, ds) && !IsDigit(Ch(s, d.i + |ds|))
    ensures ds != [] && ds[0] == 48 ==> |ds| == 1
  {
    hide Run;
    hide Stands;
    ds := FindDigits(s, d.i);
    if ds != [] && ds[0] == 48 && |ds| > 1 {
      StandsAt(s, d.i, ds, 0);
      StandsAt(s, d.i, ds, 1);
      DigitTurn(s, d);
      Goes(s, d);
      var e := d.(i := d.i + 1, num := TakeDigit(d.num, 48));
      Goes(s, e);
      assert false;
    }
  }

  /** Behind a complete value no character of a number can stand. */
  lemma {:induction false} Follows(s: seq<byte>, d: Ctl, j: nat)
    requires d.stack != [] && !d.inStr && !d.done && !d.seek && !d.colon && Finish(d, j).Go? && Good(s, Finish(d, j).c)
    requires forall k :: 0 <= k < |d.stack| - 1 ==> Container(d.stack[k].kind)
    ensures !IsNumChar(Ch(s, j))
  {
    hide Run;
    var e := Finish(d, j).c;
    Goes(s, e);
    FinishLeaves(d, j);
    assert e.i == j && e.comma;
    hide Finish;
    if e.seek { SeekAfter(s, e); } else if !e.done { ObjectAfter(s, e); }
  }

  lemma {:induction false} SeekAfter(s: seq<byte>, e: Ctl)
    requires e.seek && e.comma && !SeekStep(true, s, e).Fail?
    ensures Blank(Ch(s, e.i)) || Ch(s, e.i) == 93 || Ch(s, e.i) == 44
  {
    hide Finish;
  }

  lemma {:induction false} ObjectAfter(s: seq<byte>, e: Ctl)
    requires e.stack != [] && e.comma && !ObjectStep(s, e).Fail?
    ensures Blank(Ch(s, e.i)) || Ch(s, e.i) == 125 || Ch(s, e.i) == 44
  {
    hide Finish;
  }

  /** The number ends here. */
  lemma {:induction false} NumberEnd(s: seq<byte>, f: Ctl)
    requires Good(s, f) && InNumber(f) && !IsDigit(Ch(s, f.i)) && (f.num.e ==> f.num.sign && f.num.dbl)
    requires !f.num.e ==> Ch(s, f.i) != 101 && Ch(s, f.i) != 69
    requires Ch(s, f.i) == 46 ==> f.num.dbl
    ensures !IsNumChar(Ch(s, f.i))
  {
    hide Run;
    Goes(s, f);
    EndTurn(s, f);
    Follows(s, f, f.i);
  }

  lemma {:induction false} EndTurn(s: seq<byte>, f: Ctl)
    requires InNumber(f) && !IsDigit(Ch(s, f.i)) && (f.num.e ==> f.num.sign && f.num.dbl)
    requires !f.num.e ==> Ch(s, f.i) != 101 && Ch(s, f.i) != 69
    requires Ch(s, f.i) == 46 ==> f.num.dbl
    ensures Step(true, s, f) == Finish(f, f.i) || Step(true, s, f).Fail?
  {
    hide Finish;
  }

  lemma {:induction false} SignTaken(n: NumState, ds: seq<byte>)
    requires n.e && ds != []
    ensures TakeDigits(n, ds).sign
    decreases |ds|
  {
    if |ds| > 1 { SignTaken(TakeDigit(n, ds[0]), ds[1..]); } else { assert ds[1..] == []; }
  }

  /** The digits of an exponent. */
  lemma {:induction false} FindPower(s: seq<byte>, h: Ctl) returns (ds: seq<byte>)
    requires Good(s, h) && InNumber(h) && h.num.e && h.num.dbl && h.num.digits == 0
    requires h.num.sign || (Ch(s, h.i) != 43 && Ch(s, h.i) != 45)
    ensures ds != [] && AllDigits(ds) && Stands(s, h.i, ds) && !IsNumChar(Ch(s, h.i + |ds|))
  {
    hide Run;
    hide Stands;
    hide NumberEnds;
    hide TakeDigits;
    hide IsNumChar;
    ds := FindDigits(s, h.i);
    if ds == [] {
      Goes(s, h);
      assert false;
    }
    ReadDigits(s, h, ds, 0);
    DigitsShape(h.num, ds);
    SignTaken(h.num, ds);
    NumberEnd(s, h.(i := h.i + |ds|, num := TakeDigits(h.num, ds)));
  }

  lemma {:induction false} FindExponent(s: seq<byte>, f: Ctl) returns (e: Exponent)
    requires Good(s, f) && InNumber(f) && !f.num.e && !f.num.sign && (f.num.dbl ==> f.num.digits > 0)
    requires !IsDigit(Ch(s, f.i)) && (Ch(s, f.i) == 46 ==> f.num.dbl)
    ensures ExponentOk(e) && Stands(s, f.i, PrintExponent(e)) && !IsNumChar(Ch(s, f.i + |PrintExponent(e)|))
  {
    hide Run;
    hide Stands;
    hide Step;
    var b := Ch(s, f.i);
    if b == 101 || b == 69 {
      Goes(s, f);
      ExponentTurn(s, f);
      var g := f.(i := f.i + 1, num := f.num.(e := true, dbl := true, digits := 0, zero := false));
      var h, sign := g, [];
      if Ch(s, g.i) == 43 || Ch(s, g.i) == 45 {
        Goes(s, g);
        SignTurn(s, g);
        h, sign := g.(i := g.i + 1, num := g.num.(sign := true)), [Ch(s, g.i)];
        StandsOne(s, g.i, Ch(s, g.i));
      } else {
        StandsNothing(s, g.i);
      }
      var ds := FindPower(s, h);
      e := Exponent(b, sign, ds);
      StandsOne(s, f.i, b);
      StandsJoin(s, g.i, sign, ds);
      StandsJoin(s, f.i, [b], sign + ds);
    } else {
      NumberEnd(s, f);
      e := NoExponent;
      StandsNothing(s, f.i);
    }
  }

  /** The fraction behind its point. */
  lemma {:induction false} FindFraction(s: seq<byte>, f: Ctl) returns (ds: seq<byte>, h: Ctl)
    requires Good(s, f) && InNumber(f) && !f.num.e && !f.num.dbl && !f.num.sign && Ch(s, f.i) == 46
    ensures f.num.digits > 0 && ds != [] && AllDigits(ds) && Stands(s, f.i, [46] + ds)
    ensures Good(s, h) && InNumber(h) && !h.num.e && !h.num.sign && h.num.dbl && h.num.digits > 0
    ensures h.i == f.i + 1 + |ds| && !IsDigit(Ch(s, h.i))
  {
    hide Run;
    hide Stands;
    hide NumberEnds;
    hide TakeDigits;
    Goes(s, f);
    PointGoes(s, f);
    PointTurn(s, f);
    var g := f.(i := f.i + 1, num := f.num.(dbl := true, digits := 0));
    ds := FindDigits(s, g.i);
    if ds == [] {
      Goes(s, g);
      FractionGoes(s, g);
    }
    ReadDigits(s, g, ds, 0);
    DigitsShape(g.num, ds);
    FractionUnsigned(g.num, ds);
    h := g.(i := g.i + |ds|, num := TakeDigits(g.num, ds));
    StandsOne(s, f.i, 46);
    StandsJoin(s, f.i, [46], ds);
  }

  lemma {:induction false} PointGoes(s: seq<byte>, f: Ctl)
    requires InNumber(f) && !f.num.e && !f.num.dbl && Ch(s, f.i) == 46 && !Step(true, s, f).Fail?
    ensures f.num.digits > 0
  {
    hide Finish;
  }

  lemma {:induction false} FractionGoes(s: seq<byte>, g: Ctl)
    requires InNumber(g) && !g.num.e && g.num.dbl && g.num.digits == 0 && !Step(true, s, g).Fail?
    ensures IsDigit(Ch(s, g.i))
  {
    hide Finish;
  }

  lemma {:induction false} FindNumber(s: seq<byte>, c: Ctl) returns (n: Decimal)
    requires Seeking(s, c) && Good(s, c) && (IsDigit(Ch(s, c.i)) || Ch(s, c.i) == 45)
    ensures NumberOk(n) && Stands(s, c.i, PrintNumber(n)) && !IsNumChar(Ch(s, c.i + |PrintNumber(n)|))
  {
    hide Run;
    hide Stands;
    hide Step;
    hide IsNumChar;
    hide ExponentOk;
    hide PrintExponent;
    hide PrintFraction;
    NumberEntry(s, c);
    NumberTurn(s, c);
    Goes(s, c);
    var d, neg := Step(true, s, c).c, Ch(s, c.i) == 45;
    if neg { StandsOne(s, c.i, 45); } else { StandsNothing(s, c.i); }
    n := FindParts(s, d, neg);
    StandsJoin(s, c.i, if neg then [45] else [], n.whole + (PrintFraction(n.fraction) + PrintExponent(n.exponent)));
  }

  /** A number behind its sign. */
  lemma {:induction false} FindParts(s: seq<byte>, d: Ctl, neg: bool) returns (n: Decimal)
    requires Good(s, d) && InNumber(d) && d.num == NO_NUM.(neg := d.num.neg) && (neg || IsDigit(Ch(s, d.i)))
    ensures NumberOk(n) && n.neg == neg
    ensures var x := n.whole + (PrintFraction(n.fraction) + PrintExponent(n.exponent));
            Stands(s, d.i, x) && !IsNumChar(Ch(s, d.i + |x|))
  {
    hide Run;
    hide Stands;
    hide Step;
    hide NumberEnds;
    hide TakeDigits;
    hide IsNumChar;
    hide ExponentOk;
    hide PrintExponent;
    var whole := FindWhole(s, d);
    ReadDigits(s, d, whole, 0);
    DigitsShape(d.num, whole);
    FractionUnsigned(d.num, whole);
    var f := d.(i := d.i + |whole|, num := TakeDigits(d.num, whole));
    var fraction, h := [], f;
    if Ch(s, f.i) == 46 {
      fraction, h := FindFraction(s, f);
    } else {
      StandsNothing(s, f.i);
    }
    var e := FindExponent(s, h);
    n := Decimal(neg, whole, fraction, e);
    StandsJoin(s, f.i, PrintFraction(fraction), PrintExponent(e));
    StandsJoin(s, d.i, whole, PrintFraction(fraction) + PrintExponent(e));
  }

  // ---------- Values ----------

  /** What a value can begin with. */
  lemma {:induction false} FirstByte(s: seq<byte>, c: Ctl)
    requires Seeking(s, c) && Good(s, c) && !Blank(Ch(s, c.i)) && Ch(s, c.i) != 93
    ensures var b := Ch(s, c.i);
            b == 34 || b == 91 || b == 123 || b == 110 || b == 116 || b == 102 || IsDigit(b) || b == 45
  {
    hide Finish;
    hide LiteralStep;
    hide NumberStep;
    Goes(s, c);
  }

  lemma {:induction false} FindLiteral(s: seq<byte>, c: Ctl, x: seq<byte>, v: Value)
    requires Seeking(s, c) && Good(s, c) && ValueOk(v) && Print(v) == x && Ch(s, c.i) == x[0]
    requires v.Nil? || v.Yes? || v.No?
    ensures Stands(s, c.i, Print(v))
  {
    hide Run;
    hide Finish;
    hide LiteralStep;
    hide NumberStep;
    Goes(s, c);
    var kind := if v.Nil? then Null else Bool(v.Yes?);
    assert x[1..] == [117, 108, 108] || x[1..] == [114, 117, 101] || x[1..] == [97, 108, 115, 101];
    assert Step(true, s, c) == LiteralStep(s, c, x[1..], kind);
    LiteralStands(s, c, x, kind);
  }

  lemma {:induction false} LiteralStands(s: seq<byte>, c: Ctl, x: seq<byte>, kind: Kind)
    requires x != [] && Ch(s, c.i) == x[0] && !LiteralStep(s, c, x[1..], kind).Fail? && c.i <= |s|
    requires forall k :: 0 <= k < |x| ==> x[k] != 0
    ensures Stands(s, c.i, x)
  {
    hide Finish;
    forall k | 0 <= k < |x| ensures Ch(s, c.i + k) == x[k] {
      if k > 0 { assert x[1..][k - 1] == x[k] && Ch(s, c.i + 1 + (k - 1)) == x[1..][k - 1]; }
    }
    assert Ch(s, c.i + (|x| - 1)) == x[|x| - 1];
    assert s[c.i..c.i + |x|] == x;
  }

  lemma {:induction false} FindText(s: seq<byte>, c: Ctl) returns (w: seq<Piece>)
    requires Seeking(s, c) && Good(s, c) && Ch(s, c.i) == 34
    ensures PiecesOk(w) && Stands(s, c.i, [34] + (Spelled(w) + [34]))
  {
    hide Run;
    hide Inv;
    hide Stands;
    hide Step;
    hide Small;
    Goes(s, c);
    QuoteTurn(s, c);
    var a := NewValue(c, Str).(i := c.i + 1, inStr := true, strLen := 0);
    w := FindChars(s, a);
    StandsOne(s, c.i, 34);
    StandsOne(s, a.i + |Spelled(w)|, 34);
    StandsJoin(s, a.i, Spelled(w), [34]);
    StandsJoin(s, c.i, [34], Spelled(w) + [34]);
  }

  /** What has been read leads to an accepted state, so no character of a number follows. */
  lemma {:induction false} LeadsFollows(s: seq<byte>, c: Ctl, ev: seq<Event>, d: Ctl, j: nat)
    requires Seeking(s, c) && Good(s, c) && Closing(c.stack, d) && Leads(s, c, ev, d, j)
    ensures !IsNumChar(Ch(s, j))
  {
    hide Run;
    hide Finish;
    hide IsNumChar;
    GoodLeads(s, c, ev, d, j);
    forall k | 0 <= k < |d.stack| - 1 ensures Container(d.stack[k].kind) {
      assert d.stack[k] == d.stack[..|c.stack|][k];
    }
    Follows(s, d, j);
  }

  lemma {:induction false} FindValue(s: seq<byte>, c: Ctl) returns (v: Value)
    requires Seeking(s, c) && Good(s, c) && !Blank(Ch(s, c.i)) && Ch(s, c.i) != 93
    ensures ValueOk(v) && Stands(s, c.i, Print(v)) && !IsNumChar(Ch(s, c.i + |Print(v)|))
    decreases |s| - c.i, 1
  {
    hide Run;
    hide Inv;
    hide Stands;
    hide Small;
    hide Leads;
    hide Closing;
    hide IsNumChar;
    hide NumberOk;
    FirstByte(s, c);
    var b := Ch(s, c.i);
    var d;
    if b == 34 {
      var w := FindText(s, c);
      d := ReadText(s, c, w);
      v := Text(w);
    } else if b == 91 {
      v := FindArray(s, c);
      d := ReadArray(s, c, v.items);
    } else if b == 123 {
      v := FindObject(s, c);
      d := ReadObject(s, c, v.members);
    } else if b == 110 || b == 116 || b == 102 {
      v := if b == 110 then Nil else if b == 116 then Yes else No;
      FindLiteral(s, c, Print(v), v);
      ReadLiteral(s, c, v);
      d := NewValue(c, if v.Nil? then Null else Bool(v.Yes?));
    } else {
      var n := FindNumber(s, c);
      v := Number(n);
      d := ReadNumber(s, c, n);
    }
    LeadsFollows(s, c, Events(v), d, c.i + |Print(v)|);
  }

  // Arrays.

  lemma {:induction false} FindArray(s: seq<byte>, c: Ctl) returns (v: Value)
    requires Seeking(s, c) && Good(s, c) && Ch(s, c.i) == 91
    ensures v.Array? && ValueOk(v) && Stands(s, c.i, Print(v))
    decreases |s| - c.i, 0
  {
    hide Run;
    hide Inv;
    hide Stands;
    hide Step;
    hide PrintFirst;
    StandsOne(s, c.i, 91);
    BracketTurn(s, c);
    Goes(s, c);
    var a := NewValue(c, Arr).(i := c.i + 1, seek := true);
    InBounds(s, c);
    var items := FindFirst(s, a);
    StandsJoin(s, c.i, [91], PrintFirst(items));
    v := Array(items);
  }

  lemma {:induction false} InBounds(s: seq<byte>, c: Ctl)
    requires Inv(s, c)
    ensures c.i <= |s| && (Ch(s, c.i) != 0 ==> c.i < |s|)
  {
  }

  /** From the opening bracket or a comma on. */
  lemma {:induction false} FindFirst(s: seq<byte>, c: Ctl) returns (items: Items)
    requires InArray(s, c) && !c.comma && Good(s, c)
    ensures ItemsOk(items) && Stands(s, c.i, PrintFirst(items))
    decreases |s| - c.i, 3
  {
    hide Run;
    hide Inv;
    hide Stands;
    hide Print;
    hide PrintItems;
    InBounds(s, c);
    var gap := FindSpace(s, c.i);
    SkipSpace(s, c, gap);
    var f := c.(i := c.i + |gap|);
    SmallLater(c.stack, c.i, f.i);
    if Ch(s, f.i) == 93 {
      items := NoItems(false, gap);
      StandsOne(s, f.i, 93);
      StandsJoin(s, c.i, gap, [93]);
    } else {
      items := FindElements(s, f, gap);
      StandsJoin(s, c.i, gap, Print(items.first) + (items.after + PrintItems(items.rest)));
    }
  }

  /** From an element on. */
  lemma {:induction false} FindElements(s: seq<byte>, c: Ctl, gap: Ws) returns (items: Items)
    requires Seeking(s, c) && c.stack != [] && Top(c).kind.Arr? && Good(s, c)
    requires !Blank(Ch(s, c.i)) && Ch(s, c.i) != 93
    ensures items.Item? && items.gap == gap && ItemsOk(items)
    ensures Stands(s, c.i, Print(items.first) + (items.after + PrintItems(items.rest)))
    decreases |s| - c.i, 2
  {
    hide Run;
    hide Inv;
    hide Stands;
    hide Small;
    hide Leads;
    hide Closing;
    hide IsNumChar;
    hide Print;
    hide PrintItems;
    var v := FindValue(s, c);
    var j := c.i + |Print(v)|;
    var f, after := AfterElement(s, c, v, j);
    var rest := FindItems(s, f);
    StandsJoin(s, j, after, PrintItems(rest));
    StandsJoin(s, c.i, Print(v), after + PrintItems(rest));
    items := Item(gap, v, after, rest);
  }

  /** The state behind an element and its white space. */
  lemma {:induction false} AfterElement(s: seq<byte>, c: Ctl, v: Value, j: nat) returns (f: Ctl, after: Ws)
    requires Seeking(s, c) && c.stack != [] && Container(Top(c).kind) && Good(s, c)
    requires ValueOk(v) && Stands(s, c.i, Print(v)) && !IsNumChar(Ch(s, c.i + |Print(v)|)) && j == c.i + |Print(v)|
    ensures Stands(s, j, after) && Good(s, f) && f.i == j + |after| && !Blank(Ch(s, f.i)) && f.comma
    ensures !f.colon && !f.inStr && !f.esc && !f.done && f.stack != [] && Top(f).kind == Top(c).kind
    ensures f.seek == Top(c).kind.Arr? && Small(f.stack, f.i) && c.i < f.i <= |s|
  {
    hide Run;
    hide Inv;
    hide Stands;
    hide Leads;
    hide Small;
    hide IsNumChar;
    hide Print;
    var d := ReadValue(s, c, v);
    StandsInside(s, c.i, Print(v));
    after := FindSpace(s, j);
    f := BehindElement(s, c, Events(v), d, j, after);
    assert d.stack[|d.stack| - 2] == d.stack[..|c.stack|][|c.stack| - 1];
    StandsInside(s, j, after);
  }

  lemma {:induction false} StandsInside(s: seq<byte>, i: nat, x: seq<byte>)
    requires Stands(s, i, x)
    ensures i + |x| <= |s|
  {
  }

  /** Behind an element. */
  lemma {:induction false} FindItems(s: seq<byte>, e: Ctl) returns (items: Items)
    requires InArray(s, e) && e.comma && Good(s, e) && !Blank(Ch(s, e.i))
    ensures ItemsOk(items) && Stands(s, e.i, PrintItems(items))
    decreases |s| - e.i, 4
  {
    hide Run;
    hide Inv;
    hide Stands;
    hide Step;
    hide Small;
    hide Print;
    InBounds(s, e);
    Goes(s, e);
    CommaOrBracket(s, e);
    if Ch(s, e.i) == 93 {
      items := NoItems(false, []);
      StandsOne(s, e.i, 93);
      assert [] + [93] == [93];
    } else {
      ArrayTurn(s, e);
      var c := e.(i := e.i + 1, comma := false);
      SmallLater(e.stack, e.i, c.i);
      items := FindFirst(s, c);
      StandsOne(s, e.i, 44);
      StandsJoin(s, e.i, [44], PrintFirst(items));
      items := WithComma(items);
    }
  }

  function WithComma(items: Items): (r: Items)
    requires ItemsOk(items)
    ensures ItemsOk(r) && PrintItems(r) == [44] + PrintFirst(items)
  {
    if items.NoItems? then items.(comma := true) else items
  }

  lemma {:induction false} CommaOrBracket(s: seq<byte>, e: Ctl)
    requires Inv(s, e) && e.seek && e.comma && !e.inStr && !e.done && !Blank(Ch(s, e.i))
    requires !Step(true, s, e).Fail?
    ensures Ch(s, e.i) == 93 || Ch(s, e.i) == 44
  {
    hide Finish;
  }

  // Objects.

  lemma {:induction false} FindObject(s: seq<byte>, c: Ctl) returns (v: Value)
    requires Seeking(s, c) && Good(s, c) && Ch(s, c.i) == 123
    ensures v.Object? && ValueOk(v) && Stands(s, c.i, Print(v))
    decreases |s| - c.i, 0
  {
    hide Run;
    hide Inv;
    hide Stands;
    hide Step;
    hide PrintFirstMember;
    StandsOne(s, c.i, 123);
    BracketTurn(s, c);
    Goes(s, c);
    var o := NewValue(c, Obj).(i := c.i + 1);
    InBounds(s, c);
    var ms := FindFirstMember(s, o);
    StandsJoin(s, c.i, [123], PrintFirstMember(ms));
    v := Object(ms);
  }

  /** From the opening brace or a comma on. */
  lemma {:induction false} FindFirstMember(s: seq<byte>, o: Ctl) returns (ms: Members)
    requires InObject(s, o) && !o.comma && Good(s, o)
    ensures MembersOk(ms) && Stands(s, o.i, PrintFirstMember(ms))
    decreases |s| - o.i, 3
  {
    hide Run;
    hide Inv;
    hide Stands;
    hide Step;
    hide Print;
    hide PrintName;
    hide PrintMembers;
    InBounds(s, o);
    var gap := FindSpace(s, o.i);
    SkipSpace(s, o, gap);
    var f := o.(i := o.i + |gap|);
    SmallLater(o.stack, o.i, f.i);
    Goes(s, f);
    QuoteOrBrace(s, f);
    if Ch(s, f.i) == 125 {
      ms := NoMembers(false, gap);
      StandsOne(s, f.i, 125);
      StandsJoin(s, o.i, gap, [125]);
    } else {
      ms := FindMember(s, f, gap);
      StandsJoin(s, o.i, gap, MemberText(ms));
    }
  }

  lemma {:induction false} QuoteOrBrace(s: seq<byte>, o: Ctl)
    requires InObject(s, o) && !Blank(Ch(s, o.i)) && !Step(true, s, o).Fail?
    ensures Ch(s, o.i) == 125 || (if o.comma then Ch(s, o.i) == 44 else Ch(s, o.i) == 34)
  {
    hide Finish;
  }

  /** The name, the colon, and what follows. */
  lemma {:induction false} FindMember(s: seq<byte>, o: Ctl, gap: Ws) returns (ms: Members)
    requires InObject(s, o) && !o.comma && Good(s, o) && Ch(s, o.i) == 34
    ensures ms.Member? && ms.gap == gap && MembersOk(ms) && Stands(s, o.i, MemberText(ms))
    decreases |s| - o.i, 2
  {
    hide Run;
    hide Inv;
    hide Stands;
    hide Step;
    hide Small;
    hide Leads;
    hide IsNumChar;
    hide Print;
    hide PrintName;
    hide PrintMembers;
    var name, before := FindName(s, o);
    var c := ReadName(s, o, name, before);
    InBounds(s, c);
    var mid := FindSpace(s, c.i);
    SkipSpace(s, c, mid);
    var f := c.(i := c.i + |mid|);
    SmallLater(c.stack, c.i, f.i);
    NotBracket(s, f);
    var v := FindValue(s, f);
    var j := f.i + |Print(v)|;
    var e, after := AfterElement(s, f, v, j);
    var rest := FindMembers(s, e);
    ms := Member(gap, name, before, mid, v, after, rest);
    StandsJoin(s, j, after, PrintMembers(rest));
    StandsJoin(s, f.i, Print(v), after + PrintMembers(rest));
    StandsJoin(s, c.i, mid, Print(v) + (after + PrintMembers(rest)));
    StandsJoin(s, o.i, PrintName(name, before), mid + (Print(v) + (after + PrintMembers(rest))));
  }

  lemma {:induction false} NotBracket(s: seq<byte>, f: Ctl)
    requires Seeking(s, f) && f.stack != [] && Top(f).kind.Obj? && Good(s, f)
    ensures Ch(s, f.i) != 93
  {
    hide Finish;
    Goes(s, f);
  }

  lemma {:induction false} FindName(s: seq<byte>, o: Ctl) returns (name: seq<Piece>, before: Ws)
    requires InObject(s, o) && !o.comma && Good(s, o) && Ch(s, o.i) == 34
    ensures PiecesOk(name) && Stands(s, o.i, PrintName(name, before)) && |PrintName(name, before)| > 0
  {
    hide Run;
    hide Inv;
    hide Stands;
    hide Step;
    hide Small;
    hide Spelled;
    hide Meant;
    Goes(s, o);
    ObjectTurn(s, o);
    var a := o.(i := o.i + 1, inStr := true, strLen := 0);
    name := FindChars(s, a);
    ReadChars(s, a, name);
    var b := a.(i := a.i + |Spelled(name)|, strLen := |Meant(name)|);
    Goes(s, b);
    NameStays(s, b);
    QuoteEnds(s, b);
    var e := b.(i := b.i + 1, inStr := false, seek := true, colon := true);
    InBounds(s, e);
    before := FindSpace(s, e.i);
    SkipSpace(s, e, before);
    var f := e.(i := e.i + |before|);
    Goes(s, f);
    ColonStands(s, f);
    StandsOne(s, o.i, 34);
    StandsOne(s, b.i, 34);
    StandsOne(s, f.i, 58);
    StandsJoin(s, e.i, before, [58]);
    StandsJoin(s, b.i, [34], before + [58]);
    StandsJoin(s, a.i, Spelled(name), [34] + (before + [58]));
    StandsJoin(s, o.i, [34], Spelled(name) + ([34] + (before + [58])));
  }

  lemma {:induction false} NameStays(s: seq<byte>, b: Ctl)
    requires Inv(s, b) && b.inStr && !Step(true, s, b).Fail?
    ensures b.stack != [] && b.strLen <= UINT_LIMIT
  {
    hide Finish;
    hide EscapeStep;
  }

  lemma {:induction false} ColonStands(s: seq<byte>, f: Ctl)
    requires Inv(s, f) && f.seek && f.colon && !f.comma && !f.inStr && !f.done && !Blank(Ch(s, f.i))
    requires !Step(true, s, f).Fail?
    ensures Ch(s, f.i) == 58
  {
    hide Finish;
  }

  /** Behind a member. */
  lemma {:induction false} FindMembers(s: seq<byte>, o: Ctl) returns (ms: Members)
    requires InObject(s, o) && o.comma && Good(s, o) && !Blank(Ch(s, o.i))
    ensures MembersOk(ms) && Stands(s, o.i, PrintMembers(ms))
    decreases |s| - o.i, 4
  {
    hide Run;
    hide Inv;
    hide Stands;
    hide Step;
    hide Small;
    hide Print;
    InBounds(s, o);
    Goes(s, o);
    QuoteOrBrace(s, o);
    if Ch(s, o.i) == 125 {
      ms := NoMembers(false, []);
      StandsOne(s, o.i, 125);
      assert [] + [125] == [125];
    } else {
      ObjectTurn(s, o);
      var c := o.(i := o.i + 1, comma := false);
      SmallLater(o.stack, o.i, c.i);
      ms := FindFirstMember(s, c);
      StandsOne(s, o.i, 44);
      StandsJoin(s, o.i, [44], PrintFirstMember(ms));
      ms := MembersComma(ms);
    }
  }

  function MembersComma(ms: Members): (r: Members)
    requires MembersOk(ms)
    ensures MembersOk(r) && PrintMembers(r) == [44] + PrintFirstMember(ms)
  {
    if ms.NoMembers? then ms.(comma := true) else ms
  }

  // ---------- Whole texts ----------

  /** Every accepted text is a written value. */
  lemma {:induction false} FindDocument(s: seq<byte>) returns (t: Document)
    requires Inv(s, START) && Run(true, s, START).Accepted? && |s| <= UINT_LIMIT
    ensures DocumentOk(t) && Written(t) == s
  {
    hide Run;
    hide Stands;
    hide Step;
    hide Print;
    hide Leads;
    hide IsNumChar;
    var before := FindSpace(s, 0);
    SkipSpace(s, START, before);
    var c := START.(i := |before|);
    RootNotBracket(s, c);
    var v := FindValue(s, c);
    var d := ReadValue(s, c, v);
    var j := c.i + |Print(v)|;
    GoodLeads(s, c, Events(v), d, j);
    var e := d.(i := j, comma := true, num := NO_NUM, done := true);
    assert Finish(d, j) == Go(e, []);
    StandsInside(s, c.i, Print(v));
    var after := FindSpace(s, j);
    SkipSpace(s, e, after);
    var f := e.(i := j + |after|);
    StandsInside(s, j, after);
    Goes(s, f);
    EndStands(s, f);
    t := Document(before, v, after, s[f.i..]);
    WholeText(s, before, Print(v), after);
  }

  lemma {:induction false} RootNotBracket(s: seq<byte>, c: Ctl)
    requires Seeking(s, c) && c.stack == [] && Good(s, c)
    ensures Ch(s, c.i) != 93
  {
    Goes(s, c);
  }

  lemma {:induction false} EndStands(s: seq<byte>, f: Ctl)
    requires Inv(s, f) && f.done && !f.inStr && !Blank(Ch(s, f.i)) && !Step(true, s, f).Fail?
    ensures Ch(s, f.i) == 0
  {
  }

  lemma {:induction false} WholeText(s: seq<byte>, a: seq<byte>, b: seq<byte>, c: seq<byte>)
    requires Stands(s, 0, a) && Stands(s, |a|, b) && Stands(s, |a| + |b|, c)
    ensures a + (b + (c + s[|a| + |b| + |c|..])) == s
  {
    var n := |a| + |b|;
    assert s[..|a|] == a && s[|a|..n] == b && s[n..n + |c|] == c;
    assert s == s[..|a|] + (s[|a|..n] + (s[n..n + |c|] + s[n + |c|..]));
  }

  /** The language of the parser: a text is accepted if and only if it is a written value,
      with any white space between its tokens, any spelling of its numbers and strings, and
      nothing but white space around it, up to a NUL. What is stored is then the tree of
      that value. */
  lemma {:induction false} AcceptedExact(s: seq<byte>)
    requires |s| <= UINT_LIMIT
    ensures Inv(s, START) && (Run(true, s, START).Accepted? <==> exists t :: DocumentOk(t) && Written(t) == s)
    ensures forall t :: DocumentOk(t) && Written(t) == s ==>
              Run(true, s, START) == Accepted(Events(t.v)) && StoredAs(Events(t.v), t.v)
  {
    hide Run;
    hide Written;
    hide Events;
    hide StoredAs;
    if Run(true, s, START).Accepted? {
      var t := FindDocument(s);
    }
    forall t | DocumentOk(t) && Written(t) == s
      ensures Run(true, s, START) == Accepted(Events(t.v)) && StoredAs(Events(t.v), t.v)
    {
      PrintedIsParsed(t);
    }
  }
}
