/** json.c: the character machine of json_parse_ex. The same loop runs twice:
    the first pass counts, the second fills storage of the counted size. The two
    passes differ only in how they get over a number. A run of the machine is
    described by the storage events it causes. */
module Json {
  import opened Bytes

  const UINT_LIMIT: nat := 0xFFFFFFFF - 8

  datatype Kind = Obj | Arr | Num | Str | Bool(value: bool) | Null

  /** A value being built, with the elements it has so far. */
  datatype Open = Open(kind: Kind, length: nat)

  /** The number flags of the first pass. */
  datatype NumState = NumState(neg: bool, zero: bool, e: bool, sign: bool, dbl: bool, digits: nat)

  const NO_NUM := NumState(false, false, false, false, false, 0)

  /** The loop state: position, flags, and the chain from top to the root. */
  datatype Ctl = Ctl(i: nat, inStr: bool, esc: bool, strLen: nat, seek: bool, comma: bool, colon: bool, done: bool,
                     num: NumState, stack: seq<Open>)

  /** What a turn of the loop does to storage. */
  datatype Event =
    | New(kind: Kind)        // new_value
    | Key                    // a member name begins
    | Add(bs: seq<byte>)     // bytes of the current string
    | CloseStr               // end of a string value
    | CloseKey               // end of a member name
    | Pop                    // a value is complete and becomes an element of its parent

  datatype Outcome =
    | Fail                   // e_failed
    | Undefined              // a closing bracket before any value: top is dereferenced while NULL
    | Accept
    | Go(c: Ctl, ev: seq<Event>)

  const START := Ctl(0, false, false, 0, true, false, false, false, NO_NUM, [])

  /** The character at a position; the input is followed by a NUL. */
  function Ch(s: seq<byte>, i: nat): byte { if i < |s| then s[i] else 0 }

  predicate IsSpace(b: byte) { b == 10 || b == 32 || b == 9 || b == 13 }
  predicate IsDigit(b: byte) { 48 <= b <= 57 }

  /** Characters the second pass takes for part of a number. */
  predicate IsNumChar(b: byte) { IsDigit(b) || b == 43 || b == 45 || b == 101 || b == 69 || b == 46 }

  function HexValue(b: byte): nat {
    if 48 <= b <= 57 then b - 48
    else if 97 <= b <= 102 then b - 87
    else if 65 <= b <= 70 then b - 55
    else 255
  }

  /** The bytes of an escaped character \u b1 b2. */
  function Utf8(b1: nat, b2: nat): (r: seq<byte>)
    requires b1 < 256 && b2 < 256
    ensures 1 <= |r| <= 3
  {
    var u := b1 * 256 + b2;
    if b1 == 0 && b2 <= 0x7F then [u]
    else if u <= 0x7FF then [0xC0 + u / 64, 0x80 + u % 64]
    else [0xE0 + b1 / 16, 0x80 + b1 % 16 * 4 + b2 / 64, 0x80 + b2 % 64]
  }

  /** The code point of a UTF-8 sequence of up to three bytes. */
  function CodePoint(r: seq<byte>): int
    requires 1 <= |r| <= 3
  {
    if |r| == 1 then r[0]
    else if |r| == 2 then (r[0] as int - 0xC0) * 64 + (r[1] as int - 0x80)
    else (r[0] as int - 0xE0) * 4096 + (r[1] as int - 0x80) * 64 + (r[2] as int - 0x80)
  }

  /** An escape is stored as the shortest UTF-8 form of its 16-bit value. */
  lemma {:induction false} Utf8Exact(b1: nat, b2: nat)
    requires b1 < 256 && b2 < 256
    ensures var r, u := Utf8(b1, b2), b1 * 256 + b2;
            && CodePoint(r) == u
            && |r| == (if u < 0x80 then 1 else if u < 0x800 then 2 else 3)
            && (|r| == 1 || 0xC0 + (if |r| == 3 then 0x20 else 0) <= r[0] < 0xF0)
            && (forall k :: 1 <= k < |r| ==> 0x80 <= r[k] < 0xC0)
  {
    var u := b1 * 256 + b2;
    assert b2 == b2 / 64 * 64 + b2 % 64 && b1 == b1 / 16 * 16 + b1 % 16;
  }

  function Top(c: Ctl): Open
    requires c.stack != []
  {
    c.stack[|c.stack| - 1]
  }

  /** The end of a turn after flag_next: the value on top is complete. */
  function Finish(c: Ctl, i: nat): Outcome
    requires c.stack != []
  {
    var n := |c.stack|;
    var d := c.(i := i, comma := true, num := NO_NUM);
    if n == 1 then Go(d.(done := true), [])
    else
      var p := c.stack[n - 2];
      if p.length + 1 > UINT_LIMIT then Fail
      else Go(d.(seek := c.seek || p.kind.Arr?, stack := c.stack[..n - 2] + [p.(length := p.length + 1)]), [Pop])
  }

  function Prefix(ev: seq<Event>, o: Outcome): Outcome {
    match o
    case Go(c, ev') => Go(c, ev + ev')
    case _ => o
  }

  /** Inside a string. */
  function StringStep(s: seq<byte>, c: Ctl): Outcome
    requires c.stack != []
  {
    var b := Ch(s, c.i);
    if b == 0 || c.strLen > UINT_LIMIT then Fail
    else if c.esc then EscapeStep(s, c, b)
    else if b == 92 then Go(c.(i := c.i + 1, esc := true), [])
    else if b == 34 then
      if Top(c).kind.Str? then Prefix([CloseStr], Finish(c.(inStr := false), c.i + 1))
      else if Top(c).kind.Obj? then Go(c.(i := c.i + 1, inStr := false, seek := true, colon := true), [CloseKey])
      else Undefined
    else AddBytes(c, [b], c.i + 1)
  }

  function AddBytes(c: Ctl, bs: seq<byte>, i: nat): Outcome {
    Go(c.(i := i, esc := false, strLen := c.strLen + |bs|), [Add(bs)])
  }

  /** After a backslash. */
  function EscapeStep(s: seq<byte>, c: Ctl, b: byte): Outcome {
    var i := c.i;
    if b == 98 then AddBytes(c, [8], i + 1)
    else if b == 102 then AddBytes(c, [12], i + 1)
    else if b == 110 then AddBytes(c, [10], i + 1)
    else if b == 114 then AddBytes(c, [13], i + 1)
    else if b == 116 then AddBytes(c, [9], i + 1)
    else if b == 117 then
      var h1, h2, h3, h4 := HexValue(Ch(s, i + 1)), HexValue(Ch(s, i + 2)), HexValue(Ch(s, i + 3)),
        HexValue(Ch(s, i + 4));
      if i + 4 > |s| || h1 == 255 || h2 == 255 || h3 == 255 || h4 == 255 then Fail
      else AddBytes(c, Utf8(h1 * 16 + h2, h3 * 16 + h4), i + 5)
    else AddBytes(c, [b], i + 1)
  }

  function NewValue(c: Ctl, kind: Kind): Ctl {
    c.(seek := false, stack := c.stack + [Open(kind, 0)])
  }

  /** A literal: its remaining characters, then the value is complete. */
  function LiteralStep(s: seq<byte>, c: Ctl, rest: seq<byte>, kind: Kind): Outcome {
    if c.i + |rest| > |s| || (exists k :: 0 <= k < |rest| && Ch(s, c.i + 1 + k) != rest[k]) then Fail
    else Prefix([New(kind)], Finish(NewValue(c, kind), c.i + 1 + |rest|))
  }

  /** The end of the run of number characters from p on. */
  function SpanEnd(s: seq<byte>, p: nat): (j: nat)
    ensures p <= j && (p <= |s| ==> j <= |s|)
    decreases |s| - p
  {
    if p < |s| && IsNumChar(s[p]) then SpanEnd(s, p + 1) else p
  }

  /** A number begins. The second pass skips it at once; the first one goes on
      with its digits, reading the first again. */
  function NumberStep(first: bool, s: seq<byte>, c: Ctl, b: byte): Outcome {
    var d := NewValue(c, Num);
    if !first then Prefix([New(Num)], Finish(d, SpanEnd(s, c.i)))
    else if b == 45 then Go(d.(i := c.i + 1, num := NO_NUM.(neg := true)), [New(Num)])
    else Go(d.(num := NO_NUM), [New(Num)])
  }

  /** Looking for a value. */
  function SeekStep(first: bool, s: seq<byte>, c: Ctl): Outcome {
    var b, i := Ch(s, c.i), c.i;
    if IsSpace(b) then Go(c.(i := i + 1), [])
    else if b == 93 then
      if c.stack == [] then Undefined
      else if Top(c).kind.Arr? then Finish(c.(comma := false, seek := false), i + 1)
      else Fail
    else if c.comma then
      if b == 44 then Go(c.(i := i + 1, comma := false), []) else Fail
    else if c.colon then
      if b == 58 then Go(c.(i := i + 1, colon := false), []) else Fail
    else if b == 123 then Go(NewValue(c, Obj).(i := i + 1), [New(Obj)])
    else if b == 91 then Go(NewValue(c, Arr).(i := i + 1, seek := true), [New(Arr)])
    else if b == 34 then Go(NewValue(c, Str).(i := i + 1, inStr := true, strLen := 0), [New(Str)])
    else if b == 116 then LiteralStep(s, c, [114, 117, 101], Bool(true))
    else if b == 102 then LiteralStep(s, c, [97, 108, 115, 101], Bool(false))
    else if b == 110 then LiteralStep(s, c, [117, 108, 108], Null)
    else if IsDigit(b) || b == 45 then NumberStep(first, s, c, b)
    else Fail
  }

  /** Between the members of an object. */
  function ObjectStep(s: seq<byte>, c: Ctl): Outcome
    requires c.stack != []
  {
    var b, i := Ch(s, c.i), c.i;
    if IsSpace(b) then Go(c.(i := i + 1), [])
    else if b == 34 then
      if c.comma then Fail else Go(c.(i := i + 1, inStr := true, strLen := 0), [Key])
    else if b == 125 then Finish(c.(comma := false), i + 1)
    else if b == 44 && c.comma then Go(c.(i := i + 1, comma := false), [])
    else Fail
  }

  /** Inside a number, first pass only. */
  function DigitStep(s: seq<byte>, c: Ctl): Outcome
    requires c.stack != []
  {
    var b, i, n := Ch(s, c.i), c.i, c.num;
    if IsDigit(b) then
      if n.e then Go(c.(i := i + 1, num := n.(digits := n.digits + 1, sign := true)), [])
      else if n.dbl then Go(c.(i := i + 1, num := n.(digits := n.digits + 1)), [])
      else if n.zero then Fail
      else Go(c.(i := i + 1, num := n.(digits := n.digits + 1, zero := n.digits == 0 && b == 48)), [])
    else if (b == 43 || b == 45) && n.e && !n.sign then Go(c.(i := i + 1, num := n.(sign := true)), [])
    else if b == 46 && !n.dbl then
      if n.digits == 0 then Fail else Go(c.(i := i + 1, num := n.(dbl := true, digits := 0)), [])
    else if !n.e && n.dbl && n.digits == 0 then Fail
    else if !n.e && (b == 101 || b == 69) then
      Go(c.(i := i + 1, num := n.(e := true, dbl := true, digits := 0, zero := false)), [])
    else if n.e && n.digits == 0 then Fail
    else Finish(c, i)
  }

  /** One turn of the loop. */
  function Step(first: bool, s: seq<byte>, c: Ctl): Outcome {
    var b := Ch(s, c.i);
    if c.inStr then (if c.stack == [] then Undefined else StringStep(s, c))
    else if c.done then
      if b == 0 then Accept else if IsSpace(b) then Go(c.(i := c.i + 1), []) else Fail
    else if c.seek then SeekStep(first, s, c)
    else if c.stack == [] then Undefined
    else if Top(c).kind.Obj? then ObjectStep(s, c)
    else if Top(c).kind.Num? then DigitStep(s, c)
    else Undefined
  }

  // ---------- Reachable states and termination ----------

  predicate Container(k: Kind) { k.Obj? || k.Arr? }

  /** The states the loop reaches. */
  ghost predicate Inv(s: seq<byte>, c: Ctl) {
    && c.i <= |s|
    && (forall k :: 0 <= k < |c.stack| - 1 ==> Container(c.stack[k].kind))
    && (c.esc ==> c.inStr)
    && (c.inStr ==> !c.done && !c.seek && !c.comma && c.stack != [] && (Top(c).kind.Str? || Top(c).kind.Obj?))
    && (c.done ==> |c.stack| == 1 && !c.seek)
    && (c.seek ==> c.stack == [] || Container(Top(c).kind))
    && (c.colon ==> c.seek && c.stack != [] && Top(c).kind.Obj?)
    && (!c.inStr && !c.done && !c.seek ==> c.stack != [] && (Top(c).kind.Obj? || Top(c).kind.Num?))
    && (c.seek && c.comma ==> c.stack != [] && Top(c).kind.Arr?)
  }

  predicate InNumber(c: Ctl) {
    !c.inStr && !c.done && !c.seek && c.stack != [] && Top(c).kind.Num?
  }

  /** Turns that do not advance come in at most two in a row: into a number, and
      out of it. */
  function Rank(c: Ctl): nat {
    if InNumber(c) then 1 else if c.comma || c.done then 0 else 2
  }

  ghost predicate Progress(s: seq<byte>, c: Ctl, d: Ctl) {
    && Inv(s, d) && (c.stack != [] ==> d.stack != [])
    && (d.i > c.i || (d.i == c.i && Rank(d) < Rank(c)))
  }

  ghost predicate Sound(s: seq<byte>, c: Ctl, o: Outcome) {
    (o.Go? ==> Progress(s, c, o.c)) && (o.Undefined? ==> c.stack == [])
  }

  lemma {:induction false} FinishSound(s: seq<byte>, c: Ctl, i: nat, from: Ctl)
    requires c.stack != [] && !c.inStr && !c.esc && !c.done && !c.seek && !c.colon
    requires forall k :: 0 <= k < |c.stack| - 1 ==> Container(c.stack[k].kind)
    requires i <= |s| && (i > from.i || (i == from.i && Rank(from) > 0))
    ensures Finish(c, i).Go? ==> Progress(s, from, Finish(c, i).c) && !InNumber(Finish(c, i).c)
    ensures !Finish(c, i).Undefined? && !Finish(c, i).Accept?
  {
  }

  lemma {:induction false} StringSound(s: seq<byte>, c: Ctl)
    requires Inv(s, c) && c.inStr
    ensures Sound(s, c, StringStep(s, c))
  {
    hide Utf8;
    hide HexValue;
    var b := Ch(s, c.i);
    if b == 34 && !c.esc && Top(c).kind.Str? {
      hide EscapeStep;
      FinishSound(s, c.(inStr := false), c.i + 1, c);
    } else if c.esc && b != 0 {
      EscapeSound(s, c, b);
    }
  }

  lemma {:induction false} EscapeSound(s: seq<byte>, c: Ctl, b: byte)
    requires Inv(s, c) && c.inStr && b != 0 && b == Ch(s, c.i)
    ensures Sound(s, c, EscapeStep(s, c, b))
  {
    hide Utf8;
    if b == 117 && EscapeStep(s, c, b).Go? {
      assert HexValue(Ch(s, c.i + 4)) != 255;
    }
  }

  lemma {:induction false} SeekSound(first: bool, s: seq<byte>, c: Ctl)
    requires Inv(s, c) && c.seek
    ensures Sound(s, c, SeekStep(first, s, c))
  {
    hide Finish;
    hide LiteralStep;
    var b := Ch(s, c.i);
    if b == 93 && c.stack != [] && Top(c).kind.Arr? {
      FinishSound(s, c.(comma := false, seek := false), c.i + 1, c);
    } else if !c.comma && !c.colon {
      if IsDigit(b) || b == 45 {
        if !first {
          assert SpanEnd(s, c.i) == SpanEnd(s, c.i + 1);
          FinishSound(s, NewValue(c, Num), SpanEnd(s, c.i), c);
        }
      } else if b == 116 { LiteralSound(s, c, [114, 117, 101], Bool(true));
      } else if b == 102 { LiteralSound(s, c, [97, 108, 115, 101], Bool(false));
      } else if b == 110 { LiteralSound(s, c, [117, 108, 108], Null); }
    }
  }

  lemma {:induction false} LiteralSound(s: seq<byte>, c: Ctl, rest: seq<byte>, kind: Kind)
    requires Inv(s, c) && c.seek && !c.colon && rest != [] && rest[|rest| - 1] != 0
    ensures Sound(s, c, LiteralStep(s, c, rest, kind))
  {
    var n := |rest|;
    if c.i + n <= |s| && Ch(s, c.i + 1 + (n - 1)) == rest[n - 1] {
      FinishSound(s, NewValue(c, kind), c.i + 1 + n, c);
    }
  }

  lemma {:induction false} ObjectSound(s: seq<byte>, c: Ctl)
    requires Inv(s, c) && !c.inStr && !c.done && !c.seek && c.stack != [] && Top(c).kind.Obj?
    ensures Sound(s, c, ObjectStep(s, c))
  {
    if Ch(s, c.i) == 125 { FinishSound(s, c.(comma := false), c.i + 1, c); }
  }

  lemma {:induction false} DigitSound(s: seq<byte>, c: Ctl)
    requires Inv(s, c) && InNumber(c)
    ensures Sound(s, c, DigitStep(s, c)) && !DigitStep(s, c).Accept?
  {
    FinishSound(s, c, c.i, c);
  }

  /** Every turn keeps the invariant, moves on, and is well defined, except for a
      closing bracket as the first character. */
  lemma {:induction false} StepSound(first: bool, s: seq<byte>, c: Ctl)
    requires Inv(s, c)
    ensures Sound(s, c, Step(first, s, c))
  {
    hide StringStep;
    hide SeekStep;
    hide ObjectStep;
    hide DigitStep;
    if c.inStr { StringSound(s, c);
    } else if c.done {
    } else if c.seek { SeekSound(first, s, c);
    } else if Top(c).kind.Obj? { ObjectSound(s, c);
    } else { DigitSound(s, c); }
  }

  // ---------- Whole runs ----------

  datatype Verdict = Rejected | Crashed | Accepted(ev: seq<Event>)

  function After(ev: seq<Event>, v: Verdict): Verdict {
    if v.Accepted? then Accepted(ev + v.ev) else v
  }

  /** The loop, from a state on. */
  function Run(first: bool, s: seq<byte>, c: Ctl): Verdict
    requires Inv(s, c)
    decreases |s| - c.i, Rank(c)
  {
    StepSound(first, s, c);
    var o := Step(first, s, c);
    if o.Fail? then Rejected
    else if o.Undefined? then Crashed
    else if o.Accept? then Accepted([])
    else After(o.ev, Run(first, s, o.c))
  }

  /** What a run does after a turn with this outcome. */
  function Onward(first: bool, s: seq<byte>, o: Outcome): Verdict
    requires o.Go? ==> Inv(s, o.c)
  {
    if o.Fail? then Rejected
    else if o.Undefined? then Crashed
    else if o.Accept? then Accepted([])
    else After(o.ev, Run(first, s, o.c))
  }

  lemma {:induction false} SpanAll(s: seq<byte>, p: nat, j: nat)
    requires p <= j <= |s| && (forall k :: p <= k < j ==> IsNumChar(s[k])) && !IsNumChar(Ch(s, j))
    ensures SpanEnd(s, p) == j
    decreases j - p
  {
    if p < j { SpanAll(s, p + 1, j); }
  }

  /** After a complete value only a comma, a closing bracket or white space can
      follow, so no number character does. */
  lemma {:induction false} NoNumberAfter(s: seq<byte>, c: Ctl)
    requires Inv(s, c) && (c.done || c.comma) && !InNumber(c) && IsNumChar(Ch(s, c.i))
    ensures Run(true, s, c) == Rejected
  {
    hide Finish;
    hide LiteralStep;
    hide NumberStep;
    assert Step(true, s, c) == Fail;
  }

  lemma {:induction false} DigitCases(s: seq<byte>, c: Ctl)
    requires Inv(s, c) && InNumber(c) && DigitStep(s, c).Go?
    ensures var o := DigitStep(s, c);
            || o == Finish(c, c.i)
            || (o.ev == [] && o.c == c.(i := c.i + 1, num := o.c.num) && IsNumChar(Ch(s, c.i)))
  {
    hide Finish;
  }

  /** The first pass leaves a number at the end of the run of number characters. */
  lemma {:induction false} NumberRun(s: seq<byte>, c: Ctl)
    requires Inv(s, c) && InNumber(c) && Run(true, s, c).Accepted?
    ensures var o := Finish(c, SpanEnd(s, c.i)); (o.Go? ==> Inv(s, o.c)) && Run(true, s, c) == Onward(true, s, o)
    decreases |s| - c.i
  {
    hide DigitStep;
    hide Finish;
    var o := Step(true, s, c);
    DigitSound(s, c);
    assert o == DigitStep(s, c) && o.Go?;
    DigitCases(s, c);
    if o == Finish(c, c.i) {
      FinishSound(s, c, c.i, c);
      FinishCommas(c, c.i);
      assert !IsNumChar(Ch(s, c.i)) by {
        if IsNumChar(Ch(s, c.i)) { NoNumberAfter(s, o.c); }
      }
      SpanAll(s, c.i, c.i);
    } else {
      assert SpanEnd(s, c.i) == SpanEnd(s, c.i + 1);
      assert Run(true, s, c) == Run(true, s, o.c) by { assert Run(true, s, o.c).Accepted?; }
      NumberRun(s, o.c);
      FinishForgets(c, o.c, SpanEnd(s, c.i));
    }
  }

  lemma {:induction false} FinishCommas(c: Ctl, i: nat)
    requires c.stack != []
    ensures Finish(c, i).Fail? || (Finish(c, i).Go? && Finish(c, i).c.i == i && Finish(c, i).c.comma)
  {
  }

  lemma {:induction false} FinishForgets(c: Ctl, d: Ctl, i: nat)
    requires c.stack != [] && d == c.(i := d.i, num := d.num)
    ensures Finish(c, i) == Finish(d, i)
  {
  }

  /** A number begins at this turn. */
  predicate NumberAt(s: seq<byte>, c: Ctl) {
    && !c.inStr && !c.done && c.seek && !c.comma && !c.colon
    && (IsDigit(Ch(s, c.i)) || Ch(s, c.i) == 45)
  }

  lemma {:induction false} FinishLeaves(c: Ctl, i: nat)
    requires c.stack != [] && Finish(c, i).Go? && (forall k :: 0 <= k < |c.stack| - 1 ==> Container(c.stack[k].kind))
    ensures !InNumber(Finish(c, i).c)
  {
  }

  lemma {:induction false} SeekSame(s: seq<byte>, c: Ctl)
    requires Inv(s, c) && c.seek && !NumberAt(s, c)
    ensures var o := SeekStep(true, s, c); o == SeekStep(false, s, c) && (o.Go? ==> !InNumber(o.c))
  {
    hide Finish;
    forall d: Ctl, i: nat | d.stack != [] && Finish(d, i).Go?
           && (forall k :: 0 <= k < |d.stack| - 1 ==> Container(d.stack[k].kind))
      ensures !InNumber(Finish(d, i).c)
    {
      FinishLeaves(d, i);
    }
  }

  lemma {:induction false} OtherSame(s: seq<byte>, c: Ctl)
    requires Inv(s, c) && !c.seek && !InNumber(c)
    ensures var o := Step(true, s, c); o == Step(false, s, c) && (o.Go? ==> !InNumber(o.c))
  {
    hide Finish;
    hide SeekStep;
    hide DigitStep;
    hide Utf8;
    hide HexValue;
    forall d: Ctl, i: nat | d.stack != [] && Finish(d, i).Go?
           && (forall k :: 0 <= k < |d.stack| - 1 ==> Container(d.stack[k].kind))
      ensures !InNumber(Finish(d, i).c)
    {
      FinishLeaves(d, i);
    }
  }

  lemma {:induction false} NumberEntry(s: seq<byte>, c: Ctl)
    requires Inv(s, c) && NumberAt(s, c)
    ensures var o := Step(true, s, c);
            && o.Go? && o.ev == [New(Num)] && InNumber(o.c)
            && SpanEnd(s, o.c.i) == SpanEnd(s, c.i)
            && Step(false, s, c) == Prefix([New(Num)], Finish(o.c, SpanEnd(s, c.i)))
  {
    var d := NewValue(c, Num);
    var o := NumberStep(true, s, c, Ch(s, c.i));
    assert Step(true, s, c) == o;
    assert Step(false, s, c) == Prefix([New(Num)], Finish(d, SpanEnd(s, c.i)));
    FinishForgets(d, o.c, SpanEnd(s, c.i));
  }

  lemma {:induction false} AfterTwice(a: seq<Event>, b: seq<Event>, v: Verdict)
    ensures After(a, After(b, v)) == After(a + b, v)
  {
    if v.Accepted? { assert a + (b + v.ev) == (a + b) + v.ev; }
  }

  /** Whatever pass one accepts, pass two accepts as well, with the same storage
      events in the same order. */
  lemma {:induction false} PassesAgree(s: seq<byte>, c: Ctl)
    requires Inv(s, c) && !InNumber(c) && Run(true, s, c).Accepted?
    ensures Run(false, s, c) == Run(true, s, c)
    decreases |s| - c.i, Rank(c)
  {
    hide Step;
    hide Finish;
    var o := Step(true, s, c);
    StepSound(true, s, c);
    StepSound(false, s, c);
    if NumberAt(s, c) {
      NumberEntry(s, c);
      NumberRun(s, o.c);
      var f := Finish(o.c, SpanEnd(s, o.c.i));
      FinishCommas(o.c, SpanEnd(s, o.c.i));
      FinishLeaves(o.c, SpanEnd(s, o.c.i));
      PassesAgree(s, f.c);
      AfterTwice([New(Num)], f.ev, Run(true, s, f.c));
    } else {
      if c.seek { SeekSame(s, c); StepSeeks(s, c); } else { OtherSame(s, c); }
      if o.Go? { PassesAgree(s, o.c); }
    }
  }

  lemma {:induction false} StepSeeks(s: seq<byte>, c: Ctl)
    requires Inv(s, c) && c.seek
    ensures Step(true, s, c) == SeekStep(true, s, c) && Step(false, s, c) == SeekStep(false, s, c)
  {
  }

  /** Once a value has begun, no turn is undefined. */
  lemma {:induction false} NeverCrashes(first: bool, s: seq<byte>, c: Ctl)
    requires Inv(s, c) && c.stack != []
    ensures !Run(first, s, c).Crashed?
    decreases |s| - c.i, Rank(c)
  {
    hide Step;
    StepSound(first, s, c);
    if Step(first, s, c).Go? { NeverCrashes(first, s, Step(first, s, c).c); }
  }

  function FirstVisible(s: seq<byte>, i: nat): (r: nat)
    requires i <= |s|
    ensures i <= r <= |s|
    decreases |s| - i
  {
    if i < |s| && IsSpace(s[i]) then FirstVisible(s, i + 1) else i
  }

  /** A run dereferences the missing top exactly when the first character that is
      not white space is a closing bracket. */
  lemma {:induction false} CrashExact(first: bool, s: seq<byte>, i: nat)
    requires i <= |s|
    ensures Inv(s, START.(i := i))
    ensures Run(first, s, START.(i := i)).Crashed? <==> Ch(s, FirstVisible(s, i)) == 93
    decreases |s| - i
  {
    var c := START.(i := i);
    StepSound(first, s, c);
    var o := Step(first, s, c);
    if IsSpace(Ch(s, i)) {
      assert o == Go(START.(i := i + 1), []);
      CrashExact(first, s, i + 1);
    } else if Ch(s, i) != 93 {
      StartOpens(first, s, i);
      if o.Go? { NeverCrashes(first, s, o.c); }
    }
  }

  /** The shortest such input: a closing bracket alone. */
  lemma {:induction false} BracketCrashes(first: bool)
    ensures Run(first, [93], START).Crashed?
  {
    CrashExact(first, [93], 0);
  }

  lemma {:induction false} StartOpens(first: bool, s: seq<byte>, i: nat)
    requires i <= |s| && !IsSpace(Ch(s, i)) && Ch(s, i) != 93
    ensures var o := Step(first, s, START.(i := i)); !o.Undefined? && (o.Go? ==> o.c.stack != [])
  {
  }
}
