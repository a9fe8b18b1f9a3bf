/** crc32.c: the table-driven CRC-32 (section 8 of RFC 1952) and Adler-32 with
    deferred modulo (sections 8.2 and 9 of RFC 1950). */
module Checksums {
  import opened Bits
  import opened Bytes

  const POLY: nat := 0xedb88320
  const ONES: nat := 0xFFFFFFFF
  const ADLER_BASE: nat := 65521
  const NMAX: nat := 5552

  // ---------- CRC-32: the bit-by-bit reference ----------

  /** One bit of the CRC register. */
  function BitStep(c: nat): nat {
    if c % 2 == 1 then Xor(POLY, c / 2) else c / 2
  }

  function Steps(c: nat, n: nat): nat
    decreases n
  {
    if n == 0 then c else Steps(BitStep(c), n - 1)
  }

  /** The register after a buffer, one bit at a time. */
  function Register(c: nat, s: seq<byte>): nat
    decreases |s|
  {
    if s == [] then c else Register(Steps(Xor(c, s[0]), 8), s[1..])
  }

  lemma {:induction false} WordIsPow2()
    ensures Pow2(32) == WORD && Pow2(8) == 256
  {
    assert Pow2(8) == 256;
    Pow2Add(8, 8); Pow2Add(16, 16);
  }

  lemma {:induction false} BitStepLinear(a: nat, b: nat)
    ensures BitStep(Xor(a, b)) == Xor(BitStep(a), BitStep(b))
  {
    calc {
      BitStep(Xor(a, b));
      { XorBits(a, b); }
      if a % 2 == 1 <==> b % 2 == 1 then Xor(a / 2, b / 2) else Xor(POLY, Xor(a / 2, b / 2));
      { Feedback(POLY, a / 2, b / 2); }
      Xor(BitStep(a), BitStep(b));
    }
  }

  /** Adding a constant to one operand, the other, or both. */
  lemma {:induction false} Feedback(p: nat, x: nat, y: nat)
    ensures Xor(Xor(p, x), y) == Xor(p, Xor(x, y))
    ensures Xor(x, Xor(p, y)) == Xor(p, Xor(x, y))
    ensures Xor(Xor(p, x), Xor(p, y)) == Xor(x, y)
  {
    XorAssoc(p, x, y);
    assert Xor(x, Xor(p, y)) == Xor(p, Xor(x, y)) by {
      XorAssoc(x, p, y); XorComm(x, p);
    }
    calc {
      Xor(Xor(p, x), Xor(p, y));
      { XorAssoc(p, x, Xor(p, y)); }
      Xor(p, Xor(p, Xor(x, y)));
      { XorAssoc(p, p, Xor(x, y)); XorSelf(p); XorZero(Xor(x, y)); }
      Xor(x, y);
    }
  }

  lemma {:induction false} StepsLinear(a: nat, b: nat, n: nat)
    ensures Steps(Xor(a, b), n) == Xor(Steps(a, n), Steps(b, n))
    decreases n
  {
    if n > 0 {
      BitStepLinear(a, b);
      StepsLinear(BitStep(a), BitStep(b), n - 1);
    }
  }

  /** Bits above position n come down unchanged. */
  lemma {:induction false} StepsShift(v: nat, n: nat)
    ensures Steps(Shl(v, n), n) == v
    decreases n
  {
    if n > 0 { StepsShift(v, n - 1); }
  }

  lemma {:induction false} StepsAdd(c: nat, m: nat, n: nat)
    ensures Steps(c, m + n) == Steps(Steps(c, m), n)
    decreases m
  {
    if m > 0 {
      StepsAdd(BitStep(c), m - 1, n);
      assert m + n - 1 == (m - 1) + n;
    }
  }

  /** The register stays a 32-bit word. */
  lemma {:induction false} StepsWord(c: nat, n: nat)
    requires c < WORD
    ensures Steps(c, n) < WORD
    decreases n
  {
    if n > 0 {
      WordIsPow2();
      XorBound(POLY, c / 2, 32);
      StepsWord(BitStep(c), n - 1);
    }
  }

  /** A nonzero register never becomes zero by stepping. */
  lemma {:induction false} StepsZero(c: nat, n: nat)
    requires c < WORD
    ensures Steps(c, n) == 0 <==> c == 0
    decreases n
  {
    if n > 0 {
      WordIsPow2();
      XorBound(POLY, c / 2, 32);
      if c % 2 == 1 { XorIsZero(POLY, c / 2); }
      StepsZero(BitStep(c), n - 1);
    }
  }

  lemma {:induction false} XorWord(a: nat, b: nat)
    requires a < WORD && b < WORD
    ensures Xor(a, b) < WORD
  {
    WordIsPow2();
    XorBound(a, b, 32);
  }

  lemma {:induction false} RegisterWord(c: nat, s: seq<byte>)
    requires c < WORD
    ensures Register(c, s) < WORD
    decreases |s|
  {
    if s != [] {
      XorWord(c, s[0]);
      StepsWord(Xor(c, s[0]), 8);
      RegisterWord(Steps(Xor(c, s[0]), 8), s[1..]);
    }
  }

  lemma {:induction false} RegisterAppend(c: nat, s: seq<byte>, t: seq<byte>)
    ensures Register(c, s + t) == Register(Register(c, s), t)
    decreases |s|
  {
    if s == [] {
      assert s + t == t;
    } else {
      RegisterAppend(Steps(Xor(c, s[0]), 8), s[1..], t);
      assert (s + t)[1..] == s[1..] + t;
    }
  }

  lemma {:induction false} FoldByte(c: nat, b: byte, v: nat)
    ensures Xor(Steps(Xor(c, b), 8), v) == Steps(Xor(c, b + 256 * v), 8)
  {
    ShlByte(v);
    assert Pow2(8) == 256;
    calc {
      Xor(Steps(Xor(c, b), 8), v);
      { StepsShift(v, 8); }
      Xor(Steps(Xor(c, b), 8), Steps(256 * v, 8));
      { StepsLinear(Xor(c, b), 256 * v, 8); }
      Steps(Xor(Xor(c, b), 256 * v), 8);
      { XorAssoc(c, b, 256 * v); XorShifted(b, v, 8); }
      Steps(Xor(c, b + 256 * v), 8);
    }
  }

  /** Feeding bytes is the same as adding their little-endian value to the
      register and stepping it once per bit. */
  lemma {:induction false} RegisterTail(c: nat, s: seq<byte>)
    ensures Register(c, s) == Steps(Xor(c, LeValue(s)), 8 * |s|)
    decreases |s|
  {
    hide Xor;
    hide BitStep;
    if s == [] {
      XorZero(c);
    } else {
      var b, t := s[0], s[1..];
      RegisterTail(Steps(Xor(c, b), 8), t);
      FoldByte(c, b, LeValue(t));
      StepsAdd(Xor(c, LeValue(s)), 8, 8 * |t|);
      assert 8 + 8 * |t| == 8 * |s|;
    }
  }

  // ---------- CRC-32: the table-driven code ----------

  function TableEntry(i: nat): nat { Steps(i, 8) }

  ghost predicate IsTable(t: seq<nat>) {
    |t| == 256 && forall i :: 0 <= i < 256 ==> t[i] == TableEntry(i)
  }

  /** The inner loop of init_crc32_table. */
  method BuildEntry(i: nat) returns (c: nat)
    ensures c == TableEntry(i)
  {
    c := i;
    for j := 0 to 8
      invariant Steps(c, 8 - j) == Steps(i, 8)
    {
      c := if c % 2 == 1 then Xor(POLY, c / 2) else c / 2;
    }
  }

  /** init_crc32_table: entry 0 doubles as the "not yet built" mark. */
  method InitTable(t: array<nat>)
    requires t.Length == 256
    requires t[0] == 0 || IsTable(t[..])
    modifies t
    ensures IsTable(t[..])
  {
    if t[0] == 0 {
      for i := 0 to 256
        invariant forall m :: 0 <= m < i ==> t[m] == TableEntry(m)
      {
        var c := BuildEntry(i);
        t[i] := c;
      }
    }
  }

  /** One table look-up does the work of eight bit steps. */
  lemma {:induction false} TableStep(c: nat, b: byte)
    ensures Xor(c, b) % 256 < 256
    ensures Xor(TableEntry(Xor(c, b) % 256), Shr(c, 8)) == Steps(Xor(c, b), 8)
  {
    var x := Xor(c, b);
    var lo, hi := x % 256, x / 256;
    assert Pow2(8) == 256;
    assert hi == Shr(c, 8) by {
      XorHigh(c, b, 8); ShrIsDiv(x, 8); ShrIsDiv(b, 8); XorZero(Shr(c, 8));
    }
    calc {
      Steps(x, 8);
      { XorShifted(lo, hi, 8); ShlByte(hi); assert x == lo + 256 * hi; }
      Steps(Xor(lo, 256 * hi), 8);
      { StepsLinear(lo, 256 * hi, 8); }
      Xor(Steps(lo, 8), Steps(256 * hi, 8));
      { StepsShift(hi, 8); ShlByte(hi); }
      Xor(Steps(lo, 8), hi);
    }
  }

  /** The loop shared by crc32, fillcrc32 and fillcrc32to. */
  method TableRegister(table: seq<nat>, s: seq<byte>) returns (crc: nat)
    requires IsTable(table)
    ensures crc == Register(ONES, s) && crc < WORD
  {
    crc := ONES;
    for i := 0 to |s|
      invariant Register(ONES, s) == Register(crc, s[i..])
    {
      TableStep(crc, s[i]);
      crc := Xor(table[Xor(crc, s[i]) % 256], Shr(crc, 8));
      assert s[i..][1..] == s[i + 1..];
    }
    assert s[|s|..] == [];
    RegisterWord(ONES, s);
  }

  function Crc(s: seq<byte>): nat { Xor(Register(ONES, s), ONES) }

  method Crc32(table: seq<nat>, s: seq<byte>) returns (crc: nat)
    requires IsTable(table)
    ensures crc == Crc(s) && crc < WORD
  {
    crc := TableRegister(table, s);
    XorWord(crc, ONES);
    crc := Xor(crc, ONES);
  }

  /** The polynomial is x^32 + x^26 + x^23 + x^22 + x^16 + x^12 + x^11 + x^10 + x^8 + x^7
      + x^5 + x^4 + x^2 + x + 1, with the coefficient of x^k at bit 31 - k. */
  lemma {:induction false} Polynomial()
    ensures POLY == Pow2(5) + Pow2(8) + Pow2(9) + Pow2(15) + Pow2(19) + Pow2(20) + Pow2(21) + Pow2(23) + Pow2(24)
                    + Pow2(26) + Pow2(27) + Pow2(29) + Pow2(30) + Pow2(31)
  {
    LowPowers();
    hide Pow2;
    Pow2Add(15, 4);
    Pow2Add(15, 5);
    Pow2Add(15, 6);
    Pow2Add(15, 8);
    Pow2Add(15, 9);
    Pow2Add(15, 11);
    Pow2Add(15, 12);
    Pow2Add(15, 14);
    Pow2Add(15, 15);
    Pow2Add(15, 16);
    Pow2Add(15, 1);
  }

  lemma {:induction false} LowPowers()
    ensures Pow2(1) == 2 && Pow2(4) == 16 && Pow2(5) == 32 && Pow2(6) == 64 && Pow2(8) == 256 && Pow2(9) == 512
    ensures Pow2(11) == 2048 && Pow2(12) == 4096 && Pow2(14) == 16384 && Pow2(15) == 32768
  {
  }

  /** A check value: the CRC of the single byte 255. */
  lemma {:induction false} CheckValue()
    ensures Crc([255]) == 0xFF000000
  {
    LowOnes(0xFFFFFF, 8);
    LowOnes(0xFF, 24);
    LowPowers();
    Pow2Add(12, 12);
    ShiftedOnes();
    XorComm(0xFFFFFF, 0xFFFFFFFF);
    hide Xor;
    hide Steps;
    hide Pow2;
    assert [255][1..] == [];
  }

  lemma {:induction false} ShiftedOnes()
    ensures Steps(0xFFFFFF00, 8) == 0xFFFFFF
  {
    hide Xor;
  }

  /** fillcrc32: the last four bytes of the frame receive the raw register. */
  method FillCrc32(table: seq<nat>, buffer: array<byte>, size: nat)
    requires IsTable(table) && 4 <= size <= buffer.Length
    modifies buffer
    ensures buffer[..size] == old(buffer[..size - 4]) + Le32(Register(ONES, old(buffer[..size - 4])))
    ensures buffer[size..] == old(buffer[size..])
  {
    var crc := TableRegister(table, buffer[..size - 4]);
    Store(buffer, size - 4, Le32(crc));
  }

  /** The receiver's test: the whole frame, trailer included, gives -1. */
  predicate CrcFrameOk(frame: seq<byte>) { Crc(frame) == ONES }

  /** The receiver's test accepts a frame exactly when its last four bytes are
      the register that fillcrc32 stores. */
  lemma {:induction false} CrcFrameExact(body: seq<byte>, tail: seq<byte>)
    requires |tail| == 4
    ensures CrcFrameOk(body + tail) <==> tail == Le32(Register(ONES, body))
  {
    var c, v := Register(ONES, body), LeValue(tail);
    RegisterWord(ONES, body);
    LeValue4(tail);
    RegisterAppend(ONES, body, tail);
    RegisterTail(c, tail);
    XorWord(c, v);
    StepsZero(Xor(c, v), 32);
    XorIsZero(c, v);
    Le32Inverse(c, tail);
    var r := Register(ONES, body + tail);
    XorAssoc(r, ONES, ONES); XorSelf(ONES); XorZero(r); XorZero(ONES);
    assert Crc(body + tail) == ONES <==> r == 0;
  }

  // ---------- Adler-32 ----------

  /** The per-byte definition: both sums reduced after every byte. */
  function AdlerA(a: nat, s: seq<byte>): nat
    decreases |s|
  {
    if s == [] then a else AdlerA((a + s[0]) % ADLER_BASE, s[1..])
  }

  function AdlerB(a: nat, b: nat, s: seq<byte>): nat
    decreases |s|
  {
    if s == [] then b
    else var a' := (a + s[0]) % ADLER_BASE; AdlerB(a', (b + a') % ADLER_BASE, s[1..])
  }

  function Adler(s: seq<byte>): nat {
    AdlerB(1, 0, s) * 65536 + AdlerA(1, s)
  }

  /** The sums without any reduction. */
  function SumA(a: nat, s: seq<byte>): nat
    decreases |s|
  {
    if s == [] then a else SumA(a + s[0], s[1..])
  }

  function SumB(a: nat, b: nat, s: seq<byte>): nat
    decreases |s|
  {
    if s == [] then b else SumB(a + s[0], b + a + s[0], s[1..])
  }

  lemma {:induction false} ModSum(x: nat, y: nat)
    ensures (x % ADLER_BASE + y) % ADLER_BASE == (x + y) % ADLER_BASE
  {
  }

  /** Reducing once at the end of a block gives what reducing after every byte
      gives. */
  lemma {:induction false} Deferred(a: nat, b: nat, a': nat, b': nat, s: seq<byte>)
    requires a' == a % ADLER_BASE && b' == b % ADLER_BASE
    ensures AdlerA(a', s) == SumA(a, s) % ADLER_BASE
    ensures AdlerB(a', b', s) == SumB(a, b, s) % ADLER_BASE
    decreases |s|
  {
    if s != [] {
      var x: nat := s[0];
      ModSum(a, x);
      var a1 := (a' + x) % ADLER_BASE;
      ModSum(b, a1); ModSum(a + x, b);
      assert (b' + a1) % ADLER_BASE == (b + a + x) % ADLER_BASE;
      Deferred(a + x, b + a + x, a1, (b' + a1) % ADLER_BASE, s[1..]);
    }
  }

  /** adler32_short: the 32-bit sums of a block of at most NMAX bytes do not
      overflow, and only the block end reduces them. */
  method AdlerShort(s: seq<byte>, a0: uint32, b0: uint32) returns (a: uint32, b: uint32)
    requires |s| <= NMAX
    requires a0 as int < ADLER_BASE && b0 as int < ADLER_BASE
    ensures a as int == AdlerA(a0 as int, s) && b as int == AdlerB(a0 as int, b0 as int, s)
    ensures a as int < ADLER_BASE && b as int < ADLER_BASE
  {
    a, b := a0, b0;
    assert s[0..] == s;
    for i := 0 to |s|
      invariant a as int <= 65520 + 255 * i
      invariant 2 * b as int <= BoundB(i)
      invariant SumA(a as int, s[i..]) == SumA(a0 as int, s)
      invariant SumB(a as int, b as int, s[i..]) == SumB(a0 as int, b0 as int, s)
    {
      assert s[i..][1..] == s[i + 1..];
      Growth(i);
      a := a + s[i] as uint32;
      b := b + a;
    }
    assert s[|s|..] == [];
    Deferred(a0 as int, b0 as int, a0 as int, b0 as int, s);
    a := a % 65521;
    b := b % 65521;
  }

  lemma {:induction false} MulMono(a: nat, b: nat, c: nat)
    requires a <= b
    ensures a * c <= b * c
    decreases c
  {
    if c > 0 {
      MulMono(a, b, c - 1);
      assert a * c == a * (c - 1) + a && b * c == b * (c - 1) + b;
    }
  }

  function BoundB(i: nat): nat { 131040 * (i + 1) + 255 * (i * i + i) }

  lemma {:induction false} Growth(i: nat)
    requires i < NMAX
    ensures BoundB(i) + 2 * (65520 + 255 * (i + 1)) <= BoundB(i + 1) < 2 * WORD
  {
    var q := i * i;
    MulMono(i, 5551, i);
    assert (i + 1) * (i + 1) == q + 2 * i + 1;
  }

  /** adler32: whole blocks of NMAX bytes, then the rest. */
  method Adler32(s: seq<byte>) returns (r: uint32)
    ensures r as int == Adler(s)
  {
    var a: uint32, b: uint32 := 1, 0;
    var pos := 0;
    assert s[0..] == s;
    while |s| - pos >= NMAX
      invariant 0 <= pos <= |s| && a as int < ADLER_BASE && b as int < ADLER_BASE
      invariant AdlerA(a as int, s[pos..]) == AdlerA(1, s)
      invariant AdlerB(a as int, b as int, s[pos..]) == AdlerB(1, 0, s)
    {
      ghost var block, rest := s[pos..pos + NMAX], s[pos + NMAX..];
      assert s[pos..] == block + rest;
      AdlerAppend(a as int, b as int, block, rest);
      a, b := AdlerShort(s[pos..pos + NMAX], a, b);
      pos := pos + NMAX;
    }
    a, b := AdlerShort(s[pos..], a, b);
    r := b * 65536 + a;
  }

  lemma {:induction false} AdlerAppend(a: nat, b: nat, s: seq<byte>, t: seq<byte>)
    ensures AdlerA(a, s + t) == AdlerA(AdlerA(a, s), t)
    ensures AdlerB(a, b, s + t) == AdlerB(AdlerA(a, s), AdlerB(a, b, s), t)
    decreases |s|
  {
    if s == [] {
      assert s + t == t;
    } else {
      var a' := (a + s[0]) % ADLER_BASE;
      AdlerAppend(a', (b + a') % ADLER_BASE, s[1..], t);
      assert (s + t)[1..] == s[1..] + t;
    }
  }

  lemma {:induction false} AdlerReduced(a: nat, b: nat, s: seq<byte>)
    requires a < ADLER_BASE && b < ADLER_BASE
    ensures AdlerA(a, s) < ADLER_BASE && AdlerB(a, b, s) < ADLER_BASE
    decreases |s|
  {
    if s != [] {
      var a' := (a + s[0]) % ADLER_BASE;
      AdlerReduced(a', (b + a') % ADLER_BASE, s[1..]);
    }
  }

  lemma {:induction false} AdlerWord(s: seq<byte>)
    ensures Adler(s) < WORD
  {
    AdlerReduced(1, 0, s);
  }

  /** filladler32 */
  method FillAdler32(buffer: array<byte>, size: nat)
    requires 4 <= size <= buffer.Length
    modifies buffer
    ensures buffer[..size] == old(buffer[..size - 4]) + Le32(Adler(old(buffer[..size - 4])))
    ensures buffer[size..] == old(buffer[size..])
  {
    var sum := Adler32(buffer[..size - 4]);
    Store(buffer, size - 4, Le32(sum as int));
  }

  predicate AdlerFrameOk(frame: seq<byte>)
    requires |frame| >= 4
  {
    Adler(frame[..|frame| - 4]) == LeValue(frame[|frame| - 4..])
  }

  /** checkadler32 */
  method CheckAdler32(frame: seq<byte>) returns (ok: bool)
    requires |frame| >= 4
    ensures ok == AdlerFrameOk(frame)
  {
    var n := |frame| - 4;
    var sum := Adler32(frame[..n]);
    var t := frame[n..];
    LeValue4(t);
    ok := sum as int == 16777216 * t[3] as int + 65536 * t[2] as int + 256 * t[1] as int + t[0] as int;
  }

  /** checkadler32 accepts a frame exactly when it ends as filladler32 ends it. */
  lemma {:induction false} AdlerFrameExact(body: seq<byte>, tail: seq<byte>)
    requires |tail| == 4
    ensures AdlerFrameOk(body + tail) <==> tail == Le32(Adler(body))
  {
    var frame := body + tail;
    assert frame[..|frame| - 4] == body && frame[|frame| - 4..] == tail;
    AdlerWord(body);
    Le32Inverse(Adler(body), tail);
  }

  /** The base is the largest prime below 2^16; and a check value: the sums of the single
      byte 97. */
  lemma {:induction false} AdlerCheck()
    ensures ADLER_BASE == Pow2(16) - 15
    ensures Adler([97]) == 0x00620062 && Adler([]) == 1
  {
    WordIsPow2();
    Pow2Add(8, 8);
    assert [97][1..] == [];
  }
}
