/** Bytes, the integer encodings of the wire formats, and the memory primitives
    the C code uses on its buffers. */
module Bytes {
  type byte = x: int | 0 <= x < 256

  /** The size of the server's buffers when they are made; they only grow. */
  const BUF_SIZE: nat := 2048

  function Hi(n: nat): byte { n / 256 % 256 }
  function Lo(n: nat): byte { n % 256 }

  /** Big-endian 16-bit value of two bytes. */
  function U16(b0: byte, b1: byte): (n: nat)
    ensures n < 65536
  {
    b0 * 256 + b1
  }

  lemma {:induction false} U16RoundTrip(n: nat)
    requires n < 65536
    ensures U16(Hi(n), Lo(n)) == n
  {
  }

  /** The four bytes of a 32-bit word, least significant first. */
  function Le32(w: nat): (s: seq<byte>)
    ensures |s| == 4
  {
    [w % 256, w / 256 % 256, w / 65536 % 256, w / 16777216 % 256]
  }

  function Be32(w: nat): (s: seq<byte>)
    ensures |s| == 4
  {
    [w / 16777216 % 256, w / 65536 % 256, w / 256 % 256, w % 256]
  }

  lemma {:induction false} Be32Exact(w: nat)
    requires w < 0x1_0000_0000
    ensures var s := Be32(w); ((s[0] as int * 256 + s[1] as int) * 256 + s[2] as int) * 256 + s[3] as int == w
  {
    assert w / 256 / 256 == w / 65536 && w / 65536 / 256 == w / 16777216;
  }

  /** Little-endian value of a byte string of any length. */
  function LeValue(s: seq<byte>): nat {
    if s == [] then 0 else s[0] + 256 * LeValue(s[1..])
  }

  lemma {:induction false} LeValue4(s: seq<byte>)
    requires |s| == 4
    ensures LeValue(s) == s[0] as int + 256 * s[1] as int + 65536 * s[2] as int + 16777216 * s[3] as int
  {
    assert s[1..][1..] == s[2..] && s[2..][1..] == s[3..] && s[3..][1..] == [];
    assert LeValue(s[3..]) == s[3];
    assert LeValue(s[2..]) == s[2] as int + 256 * s[3] as int;
    assert LeValue(s[1..]) == s[1] as int + 256 * s[2] as int + 65536 * s[3] as int;
  }

  /** Storing a 32-bit word byte by byte and reading it back are inverse. */
  lemma {:induction false} Le32Inverse(w: nat, s: seq<byte>)
    requires w < 0x1_0000_0000 && |s| == 4
    ensures LeValue(s) == w <==> s == Le32(w)
  {
    LeValue4(s);
    var b0: int, b1: int, b2: int, b3: int := s[0], s[1], s[2], s[3];
    var w1, w2, w3 := w / 256, w / 65536, w / 16777216;
    assert w1 / 256 == w2 && w2 / 256 == w3 && w3 < 256;
    assert w == w % 256 + 256 * (w1 % 256) + 65536 * (w2 % 256) + 16777216 * w3;
    if LeValue(s) == w {
      assert w1 == b1 + 256 * b2 + 65536 * b3;
      assert w2 == b2 + 256 * b3;
      assert w3 == b3;
    }
  }

  datatype Option<T> = None | Some(value: T)

  /** Concatenation of a list of buffers. */
  function Flatten(ss: seq<seq<byte>>): seq<byte> {
    if ss == [] then [] else ss[0] + Flatten(ss[1..])
  }

  lemma {:induction false} Associate<T>(a: seq<T>, b: seq<T>, c: seq<T>)
    ensures a + (b + c) == a + b + c
  {
  }

  lemma {:induction false} Slices<T>(s: seq<T>, pos: nat, a: nat, b: nat)
    requires a <= b && pos + b <= |s|
    ensures s[pos..][a..b] == s[pos + a..pos + b] && s[pos..][b..] == s[pos + b..]
  {
  }

  /** memmove within one array: source and destination may overlap. */
  method Move(a: array<byte>, dst: nat, src: nat, n: nat)
    requires src + n <= a.Length && dst + n <= a.Length
    modifies a
    ensures a[..] == old(a[..dst]) + old(a[src..src + n]) + old(a[dst + n..])
  {
    ghost var was := a[..];
    ghost var moved := was[..dst] + was[src..src + n] + was[dst + n..];
    assert forall j {:trigger moved[j]} :: dst <= j < dst + n ==> moved[j] == was[j - dst + src];
    if dst < src {
      for i := 0 to n
        invariant forall j :: 0 <= j < dst + i ==> a[j] == moved[j]
        invariant forall j :: dst + i <= j < a.Length ==> a[j] == was[j]
      {
        assert moved[dst + i] == was[src + i];
        a[dst + i] := a[src + i];
      }
    } else {
      for i := n downto 0
        invariant forall j :: 0 <= j < dst + i ==> a[j] == was[j]
        invariant forall j :: dst + i <= j < a.Length ==> a[j] == moved[j]
      {
        assert moved[dst + i] == was[src + i];
        a[dst + i] := a[src + i];
      }
    }
    assert a[..] == moved;
  }

  /** memcpy into an array. */
  method Store(a: array<byte>, dst: nat, s: seq<byte>)
    requires dst + |s| <= a.Length
    modifies a
    ensures a[..] == old(a[..dst]) + s + old(a[dst + |s|..])
  {
    ghost var was := a[..];
    for i := 0 to |s|
      invariant forall j :: 0 <= j < a.Length ==>
        a[j] == if dst <= j < dst + i then s[j - dst] else was[j]
    {
      a[dst + i] := s[i];
    }
    assert a[..] == was[..dst] + s + was[dst + |s|..];
  }
}
