/** base64.c: Base64 (section 4 of RFC 4648), one character or byte per turn. */
module Base64 {
  import opened Bytes

  const PAD: byte := 61

  /** base64en */
  function Digit(n: nat): byte
    requires n < 64
  {
    if n < 26 then 65 + n
    else if n < 52 then 71 + n
    else if n < 62 then n - 4
    else if n == 62 then 43
    else 47
  }

  /** base64de, -1 for characters outside the alphabet. */
  function DigitValue(b: byte): int {
    if 65 <= b <= 90 then b - 65
    else if 97 <= b <= 122 then b - 71
    else if 48 <= b <= 57 then b as int + 4
    else if b == 43 then 62
    else if b == 47 then 63
    else -1
  }

  lemma {:induction false} DigitReadsBack(n: nat)
    requires n < 64
    ensures DigitValue(Digit(n)) == n && Digit(n) != PAD
  {
  }

  predicate InAlphabet(b: byte) { 65 <= b <= 90 || 97 <= b <= 122 || 48 <= b <= 57 || b == 43 || b == 47 }

  /** The four characters of three bytes. */
  function Quad(a: byte, b: byte, c: byte): seq<byte> {
    [Digit(a / 4), Digit(a % 4 * 16 + b / 16), Digit(b % 16 * 4 + c / 64), Digit(c % 64)]
  }

  function Encoded(x: seq<byte>): (r: seq<byte>)
    ensures |r| == (|x| + 2) / 3 * 4
  {
    if |x| == 0 then []
    else if |x| == 1 then Quad(x[0], 0, 0)[..2] + [PAD, PAD]
    else if |x| == 2 then Quad(x[0], x[1], 0)[..3] + [PAD]
    else Quad(x[0], x[1], x[2]) + Encoded(x[3..])
  }

  // ---------- Encoding ----------

  /** What is still to be written when i bytes have been taken: the partial group's
      characters already written are dropped. */
  function ToWrite(x: seq<byte>, i: nat): seq<byte>
    requires i <= |x|
  {
    var r := Encoded(x[i - i % 3..]);
    if i % 3 <= |r| then r[i % 3..] else []
  }

  /** The characters one more byte completes. */
  function Completed(x: seq<byte>, i: nat): seq<byte>
    requires i < |x|
  {
    if i % 3 == 0 then [Digit(x[i] / 4)]
    else if i % 3 == 1 then [Digit(x[i - 1] % 4 * 16 + x[i] / 16)]
    else [Digit(x[i - 1] % 16 * 4 + x[i] / 64), Digit(x[i] % 64)]
  }

  /** The characters of the first group, one by one. */
  lemma {:induction false} GroupChars(y: seq<byte>)
    requires y != []
    ensures Encoded(y)[0] == Digit(y[0] / 4)
    ensures |y| >= 2 ==> Encoded(y)[1] == Digit(y[0] % 4 * 16 + y[1] / 16)
    ensures |y| >= 3 ==> Encoded(y)[2] == Digit(y[1] % 16 * 4 + y[2] / 64) && Encoded(y)[3] == Digit(y[2] % 64)
    ensures |y| >= 3 ==> Encoded(y)[4..] == Encoded(y[3..])
    ensures |y| == 1 ==>
              |Encoded(y)| == 4 && Encoded(y)[1] == Digit(y[0] % 4 * 16) && Encoded(y)[2] == PAD && Encoded(y)[3] == PAD
    ensures |y| == 2 ==> |Encoded(y)| == 4 && Encoded(y)[2] == Digit(y[1] % 16 * 4) && Encoded(y)[3] == PAD
  {
    hide Digit;
  }

  lemma {:induction false} ToWriteAt(x: seq<byte>, k: nat, s: nat)
    requires k % 3 == 0 && s < 3 && k + s <= |x| && (s > 0 ==> k < |x|)
    ensures s <= |Encoded(x[k..])| && ToWrite(x, k + s) == Encoded(x[k..])[s..]
  {
    hide Encoded;
    assert (k + s) % 3 == s;
  }

  lemma {:induction false} TakeByte(x: seq<byte>, i: nat)
    requires i < |x|
    ensures ToWrite(x, i) == Completed(x, i) + ToWrite(x, i + 1)
  {
    hide Digit;
    hide Encoded;
    hide ToWrite;
    var s := i % 3;
    var k := i - s;
    var y := x[k..];
    var r := Encoded(y);
    GroupChars(y);
    ToWriteAt(x, k, s);
    if s < 2 {
      ToWriteAt(x, k, s + 1);
      assert y[s] == x[k + s] && y[0] == x[k];
      assert r[s..] == [r[s]] + r[s + 1..];
    } else {
      ToWriteAt(x, k + 3, 0);
      assert y[1] == x[k + 1] && y[2] == x[k + 2] && y[3..] == x[k + 3..];
      assert r[2..] == [r[2], r[3]] + r[4..];
      assert Encoded(y[3..])[0..] == Encoded(y[3..]);
    }
  }

  /** The last characters, after all bytes. */
  function Tail(x: seq<byte>): seq<byte>
    requires x != []
  {
    var n := |x| - 1;
    if n % 3 == 0 then [Digit(x[n] % 4 * 16), PAD, PAD]
    else if n % 3 == 1 then [Digit(x[n] % 16 * 4), PAD]
    else []
  }

  lemma {:induction false} TailIsRest(x: seq<byte>)
    requires x != []
    ensures ToWrite(x, |x|) == Tail(x)
  {
    hide Digit;
    hide Encoded;
    hide ToWrite;
    var s := |x| % 3;
    var k := |x| - s;
    var y := x[k..];
    ToWriteAt(x, k, s);
    if s > 0 {
      GroupChars(y);
      assert |y| == s && y[s - 1] == x[|x| - 1];
    }
  }

  /** base64_encode: a non-empty input, and an output buffer of the encoded size. */
  method Encode(x: seq<byte>, out: array<byte>)
    requires x != [] && out.Length >= |Encoded(x)|
    modifies out
    ensures out[..|Encoded(x)|] == Encoded(x)
    ensures out[|Encoded(x)|..] == old(out[|Encoded(x)|..])
  {
    hide Encoded;
    hide Digit;
    hide ToWrite;
    hide Completed;
    hide Tail;
    var i, j := 0, 0;
    ghost var done: seq<byte> := [];
    StartWriting(x);
    while i < |x|
      invariant i <= |x| && |done| == j && done + ToWrite(x, i) == Encoded(x)
      invariant forall k :: 0 <= k < j ==> out[k] == done[k]
      invariant forall k :: j <= k < out.Length ==> out[k] == old(out[k])
    {
      TakeByte(x, i);
      Associate(done, Completed(x, i), ToWrite(x, i + 1));
      done := done + Completed(x, i);
      j := WriteByte(x, i, out, j);
      i := i + 1;
    }
    TailIsRest(x);
    ghost var was := out[..];
    assert was[..j] == done;
    Store(out, j, Tail(x));
    assert out[..] == done + Tail(x) + was[j + |Tail(x)|..];
    assert done + Tail(x) == Encoded(x);
  }

  /** The switch of base64_encode: one byte completes one or two characters. */
  method WriteByte(x: seq<byte>, i: nat, out: array<byte>, j: nat) returns (j': nat)
    requires i < |x| && j + |Completed(x, i)| <= out.Length
    modifies out
    ensures j' == j + |Completed(x, i)| && out[j..j'] == Completed(x, i)
    ensures forall k :: 0 <= k < out.Length && !(j <= k < j') ==> out[k] == old(out[k])
    ensures forall k :: 0 <= k < |Completed(x, i)| ==> out[j + k] == Completed(x, i)[k]
  {
    hide Digit;
    j' := j;
    if i % 3 == 0 {
      out[j'], j' := Digit(x[i] / 4), j' + 1;
    } else if i % 3 == 1 {
      out[j'], j' := Digit(x[i - 1] % 4 * 16 + x[i] / 16), j' + 1;
    } else {
      out[j'], j' := Digit(x[i - 1] % 16 * 4 + x[i] / 64), j' + 1;
      out[j'], j' := Digit(x[i] % 64), j' + 1;
    }
  }

  lemma {:induction false} StartWriting(x: seq<byte>)
    ensures [] + ToWrite(x, 0) == Encoded(x)
  {
    assert x[0..] == x;
  }

  // ---------- Decoding ----------

  /** The decoder's output: the bytes written so far, the last of which may still
      await its low bits, and how many are complete. */
  datatype Out = Out(w: seq<byte>, j: nat)

  /** The verdict, and the bytes written in either case. */
  datatype Decoded = Invalid(w: seq<byte>) | Ok(w: seq<byte>)

  /** out[j] = v */
  function Put(o: Out, v: byte): (r: Out)
    ensures o.j <= |o.w| ==> |r.w| == o.j + 1 && r.j == o.j
  {
    Out((if o.j <= |o.w| then o.w[..o.j] else o.w) + [v], o.j)
  }

  /** out[j++] += v */
  function Finish(o: Out, v: nat): (r: Out)
    ensures |r.w| == |o.w| && r.j == o.j + 1
  {
    Out(if o.j < |o.w| then o.w[o.j := (o.w[o.j] as int + v) % 256] else o.w, o.j + 1)
  }

  /** One character of value c at position i of s. */
  function Turn(s: seq<byte>, i: nat, o: Out, c: nat): Out
    requires c < 64
  {
    var n := |s|;
    if i % 4 == 0 then Put(o, c * 4 % 256)
    else if i % 4 == 1 then
      var f := Finish(o, c / 16);
      if n < 3 || i < n - 3 || s[n - 2] != PAD then Put(f, c % 16 * 16) else f
    else if i % 4 == 2 then
      var f := Finish(o, c / 4);
      if n < 2 || i < n - 2 || s[n - 1] != PAD then Put(f, c % 4 * 64) else f
    else Finish(o, c)
  }

  /** base64_decode from position i on. */
  function DecodeFrom(s: seq<byte>, i: nat, o: Out): Decoded
    requires i <= |s|
    decreases |s| - i
  {
    if i == |s| || s[i] == PAD then Ok(o.w)
    else if DigitValue(s[i]) < 0 then Invalid(o.w)
    else DecodeFrom(s, i + 1, Turn(s, i, o, DigitValue(s[i])))
  }

  lemma {:induction false} OneChar(s: seq<byte>, i: nat, o: Out, n: nat)
    requires i < |s| && n < 64 && s[i] == Digit(n)
    ensures DecodeFrom(s, i, o) == DecodeFrom(s, i + 1, Turn(s, i, o, n))
  {
    hide Turn;
    DigitReadsBack(n);
  }

  /** The bits of three bytes, regrouped and put back. */
  lemma {:induction false} Regroup(a: byte, b: byte, c: byte)
    ensures (a / 4 * 4 + (a % 4 * 16 + b / 16) / 16) % 256 == a && (a % 4 * 16 + b / 16) % 16 == b / 16
    ensures (b / 16 * 16 + (b % 16 * 4 + c / 64) / 4) % 256 == b && (b % 16 * 4 + c / 64) % 4 == c / 64
    ensures (c / 64 * 64 + c % 64) % 256 == c
  {
  }

  lemma {:induction false} PutAt(w: seq<byte>, v: byte)
    ensures Put(Out(w, |w|), v) == Out(w + [v], |w|)
  {
  }

  lemma {:induction false} FinishAt(w: seq<byte>, v: byte, d: nat, r: byte)
    requires (v as int + d) % 256 == r
    ensures Finish(Out(w + [v], |w|), d) == Out(w + [r], |w| + 1)
  {
  }

  /** The first two characters of a group, and whether a third one follows. */
  lemma {:induction false} TwoChars(s: seq<byte>, i: nat, w: seq<byte>, a: byte, b: byte)
    requires i % 4 == 0 && i + 4 <= |s| && s[i] == Digit(a / 4) && s[i + 1] == Digit(a % 4 * 16 + b / 16)
    requires s[i + 2] == PAD ==> i + 4 == |s|
    ensures DecodeFrom(s, i, Out(w, |w|)) ==
            DecodeFrom(s, i + 2, Out(if s[i + 2] == PAD then w + [a] else (w + [a]) + [b / 16 * 16], |w| + 1))
  {
    hide DecodeFrom;
    hide Digit;
    hide Put;
    hide Finish;
    hide Turn;
    var v, c := a / 4 * 4, a % 4 * 16 + b / 16;
    OneChar(s, i, Out(w, |w|), a / 4);
    FirstStores(s, i, Out(w, |w|), a / 4);
    PutAt(w, v);
    OneChar(s, i + 1, Out(w + [v], |w|), c);
    Regroup(a, b, 0);
    FinishAt(w, v, c / 16, a);
    PutAt(w + [a], b / 16 * 16);
    SecondStores(s, i, w, v, c);
  }

  lemma {:induction false} FirstStores(s: seq<byte>, i: nat, o: Out, c: nat)
    requires i % 4 == 0 && c < 64
    ensures Turn(s, i, o, c) == Put(o, c * 4)
  {
    hide Put;
    hide Finish;
  }

  lemma {:induction false} SecondStores(s: seq<byte>, i: nat, w: seq<byte>, v: byte, c: nat)
    requires i % 4 == 0 && i + 4 <= |s| && c < 64 && (s[i + 2] == PAD ==> i + 4 == |s|)
    ensures var f := Finish(Out(w + [v], |w|), c / 16);
            Turn(s, i + 1, Out(w + [v], |w|), c) == if s[i + 2] == PAD then f else Put(f, c % 16 * 16)
  {
    hide Put;
    hide Finish;
    assert (i + 1) % 4 == 1;
  }

  /** The third character, and whether a fourth one follows. */
  lemma {:induction false} ThirdChar(s: seq<byte>, i: nat, w: seq<byte>, b: byte, c: byte)
    requires i % 4 == 0 && i + 4 <= |s| && s[i + 2] == Digit(b % 16 * 4 + c / 64)
    requires s[i + 3] == PAD ==> i + 4 == |s|
    ensures DecodeFrom(s, i + 2, Out(w + [b / 16 * 16], |w|)) ==
            DecodeFrom(s, i + 3, Out(if s[i + 3] == PAD then w + [b] else (w + [b]) + [c / 64 * 64], |w| + 1))
  {
    hide DecodeFrom;
    hide Digit;
    hide Put;
    hide Finish;
    hide Turn;
    var v, d := b / 16 * 16, b % 16 * 4 + c / 64;
    OneChar(s, i + 2, Out(w + [v], |w|), d);
    Regroup(0, b, c);
    FinishAt(w, v, d / 4, b);
    PutAt(w + [b], c / 64 * 64);
    ThirdStores(s, i, w, v, d);
  }

  lemma {:induction false} ThirdStores(s: seq<byte>, i: nat, w: seq<byte>, v: byte, d: nat)
    requires i % 4 == 0 && i + 4 <= |s| && d < 64 && (s[i + 3] == PAD ==> i + 4 == |s|)
    ensures var f := Finish(Out(w + [v], |w|), d / 4);
            Turn(s, i + 2, Out(w + [v], |w|), d) == if s[i + 3] == PAD then f else Put(f, d % 4 * 64)
  {
    hide Put;
    hide Finish;
    assert (i + 2) % 4 == 2;
  }

  lemma {:induction false} FourthChar(s: seq<byte>, i: nat, w: seq<byte>, c: byte)
    requires i % 4 == 0 && i + 4 <= |s| && s[i + 3] == Digit(c % 64)
    ensures DecodeFrom(s, i + 3, Out(w + [c / 64 * 64], |w|)) == DecodeFrom(s, i + 4, Out(w + [c], |w| + 1))
  {
    hide DecodeFrom;
    hide Digit;
    hide Finish;
    OneChar(s, i + 3, Out(w + [c / 64 * 64], |w|), c % 64);
    Regroup(0, 0, c);
    FinishAt(w, c / 64 * 64, c % 64, c);
    assert (i + 3) % 4 == 3;
  }

  lemma {:induction false} NotPadding(n: nat)
    requires n < 64
    ensures Digit(n) != PAD
  {
  }

  /** The groups from i on, behind the bytes w. */
  lemma {:induction false} DecodeGroups(s: seq<byte>, i: nat, w: seq<byte>, x: seq<byte>)
    requires i % 4 == 0 && i <= |s| && s[i..] == Encoded(x)
    ensures DecodeFrom(s, i, Out(w, |w|)) == Ok(w + x)
    decreases |x|
  {
    hide Digit;
    hide DecodeFrom;
    hide Encoded;
    if x == [] {
      AtEnd(s, i, w);
    } else {
      var r := Encoded(x);
      GroupChars(x);
      forall k | 0 <= k < 4 ensures s[i + k] == r[k] { assert s[i..][k] == s[i + k]; }
      assert s[i] == r[0] && s[i + 1] == r[1] && s[i + 2] == r[2] && s[i + 3] == r[3];
      var a := x[0];
      if |x| == 1 {
        TwoChars(s, i, w, a, 0);
        AtPadding(s, i + 2, w + [a], |w| + 1);
        assert x == [a];
      } else if |x| == 2 {
        var b := x[1];
        NotPadding(b % 16 * 4);
        TwoChars(s, i, w, a, b);
        ThirdChar(s, i, w + [a], b, 0);
        AtPadding(s, i + 3, (w + [a]) + [b], |w| + 2);
        assert x == [a, b] && (w + [a]) + [b] == w + x;
      } else {
        var v := WholeGroup(s, i, w, a, x[1], x[2]);
        assert s[i + 4..] == r[4..];
        DecodeGroups(s, i + 4, v, x[3..]);
        assert v + x[3..] == w + x;
      }
    }
  }

  lemma {:induction false} WholeGroup(s: seq<byte>, i: nat, w: seq<byte>, a: byte, b: byte, c: byte)
    returns (v: seq<byte>)
    requires i % 4 == 0 && i + 4 <= |s|
    requires s[i] == Digit(a / 4) && s[i + 1] == Digit(a % 4 * 16 + b / 16)
    requires s[i + 2] == Digit(b % 16 * 4 + c / 64) && s[i + 3] == Digit(c % 64)
    ensures v == w + [a, b, c] && DecodeFrom(s, i, Out(w, |w|)) == DecodeFrom(s, i + 4, Out(v, |v|))
  {
    hide Digit;
    hide DecodeFrom;
    NotPadding(b % 16 * 4 + c / 64);
    NotPadding(c % 64);
    TwoChars(s, i, w, a, b);
    ThirdChar(s, i, w + [a], b, c);
    FourthChar(s, i, (w + [a]) + [b], c);
    v := ((w + [a]) + [b]) + [c];
  }

  lemma {:induction false} AtEnd(s: seq<byte>, i: nat, w: seq<byte>)
    requires i <= |s| && s[i..] == []
    ensures DecodeFrom(s, i, Out(w, |w|)) == Ok(w + [])
  {
    assert w + [] == w && i == |s|;
  }

  lemma {:induction false} AtPadding(s: seq<byte>, i: nat, w: seq<byte>, j: nat)
    requires i < |s| && s[i] == PAD
    ensures DecodeFrom(s, i, Out(w, j)) == Ok(w)
  {
  }

  /** Decoding undoes encoding, and touches exactly as many bytes of its output buffer
      as were encoded. */
  lemma {:induction false} DecodeEncoded(x: seq<byte>)
    ensures DecodeFrom(Encoded(x), 0, Out([], 0)) == Ok(x)
  {
    hide DecodeFrom;
    hide Encoded;
    assert Encoded(x)[0..] == Encoded(x) && [] + x == x;
    DecodeGroups(Encoded(x), 0, [], x);
  }

  /** The first padding character, or the end. */
  function Padding(s: seq<byte>, i: nat): (k: nat)
    requires i <= |s|
    ensures i <= k <= |s| && (k < |s| ==> s[k] == 61) && forall m :: i <= m < k ==> s[m] != 61
    decreases |s| - i
  {
    if i == |s| || s[i] == 61 then i else Padding(s, i + 1)
  }

  /** A text is accepted if and only if every character in front of it is in the alphabet. */
  lemma {:induction false} VerdictExact(s: seq<byte>, i: nat, o: Out)
    requires i <= |s|
    ensures DecodeFrom(s, i, o).Ok? <==> forall k :: i <= k < Padding(s, i) ==> InAlphabet(s[k])
    decreases |s| - i
  {
    hide Turn;
    if i < |s| && s[i] != PAD && DigitValue(s[i]) >= 0 {
      VerdictExact(s, i + 1, Turn(s, i, o, DigitValue(s[i])));
    }
  }

  /** Two encodings: "foobar" (section 10 of RFC 4648), and one with both marks. */
  lemma {:induction false} TestVectors()
    ensures Encoded([102, 111, 111, 98, 97, 114]) == [90, 109, 57, 118, 89, 109, 70, 121]
    ensures Encoded([251, 255]) == [43, 47, 56, 61]
  {
    var x := [102, 111, 111, 98, 97, 114];
    assert x[3..] == [98, 97, 114] && [98, 97, 114][3..] == [];
    assert Encoded([98, 97, 114]) == Quad(98, 97, 114) + [];
  }

  // ---------- The decoding loop ----------

  /** A byte that is added to has been written before. */
  ghost predicate Written(s: seq<byte>, i: nat, o: Out) {
    && i <= |s| && (forall k :: 0 <= k < i ==> s[k] != PAD)
    && o.j <= |o.w| <= o.j + 1 && (i % 4 == 0 ==> |o.w| == o.j)
    && (i % 4 != 0 && i < |s| && s[i] != PAD ==> |o.w| == o.j + 1)
  }

  lemma {:induction false} TurnWrites(s: seq<byte>, i: nat, o: Out, c: nat)
    requires Written(s, i, o) && i < |s| && s[i] != PAD && c < 64
    ensures Written(s, i + 1, Turn(s, i, o, c)) && |Turn(s, i, o, c).w| >= |o.w|
    ensures |o.w| == o.j + if i % 4 > 0 then 1 else 0
  {
    hide Put;
    hide Finish;
  }

  lemma {:induction false} WritesGrow(s: seq<byte>, i: nat, o: Out)
    requires Written(s, i, o)
    ensures |DecodeFrom(s, i, o).w| >= |o.w|
    decreases |s| - i
  {
    hide Turn;
    hide Written;
    WrittenIn(s, i, o);
    if i < |s| && s[i] != PAD && DigitValue(s[i]) >= 0 {
      var c := DigitValue(s[i]);
      TurnWrites(s, i, o, c);
      WritesGrow(s, i + 1, Turn(s, i, o, c));
    }
  }

  lemma {:induction false} WrittenIn(s: seq<byte>, i: nat, o: Out)
    requires Written(s, i, o)
    ensures i <= |s| && o.j <= |o.w|
  {
  }

  /** base64_decode: for every input, the verdict and the bytes written are those of the
      definition, and the rest of the output buffer is untouched. */
  method Decode(s: seq<byte>, out: array<byte>) returns (ok: bool)
    requires out.Length >= |DecodeFrom(s, 0, Out([], 0)).w|
    modifies out
    ensures var d := DecodeFrom(s, 0, Out([], 0));
            ok == d.Ok? && out[..|d.w|] == d.w && out[|d.w|..] == old(out[|d.w|..])
  {
    hide Written;
    hide Turn;
    ghost var d := DecodeFrom(s, 0, Out([], 0));
    var i, j := 0, 0;
    ghost var o := Out([], 0);
    assert Written(s, 0, o) by { StartWritten(s); }
    ok := true;
    while i < |s|
      invariant i <= |s| && Written(s, i, o) && o.j == j && DecodeFrom(s, i, o) == d
      invariant |o.w| <= out.Length && forall k :: 0 <= k < |o.w| ==> out[k] == o.w[k]
      invariant forall k :: |o.w| <= k < out.Length ==> out[k] == old(out[k])
    {
      if s[i] == PAD { break; }
      var c := DigitValue(s[i]);
      if c == -1 { ok := false; break; }
      TurnWrites(s, i, o, c);
      WritesGrow(s, i + 1, Turn(s, i, o, c));
      j := StoreDigit(s, i, o, c, out, j);
      o := Turn(s, i, o, c);
      i := i + 1;
    }
    assert o.w == d.w;
    assert out[..|d.w|] == d.w;
  }

  lemma {:induction false} StartWritten(s: seq<byte>)
    ensures Written(s, 0, Out([], 0))
  {
  }

  /** The switch of base64_decode. */
  method StoreDigit(s: seq<byte>, i: nat, ghost o: Out, c: nat, out: array<byte>, j: nat) returns (j': nat)
    requires i < |s| && c < 64 && o.j == j <= |o.w| && (i % 4 > 0 ==> |o.w| == j + 1) && (i % 4 == 0 ==> |o.w| == j)
    requires |Turn(s, i, o, c).w| <= out.Length && |o.w| <= out.Length
    requires forall k :: 0 <= k < |o.w| ==> out[k] == o.w[k]
    modifies out
    ensures var t := Turn(s, i, o, c);
            && j' == t.j && (forall k :: 0 <= k < |t.w| ==> out[k] == t.w[k])
            && (forall k :: |t.w| <= k < out.Length ==> out[k] == old(out[k]))
  {
    j' := j;
    var n := |s|;
    if i % 4 == 0 {
      out[j'] := c * 4 % 256;
    } else if i % 4 == 1 {
      out[j'], j' := (out[j'] as int + c / 16) % 256, j' + 1;
      if n < 3 || i < n - 3 || s[n - 2] != PAD { out[j'] := c % 16 * 16; }
    } else if i % 4 == 2 {
      out[j'], j' := (out[j'] as int + c / 4) % 256, j' + 1;
      if n < 2 || i < n - 2 || s[n - 1] != PAD { out[j'] := c % 4 * 64; }
    } else {
      out[j'], j' := (out[j'] as int + c) % 256, j' + 1;
    }
  }
}
