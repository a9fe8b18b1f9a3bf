/** json.c: how large a document must be for the size of an object to overflow. */
module JsonSize {
  import opened Bytes
  import opened Json
  import opened JsonStore
  import opened JsonPrint
  import opened JsonRoundTrip

  // ---------- Short inputs have small objects ----------

  function News(ev: seq<Event>): nat {
    if ev == [] then 0 else (if ev[0].New? then 1 else 0) + News(ev[1..])
  }

  function Pops(ev: seq<Event>): nat {
    if ev == [] then 0 else (if ev[0].Pop? then 1 else 0) + Pops(ev[1..])
  }

  lemma {:induction false} NewsAppend(a: seq<Event>, b: seq<Event>)
    ensures News(a + b) == News(a) + News(b)
  {
    if a == [] {
      assert a + b == b;
    } else {
      assert (a + b)[0] == a[0] && (a + b)[1..] == a[1..] + b;
      NewsAppend(a[1..], b);
    }
  }

  lemma {:induction false} OneNew(e: Event)
    ensures News([e]) == (if e.New? then 1 else 0) && News([]) == 0
  {
    assert [e][1..] == [];
  }

  /** In pass two a turn begins no more values than it takes characters. */
  lemma {:induction false} TurnNews(s: seq<byte>, c: Ctl)
    requires Inv(s, c) && Step(false, s, c).Go?
    ensures var o := Step(false, s, c); c.i + News(o.ev) <= o.c.i
  {
    hide Step;
    hide News;
    TurnShape(s, c);
    var o := Step(false, s, c);
    if |o.ev| == 1 {
      OneNew(o.ev[0]);
      assert o.ev == [o.ev[0]];
    } else if |o.ev| == 2 {
      NewsAppend([o.ev[0]], [o.ev[1]]);
      OneNew(o.ev[0]);
      OneNew(o.ev[1]);
      assert o.ev == [o.ev[0]] + [o.ev[1]];
    } else {
      OneNew(Key);
    }
  }

  /** The shape of the events of a turn. */
  ghost predicate Shaped(c: Ctl, o: Outcome) {
    o.Go? ==>
      && |o.ev| <= 2 && (|o.ev| == 2 ==> o.ev[1] == Pop)
      && (o.ev != [] && o.ev[0].New? ==> o.c.i > c.i) && o.c.i >= c.i
  }

  lemma {:induction false} FinishShape(c: Ctl, i: nat)
    requires c.stack != []
    ensures var o := Finish(c, i); o.Go? ==> o.c.i == i && (o.ev == [] || o.ev == [Pop])
  {
  }

  lemma {:induction false} SeekShape(s: seq<byte>, c: Ctl)
    requires Inv(s, c) && c.seek
    ensures Shaped(c, SeekStep(false, s, c))
  {
    hide Finish;
    var b := Ch(s, c.i);
    if b == 93 {
      if c.stack != [] { FinishShape(c.(comma := false, seek := false), c.i + 1); }
    } else if !c.comma && !c.colon {
      if IsDigit(b) || b == 45 {
        assert SpanEnd(s, c.i) == SpanEnd(s, c.i + 1);
        FinishShape(NewValue(c, Num), SpanEnd(s, c.i));
      } else if b == 116 || b == 102 || b == 110 {
        var kind, n := if b == 110 then Null else Bool(b == 116), if b == 102 then 4 else 3;
        FinishShape(NewValue(c, kind), c.i + 1 + n);
      }
    }
  }

  lemma {:induction false} StringShape(s: seq<byte>, c: Ctl)
    requires c.inStr && c.stack != []
    ensures Shaped(c, StringStep(s, c))
  {
    hide Finish;
    hide Utf8;
    hide HexValue;
    FinishShape(c.(inStr := false), c.i + 1);
  }

  lemma {:induction false} TurnShape(s: seq<byte>, c: Ctl)
    requires Inv(s, c)
    ensures Shaped(c, Step(false, s, c))
  {
    hide Finish;
    hide SeekStep;
    hide StringStep;
    if c.inStr { StringShape(s, c);
    } else if c.seek { SeekShape(s, c);
    } else if !c.done {
      FinishShape(c.(comma := false), c.i + 1);
      FinishShape(c, c.i);
    }
  }

  /** A run begins no more values than it has characters. */
  lemma {:induction false} RunNews(s: seq<byte>, c: Ctl)
    requires Inv(s, c) && Run(false, s, c).Accepted?
    ensures c.i + News(Run(false, s, c).ev) <= |s|
    decreases |s| - c.i, Rank(c)
  {
    hide Step;
    hide News;
    var o := Step(false, s, c);
    StepSound(false, s, c);
    if o.Go? {
      TurnNews(s, c);
      RunNews(s, o.c);
      NewsAppend(o.ev, Run(false, s, o.c).ev);
    } else {
      OneNew(Key);
    }
  }

  /** Every value that becomes an element was begun, and is not open any more. */
  lemma {:induction false} ElementsBound(d: Doc, ev: seq<Event>, m: nat)
    requires Legal(d, ev) && forall n :: 0 <= n < |d.nodes| ==> |d.nodes[n].values| <= m
    ensures var b := Build(d, ev);
            && (forall n :: 0 <= n < |b.nodes| ==> |b.nodes[n].values| <= m + Pops(ev))
            && |d.path| + News(ev) == |b.path| + Pops(ev)
    decreases |ev|
  {
    hide Allowed;
    hide Grow;
    if ev != [] {
      var g := Grow(d, ev[0]);
      GrowElements(d, ev[0], m);
      ElementsBound(g, ev[1..], if ev[0].Pop? then m + 1 else m);
    }
  }

  lemma {:induction false} GrowElements(d: Doc, e: Event, m: nat)
    requires Allowed(d, e) && forall n :: 0 <= n < |d.nodes| ==> |d.nodes[n].values| <= m
    ensures var g := Grow(d, e);
            && (forall n :: 0 <= n < |g.nodes| ==> |g.nodes[n].values| <= if e.Pop? then m + 1 else m)
            && |g.path| == |d.path| + (if e.New? then 1 else 0) - (if e.Pop? then 1 else 0)
  {
  }

  /** The sizes of an accepted input's objects fit when the input is shorter than
      89478486 bytes. */
  lemma {:induction false} ShortInputsFit(s: seq<byte>)
    requires Inv(s, START) && Run(true, s, START).Accepted? && ENTRY * |s| < INT_LIMIT
    ensures var one := Perform(true, NO_VALUES, Run(true, s, START).ev); one.Some? && AllSized(one.value.vals, 0)
  {
    hide Run;
    hide Perform;
    hide DocOk;
    hide News;
    hide Pops;
    TwoPasses(s);
    RunNews(s, START);
    var ev := Run(true, s, START).ev;
    var d, one := Build(EMPTY, ev), Perform(true, NO_VALUES, ev).value;
    ElementsBound(EMPTY, ev, 0);
    forall n | 0 <= n < |one.vals| ensures Sized(one.vals[n]) {
      assert Counted(one.vals[n], d.nodes[n], d.reading && n == TopOf(d), d.start);
      assert |d.nodes[n].values| <= Pops(ev) <= News(ev) <= |s|;
    }
  }

  // ---------- One that does not fit ----------

  /** n members with an empty name and the value null. */
  function Many(n: nat): Members {
    if n == 0 then NoMembers(false, []) else Member([], [], [], [], Nil, [], Many(n - 1))
  }

  lemma {:induction false} ManySize(n: nat, at: nat)
    ensures MembersOk(Many(n)) && |PrintMembers(Many(n))| == 8 * n + 1 && |MemberStarts(Many(n), at)| == n
    decreases n
  {
    if n > 0 {
      ManySize(n - 1, at + 1);
      assert |PrintName([], [])| == 3 && |Print(Nil)| == 4;
      assert |PrintFirstMember(Many(n))| == 7 + |PrintMembers(Many(n - 1))|;
    }
  }

  /** An object of 89478486 members, some 700 megabytes of text, is accepted by pass one,
      and pass two does not get through. */
  lemma {:induction false} WrappingObject()
    ensures var t := Document([], Object(Many(89478486)), [], []);
            && DocumentOk(t) && Inv(Written(t), START) && Run(true, Written(t), START).Accepted?
            && var one := Perform(true, NO_VALUES, Run(true, Written(t), START).ev);
            one.Some? && Perform(false, Rewind(one.value), Run(true, Written(t), START).ev).None?
  {
    hide Run;
    hide Perform;
    hide Many;
    var n := 89478486;
    var v := Object(Many(n));
    ManySize(n, 1);
    PrintedSize(Many(n), n);
    PrintedIsParsed(Document([], v, [], []));
    assert Flat(v, -1, 0)[0].kind.Obj? && |Flat(v, -1, 0)[0].values| == n;
    assert !SmallObjects(v);
  }

  lemma {:induction false} PrintedSize(ms: Members, n: nat)
    requires MembersOk(ms) && |PrintMembers(ms)| == 8 * n + 1
    ensures var t := Document([], Object(ms), [], []); DocumentOk(t) && |Written(t)| <= 8 * n + 2
  {
  }
}
