/** json.c: the storage of json_parse_ex. Pass one counts elements and characters;
    pass two allocates blocks of the counted sizes and fills them. The reference is
    a document whose blocks simply grow. */
module JsonStore {
  import opened Bytes
  import opened Json

  /** A member name: where it starts in the object's text, and its length. */
  datatype Name = Name(off: nat, len: nat)

  // ---------- The document, with blocks that grow ----------

  datatype Node = Node(kind: Kind, parent: int, values: seq<nat>, names: seq<Name>, text: seq<byte>)

  /** Nodes in order of appearance, the open ones from the root to the top, and
      whether a string is being read and where in the top's text it starts. */
  datatype Doc = Doc(nodes: seq<Node>, path: seq<nat>, reading: bool, start: nat)

  const EMPTY := Doc([], [], false, 0)

  /** The node being built, or -1. */
  function TopOf(d: Doc): int { if d.path == [] then -1 else d.path[|d.path| - 1] }

  ghost predicate PathOk(d: Doc) {
    && (d.path == [] ==> d.nodes == [])
    && (forall k :: 0 <= k < |d.path| ==> d.path[k] < |d.nodes|)
    && (forall j, k :: 0 <= j < k < |d.path| ==> d.path[j] < d.path[k])
  }

  /** The events a document can take. */
  ghost predicate Allowed(d: Doc, e: Event) {
    PathOk(d) &&
    match e
    case New(_) => !d.reading && (d.path == [] || Ready(d.nodes[TopOf(d)]))
    case Key => !d.reading && d.path != [] && d.nodes[TopOf(d)].kind.Obj? && Whole(d.nodes[TopOf(d)])
    case Add(_) => d.reading && d.path != []
    case CloseStr => d.reading && d.path != [] && d.nodes[TopOf(d)].kind.Str?
    case CloseKey => d.reading && d.path != [] && d.nodes[TopOf(d)].kind.Obj?
    case Pop => !d.reading && |d.path| >= 2 && Whole(d.nodes[TopOf(d)])
  }

  /** Every member has its value. */
  predicate Whole(n: Node) { n.kind.Obj? ==> |n.names| == |n.values| }

  /** The next value has its place: in an object, its name is there. */
  predicate Ready(n: Node) { Container(n.kind) && (n.kind.Obj? ==> |n.names| == |n.values| + 1) }

  function Grow(d: Doc, e: Event): Doc
    requires Allowed(d, e)
  {
    var t := TopOf(d);
    match e
    case New(kind) =>
      Doc(d.nodes + [Node(kind, t, [], [], [])], d.path + [|d.nodes|], kind.Str?, 0)
    case Key => d.(reading := true, start := |d.nodes[t].text|)
    case Add(bs) => Put(d, t, d.nodes[t].(text := d.nodes[t].text + bs))
    case CloseStr => Put(d, t, d.nodes[t].(text := d.nodes[t].text + [0])).(reading := false)
    case CloseKey =>
      var n := d.nodes[t];
      var name := Name(d.start, if d.start <= |n.text| then |n.text| - d.start else 0);
      Put(d, t, n.(text := n.text + [0], names := n.names + [name])).(reading := false)
    case Pop =>
      var p := d.path[|d.path| - 2];
      Put(d, p, d.nodes[p].(values := d.nodes[p].values + [t])).(path := d.path[..|d.path| - 1])
  }

  function Put(d: Doc, k: int, n: Node): Doc
    requires 0 <= k < |d.nodes|
  {
    d.(nodes := d.nodes[k := n])
  }

  /** The shape of a document under construction. */
  ghost predicate DocOk(d: Doc) {
    PathOk(d) && ReadingOk(d) && LinksOk(d) && NodesOk(d) && OffPath(d)
  }

  ghost predicate ReadingOk(d: Doc)
    requires PathOk(d)
  {
    d.reading ==>
      && d.path != []
      && var n := d.nodes[TopOf(d)];
      d.start <= |n.text| && (n.kind.Str? || n.kind.Obj?) && (n.kind.Str? ==> d.start == 0) && Whole(n)
  }

  /** Each open node is a child of the one before, which waits for its value. */
  ghost predicate LinksOk(d: Doc)
    requires PathOk(d)
  {
    && (d.path != [] ==> d.nodes[d.path[0]].parent == -1)
    && (forall j, k :: 0 <= j < k < |d.path| && k == j + 1 ==> d.nodes[d.path[k]].parent == d.path[j])
    && (forall k :: 0 <= k < |d.path| - 1 ==> Ready(d.nodes[d.path[k]]))
  }

  ghost predicate NodesOk(d: Doc) {
    forall n :: 0 <= n < |d.nodes| ==> NodeOk(d.nodes[n], d.reading && n == TopOf(d))
  }

  ghost predicate OffPath(d: Doc) {
    forall n :: 0 <= n < |d.nodes| && n !in d.path ==> Whole(d.nodes[n])
  }

  ghost predicate NodeOk(n: Node, open: bool) {
    && (!Container(n.kind) ==> n.values == [])
    && (!n.kind.Obj? ==> n.names == [])
    && (!n.kind.Obj? && !n.kind.Str? ==> n.text == [])
    && (n.kind.Str? && !open ==> n.text != [])
  }

  lemma {:induction false} NewLinks(d: Doc, kind: Kind)
    requires Allowed(d, New(kind)) && LinksOk(d)
    ensures var g := Grow(d, New(kind)); PathOk(g) && LinksOk(g)
  {
    var g := Grow(d, New(kind));
    var n := |d.path|;
    assert g.path[n] == |d.nodes| && g.nodes[g.path[n]].parent == TopOf(d);
    assert PathOk(g);
    forall k | 0 <= k < n ensures g.path[k] == d.path[k] && g.nodes[g.path[k]] == d.nodes[d.path[k]] {}
  }

  lemma {:induction false} NewOff(d: Doc, kind: Kind)
    requires Allowed(d, New(kind)) && OffPath(d)
    ensures OffPath(Grow(d, New(kind)))
  {
    var g := Grow(d, New(kind));
    forall n | 0 <= n < |g.nodes| && n !in g.path ensures Whole(g.nodes[n]) {
      assert n !in d.path by { assert d.path <= g.path; }
    }
  }

  lemma {:induction false} NewOk(d: Doc, kind: Kind)
    requires DocOk(d) && Allowed(d, New(kind))
    ensures DocOk(Grow(d, New(kind)))
  {
    hide LinksOk;
    hide OffPath;
    NewLinks(d, kind);
    NewOff(d, kind);
  }

  /** Events that only touch the top. */
  lemma {:induction false} TopOk(d: Doc, e: Event)
    requires DocOk(d) && Allowed(d, e) && !e.New? && !e.Pop?
    ensures DocOk(Grow(d, e))
  {
    var g := Grow(d, e);
    var t := TopOf(d);
    assert g.path == d.path && |g.nodes| == |d.nodes|;
    forall n | 0 <= n < |d.nodes| && n != t ensures g.nodes[n] == d.nodes[n] {}
    assert forall k :: 0 <= k < |d.path| - 1 ==> d.path[k] != t;
    assert NodeOk(g.nodes[t], g.reading);
  }

  lemma {:induction false} PopLinks(d: Doc)
    requires Allowed(d, Pop) && LinksOk(d)
    ensures var g := Grow(d, Pop); PathOk(g) && LinksOk(g)
  {
    var g := Grow(d, Pop);
    var m := |d.path| - 2;
    forall k | 0 <= k <= m ensures g.path[k] == d.path[k] {}
    forall k | 0 <= k < m ensures g.nodes[g.path[k]] == d.nodes[d.path[k]] {
      assert d.path[k] < d.path[m];
    }
    assert g.nodes[d.path[m]].parent == d.nodes[d.path[m]].parent;
  }

  lemma {:induction false} PopOff(d: Doc)
    requires Allowed(d, Pop) && OffPath(d)
    ensures OffPath(Grow(d, Pop))
  {
    var g := Grow(d, Pop);
    forall n | 0 <= n < |g.nodes| && n !in g.path ensures Whole(g.nodes[n]) {
      assert d.path[|d.path| - 2] == g.path[|g.path| - 1];
      assert n in d.path ==> n == TopOf(d) by {
        assert d.path == g.path + [TopOf(d)];
      }
    }
  }

  lemma {:induction false} PopOk(d: Doc)
    requires DocOk(d) && Allowed(d, Pop)
    ensures DocOk(Grow(d, Pop))
  {
    hide OffPath;
    PopLinks(d);
    PopOff(d);
    assert Ready(d.nodes[d.path[|d.path| - 2]]);
  }

  lemma {:induction false} GrowOk(d: Doc, e: Event)
    requires DocOk(d) && Allowed(d, e)
    ensures DocOk(Grow(d, e))
  {
    hide Grow;
    hide DocOk;
    if e.New? { NewOk(d, e.kind);
    } else if e.Pop? { PopOk(d);
    } else { TopOk(d, e); }
  }

  // ---------- The events of a run make a document ----------

  ghost predicate Legal(d: Doc, ev: seq<Event>)
    decreases |ev|
  {
    ev == [] || (Allowed(d, ev[0]) && Legal(Grow(d, ev[0]), ev[1..]))
  }

  function Build(d: Doc, ev: seq<Event>): Doc
    requires Legal(d, ev)
    decreases |ev|
  {
    if ev == [] then d else Build(Grow(d, ev[0]), ev[1..])
  }

  lemma {:induction false} BuildAppend(d: Doc, a: seq<Event>, b: seq<Event>)
    requires Legal(d, a) && Legal(Build(d, a), b)
    ensures Legal(d, a + b) && Build(d, a + b) == Build(Build(d, a), b)
    decreases |a|
  {
    hide Allowed;
    hide Grow;
    if a == [] {
      assert a + b == b;
    } else {
      assert (a + b)[1..] == a[1..] + b;
      BuildAppend(Grow(d, a[0]), a[1..], b);
    }
  }

  /** The document against the parser's flags and chain of open values. */
  ghost predicate Match(d: Doc, stack: seq<Open>, inStr: bool, len: nat, seek: bool) {
    && DocOk(d) && |d.path| == |stack| && d.reading == inStr
    && (forall k :: 0 <= k < |stack| ==>
          d.nodes[d.path[k]].kind == stack[k].kind && |d.nodes[d.path[k]].values| == stack[k].length)
    && (stack != [] ==>
          var n := d.nodes[TopOf(d)];
          && (inStr ==> d.start + len == |n.text|)
          && (!inStr && n.kind.Obj? ==> |n.names| == |n.values| + if seek then 1 else 0))
  }

  lemma {:induction false} MatchNew(d: Doc, stack: seq<Open>, len: nat, kind: Kind)
    requires Match(d, stack, false, len, true) && (stack == [] || Container(stack[|stack| - 1].kind))
    ensures Allowed(d, New(kind))
    ensures Match(Grow(d, New(kind)), stack + [Open(kind, 0)], kind.Str?, 0, false)
  {
    hide LinksOk;
    hide NodesOk;
    hide OffPath;
    NewOk(d, kind);
  }

  /** Events that touch only the string being read. */
  lemma {:induction false} MatchTop(d: Doc, stack: seq<Open>, inStr: bool, len: nat, e: Event)
    requires Match(d, stack, inStr, len, false) && stack != [] && !e.New? && !e.Pop?
    requires inStr == !e.Key? && (e.CloseStr? ==> stack[|stack| - 1].kind.Str?)
    requires e.Key? || e.CloseKey? ==> stack[|stack| - 1].kind.Obj?
    ensures Allowed(d, e)
    ensures Match(Grow(d, e), stack, e.Key? || e.Add?,
                  if e.Add? then len + |e.bs| else if e.Key? then 0 else len, e.CloseKey?)
  {
    hide LinksOk;
    hide NodesOk;
    hide OffPath;
    TopOk(d, e);
  }

  lemma {:induction false} MatchPop(d: Doc, stack: seq<Open>, len: nat)
    requires Match(d, stack, false, len, false) && |stack| >= 2
    ensures Allowed(d, Pop)
    ensures var n := |stack|;
            Match(Grow(d, Pop), stack[..n - 2] + [stack[n - 2].(length := stack[n - 2].length + 1)], false, len, false)
  {
    hide NodesOk;
    hide OffPath;
    PopOk(d);
  }

  ghost predicate Track(c: Ctl, d: Doc) { Match(d, c.stack, c.inStr, c.strLen, c.seek) }

  ghost predicate Tracks(o: Outcome, d: Doc) {
    o.Go? ==> Legal(d, o.ev) && Track(o.c, Build(d, o.ev))
  }

  lemma {:induction false} OneEvent(d: Doc, e: Event, c: Ctl)
    requires Allowed(d, e) && Track(c, Grow(d, e))
    ensures Tracks(Go(c, [e]), d)
  {
    hide Allowed;
    hide Grow;
    hide Match;
    assert Legal(Grow(d, e), [e][1..]);
    assert Build(d, [e]) == Build(Grow(d, e), [e][1..]);
  }

  lemma {:induction false} EventFirst(d: Doc, e: Event, o: Outcome)
    requires Allowed(d, e) && Tracks(o, Grow(d, e))
    ensures Tracks(Prefix([e], o), d)
  {
    hide Allowed;
    hide Grow;
    hide Match;
    if o.Go? { assert ([e] + o.ev)[1..] == o.ev; }
  }

  lemma {:induction false} FinishTracks(c: Ctl, i: nat, d: Doc)
    requires Track(c, d) && c.stack != [] && !c.inStr && !c.seek
    ensures Tracks(Finish(c, i), d)
  {
    hide DocOk;
    hide Allowed;
    hide Grow;
    var o := Finish(c, i);
    if |c.stack| >= 2 && o.Go? {
      MatchPop(d, c.stack, c.strLen);
      OneEvent(d, Pop, o.c);
    }
  }

  lemma {:induction false} StringTracks(s: seq<byte>, c: Ctl, d: Doc)
    requires Inv(s, c) && Track(c, d) && c.inStr
    ensures Tracks(StringStep(s, c), d)
  {
    hide Match;
    hide Allowed;
    hide Grow;
    hide Finish;
    hide Utf8;
    hide HexValue;
    var o := StringStep(s, c);
    var b := Ch(s, c.i);
    if o.Go? {
      if !c.esc && b == 34 && Top(c).kind.Str? {
        MatchTop(d, c.stack, true, c.strLen, CloseStr);
        FinishTracks(c.(inStr := false), c.i + 1, Grow(d, CloseStr));
        EventFirst(d, CloseStr, Finish(c.(inStr := false), c.i + 1));
      } else if o.ev != [] {
        var e := o.ev[0];
        assert o.ev == [e];
        MatchTop(d, c.stack, true, c.strLen, e);
        OneEvent(d, e, o.c);
      }
    }
  }

  lemma {:induction false} ValueTracks(c: Ctl, d: Doc, kind: Kind, c': Ctl)
    requires Track(c, d) && c.seek && !c.inStr && (c.stack == [] || Container(Top(c).kind))
    requires c'.stack == c.stack + [Open(kind, 0)] && c'.inStr == kind.Str? && (kind.Str? ==> c'.strLen == 0)
    requires c'.seek ==> !kind.Obj?
    ensures Allowed(d, New(kind)) && Track(c', Grow(d, New(kind)))
  {
    hide DocOk;
    hide Allowed;
    hide Grow;
    MatchNew(d, c.stack, c.strLen, kind);
  }

  lemma {:induction false} AtomTracks(c: Ctl, d: Doc, kind: Kind, i: nat)
    requires Track(c, d) && c.seek && !c.inStr && (c.stack == [] || Container(Top(c).kind)) && !kind.Str?
    ensures Tracks(Prefix([New(kind)], Finish(NewValue(c, kind), i)), d)
  {
    hide Match;
    hide Allowed;
    hide Grow;
    hide Finish;
    ValueTracks(c, d, kind, NewValue(c, kind));
    FinishTracks(NewValue(c, kind), i, Grow(d, New(kind)));
    EventFirst(d, New(kind), Finish(NewValue(c, kind), i));
  }

  lemma {:induction false} CloseArray(c: Ctl, d: Doc)
    requires Track(c, d) && c.stack != [] && !c.inStr && Top(c).kind.Arr?
    ensures Track(c.(comma := false, seek := false), d)
  {
    hide DocOk;
  }

  lemma {:induction false} SeekTracks(first: bool, s: seq<byte>, c: Ctl, d: Doc)
    requires Inv(s, c) && Track(c, d) && c.seek
    ensures Tracks(SeekStep(first, s, c), d)
  {
    hide Match;
    hide Allowed;
    hide Grow;
    hide Finish;
    var o := SeekStep(first, s, c);
    var b := Ch(s, c.i);
    if o.Go? {
      if b == 93 && !IsSpace(b) {
        CloseArray(c, d);
        FinishTracks(c.(comma := false, seek := false), c.i + 1, d);
      } else if o.ev != [] {
        if b == 116 || b == 102 || b == 110 {
          var kind, n := if b == 110 then Null else Bool(b == 116), if b == 102 then 4 else 3;
          AtomTracks(c, d, kind, c.i + 1 + n);
        } else if IsDigit(b) || b == 45 {
          if first {
            ValueTracks(c, d, Num, o.c);
            OneEvent(d, New(Num), o.c);
          } else {
            AtomTracks(c, d, Num, SpanEnd(s, c.i));
          }
        } else {
          var e := o.ev[0];
          assert o.ev == [e] && e.New?;
          ValueTracks(c, d, e.kind, o.c);
          OneEvent(d, e, o.c);
        }
      } else {
        assert Track(o.c, d);
      }
    }
  }

  lemma {:induction false} OtherTracks(s: seq<byte>, c: Ctl, d: Doc)
    requires Inv(s, c) && Track(c, d) && !c.inStr && !c.done && !c.seek
    ensures Tracks(if Top(c).kind.Obj? then ObjectStep(s, c) else DigitStep(s, c), d)
  {
    hide Match;
    hide Allowed;
    hide Grow;
    hide Finish;
    if Top(c).kind.Obj? {
      var o := ObjectStep(s, c);
      if Ch(s, c.i) == 125 {
        assert Track(c.(comma := false), d);
        FinishTracks(c.(comma := false), c.i + 1, d);
      } else if o.Go? && o.ev == [Key] {
        MatchTop(d, c.stack, false, c.strLen, Key);
        OneEvent(d, Key, o.c);
      }
    } else {
      FinishTracks(c, c.i, d);
    }
  }

  lemma {:induction false} StepTracks(first: bool, s: seq<byte>, c: Ctl, d: Doc)
    requires Inv(s, c) && Track(c, d)
    ensures Tracks(Step(first, s, c), d)
  {
    hide Match;
    hide Allowed;
    hide Grow;
    hide StringStep;
    hide SeekStep;
    hide ObjectStep;
    hide DigitStep;
    if c.inStr { StringTracks(s, c, d);
    } else if c.done {
    } else if c.seek { SeekTracks(first, s, c, d);
    } else { OtherTracks(s, c, d); }
  }

  /** A document with nothing left to read. */
  ghost predicate Complete(d: Doc) { DocOk(d) && !d.reading && |d.path| == 1 && Whole(d.nodes[TopOf(d)]) }

  /** The events of an accepted run make a complete document. */
  lemma {:induction false} RunBuilds(first: bool, s: seq<byte>, c: Ctl, d: Doc)
    requires Inv(s, c) && Track(c, d) && Run(first, s, c).Accepted?
    ensures Legal(d, Run(first, s, c).ev) && Complete(Build(d, Run(first, s, c).ev))
    decreases |s| - c.i, Rank(c)
  {
    hide Step;
    hide Allowed;
    hide Grow;
    hide DocOk;
    var o := Step(first, s, c);
    StepSound(first, s, c);
    StepTracks(first, s, c, d);
    if o.Go? {
      var d' := Build(d, o.ev);
      RunBuilds(first, s, o.c, d');
      BuildAppend(d, o.ev, Run(first, s, o.c).ev);
    } else {
      AcceptIsDone(first, s, c);
    }
  }

  lemma {:induction false} AcceptIsDone(first: bool, s: seq<byte>, c: Ctl)
    requires Inv(s, c) && Step(first, s, c).Accept?
    ensures c.done
  {
  }

  // ---------- The two passes over storage ----------

  /** A json_value. Pass one uses length and mem as counters (mem is the character
      count an object keeps in its values pointer); pass two fills the blocks. */
  datatype Val = Val(kind: Kind, parent: int, length: nat, mem: nat, values: seq<nat>, names: seq<Name>,
                     text: seq<byte>)

  /** The values in order of allocation, top (-1 for none), the next value pass two
      takes from the chain, and the string pointer and length. */
  datatype Heap = Heap(vals: seq<Val>, top: int, next: nat, str: nat, len: nat)

  const NO_VALUES := Heap([], -1, 0, 0, 0)

  /** Between the passes alloc goes back to the root. */
  function Rewind(h: Heap): Heap { Heap(h.vals, -1, 0, 0, 0) }

  function Slots(v: Val): nat { if Container(v.kind) then v.length else 0 }

  function Chars(v: Val): nat { if v.kind.Str? then v.length + 1 else if v.kind.Obj? then v.mem else 0 }

  /** new_value in pass two: blocks of the counted sizes, counters back to zero. */
  function Allocate(v: Val): Val {
    v.(length := 0, mem := 0, values := seq(Slots(v), _ => 0),
       names := seq(if v.kind.Obj? then Slots(v) else 0, _ => Name(0, 0)),
       text := seq(Chars(v), _ => 0))
  }

  function Set(h: Heap, v: Val): Heap
    requires 0 <= h.top < |h.vals|
  {
    h.(vals := h.vals[h.top := v])
  }

  function Store(block: seq<byte>, at: nat, bs: seq<byte>): (r: seq<byte>)
    requires at + |bs| <= |block|
    ensures |r| == |block|
  {
    block[..at] + bs + block[at + |bs|..]
  }

  /** The size of an object's entries is computed in an int: 24 bytes each. */
  const ENTRY: nat := 24
  const INT_LIMIT: nat := 0x8000_0000

  predicate Sized(v: Val) { v.kind.Obj? ==> ENTRY * v.length < INT_LIMIT }

  ghost predicate AllSized(t: seq<Val>, from: nat) {
    forall n :: from <= n < |t| ==> Sized(t[n])
  }

  /** One storage event. None is a block size that does not fit its int, a write outside
      its block, a value taken past the end of the chain, or a recorded value that is not
      the one being read. */
  function Act(first: bool, h: Heap, e: Event): Option<Heap> {
    if e.New? then
      if first then
        Some(Heap(h.vals + [Val(e.kind, h.top, 0, 0, [], [], [])], |h.vals|, h.next, 0, 0))
      else if h.next < |h.vals| && h.vals[h.next].kind == e.kind && h.vals[h.next].parent == h.top
        && Sized(h.vals[h.next]) then
        Some(Heap(h.vals[h.next := Allocate(h.vals[h.next])], h.next, h.next + 1, 0, 0))
      else None
    else if !(0 <= h.top < |h.vals|) then None
    else
      var v := h.vals[h.top];
      match e
      case Key => Some(h.(str := v.mem, len := 0))
      case Add(bs) =>
        if first then Some(h.(len := h.len + |bs|))
        else if h.str + h.len + |bs| > |v.text| then None
        else Some(Set(h, v.(text := Store(v.text, h.str + h.len, bs))).(len := h.len + |bs|))
      case CloseStr =>
        if first then Some(Set(h, v.(length := h.len)))
        else if h.str + h.len >= |v.text| then None
        else Some(Set(h, v.(length := h.len, text := Store(v.text, h.str + h.len, [0]))))
      case CloseKey =>
        if first then Some(Set(h, v.(mem := v.mem + h.len + 1)))
        else if h.str + h.len >= |v.text| || v.length >= |v.names| then None
        else Some(Set(h, v.(mem := v.mem + h.len + 1, text := Store(v.text, h.str + h.len, [0]),
                            names := v.names[v.length := Name(v.mem, h.len)])))
      case Pop =>
        if !(0 <= v.parent < |h.vals|) then None
        else
          var p := h.vals[v.parent];
          if first then Some(Set(h.(top := v.parent), p.(length := p.length + 1)))
          else if p.length >= |p.values| || h.top < 0 then None
          else Some(Set(h.(top := v.parent), p.(length := p.length + 1, values := p.values[p.length := h.top])))
  }

  function Perform(first: bool, h: Heap, ev: seq<Event>): Option<Heap>
    decreases |ev|
  {
    if ev == [] then Some(h)
    else
      var r := Act(first, h, ev[0]);
      if r.None? then None else Perform(first, r.value, ev[1..])
  }

  // Pass one.

  ghost predicate Counted(v: Val, n: Node, open: bool, start: nat) {
    && v.kind == n.kind && v.parent == n.parent
    && (Container(n.kind) ==> v.length == |n.values|)
    && (n.kind.Obj? ==> v.mem == if open then start else |n.text|)
    && (n.kind.Str? && !open ==> v.length + 1 == |n.text|)
  }

  ghost predicate Counts(h: Heap, d: Doc) {
    && |h.vals| == |d.nodes| && h.top == TopOf(d)
    && (forall n :: 0 <= n < |d.nodes| ==> Counted(h.vals[n], d.nodes[n], d.reading && n == TopOf(d), d.start))
    && (d.reading ==> d.path != [] && TopOf(d) < |d.nodes| && d.start + h.len == |d.nodes[TopOf(d)].text|)
  }

  lemma {:induction false} CountStep(h: Heap, d: Doc, e: Event)
    requires DocOk(d) && Allowed(d, e) && Counts(h, d)
    ensures Act(true, h, e).Some? && Counts(Act(true, h, e).value, Grow(d, e))
  {
    hide NodesOk;
    hide OffPath;
  }

  // Pass two.

  /** A node within the sizes pass one counted. */
  ghost predicate Fits(n: Node, t: Val) {
    && n.kind == t.kind && n.parent == t.parent
    && |n.values| <= Slots(t) && |n.names| <= Slots(t) && |n.text| <= Chars(t)
  }

  ghost predicate AllFit(d: Doc, t: seq<Val>) {
    |d.nodes| <= |t| && forall n :: 0 <= n < |d.nodes| ==> Fits(d.nodes[n], t[n])
  }

  /** The blocks have the counted sizes and begin with what was read so far. */
  ghost predicate Begun(v: Val, n: Node, t: Val) {
    && |v.values| == Slots(t) && |v.text| == Chars(t) && |v.names| == (if n.kind.Obj? then Slots(t) else 0)
    && n.values <= v.values && n.names <= v.names && n.text <= v.text
  }

  ghost predicate Fills(h: Heap, d: Doc, t: seq<Val>) {
    && |h.vals| == |t| && h.next == |d.nodes| <= |t| && h.top == TopOf(d)
    && (forall n :: 0 <= n < |d.nodes| ==> Counted(h.vals[n], d.nodes[n], d.reading && n == TopOf(d), d.start))
    && (forall n :: 0 <= n < |d.nodes| ==> Begun(h.vals[n], d.nodes[n], t[n]))
    && (forall n :: |d.nodes| <= n < |t| ==> h.vals[n] == t[n])
    && (d.reading ==> d.path != [] && TopOf(d) < |d.nodes| && h.str == d.start
                      && d.start + h.len == |d.nodes[TopOf(d)].text|)
  }

  lemma {:induction false} StorePrefix(block: seq<byte>, w: seq<byte>, bs: seq<byte>)
    requires w <= block && |w| + |bs| <= |block|
    ensures w + bs <= Store(block, |w|, bs)
  {
    assert block[..|w|] == w;
    assert Store(block, |w|, bs)[..|w| + |bs|] == w + bs;
  }

  lemma {:induction false} FillNew(h: Heap, d: Doc, kind: Kind, t: seq<Val>)
    requires DocOk(d) && Allowed(d, New(kind)) && Fills(h, d, t) && AllFit(Grow(d, New(kind)), t)
    ensures |d.nodes| < |t| && (Act(false, h, New(kind)).Some? <==> Sized(t[|d.nodes|]))
    ensures Act(false, h, New(kind)).Some? ==> Fills(Act(false, h, New(kind)).value, Grow(d, New(kind)), t)
  {
    hide OffPath;
    hide NodesOk;
    assert Fits(Grow(d, New(kind)).nodes[|d.nodes|], t[|d.nodes|]);
  }

  lemma {:induction false} FillAdd(h: Heap, d: Doc, bs: seq<byte>, t: seq<Val>)
    requires DocOk(d) && Allowed(d, Add(bs)) && Fills(h, d, t) && AllFit(Grow(d, Add(bs)), t)
    ensures Act(false, h, Add(bs)).Some? && Fills(Act(false, h, Add(bs)).value, Grow(d, Add(bs)), t)
  {
    hide OffPath;
    hide NodesOk;
    hide LinksOk;
    hide Store;
    var k := h.top;
    assert Fits(Grow(d, Add(bs)).nodes[k], t[k]);
    StorePrefix(h.vals[k].text, d.nodes[k].text, bs);
  }

  lemma {:induction false} FillStr(h: Heap, d: Doc, t: seq<Val>)
    requires DocOk(d) && Allowed(d, CloseStr) && Fills(h, d, t) && AllFit(Grow(d, CloseStr), t)
    ensures Act(false, h, CloseStr).Some? && Fills(Act(false, h, CloseStr).value, Grow(d, CloseStr), t)
  {
    hide OffPath;
    hide NodesOk;
    hide LinksOk;
    hide Store;
    var k := h.top;
    assert Fits(Grow(d, CloseStr).nodes[k], t[k]);
    StorePrefix(h.vals[k].text, d.nodes[k].text, [0]);
  }

  lemma {:induction false} FillKey(h: Heap, d: Doc, t: seq<Val>)
    requires DocOk(d) && Allowed(d, CloseKey) && Fills(h, d, t) && AllFit(Grow(d, CloseKey), t)
    ensures Act(false, h, CloseKey).Some? && Fills(Act(false, h, CloseKey).value, Grow(d, CloseKey), t)
  {
    hide OffPath;
    hide NodesOk;
    hide LinksOk;
    hide Store;
    var k := h.top;
    assert Fits(Grow(d, CloseKey).nodes[k], t[k]);
    StorePrefix(h.vals[k].text, d.nodes[k].text, [0]);
    PutNext(h.vals[k].names, d.nodes[k].names, Name(h.vals[k].mem, h.len));
  }

  lemma {:induction false} FillPop(h: Heap, d: Doc, t: seq<Val>)
    requires DocOk(d) && Allowed(d, Pop) && Fills(h, d, t) && AllFit(Grow(d, Pop), t)
    ensures Act(false, h, Pop).Some? && Fills(Act(false, h, Pop).value, Grow(d, Pop), t)
  {
    hide OffPath;
    hide NodesOk;
    var p := h.vals[h.top].parent;
    assert Fits(Grow(d, Pop).nodes[p], t[p]);
    PutNext(h.vals[p].values, d.nodes[p].values, h.top);
  }

  lemma {:induction false} PutNext<T>(block: seq<T>, w: seq<T>, x: T)
    requires w <= block && |w| < |block|
    ensures w + [x] <= block[|w| := x]
  {
  }

  lemma {:induction false} FillStep(h: Heap, d: Doc, e: Event, t: seq<Val>)
    requires DocOk(d) && Allowed(d, e) && Fills(h, d, t) && AllFit(Grow(d, e), t)
    ensures e.New? ==> |d.nodes| < |t|
    ensures Act(false, h, e).Some? <==> (e.New? ==> Sized(t[|d.nodes|]))
    ensures Act(false, h, e).Some? ==> Fills(Act(false, h, e).value, Grow(d, e), t)
  {
    hide DocOk;
    hide Allowed;
    hide Fills;
    hide AllFit;
    if e.New? { FillNew(h, d, e.kind, t);
    } else if e.Add? { FillAdd(h, d, e.bs, t);
    } else if e.CloseStr? { FillStr(h, d, t);
    } else if e.CloseKey? { FillKey(h, d, t);
    } else if e.Pop? { FillPop(h, d, t);
    } else { FillName(h, d, t); }
  }

  lemma {:induction false} FillName(h: Heap, d: Doc, t: seq<Val>)
    requires DocOk(d) && Allowed(d, Key) && Fills(h, d, t) && AllFit(Grow(d, Key), t)
    ensures Act(false, h, Key).Some? && Fills(Act(false, h, Key).value, Grow(d, Key), t)
  {
    hide OffPath;
    hide NodesOk;
    hide LinksOk;
  }

  // ---------- Both passes ----------

  lemma {:induction false} CountAll(h: Heap, d: Doc, ev: seq<Event>)
    requires DocOk(d) && Legal(d, ev) && Counts(h, d)
    ensures DocOk(Build(d, ev))
    ensures Perform(true, h, ev).Some? && Counts(Perform(true, h, ev).value, Build(d, ev))
    decreases |ev|
  {
    hide DocOk;
    hide Allowed;
    hide Grow;
    hide Counts;
    hide Act;
    if ev != [] {
      CountStep(h, d, ev[0]);
      GrowOk(d, ev[0]);
      CountAll(Act(true, h, ev[0]).value, Grow(d, ev[0]), ev[1..]);
    }
  }

  lemma {:induction false} FitBefore(d: Doc, e: Event, t: seq<Val>)
    requires Allowed(d, e) && AllFit(Grow(d, e), t)
    ensures AllFit(d, t)
  {
    var g := Grow(d, e);
    forall n | 0 <= n < |d.nodes| ensures Fits(d.nodes[n], t[n]) {
      assert Fits(g.nodes[n], t[n]);
    }
  }

  /** What has been read fits whatever the whole document fits. */
  lemma {:induction false} FitAll(d: Doc, ev: seq<Event>, t: seq<Val>)
    requires Legal(d, ev) && AllFit(Build(d, ev), t)
    ensures AllFit(d, t)
    decreases |ev|
  {
    hide Allowed;
    hide Grow;
    hide AllFit;
    if ev != [] {
      FitAll(Grow(d, ev[0]), ev[1..], t);
      FitBefore(d, ev[0], t);
    }
  }

  lemma {:induction false} GrowNodes(d: Doc, e: Event)
    requires Allowed(d, e)
    ensures |Grow(d, e).nodes| == |d.nodes| + if e.New? then 1 else 0
  {
  }

  /** Pass two goes through exactly when every object still to come has a size that
      fits. */
  lemma {:induction false} FillAll(h: Heap, d: Doc, ev: seq<Event>, t: seq<Val>)
    requires DocOk(d) && Legal(d, ev) && Fills(h, d, t) && AllFit(Build(d, ev), t) && |Build(d, ev).nodes| == |t|
    ensures Perform(false, h, ev).Some? <==> AllSized(t, |d.nodes|)
    ensures Perform(false, h, ev).Some? ==> Fills(Perform(false, h, ev).value, Build(d, ev), t)
    decreases |ev|
  {
    hide DocOk;
    hide Allowed;
    hide Grow;
    hide Fills;
    hide AllFit;
    hide Act;
    hide Sized;
    if ev != [] {
      var e := ev[0];
      FitAll(Grow(d, e), ev[1..], t);
      FillStep(h, d, e, t);
      GrowOk(d, e);
      GrowNodes(d, e);
      if Act(false, h, e).Some? { FillAll(Act(false, h, e).value, Grow(d, e), ev[1..], t); }
    }
  }

  lemma {:induction false} CompleteFits(h: Heap, d: Doc)
    requires Complete(d) && Counts(h, d)
    ensures AllFit(d, h.vals)
  {
    hide LinksOk;
    forall n | 0 <= n < |d.nodes| ensures Fits(d.nodes[n], h.vals[n]) {
      assert Counted(h.vals[n], d.nodes[n], false, d.start);
      assert NodeOk(d.nodes[n], false);
      assert Whole(d.nodes[n]) by {
        if n in d.path { assert d.path == [TopOf(d)]; }
      }
    }
  }

  /** A value of pass two against pass one's counts and the document. */
  ghost predicate Stored(v: Val, n: Node, t: Val) {
    && v.kind == n.kind == t.kind && v.parent == n.parent == t.parent
    && v.values == n.values && v.names == n.names && v.text == n.text
    && (Container(v.kind) ==> v.length == t.length == |n.values|)
    && (v.kind.Obj? ==> v.mem == t.mem == |n.text| && |n.names| == |n.values|)
    && (v.kind.Str? ==> v.length == t.length && t.length + 1 == |n.text|)
  }

  ghost predicate AllStored(vs: seq<Val>, d: Doc, t: seq<Val>) {
    |vs| == |d.nodes| == |t| && forall n :: 0 <= n < |t| ==> Stored(vs[n], d.nodes[n], t[n])
  }

  lemma {:induction false} FilledExactly(h: Heap, d: Doc, h1: Heap)
    requires Complete(d) && Counts(h1, d) && Fills(h, d, h1.vals)
    ensures AllStored(h.vals, d, h1.vals) && h.next == |h.vals|
  {
    hide LinksOk;
    CompleteFits(h1, d);
    forall n | 0 <= n < |d.nodes| ensures Stored(h.vals[n], d.nodes[n], h1.vals[n]) {
      assert Counted(h1.vals[n], d.nodes[n], false, d.start);
      assert Counted(h.vals[n], d.nodes[n], false, d.start);
      assert Begun(h.vals[n], d.nodes[n], h1.vals[n]);
      assert NodeOk(d.nodes[n], false);
      assert Whole(d.nodes[n]) by {
        if n in d.path { assert d.path == [TopOf(d)]; }
      }
    }
  }

  lemma {:induction false} StartTracks()
    ensures Track(START, EMPTY) && DocOk(EMPTY) && Counts(NO_VALUES, EMPTY)
    ensures forall h: Heap :: Fills(Rewind(h), EMPTY, h.vals)
    ensures forall s :: Inv(s, START)
  {
  }

  /** For every input that pass one accepts: pass two accepts it with the same values in
      the same order, and it goes through if and only if the size of every object fits
      its int. Then it takes each value from the chain, writes only inside the blocks
      sized by pass one, and leaves each array, object and string holding exactly what
      was read, at exactly the length pass one counted. */
  lemma {:induction false} TwoPasses(s: seq<byte>)
    requires Inv(s, START) && Run(true, s, START).Accepted?
    ensures Run(false, s, START) == Run(true, s, START)
    ensures var ev := Run(true, s, START).ev;
            && Legal(EMPTY, ev) && Complete(Build(EMPTY, ev))
            && var one := Perform(true, NO_VALUES, ev);
            one.Some? && Counts(one.value, Build(EMPTY, ev))
            && var two := Perform(false, Rewind(one.value), ev);
            && (two.Some? <==> AllSized(one.value.vals, 0))
            && (two.Some? ==> two.value.next == |two.value.vals|
                              && AllStored(two.value.vals, Build(EMPTY, ev), one.value.vals))
  {
    hide Run;
    hide DocOk;
    hide Counts;
    hide Fills;
    hide AllFit;
    hide Match;
    hide AllStored;
    hide AllSized;
    StartTracks();
    PassesAgree(s, START);
    RunBuilds(true, s, START, EMPTY);
    var ev := Run(true, s, START).ev;
    CountAll(NO_VALUES, EMPTY, ev);
    var h1 := Perform(true, NO_VALUES, ev).value;
    CompleteFits(h1, Build(EMPTY, ev));
    CountedAll(h1, Build(EMPTY, ev));
    FillAll(Rewind(h1), EMPTY, ev, h1.vals);
    if AllSized(h1.vals, 0) { FilledExactly(Perform(false, Rewind(h1), ev).value, Build(EMPTY, ev), h1); }
  }

  lemma {:induction false} CountedAll(h: Heap, d: Doc)
    requires Counts(h, d)
    ensures |h.vals| == |d.nodes|
  {
  }

  // ---------- json_parse_ex ----------

  /** A missing value dereferenced, an object size that does not fit its int, an error, or
      the values. */
  datatype Parsed = Failure | Crash | Wrapped | Success(vals: seq<Val>)

  lemma {:induction false} PerformAppend(first: bool, h: Heap, a: seq<Event>, b: seq<Event>)
    requires Perform(first, h, a).Some?
    ensures Perform(first, h, a + b) == Perform(first, Perform(first, h, a).value, b)
    decreases |a|
  {
    hide Act;
    if a == [] {
      assert a + b == b;
    } else {
      assert (a + b)[1..] == a[1..] + b;
      PerformAppend(first, Act(first, h, a[0]).value, a[1..], b);
    }
  }

  /** What lets a pass start: an empty heap, or a rewound one of the right sizes. */
  ghost predicate Prepared(first: bool, s: seq<byte>, h0: Heap)
    requires Inv(s, START)
  {
    if first then h0 == NO_VALUES
    else
      var v := Run(true, s, START);
      && v.Accepted? && Perform(true, NO_VALUES, v.ev).Some?
      && h0 == Rewind(Perform(true, NO_VALUES, v.ev).value)
  }

  /** The storage of this pass has a size that fits. */
  ghost predicate Fitting(first: bool, h0: Heap) { first || AllSized(h0.vals, 0) }

  /** With sizes that fit, a prefix of a run's events is always safe to perform. */
  lemma {:induction false} PrefixSafe(first: bool, s: seq<byte>, h0: Heap, done: seq<Event>, c: Ctl)
    requires Inv(s, START) && Prepared(first, s, h0) && Fitting(first, h0)
    requires Legal(EMPTY, done) && Inv(s, c) && Run(first, s, START) == After(done, Run(first, s, c))
    ensures Perform(first, h0, done).Some?
  {
    hide Run;
    hide Act;
    hide DocOk;
    hide Counts;
    hide Match;
    hide AllSized;
    StartTracks();
    if first {
      CountAll(NO_VALUES, EMPTY, done);
    } else {
      TwoPasses(s);
      PerformPrefix(first, h0, done, Run(first, s, c).ev);
    }
  }

  /** A pass that gets to its end had sizes that fit. */
  lemma {:induction false} EndFits(first: bool, s: seq<byte>, h0: Heap)
    requires Inv(s, START) && Prepared(first, s, h0) && Run(first, s, START).Accepted?
    requires Perform(first, h0, Run(first, s, START).ev).Some?
    ensures Fitting(first, h0)
  {
    hide Run;
    hide Perform;
    hide AllSized;
    if !first { TwoPasses(s); }
  }

  lemma {:induction false} PerformPrefix(first: bool, h: Heap, a: seq<Event>, b: seq<Event>)
    requires Perform(first, h, a + b).Some?
    ensures Perform(first, h, a).Some?
    decreases |a|
  {
    hide Act;
    if a != [] {
      assert (a + b)[1..] == a[1..] + b;
      PerformPrefix(first, Act(first, h, a[0]).value, a[1..], b);
    }
  }

  datatype Passed = Stopped | Undefined | Unsized | Finished(h: Heap)

  /** One pass of the parser: a turn of the loop, then its storage events. */
  method Pass(first: bool, s: seq<byte>, h0: Heap) returns (r: Passed)
    requires Inv(s, START) && Prepared(first, s, h0)
    ensures Fitting(first, h0) ==> !r.Unsized? && (r.Undefined? <==> Run(first, s, START).Crashed?)
                                   && (r.Finished? <==> Run(first, s, START).Accepted?)
    ensures !Fitting(first, h0) ==> !r.Finished?
    ensures r.Stopped? ==> Run(first, s, START).Rejected?
    ensures r.Undefined? ==> Run(first, s, START).Crashed?
    ensures r.Finished? ==> Run(first, s, START).Accepted? && Perform(first, h0, Run(first, s, START).ev) == Some(r.h)
  {
    hide Step;
    hide Match;
    hide Act;
    hide Prepared;
    hide Fitting;
    var c, h := START, h0;
    ghost var done: seq<Event> := [];
    StartTracks();
    while true
      invariant Inv(s, c) && Legal(EMPTY, done) && Track(c, Build(EMPTY, done))
      invariant Run(first, s, START) == After(done, Run(first, s, c))
      invariant Perform(first, h0, done) == Some(h)
      decreases |s| - c.i, Rank(c)
    {
      var o := Step(first, s, c);
      StepSound(first, s, c);
      if o.Fail? { return Stopped; }
      if o.Undefined? { return Passed.Undefined; }
      if o.Accept? {
        assert done + [] == done;
        EndFits(first, s, h0);
        return Finished(h);
      }
      StepTracks(first, s, c, Build(EMPTY, done));
      AfterTwice(done, o.ev, Run(first, s, o.c));
      BuildAppend(EMPTY, done, o.ev);
      PerformAppend(first, h0, done, o.ev);
      var next := Perform(first, h, o.ev);
      if next.None? {
        if Fitting(first, h0) { PrefixSafe(first, s, h0, done + o.ev, o.c); }
        return Unsized;
      }
      c, h, done := o.c, next.value, done + o.ev;
    }
  }

  /** The input without a byte order mark. */
  function Text(input: seq<byte>): seq<byte> {
    if |input| >= 3 && input[..3] == [0xEF, 0xBB, 0xBF] then input[3..] else input
  }

  /** json_parse_ex. It goes wrong on a leading closing bracket and on an object whose size
      does not fit, and on nothing else; otherwise it fails, or returns the document of
      pass one's events. */
  method ParseEx(input: seq<byte>) returns (r: Parsed)
    ensures Inv(Text(input), START)
    ensures r.Crash? <==> Ch(Text(input), FirstVisible(Text(input), 0)) == 93
    ensures r.Failure? <==> Run(true, Text(input), START).Rejected?
    ensures r.Success? || r.Wrapped? <==> Run(true, Text(input), START).Accepted?
    ensures r.Success? || r.Wrapped? ==>
              var ev := Run(true, Text(input), START).ev;
              && Legal(EMPTY, ev) && Complete(Build(EMPTY, ev))
              && var one := Perform(true, NO_VALUES, ev);
              one.Some? && (r.Success? <==> AllSized(one.value.vals, 0))
              && (r.Success? ==> AllStored(r.vals, Build(EMPTY, ev), one.value.vals))
  {
    hide Step;
    hide Run;
    hide Act;
    hide Match;
    hide Counts;
    hide DocOk;
    hide AllStored;
    hide AllSized;
    var s := Text(input);
    StartTracks();
    CrashExact(true, s, 0);
    assert START.(i := 0) == START;
    var one := Pass(true, s, NO_VALUES);
    if one.Undefined? { return Crash; }
    if !one.Finished? { return Failure; }
    TwoPasses(s);
    var two := Pass(false, s, Rewind(one.h));
    return if two.Finished? then Success(two.h.vals) else Wrapped;
  }
}
