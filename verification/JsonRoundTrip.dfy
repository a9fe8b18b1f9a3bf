/** json.c: the tree json_parse_ex returns for a printed value is that value's tree,
    node for node in order of appearance. */
module JsonRoundTrip {
  import opened Bytes
  import opened Json
  import opened JsonStore
  import opened JsonPrint

  // ---------- The tree of a value, laid out in order of appearance ----------

  function Size(v: Value): (n: nat)
    ensures n >= 1
  {
    match v
    case Array(items) => 1 + ItemsSize(items)
    case Object(ms) => 1 + MembersSize(ms)
    case _ => 1
  }

  function ItemsSize(items: Items): nat { if items.NoItems? then 0 else Size(items.first) + ItemsSize(items.rest) }

  function MembersSize(ms: Members): nat { if ms.NoMembers? then 0 else Size(ms.value) + MembersSize(ms.rest) }

  /** Where the elements start, the first one at position at. */
  function Starts(items: Items, at: nat): seq<nat> {
    if items.NoItems? then [] else [at] + Starts(items.rest, at + Size(items.first))
  }

  function MemberStarts(ms: Members, at: nat): seq<nat> {
    if ms.NoMembers? then [] else [at] + MemberStarts(ms.rest, at + Size(ms.value))
  }

  /** The names of an object, one after the other, each with a NUL. */
  function NameText(ms: Members): seq<byte>
    requires MembersOk(ms)
  {
    if ms.NoMembers? then [] else (Meant(ms.name) + [0]) + NameText(ms.rest)
  }

  function Names(ms: Members, off: nat): seq<Name>
    requires MembersOk(ms)
  {
    if ms.NoMembers? then [] else [Name(off, |Meant(ms.name)|)] + Names(ms.rest, off + |Meant(ms.name)| + 1)
  }

  /** The nodes of a value whose root is number at. */
  function Flat(v: Value, parent: int, at: nat): (r: seq<Node>)
    requires ValueOk(v)
    ensures |r| == Size(v)
  {
    match v
    case Nil => [Node(Null, parent, [], [], [])]
    case Yes => [Node(Bool(true), parent, [], [], [])]
    case No => [Node(Bool(false), parent, [], [], [])]
    case Number(_) => [Node(Num, parent, [], [], [])]
    case Text(w) => [Node(Str, parent, [], [], Meant(w) + [0])]
    case Array(items) => [Node(Arr, parent, Starts(items, at + 1), [], [])] + FlatItems(items, at, at + 1)
    case Object(ms) =>
      [Node(Obj, parent, MemberStarts(ms, at + 1), Names(ms, 0), NameText(ms))] + FlatMembers(ms, at, at + 1)
  }

  function FlatItems(items: Items, parent: int, at: nat): (r: seq<Node>)
    requires ItemsOk(items)
    ensures |r| == ItemsSize(items)
  {
    if items.NoItems? then [] else Flat(items.first, parent, at) + FlatItems(items.rest, parent, at + Size(items.first))
  }

  function FlatMembers(ms: Members, parent: int, at: nat): (r: seq<Node>)
    requires MembersOk(ms)
    ensures |r| == MembersSize(ms)
  {
    if ms.NoMembers? then [] else Flat(ms.value, parent, at) + FlatMembers(ms.rest, parent, at + Size(ms.value))
  }

  // ---------- Building it from the events ----------

  /** A document between events, up to where its last string started. */
  ghost predicate Is(d: Doc, nodes: seq<Node>, path: seq<nat>) {
    DocOk(d) && d.nodes == nodes && d.path == path && !d.reading
  }

  /** The events ev can follow and lead to these nodes and open values. */
  ghost predicate Makes(d: Doc, ev: seq<Event>, nodes: seq<Node>, path: seq<nat>) {
    Legal(d, ev) && Is(Build(d, ev), nodes, path)
  }

  lemma {:induction false} One(d: Doc, e: Event)
    requires DocOk(d) && Allowed(d, e)
    ensures Legal(d, [e]) && Build(d, [e]) == Grow(d, e) && DocOk(Grow(d, e))
  {
    hide Allowed;
    hide Grow;
    hide DocOk;
    GrowOk(d, e);
    assert Legal(Grow(d, e), [e][1..]);
    assert Build(d, [e]) == Build(Grow(d, e), [e][1..]);
  }

  /** The document with more text in its top. */
  function WithText(d: Doc, w: seq<byte>): Doc
    requires 0 <= TopOf(d) < |d.nodes|
  {
    Put(d, TopOf(d), d.nodes[TopOf(d)].(text := d.nodes[TopOf(d)].text + w))
  }

  lemma {:induction false} BuildAdd(d: Doc, bs: seq<byte>)
    requires DocOk(d) && d.reading
    ensures 0 <= TopOf(d) < |d.nodes| && Allowed(d, Add(bs)) && Grow(d, Add(bs)) == WithText(d, bs)
    ensures Legal(d, [Add(bs)]) && Build(d, [Add(bs)]) == Grow(d, Add(bs)) && DocOk(Grow(d, Add(bs)))
  {
    hide LinksOk;
    hide NodesOk;
    hide OffPath;
    One(d, Add(bs));
  }

  lemma {:induction false} WithTextTwice(d: Doc, v: seq<byte>, w: seq<byte>)
    requires 0 <= TopOf(d) < |d.nodes|
    ensures WithText(d, []) == d && TopOf(WithText(d, v)) == TopOf(d)
    ensures WithText(WithText(d, v), w) == WithText(d, v + w)
  {
    var t := TopOf(d);
    var n := d.nodes[t];
    assert n.text + [] == n.text && d.nodes[t := n] == d.nodes;
    Associate(n.text, v, w);
    var m := n.(text := n.text + v);
    assert d.nodes[t := m][t := n.(text := n.text + (v + w))] == d.nodes[t := n.(text := n.text + (v + w))];
  }

  /** Events of a string: they go to the end of the top's text. */
  lemma {:induction false} BuildAdds(d: Doc, w: seq<Piece>)
    requires DocOk(d) && d.reading && PiecesOk(w)
    ensures 0 <= TopOf(d) < |d.nodes| && Legal(d, Adds(w)) && Build(d, Adds(w)) == WithText(d, Meant(w))
            && DocOk(WithText(d, Meant(w)))
    decreases |w|
  {
    hide DocOk;
    hide Allowed;
    hide Grow;
    hide Meaning;
    BuildAdd(d, []);
    if w == [] {
      WithTextTwice(d, [], []);
    } else {
      var m := Meaning(w[0]);
      BuildAdd(d, m);
      BuildAdds(WithText(d, m), w[1..]);
      BuildAppend(d, [Add(m)], Adds(w[1..]));
      WithTextTwice(d, m, Meant(w[1..]));
    }
  }

  lemma {:induction false} MakesThen(d: Doc, a: seq<Event>, b: seq<Event>, nodes: seq<Node>, path: seq<nat>)
    requires Legal(d, a) && Makes(Build(d, a), b, nodes, path)
    ensures Makes(d, a + b, nodes, path)
  {
    hide Is;
    BuildAppend(d, a, b);
  }

  /** A value can start here. */
  ghost predicate MayBegin(d: Doc) {
    DocOk(d) && !d.reading && (d.path == [] || Ready(d.nodes[TopOf(d)]))
  }

  lemma {:induction false} Opens(d: Doc, kind: Kind)
    requires MayBegin(d)
    ensures Allowed(d, New(kind)) && Legal(d, [New(kind)]) && DocOk(Grow(d, New(kind)))
    ensures Build(d, [New(kind)]) == Grow(d, New(kind))
    ensures Grow(d, New(kind)) ==
            Doc(d.nodes + [Node(kind, TopOf(d), [], [], [])], d.path + [|d.nodes|], kind.Str?, 0)
  {
    hide LinksOk;
    hide NodesOk;
    hide OffPath;
    One(d, New(kind));
  }

  lemma {:induction false} NamesMatch(ms: Members, off: nat, at: nat)
    requires MembersOk(ms)
    ensures |Names(ms, off)| == |MemberStarts(ms, at)|
  {
    if ms.Member? { NamesMatch(ms.rest, off + |Meant(ms.name)| + 1, at + Size(ms.value)); }
  }

  lemma {:induction false} RootWhole(v: Value, parent: int, at: nat)
    requires ValueOk(v)
    ensures Whole(Flat(v, parent, at)[0])
  {
    if v.Object? { NamesMatch(v.members, 0, at + 1); }
  }

  lemma {:induction false} BuildLeaf(d: Doc, kind: Kind)
    requires MayBegin(d) && !kind.Str?
    ensures Makes(d, [New(kind)], d.nodes + [Node(kind, TopOf(d), [], [], [])], d.path + [|d.nodes|])
  {
    hide Grow;
    hide Allowed;
    hide DocOk;
    Opens(d, kind);
  }

  lemma {:induction false} CloseText(g: Doc, n: Node, w: seq<byte>)
    requires DocOk(g) && g.reading && g.nodes[TopOf(g)] == n && n.kind.Str?
    ensures Makes(g, [CloseStr], g.nodes[TopOf(g) := n.(text := n.text + [0])], g.path)
  {
    hide LinksOk;
    hide NodesOk;
    hide OffPath;
    One(g, CloseStr);
  }

  lemma {:induction false} BuildText(d: Doc, w: seq<Piece>)
    requires MayBegin(d) && PiecesOk(w)
    ensures Makes(d, Events(Text(w)), d.nodes + Flat(Text(w), TopOf(d), |d.nodes|), d.path + [|d.nodes|])
  {
    hide Grow;
    hide Allowed;
    hide DocOk;
    hide Makes;
    hide Meant;
    hide Adds;
    Opens(d, Str);
    var g := Grow(d, New(Str));
    BuildAdds(g, w);
    var t, n, m := |d.nodes|, Node(Str, TopOf(d), [], [], []), Meant(w);
    var h := Build(g, Adds(w));
    assert TopOf(g) == t && g.nodes[t] == n && [] + m == m;
    assert h.nodes == d.nodes + [n.(text := m)];
    CloseText(h, n.(text := m), m);
    MakesThen(g, Adds(w), [CloseStr], h.nodes[t := n.(text := m + [0])], h.path);
    assert h.nodes[t := n.(text := m + [0])] == d.nodes + [n.(text := m + [0])];
    MakesThen(d, [New(Str)], Adds(w) + [CloseStr], d.nodes + [n.(text := m + [0])], h.path);
  }

  lemma {:induction false} TopInside(d: Doc)
    requires DocOk(d) && d.path != []
    ensures 0 <= TopOf(d) < |d.nodes|
  {
  }

  /** A complete value becomes an element of the one below. */
  lemma {:induction false} PopNode(d: Doc, g: Doc, f: seq<Node>)
    requires MayBegin(d) && d.path != [] && Is(g, d.nodes + f, d.path + [|d.nodes|]) && f != [] && Whole(f[0])
    ensures var t := TopOf(d);
            Makes(g, [Pop], d.nodes[t := d.nodes[t].(values := d.nodes[t].values + [|d.nodes|])] + f, d.path)
  {
    hide LinksOk;
    hide NodesOk;
    hide OffPath;
    var t, k := TopOf(d), |d.nodes|;
    assert g.nodes[k] == f[0] && TopOf(g) == k;
    assert g.path[..|g.path| - 1] == d.path && g.path[|g.path| - 2] == t;
    One(g, Pop);
    var n := d.nodes[t].(values := d.nodes[t].values + [k]);
    assert g.nodes[t := n] == d.nodes[t := n] + f;
  }

  lemma {:induction false} BuildElement(d: Doc, v: Value)
    requires MayBegin(d) && d.path != [] && ValueOk(v)
    ensures var t := TopOf(d);
            Makes(d, Events(v) + [Pop],
                  d.nodes[t := d.nodes[t].(values := d.nodes[t].values + [|d.nodes|])] + Flat(v, t, |d.nodes|), d.path)
    decreases v, 1
  {
    hide DocOk;
    hide Flat;
    hide Events;
    hide Ready;
    var t := TopOf(d);
    BuildValue(d, v);
    RootWhole(v, t, |d.nodes|);
    var f := Flat(v, t, |d.nodes|);
    PopNode(d, Build(d, Events(v)), f);
    MakesThen(d, Events(v), [Pop], d.nodes[t := d.nodes[t].(values := d.nodes[t].values + [|d.nodes|])] + f, d.path);
  }

  lemma {:induction false} PutTwice(x: seq<Node>, t: nat, a: Node, b: Node, f: seq<Node>, g: seq<Node>)
    requires t < |x|
    ensures (x[t := a] + f)[t := b] + g == x[t := b] + (f + g)
  {
  }

  /** One element more: where it is listed, and what follows it. */
  lemma {:induction false} ItemsJoin(x: seq<Node>, t: nat, items: Items)
    requires t < |x| && items.Item? && ItemsOk(items)
    ensures var n, k := x[t], |x|;
            var n1 := n.(values := n.values + [k]);
            var g := x[t := n1] + Flat(items.first, t, k);
            && |g| == k + Size(items.first) && g[t] == n1
            && g[t := n1.(values := n1.values + Starts(items.rest, |g|))] + FlatItems(items.rest, t, |g|) ==
               x[t := n.(values := n.values + Starts(items, k))] + FlatItems(items, t, k)
  {
    hide Flat;
    var n, k := x[t], |x|;
    var n1 := n.(values := n.values + [k]);
    var s := Starts(items.rest, k + Size(items.first));
    assert n1.values + s == n.values + ([k] + s);
    PutTwice(x, t, n1, n1.(values := n1.values + s), Flat(items.first, t, k),
             FlatItems(items.rest, t, k + Size(items.first)));
  }

  lemma {:induction false} NoItemsJoin(x: seq<Node>, t: nat, items: Items)
    requires t < |x| && items.NoItems?
    ensures x[t := x[t].(values := x[t].values + Starts(items, |x|))] + FlatItems(items, t, |x|) == x
  {
    assert x[t].values + [] == x[t].values && x[t := x[t]] + [] == x;
  }

  lemma {:induction false} BuildItems(d: Doc, items: Items)
    requires DocOk(d) && !d.reading && d.path != [] && d.nodes[TopOf(d)].kind.Arr? && ItemsOk(items)
    ensures var t, n := TopOf(d), d.nodes[TopOf(d)];
            Makes(d, ItemEvents(items),
                  d.nodes[t := n.(values := n.values + Starts(items, |d.nodes|))] + FlatItems(items, t, |d.nodes|),
                  d.path)
    decreases items, 2
  {
    hide Meant;
    hide DocOk;
    hide Grow;
    hide Allowed;
    hide Flat;
    hide Starts;
    hide FlatItems;
    hide Events;
    TopInside(d);
    var t := TopOf(d);
    if items.NoItems? {
      NoItemsJoin(d.nodes, t, items);
    } else {
      var ev := Events(items.first) + [Pop];
      BuildElement(d, items.first);
      ItemsJoin(d.nodes, t, items);
      var g := Build(d, ev);
      BuildItems(g, items.rest);
      var n := d.nodes[t];
      MakesThen(d, ev, ItemEvents(items.rest),
                d.nodes[t := n.(values := n.values + Starts(items, |d.nodes|))] + FlatItems(items, t, |d.nodes|),
                d.path);
      assert ev + ItemEvents(items.rest) == ItemEvents(items);
    }
  }

  lemma {:induction false} BuildArray(d: Doc, items: Items)
    requires MayBegin(d) && ItemsOk(items)
    ensures Makes(d, [New(Arr)] + ItemEvents(items), d.nodes + Flat(Array(items), TopOf(d), |d.nodes|),
                  d.path + [|d.nodes|])
    decreases items, 3
  {
    hide DocOk;
    hide Grow;
    hide Allowed;
    hide Makes;
    Opens(d, Arr);
    var g, t := Grow(d, New(Arr)), |d.nodes|;
    var n := Node(Arr, TopOf(d), [], [], []);
    assert TopOf(g) == t && g.nodes[t] == n;
    BuildItems(g, items);
    var n1 := n.(values := Starts(items, t + 1));
    assert n.values + Starts(items, t + 1) == n1.values;
    assert g.nodes[t := n1] == d.nodes + [n1];
    MakesThen(d, [New(Arr)], ItemEvents(items), d.nodes + [n1] + FlatItems(items, t, t + 1), d.path + [t]);
    assert d.nodes + [n1] + FlatItems(items, t, t + 1) == d.nodes + ([n1] + FlatItems(items, t, t + 1));
  }

  lemma {:induction false} BuildValue(d: Doc, v: Value)
    requires MayBegin(d) && ValueOk(v)
    ensures Makes(d, Events(v), d.nodes + Flat(v, TopOf(d), |d.nodes|), d.path + [|d.nodes|])
    decreases v, 0
  {
    hide Makes;
    hide MayBegin;
    match v
    case Nil => BuildLeaf(d, Null);
    case Yes => BuildLeaf(d, Bool(true));
    case No => BuildLeaf(d, Bool(false));
    case Number(_) => BuildLeaf(d, Num);
    case Text(w) => BuildText(d, w);
    case Array(items) => BuildArray(d, items);
    case Object(ms) => BuildObject(d, ms);
  }

  lemma {:induction false} BuildObject(d: Doc, ms: Members)
    requires MayBegin(d) && MembersOk(ms)
    ensures Makes(d, [New(Obj)] + MemberEvents(ms), d.nodes + Flat(Object(ms), TopOf(d), |d.nodes|),
                  d.path + [|d.nodes|])
    decreases ms, 3
  {
    hide Extended;
    hide Names;
    hide NameText;
    hide MemberStarts;
    hide FlatMembers;
    hide MemberEvents;
    hide Meant;
    hide DocOk;
    hide Grow;
    hide Allowed;
    hide Makes;
    Opens(d, Obj);
    var g, t := Grow(d, New(Obj)), |d.nodes|;
    var n := Node(Obj, TopOf(d), [], [], []);
    assert TopOf(g) == t && g.nodes[t] == n;
    BuildMembers(g, ms);
    var n1 := Node(Obj, TopOf(d), MemberStarts(ms, t + 1), Names(ms, 0), NameText(ms));
    ExtendedFresh(TopOf(d), ms, t + 1);
    assert g.nodes[t := n1] == d.nodes + [n1];
    MakesThen(d, [New(Obj)], MemberEvents(ms), d.nodes + [n1] + FlatMembers(ms, t, t + 1), d.path + [t]);
    assert d.nodes + [n1] + FlatMembers(ms, t, t + 1) == d.nodes + ([n1] + FlatMembers(ms, t, t + 1));
  }

  lemma {:induction false} ExtendedFresh(parent: int, ms: Members, at: nat)
    requires MembersOk(ms)
    ensures Extended(Node(Obj, parent, [], [], []), ms, at) ==
            Node(Obj, parent, MemberStarts(ms, at), Names(ms, 0), NameText(ms))
  {
    hide Names;
    hide NameText;
    hide MemberStarts;
  }

  /** An object with further members, whose values start at position at. */
  function Extended(n: Node, ms: Members, at: nat): Node
    requires MembersOk(ms)
  {
    n.(values := n.values + MemberStarts(ms, at), names := n.names + Names(ms, |n.text|), text := n.text + NameText(ms))
  }

  function Named(n: Node, name: seq<byte>): Node {
    n.(names := n.names + [Name(|n.text|, |name|)], text := n.text + (name + [0]))
  }

  lemma {:induction false} CloseName(g: Doc, n: Node, name: seq<byte>)
    requires DocOk(g) && g.reading && n.kind.Obj? && g.start == |n.text|
             && g.nodes[TopOf(g)] == n.(text := n.text + name)
    ensures Makes(g, [CloseKey], g.nodes[TopOf(g) := Named(n, name)], g.path)
  {
    hide LinksOk;
    hide NodesOk;
    hide OffPath;
    One(g, CloseKey);
    assert (n.text + name) + [0] == n.text + (name + [0]);
  }

  lemma {:induction false} BuildName(d: Doc, name: seq<Piece>)
    requires DocOk(d) && !d.reading && d.path != [] && d.nodes[TopOf(d)].kind.Obj? && Whole(d.nodes[TopOf(d)])
    requires PiecesOk(name)
    ensures Makes(d, [Key] + (Adds(name) + [CloseKey]),
                  d.nodes[TopOf(d) := Named(d.nodes[TopOf(d)], Meant(name))], d.path)
  {
    hide LinksOk;
    hide NodesOk;
    hide OffPath;
    hide Makes;
    var t, n := TopOf(d), d.nodes[TopOf(d)];
    One(d, Key);
    var g := Grow(d, Key);
    assert g == d.(reading := true, start := |n.text|);
    BuildAdds(g, name);
    var h := Build(g, Adds(name));
    var m := Named(n, Meant(name));
    CloseName(h, n, Meant(name));
    assert h.nodes[t := m] == d.nodes[t := m];
    MakesThen(g, Adds(name), [CloseKey], d.nodes[t := m], d.path);
    MakesThen(d, [Key], Adds(name) + [CloseKey], d.nodes[t := m], d.path);
  }

  lemma {:induction false} BuildMembers(d: Doc, ms: Members)
    requires MembersOk(ms)
    requires DocOk(d) && !d.reading && d.path != [] && d.nodes[TopOf(d)].kind.Obj? && Whole(d.nodes[TopOf(d)])
    ensures var t := TopOf(d);
            Makes(d, MemberEvents(ms),
                  d.nodes[t := Extended(d.nodes[t], ms, |d.nodes|)] + FlatMembers(ms, t, |d.nodes|), d.path)
    decreases ms, 2
  {
    hide Meant;
    hide DocOk;
    hide Grow;
    hide Allowed;
    hide Flat;
    hide Extended;
    hide Named;
    TopInside(d);
    var t, k := TopOf(d), |d.nodes|;
    var n := d.nodes[t];
    if ms.NoMembers? {
      ExtendedNone(n, ms, k);
      assert d.nodes[t := n] + [] == d.nodes;
    } else {
      var n1 := Named(n, Meant(ms.name));
      NamedReady(n, Meant(ms.name));
      var key := [Key] + (Adds(ms.name) + [CloseKey]);
      BuildName(d, ms.name);
      var c := Build(d, key);
      assert TopOf(c) == t && c.nodes[t] == n1;
      BuildElement(c, ms.value);
      var f := Flat(ms.value, t, k);
      var n2 := n1.(values := n1.values + [k]);
      var g := Build(c, Events(ms.value) + [Pop]);
      assert d.nodes[t := n1][t := n2] == d.nodes[t := n2];
      assert g.nodes == d.nodes[t := n2] + f && TopOf(g) == t && g.nodes[t] == n2 && |g.nodes| == k + Size(ms.value);
      BuildMembers(g, ms.rest);
      var n3 := Extended(n2, ms.rest, |g.nodes|);
      ExtendedStep(n, ms, k);
      PutTwice(d.nodes, t, n2, n3, f, FlatMembers(ms.rest, t, |g.nodes|));
      var nodes := d.nodes[t := n3] + FlatMembers(ms, t, k);
      MakesThen(c, Events(ms.value) + [Pop], MemberEvents(ms.rest), nodes, d.path);
      MakesThen(d, key, (Events(ms.value) + [Pop]) + MemberEvents(ms.rest), nodes, d.path);
      MemberEventsForm(ms);
    }
  }

  lemma {:induction false} NamedReady(n: Node, name: seq<byte>)
    requires n.kind.Obj? && Whole(n)
    ensures Ready(Named(n, name)) && Named(n, name).kind.Obj?
    ensures forall k: nat :: Whole(Named(n, name).(values := Named(n, name).values + [k]))
  {
  }

  lemma {:induction false} ExtendedNone(n: Node, ms: Members, at: nat)
    requires ms.NoMembers?
    ensures Extended(n, ms, at) == n
  {
    assert n.values + [] == n.values && n.names + [] == n.names && n.text + [] == n.text;
  }

  lemma {:induction false} ExtendedStep(n: Node, ms: Members, k: nat)
    requires ms.Member? && MembersOk(ms)
    ensures var n1 := Named(n, Meant(ms.name));
            Extended(n1.(values := n1.values + [k]), ms.rest, k + Size(ms.value)) == Extended(n, ms, k)
  {
    hide Meant;
    var n1 := Named(n, Meant(ms.name));
    var a, b, c := MemberStarts(ms.rest, k + Size(ms.value)), Names(ms.rest, |n1.text|), NameText(ms.rest);
    assert (n.values + [k]) + a == n.values + ([k] + a);
    assert n1.names + b == n.names + ([Name(|n.text|, |Meant(ms.name)|)] + b);
    assert n1.text + c == n.text + ((Meant(ms.name) + [0]) + c);
  }

  /** These parsed values are the tree of v. */
  ghost predicate TreeOf(vs: seq<Val>, v: Value)
    requires ValueOk(v)
  {
    && |vs| == Size(v)
    && forall n :: 0 <= n < |vs| ==> SameNode(vs[n], Flat(v, -1, 0)[n])
  }

  ghost predicate SameNode(x: Val, n: Node) {
    && x.kind == n.kind && x.parent == n.parent && x.values == n.values && x.names == n.names && x.text == n.text
    && (Container(x.kind) ==> x.length == |n.values|) && (x.kind.Str? ==> x.length + 1 == |n.text|)
  }

  lemma {:induction false} StoredTree(vs: seq<Val>, d: Doc, t: seq<Val>, v: Value)
    requires ValueOk(v) && AllStored(vs, d, t) && d.nodes == Flat(v, -1, 0)
    ensures TreeOf(vs, v)
  {
    forall n | 0 <= n < |vs| ensures SameNode(vs[n], Flat(v, -1, 0)[n]) {
      assert Stored(vs[n], d.nodes[n], t[n]);
    }
  }

  /** Every object of a value has few enough members for an int to hold their size. */
  ghost predicate SmallObjects(v: Value)
    requires ValueOk(v)
  {
    forall n :: 0 <= n < Size(v) && Flat(v, -1, 0)[n].kind.Obj? ==> ENTRY * |Flat(v, -1, 0)[n].values| < INT_LIMIT
  }

  /** The values both passes leave for these events are the tree of v; storage is filled if
      and only if its objects are small enough. */
  ghost predicate StoredAs(ev: seq<Event>, v: Value)
    requires ValueOk(v)
  {
    var one := Perform(true, NO_VALUES, ev);
    one.Some?
    && var two := Perform(false, Rewind(one.value), ev);
    && (two.Some? <==> SmallObjects(v))
    && (two.Some? ==> TreeOf(two.value.vals, v))
  }

  /** For every value, however it is written: the text is accepted; storage is filled if and
      only if its objects are small enough; and the values both passes then leave are
      exactly the tree of that value: kinds, parents, elements in order, member names and
      strings with their terminating NULs, and lengths. */
  lemma {:induction false} PrintedIsParsed(t: Document)
    requires DocumentOk(t) && |Written(t)| <= UINT_LIMIT
    ensures Inv(Written(t), START) && Run(true, Written(t), START) == Accepted(Events(t.v))
    ensures StoredAs(Events(t.v), t.v)
  {
    hide Run;
    hide Written;
    hide StoredAs;
    PrintedIsRead(t);
    ValueStored(Written(t), t.v);
  }

  lemma {:induction false} ValueStored(s: seq<byte>, v: Value)
    requires ValueOk(v) && Inv(s, START) && Run(true, s, START) == Accepted(Events(v))
    ensures StoredAs(Events(v), v)
  {
    hide Run;
    hide Perform;
    hide TreeOf;
    hide AllStored;
    hide DocOk;
    hide Counts;
    hide AllSized;
    hide SmallObjects;
    hide Events;
    TwoPasses(s);
    BuildTree(v);
    var one := Perform(true, NO_VALUES, Events(v)).value;
    var two := Perform(false, Rewind(one), Events(v));
    SmallIsSized(one, Build(EMPTY, Events(v)), v);
    if two.Some? { StoredTree(two.value.vals, Build(EMPTY, Events(v)), one.vals, v); }
  }

  lemma {:induction false} SmallIsSized(h: Heap, d: Doc, v: Value)
    requires ValueOk(v) && Counts(h, d) && d.nodes == Flat(v, -1, 0)
    ensures AllSized(h.vals, 0) <==> SmallObjects(v)
  {
    forall n | 0 <= n < Size(v)
      ensures Sized(h.vals[n]) <==> (Flat(v, -1, 0)[n].kind.Obj? ==> ENTRY * |Flat(v, -1, 0)[n].values| < INT_LIMIT)
    {
      assert Counted(h.vals[n], d.nodes[n], d.reading && n == TopOf(d), d.start);
    }
  }

  lemma {:induction false} BuildTree(v: Value)
    requires ValueOk(v)
    ensures Legal(EMPTY, Events(v)) && Build(EMPTY, Events(v)).nodes == Flat(v, -1, 0)
  {
    StartTracks();
    BuildValue(EMPTY, v);
    assert [] + Flat(v, -1, 0) == Flat(v, -1, 0);
  }
}
