/** json.c: json_value_free_ex. The tree is released without recursion: the length
    fields count down the children still to visit, and parents lead back up. */
module JsonFree {
  import opened Bytes
  import opened Json
  import opened JsonStore

  /** Every closed node is listed exactly once, by its parent; open nodes by none. */
  ghost predicate Tree(d: Doc) { Down(d) && Once(d) && Up(d) }

  ghost predicate Down(d: Doc) {
    forall p, k :: 0 <= p < |d.nodes| && 0 <= k < |d.nodes[p].values| ==> Child(d, p, d.nodes[p].values[k])
  }

  ghost predicate Once(d: Doc) {
    forall p, j, k :: 0 <= p < |d.nodes| && 0 <= j < k < |d.nodes[p].values| ==>
      d.nodes[p].values[j] != d.nodes[p].values[k]
  }

  ghost predicate Up(d: Doc) {
    forall c :: 0 <= c < |d.nodes| && c !in d.path ==> Listed(d, c)
  }

  ghost predicate Child(d: Doc, p: nat, c: nat) {
    p < c < |d.nodes| && d.nodes[c].parent == p && c !in d.path
  }

  ghost predicate Listed(d: Doc, c: nat)
    requires c < |d.nodes|
  {
    var p := d.nodes[c].parent;
    0 <= p < |d.nodes| && c in d.nodes[p].values
  }

  lemma {:induction false} TreeNew(d: Doc, kind: Kind)
    requires Allowed(d, New(kind)) && Tree(d)
    ensures Tree(Grow(d, New(kind)))
  {
    var g := Grow(d, New(kind));
    assert d.path <= g.path;
    forall n | 0 <= n < |d.nodes| ensures g.nodes[n] == d.nodes[n] {}
    forall p, k | 0 <= p < |g.nodes| && 0 <= k < |g.nodes[p].values| ensures Child(g, p, g.nodes[p].values[k]) {
      assert Child(d, p, d.nodes[p].values[k]);
    }
    forall c | 0 <= c < |g.nodes| && c !in g.path ensures Listed(g, c) {
      assert c !in d.path;
      assert Listed(d, c);
    }
  }

  lemma {:induction false} TreeTop(d: Doc, e: Event)
    requires Allowed(d, e) && Tree(d) && !e.New? && !e.Pop?
    ensures Tree(Grow(d, e))
  {
    var g := Grow(d, e);
    forall n | 0 <= n < |d.nodes|
      ensures g.nodes[n].values == d.nodes[n].values && g.nodes[n].parent == d.nodes[n].parent {}
    forall p, k | 0 <= p < |g.nodes| && 0 <= k < |g.nodes[p].values| ensures Child(g, p, g.nodes[p].values[k]) {
      assert Child(d, p, d.nodes[p].values[k]);
    }
    forall c | 0 <= c < |g.nodes| && c !in g.path ensures Listed(g, c) {
      assert Listed(d, c);
    }
  }

  lemma {:induction false} PopDown(d: Doc)
    requires Allowed(d, Pop) && LinksOk(d) && Down(d)
    ensures Down(Grow(d, Pop))
  {
    var g, m := Grow(d, Pop), |d.path| - 1;
    var q, t := d.path[m - 1], d.path[m];
    assert d.path == g.path + [t];
    assert Child(g, q, t);
    forall p, k | 0 <= p < |g.nodes| && 0 <= k < |g.nodes[p].values| ensures Child(g, p, g.nodes[p].values[k]) {
      if k < |d.nodes[p].values| {
        assert g.nodes[p].values[k] == d.nodes[p].values[k];
        assert Child(d, p, d.nodes[p].values[k]);
      }
    }
  }

  lemma {:induction false} PopOnce(d: Doc)
    requires Allowed(d, Pop) && Down(d) && Once(d)
    ensures Once(Grow(d, Pop))
  {
    var g := Grow(d, Pop);
    forall p, j, k | 0 <= p < |g.nodes| && 0 <= j < k < |g.nodes[p].values|
      ensures g.nodes[p].values[j] != g.nodes[p].values[k]
    {
      assert g.nodes[p].values[j] == d.nodes[p].values[j];
      assert Child(d, p, d.nodes[p].values[j]);
      assert TopOf(d) in d.path;
    }
  }

  lemma {:induction false} PopUp(d: Doc)
    requires Allowed(d, Pop) && LinksOk(d) && Up(d)
    ensures Up(Grow(d, Pop))
  {
    var g, m := Grow(d, Pop), |d.path| - 1;
    var q, t := d.path[m - 1], d.path[m];
    assert d.path == g.path + [t];
    forall c | 0 <= c < |g.nodes| && c !in g.path ensures Listed(g, c) {
      if c == t {
        assert g.nodes[q].values[|d.nodes[q].values|] == t;
      } else {
        assert Listed(d, c);
      }
    }
  }

  lemma {:induction false} TreePop(d: Doc)
    requires DocOk(d) && Allowed(d, Pop) && Tree(d)
    ensures Tree(Grow(d, Pop))
  {
    hide Allowed;
    hide Grow;
    hide LinksOk;
    hide Down;
    hide Once;
    hide Up;
    PopDown(d);
    PopOnce(d);
    PopUp(d);
  }

  /** The document of any run is a tree. */
  lemma {:induction false} BuildsTree(d: Doc, ev: seq<Event>)
    requires DocOk(d) && Legal(d, ev) && Tree(d)
    ensures Tree(Build(d, ev))
    decreases |ev|
  {
    hide DocOk;
    hide Allowed;
    hide Grow;
    hide Tree;
    if ev != [] {
      GrowOk(d, ev[0]);
      if ev[0].New? { TreeNew(d, ev[0].kind);
      } else if ev[0].Pop? { TreePop(d);
      } else { TreeTop(d, ev[0]); }
      BuildsTree(Grow(d, ev[0]), ev[1..]);
    }
  }

  // ---------- Releasing ----------

  /** A parsed tree, root first. */
  ghost predicate WellFormed(vs: seq<Val>) {
    && vs != [] && vs[0].parent == -1
    && (forall p, k :: 0 <= p < |vs| && 0 <= k < |vs[p].values| ==> IsChild(vs, p, vs[p].values[k]))
    && (forall p, j, k :: 0 <= p < |vs| && 0 <= j < k < |vs[p].values| ==> vs[p].values[j] != vs[p].values[k])
    && (forall c :: 0 < c < |vs| ==> IsListed(vs, c))
    && (forall n :: 0 <= n < |vs| ==>
          if Container(vs[n].kind) then vs[n].length == |vs[n].values| else vs[n].values == [])
  }

  ghost predicate IsChild(vs: seq<Val>, p: nat, c: nat) { p < c < |vs| && vs[c].parent == p }

  ghost predicate IsListed(vs: seq<Val>, c: nat)
    requires c < |vs|
  {
    0 <= vs[c].parent < c && c in vs[vs[c].parent].values
  }

  /** What json_parse_ex returns is well formed. */
  lemma {:induction false} ParsedWellFormed(vs: seq<Val>, d: Doc, t: seq<Val>)
    requires Complete(d) && Tree(d) && AllStored(vs, d, t)
    ensures WellFormed(vs)
  {
    hide OffPath;
    hide ReadingOk;
    hide Up;
    assert d.path == [d.path[0]];
    forall n | 0 <= n < |vs| ensures Stored(vs[n], d.nodes[n], t[n]) && NodeOk(d.nodes[n], false) {}
    assert d.path[0] == 0 by { RootFirst(d); }
    forall p, k | 0 <= p < |vs| && 0 <= k < |vs[p].values| ensures IsChild(vs, p, vs[p].values[k]) {
      assert Child(d, p, d.nodes[p].values[k]);
    }
    forall c | 0 < c < |vs| ensures IsListed(vs, c) { ListedStored(vs, d, t, c); }
  }

  lemma {:induction false} ListedAbove(d: Doc, c: nat)
    requires Down(d) && c < |d.nodes| && Listed(d, c)
    ensures d.nodes[c].parent < c
  {
    var p := d.nodes[c].parent;
    var k :| 0 <= k < |d.nodes[p].values| && d.nodes[p].values[k] == c;
    assert Child(d, p, d.nodes[p].values[k]);
  }

  lemma {:induction false} RootFirst(d: Doc)
    requires Complete(d) && Tree(d)
    ensures d.path[0] == 0
  {
    hide OffPath;
    hide NodesOk;
    if 0 !in d.path { ListedAbove(d, 0); }
  }

  lemma {:induction false} ListedStored(vs: seq<Val>, d: Doc, t: seq<Val>, c: nat)
    requires |d.path| == 1 && d.path[0] == 0 && Tree(d) && AllStored(vs, d, t) && 0 < c < |vs|
    ensures IsListed(vs, c)
  {
    assert c !in d.path;
    assert Listed(d, c);
    var p := d.nodes[c].parent;
    var k :| 0 <= k < |d.nodes[p].values| && d.nodes[p].values[k] == c;
    assert Child(d, p, d.nodes[p].values[k]);
    assert Stored(vs[c], d.nodes[c], t[c]) && Stored(vs[p], d.nodes[p], t[p]);
  }

  /** A value is looked at (with its block), its block is released, it is released. */
  datatype Touch = Look(n: nat) | Block(n: nat) | Value(n: nat)

  predicate HasBlock(k: Kind) { k.Arr? || k.Obj? || k.Str? }

  /** The releases of one value. */
  function Releases(vs: seq<Val>, n: nat): seq<Touch> {
    (if n < |vs| && HasBlock(vs[n].kind) then [Block(n)] else []) + [Value(n)]
  }

  function Log(vs: seq<Val>, order: seq<nat>): seq<Touch> {
    if order == [] then []
    else Log(vs, order[..|order| - 1]) + Releases(vs, order[|order| - 1])
  }

  /** The releases among what happened. */
  function Released(log: seq<Touch>): seq<Touch> {
    if log == [] then []
    else Released(log[..|log| - 1]) + if log[|log| - 1].Look? then [] else [log[|log| - 1]]
  }

  /** Nothing happens to a value after its release, and after the release of its block
      only its own release. */
  ghost predicate Safe(log: seq<Touch>) {
    forall i, j :: 0 <= i < j < |log| && log[i].n == log[j].n ==>
      !log[i].Value? && (log[i].Block? ==> log[j].Value?)
  }

  /** What was released is in order. */
  ghost predicate Known(log: seq<Touch>, order: seq<nat>) {
    forall i :: 0 <= i < |log| && !log[i].Look? ==> log[i].n in order
  }

  lemma {:induction false} LookSafe(log: seq<Touch>, order: seq<nat>, v: nat)
    requires Safe(log) && Known(log, order) && v !in order
    ensures Safe(log + [Look(v)]) && Known(log + [Look(v)], order) && Released(log + [Look(v)]) == Released(log)
  {
    assert (log + [Look(v)])[..|log|] == log && Released(log) + [] == Released(log);
  }

  lemma {:induction false} ReleaseSafe(vs: seq<Val>, log: seq<Touch>, order: seq<nat>, v: nat)
    requires Safe(log) && Known(log, order) && v !in order
    ensures var l := log + Releases(vs, v);
            Safe(l) && Known(l, order + [v]) && Released(l) == Released(log) + Releases(vs, v)
  {
    var m := if v < |vs| && HasBlock(vs[v].kind) then log + [Block(v)] else log;
    var l := m + [Value(v)];
    assert log + Releases(vs, v) == l;
    assert m[..|m|] == m && l[..|m|] == m;
    if |m| > |log| { assert m[..|log|] == log; }
  }

  /** The open values from the root down, each one's current child below it. */
  ghost predicate Walk(vs: seq<Val>, lens: seq<nat>, path: seq<nat>) {
    && |lens| == |vs|
    && (forall k :: 0 <= k < |path| ==> path[k] < |vs|)
    && (path != [] ==> path[0] == 0)
    && (forall j, k :: 0 <= j < k < |path| ==> path[j] < path[k])
    && (forall j, k :: 0 <= j < k < |path| && k == j + 1 ==> Above(vs, lens, path[j], path[k]))
  }

  ghost predicate Above(vs: seq<Val>, lens: seq<nat>, p: nat, c: nat)
    requires |lens| == |vs|
  {
    p < |vs| && c < |vs| && vs[c].parent == p && lens[p] < |vs[p].values| && vs[p].values[lens[p]] == c
  }

  /** Children not yet counted down are untouched, the others are open or released. */
  ghost predicate Progressed(vs: seq<Val>, lens: seq<nat>, path: seq<nat>, order: seq<nat>)
    requires |lens| == |vs|
  {
    && (forall n :: 0 <= n < |vs| ==> lens[n] <= |vs[n].values| && (n in order ==> lens[n] == 0))
    && (forall n, j :: 0 <= n < |vs| && lens[n] <= j < |vs[n].values| ==> vs[n].values[j] in path + order)
    && (forall n, j :: 0 <= n < |vs| && 0 <= j < lens[n] && j < |vs[n].values| ==> vs[n].values[j] !in path + order)
    && 0 in path + order
  }

  ghost predicate Distinct(order: seq<nat>) {
    forall j, k :: 0 <= j < k < |order| ==> order[j] != order[k]
  }

  function Sum(lens: seq<nat>): nat { if lens == [] then 0 else lens[0] + Sum(lens[1..]) }

  lemma {:induction false} SumDown(lens: seq<nat>, k: nat)
    requires k < |lens| && lens[k] > 0
    ensures Sum(lens[k := lens[k] - 1]) + 1 == Sum(lens)
  {
    var u := lens[k := lens[k] - 1];
    if k > 0 {
      assert u[1..] == lens[1..][k - 1 := lens[k] - 1];
      SumDown(lens[1..], k - 1);
    } else {
      assert u[1..] == lens[1..];
    }
  }

  lemma {:induction false} WalkDown(vs: seq<Val>, lens: seq<nat>, path: seq<nat>, v: nat, c: nat)
    requires WellFormed(vs) && Walk(vs, lens, path) && path != [] && v == path[|path| - 1]
    requires 0 < lens[v] <= |vs[v].values| && c == vs[v].values[lens[v] - 1]
    ensures Walk(vs, lens[v := lens[v] - 1], path + [c]) && c < |vs|
  {
    var lens', path' := lens[v := lens[v] - 1], path + [c];
    assert IsChild(vs, v, c);
    forall j, k | 0 <= j < k < |path'| && k == j + 1 ensures Above(vs, lens', path'[j], path'[k]) {
      if k < |path| { assert Above(vs, lens, path[j], path[k]); }
    }
  }

  lemma {:induction false} ProgressDown(vs: seq<Val>, lens: seq<nat>, path: seq<nat>, order: seq<nat>, v: nat, c: nat)
    requires WellFormed(vs) && |lens| == |vs| && Progressed(vs, lens, path, order) && v < |vs| && v !in order
    requires 0 < lens[v] <= |vs[v].values| && c == vs[v].values[lens[v] - 1]
    ensures c !in path && c !in order
    ensures Progressed(vs, lens[v := lens[v] - 1], path + [c], order)
  {
    var lens', path' := lens[v := lens[v] - 1], path + [c];
    forall x: nat ensures x in path' + order <==> x in path + order || x == c {}
    forall n, j | 0 <= n < |vs| && 0 <= j < lens'[n] && j < |vs[n].values| ensures vs[n].values[j] !in path' + order {
      assert IsChild(vs, n, vs[n].values[j]);
      assert IsChild(vs, v, vs[v].values[lens[v] - 1]);
    }
  }

  lemma {:induction false} ProgressUp(vs: seq<Val>, lens: seq<nat>, path: seq<nat>, order: seq<nat>)
    requires |lens| == |vs| && Progressed(vs, lens, path, order) && path != [] && path[|path| - 1] < |vs|
             && lens[path[|path| - 1]] == 0
    ensures Progressed(vs, lens, path[..|path| - 1], order + [path[|path| - 1]])
  {
    var m := |path| - 1;
    var path', order' := path[..m], order + [path[m]];
    assert path == path' + [path[m]];
    forall x: nat ensures x in path' + order' <==> x in path + order {}
  }

  /** When nothing is open, everything has been released. */
  lemma {:induction false} AllReleased(vs: seq<Val>, lens: seq<nat>, order: seq<nat>, n: nat)
    requires WellFormed(vs) && |lens| == |vs| && Progressed(vs, lens, [], order) && n < |vs|
    ensures n in order
  {
    assert [] + order == order;
    if n > 0 {
      assert IsListed(vs, n);
      var p := vs[n].parent;
      AllReleased(vs, lens, order, p);
      var j :| 0 <= j < |vs[p].values| && vs[p].values[j] == n;
      assert lens[p] <= j;
    }
  }

  lemma {:induction false} WalkUp(vs: seq<Val>, lens: seq<nat>, path: seq<nat>)
    requires WellFormed(vs) && Walk(vs, lens, path) && path != []
    ensures Walk(vs, lens, path[..|path| - 1])
    ensures vs[path[|path| - 1]].parent == if |path| == 1 then -1 else path[|path| - 2]
  {
    var m := |path| - 1;
    var path' := path[..m];
    if m > 0 { assert Above(vs, lens, path[m - 1], path[m]); }
    forall j, k | 0 <= j < k < |path'| && k == j + 1 ensures Above(vs, lens, path'[j], path'[k]) {
      assert Above(vs, lens, path[j], path[k]);
    }
  }

  lemma {:induction false} LogEmpty(vs: seq<Val>)
    ensures Log(vs, []) == [] && Released([]) == [] && Safe([]) && Known([], [])
  {
  }

  lemma {:induction false} LogSnoc(vs: seq<Val>, order: seq<nat>, v: nat)
    ensures Log(vs, order + [v]) == Log(vs, order) + Releases(vs, v)
  {
    assert (order + [v])[..|order|] == order;
  }

  /** json_value_free_ex: every value, and every block it has, is released exactly
      once, and nothing is looked at after its release. */
  method FreeEx(vs: seq<Val>) returns (order: seq<nat>, log: seq<Touch>)
    requires WellFormed(vs)
    ensures Distinct(order) && forall n: nat :: n in order <==> n < |vs|
    ensures Released(log) == Log(vs, order) && Safe(log)
  {
    hide WellFormed;
    hide Walk;
    hide Progressed;
    hide Sum;
    hide Log;
    hide Safe;
    hide Known;
    hide Released;
    var lens: seq<nat> := seq(|vs|, n requires 0 <= n < |vs| => Slots(vs[n]));
    var value: int := 0;
    order, log := [], [];
    ghost var path: seq<nat> := [0];
    ghost var live: set<nat> := set n | 0 <= n < |vs| && n !in order;
    FreeStart(vs, lens);
    LogEmpty(vs);
    while value != -1
      invariant Walk(vs, lens, path) && |lens| == |vs|
      invariant Progressed(vs, lens, path, order) && Distinct(order)
      invariant value == if path == [] then -1 else path[|path| - 1]
      invariant forall k :: 0 <= k < |path| ==> path[k] < |vs| && path[k] in live
      invariant forall n: nat :: n in live <==> n < |vs| && n !in order
      invariant forall n :: n in order ==> n < |vs|
      invariant Released(log) == Log(vs, order) && Safe(log) && Known(log, order)
      decreases Sum(lens), |live|
    {
      ghost var m := |path| - 1;
      LensBound(vs, lens, path, order, value);
      LookSafe(log, order, value);
      log := log + [Look(value)];
      if Container(vs[value].kind) && lens[value] > 0 {
        ghost var c := vs[value].values[lens[value] - 1];
        WalkDown(vs, lens, path, value, c);
        ProgressDown(vs, lens, path, order, value, c);
        SumDown(lens, value);
        path := path + [c];
        lens := lens[value := lens[value] - 1];
        value := vs[value].values[lens[value]];
      } else {
        WalkUp(vs, lens, path);
        ProgressUp(vs, lens, path, order);
        LogSnoc(vs, order, value);
        WalkApart(vs, lens, path);
        ReleaseSafe(vs, log, order, value);
        var block := if HasBlock(vs[value].kind) then [Block(value)] else [];
        var cur := value;
        value := vs[value].parent;
        log := log + (block + [Value(cur)]);
        order := order + [cur];
        live := live - {cur};
        path := path[..m];
      }
    }
    assert path == [];
    forall n: nat | n < |vs| ensures n in order { AllReleased(vs, lens, order, n); }
  }

  /** Parsing, then releasing what was parsed. */
  method ParseAndFree(input: seq<byte>) returns (r: Parsed, order: seq<nat>, log: seq<Touch>)
    ensures r.Success? ==>
              && WellFormed(r.vals) && Distinct(order) && (forall n: nat :: n in order <==> n < |r.vals|)
              && Released(log) == Log(r.vals, order) && Safe(log)
    ensures !r.Success? ==> order == [] && log == []
  {
    hide Run;
    hide WellFormed;
    hide Safe;
    hide Released;
    hide Log;
    r := ParseEx(input);
    order, log := [], [];
    if r.Success? {
      SuccessWellFormed(Text(input), r.vals);
      order, log := FreeEx(r.vals);
    }
  }

  /** What json_parse_ex returns can be handed to json_value_free_ex. */
  lemma {:induction false} SuccessWellFormed(s: seq<byte>, vs: seq<Val>)
    requires Inv(s, START) && Run(true, s, START).Accepted?
    requires var ev := Run(true, s, START).ev;
             && Legal(EMPTY, ev) && Complete(Build(EMPTY, ev))
             && var one := Perform(true, NO_VALUES, ev);
             one.Some? && AllStored(vs, Build(EMPTY, ev), one.value.vals)
    ensures WellFormed(vs)
  {
    hide Run;
    hide DocOk;
    hide AllStored;
    hide WellFormed;
    var ev := Run(true, s, START).ev;
    StartTracks();
    EmptyTree();
    BuildsTree(EMPTY, ev);
    ParsedWellFormed(vs, Build(EMPTY, ev), Perform(true, NO_VALUES, ev).value.vals);
  }

  lemma {:induction false} EmptyTree()
    ensures Tree(EMPTY)
  {
  }

  lemma {:induction false} FreeStart(vs: seq<Val>, lens: seq<nat>)
    requires WellFormed(vs) && |lens| == |vs| && (forall n :: 0 <= n < |vs| ==> lens[n] == Slots(vs[n]))
    ensures Walk(vs, lens, [0]) && Progressed(vs, lens, [0], []) && 0 < |vs|
  {
    forall n, j | 0 <= n < |vs| && 0 <= j < |vs[n].values| ensures vs[n].values[j] !in [0] + [] {
      assert IsChild(vs, n, vs[n].values[j]);
    }
  }

  lemma {:induction false} LensBound(vs: seq<Val>, lens: seq<nat>, path: seq<nat>, order: seq<nat>, v: nat)
    requires WellFormed(vs) && |lens| == |vs| && Progressed(vs, lens, path, order) && v < |vs|
    ensures lens[v] <= |vs[v].values| && (!Container(vs[v].kind) ==> lens[v] == 0)
  {
  }

  lemma {:induction false} WalkApart(vs: seq<Val>, lens: seq<nat>, path: seq<nat>)
    requires Walk(vs, lens, path) && path != []
    ensures path[|path| - 1] !in path[..|path| - 1]
  {
  }
}
