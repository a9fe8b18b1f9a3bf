/** resolv.c: one name, up to two DNS queries, one callback. */
module Resolv {
  datatype Family = V4 | V6

  datatype Address = Address(family: Family, bits: nat)

  datatype Mode = V4Only | V6Only | V4First | V6First

  datatype Best = Nothing | Chosen(a: Address)

  /** The first address of a family, or else the first of all. */
  function First(rs: seq<Address>, f: Family): Best {
    if rs == [] then Nothing
    else if rs[0].family == f then Chosen(rs[0])
    else
      var r := First(rs[1..], f);
      if r.Chosen? && r.a.family == f then r else Chosen(rs[0])
  }

  /** The address the client gets from the answers of the two queries, with no regard
      to their order of arrival. */
  function Preferred(mode: Mode, a4: seq<Address>, a6: seq<Address>): Best {
    var (p, q) := if mode.V6Only? || mode.V6First? then (a6, a4) else (a4, a6);
    if p != [] then Chosen(p[0]) else if q != [] then Chosen(q[0]) else Nothing
  }

  predicate AllOf(rs: seq<Address>, f: Family) { forall i :: 0 <= i < |rs| ==> rs[i].family == f }

  /** The scan of choose_ipv4_first and choose_ipv6_first. */
  method ChooseFirst(rs: seq<Address>, f: Family) returns (b: Best)
    ensures b == First(rs, f)
  {
    for i := 0 to |rs|
      invariant forall k :: 0 <= k < i ==> rs[k].family != f
    {
      if rs[i].family == f { FirstAt(rs, f, i); return Chosen(rs[i]); }
    }
    FirstNone(rs, f);
    return if |rs| >= 1 then Chosen(rs[0]) else Nothing;
  }

  lemma {:induction false} FirstAt(rs: seq<Address>, f: Family, i: nat)
    requires i < |rs| && rs[i].family == f && forall k :: 0 <= k < i ==> rs[k].family != f
    ensures First(rs, f) == Chosen(rs[i])
  {
    if i > 0 { FirstAt(rs[1..], f, i - 1); }
  }

  lemma {:induction false} FirstNone(rs: seq<Address>, f: Family)
    requires forall k :: 0 <= k < |rs| ==> rs[k].family != f
    ensures First(rs, f) == if rs == [] then Nothing else Chosen(rs[0])
  {
    if rs != [] { FirstNone(rs[1..], f); }
  }

  function Pick(mode: Mode, rs: seq<Address>): Best {
    match mode
    case V4First => First(rs, V4)
    case V6First => First(rs, V6)
    case _ => if rs == [] then Nothing else Chosen(rs[0])
  }

  /** Whichever answer comes first, the client gets the same address. */
  lemma {:induction false} ArrivalOrder(mode: Mode, a4: seq<Address>, a6: seq<Address>)
    requires AllOf(a4, V4) && AllOf(a6, V6) && (mode.V4Only? ==> a6 == []) && (mode.V6Only? ==> a4 == [])
    ensures Pick(mode, a4 + a6) == Pick(mode, a6 + a4) == Preferred(mode, a4, a6)
  {
    FirstOf(a4, a6, V4, V6);
    FirstOf(a6, a4, V6, V4);
  }

  lemma {:induction false} FirstOf(p: seq<Address>, q: seq<Address>, f: Family, g: Family)
    requires AllOf(p, f) && AllOf(q, g) && f != g
    ensures var b := if p != [] then Chosen(p[0]) else if q != [] then Chosen(q[0]) else Nothing;
            First(p + q, f) == b && First(q + p, f) == b
  {
    if p != [] {
      FirstAt(p + q, f, 0);
      assert (q + p)[|q|] == p[0];
      FirstAt(q + p, f, |q|);
    } else {
      FirstNone(p + q, f);
      FirstNone(q + p, f);
    }
  }

  // ---------- The life of a query ----------

  /** Which queries are pending, whether any was submitted, whether server.c still keeps
      the pointer and whether it has closed the connection, how often the free callback
      was called, and whether the structure was used after its release. */
  datatype Life = Life(p4: bool, p6: bool, submitted: bool, held: bool, closed: bool, frees: nat, stale: bool)

  datatype Event = Answer4 | Answer6 | Closing

  /** resolv_query: a structure none of whose queries could be submitted is released at
      once, and its address is returned all the same. */
  function Born(mode: Mode, ok4: bool, ok6: bool): Life {
    var p4, p6 := ok4 && !mode.V6Only?, ok6 && !mode.V4Only?;
    Life(p4, p6, p4 || p6, true, false, if p4 || p6 then 0 else 1, false)
  }

  predicate Possible(l: Life, e: Event) {
    match e
    case Answer4 => l.p4
    case Answer6 => l.p6
    case Closing => !l.closed
  }

  /** The last answer calls the client, who drops the pointer, and releases the data;
      closing the connection cancels what the pointer points to. */
  function Lived(l: Life, e: Event): Life {
    var q4, q6 := l.p4 && e != Answer4, l.p6 && e != Answer6;
    if e == Closing then
      if l.held then
        l.(p4 := false, p6 := false, held := false, closed := true,
           frees := l.frees + 1, stale := l.stale || l.frees > 0)
      else l.(closed := true)
    else if q4 || q6 then l.(p4 := q4, p6 := q6)
    else l.(p4 := false, p6 := false, held := false, frees := l.frees + 1)
  }

  predicate Lives(l: Life, es: seq<Event>)
    decreases |es|
  {
    es == [] || (Possible(l, es[0]) && Lives(Lived(l, es[0]), es[1..]))
  }

  function Finally(l: Life, es: seq<Event>): Life
    decreases |es|
  {
    if es == [] then l else Finally(Lived(l, es[0]), es[1..])
  }

  /** The state in terms of what has happened. */
  predicate Accounted(l: Life) {
    && (l.p4 || l.p6 ==> l.submitted && !l.closed)
    && l.held == (!l.closed && (!l.submitted || l.p4 || l.p6))
    && l.frees == (if l.p4 || l.p6 then 0 else if !l.submitted && l.closed then 2 else 1)
    && l.stale == (!l.submitted && l.closed)
  }

  lemma {:induction false} LifeAccounted(l: Life, es: seq<Event>)
    requires Accounted(l) && Lives(l, es)
    ensures var m := Finally(l, es);
            Accounted(m) && m.submitted == l.submitted && (m.closed <==> l.closed || Closing in es)
    decreases |es|
  {
    if es != [] {
      assert Accounted(Lived(l, es[0]));
      LifeAccounted(Lived(l, es[0]), es[1..]);
      assert es == [es[0]] + es[1..];
    }
  }

  /** In every run of a look-up that is over: the free callback was called exactly once
      and released memory was not used if and only if some query could be submitted or
      the connection was never closed. Otherwise it was called twice, the second time
      through the released structure. */
  lemma {:induction false} FreedOnce(mode: Mode, ok4: bool, ok6: bool, es: seq<Event>)
    requires var l := Born(mode, ok4, ok6); Lives(l, es) && !Finally(l, es).p4 && !Finally(l, es).p6
    ensures var m, some := Finally(Born(mode, ok4, ok6), es), (ok4 && !mode.V6Only?) || (ok6 && !mode.V4Only?);
            && (m.frees == 1 && !m.stale <==> some || Closing !in es)
            && (m.frees == 2 && m.stale <==> !some && Closing in es)
  {
    LifeAccounted(Born(mode, ok4, ok6), es);
  }

  /** One such run: no query can be submitted, and the connection is closed. */
  lemma {:induction false} FreedTwice(mode: Mode)
    ensures Lives(Born(mode, false, false), [Closing])
    ensures Finally(Born(mode, false, false), [Closing]).frees == 2
            && Finally(Born(mode, false, false), [Closing]).stale
  {
    assert [Closing][1..] == [];
  }

  /** struct ResolvQuery, and the pointer to it that server.c keeps. The ghost fields
      record its life, the answers, and the calls of the client callback. */
  class Query {
    const mode: Mode
    var pending4: bool
    var pending6: bool
    var responses: seq<Address>
    var held: bool
    ghost const submitted: bool
    ghost var closed: bool
    ghost var a4: seq<Address>
    ghost var a6: seq<Address>
    ghost var calls: seq<Best>
    ghost var frees: nat
    ghost var stale: bool

    ghost function State(): Life
      reads this
    {
      Life(pending4, pending6, submitted, held, closed, frees, stale)
    }

    ghost predicate Valid()
      reads this
    {
      && AllOf(a4, V4) && AllOf(a6, V6) && (pending4 ==> a4 == []) && (pending6 ==> a6 == [])
      && (mode.V4Only? ==> a6 == [] && !pending6) && (mode.V6Only? ==> a4 == [] && !pending4)
      && (responses == a4 + a6 || responses == a6 + a4)
      && (pending4 || pending6 ==> calls == []) && Accounted(State())
    }

    /** resolv_query: each submission may fail; the caller keeps the pointer returned. */
    constructor (mode: Mode, ok4: bool, ok6: bool)
      ensures Valid() && this.mode == mode && State() == Born(mode, ok4, ok6) && responses == [] && calls == []
    {
      this.mode := mode;
      var p4, p6 := ok4 && !mode.V6Only?, ok6 && !mode.V4Only?;
      pending4, pending6, held := p4, p6, true;
      responses, a4, a6, calls := [], [], [], [];
      submitted, closed, stale := p4 || p6, false, false;
      frees := if p4 || p6 then 0 else 1;
    }

    /** dns_query_v4_cb; a failed query answers with nothing. */
    method OnV4(answer: seq<Address>)
      requires Valid() && pending4 && AllOf(answer, V4)
      modifies this
      ensures Valid() && State() == Lived(old(State()), Answer4) && a4 == answer && a6 == old(a6)
      ensures calls == if pending6 then [] else [Preferred(mode, a4, a6)]
    {
      responses, a4, pending4 := responses + answer, answer, false;
      assert a6 + [] == a6 && [] + a6 == a6;
      if !pending6 { Complete(); }
    }

    /** dns_query_v6_cb */
    method OnV6(answer: seq<Address>)
      requires Valid() && pending6 && AllOf(answer, V6)
      modifies this
      ensures Valid() && State() == Lived(old(State()), Answer6) && a6 == answer && a4 == old(a4)
      ensures calls == if pending4 then [] else [Preferred(mode, a4, a6)]
    {
      responses, a6, pending6 := responses + answer, answer, false;
      assert a4 + [] == a4 && [] + a4 == a4;
      if !pending4 { Complete(); }
    }

    /** process_client_callback; server_resolve_cb drops the pointer. */
    method Complete()
      requires AllOf(a4, V4) && AllOf(a6, V6) && (responses == a4 + a6 || responses == a6 + a4)
      requires (mode.V4Only? ==> a6 == []) && (mode.V6Only? ==> a4 == []) && frees == 0 && calls == []
      modifies this`calls, this`frees, this`held
      ensures calls == [Preferred(mode, a4, a6)] && frees == 1 && !held
    {
      ArrivalOrder(mode, a4, a6);
      var best;
      if mode == V4First {
        best := ChooseFirst(responses, V4);
      } else if mode == V6First {
        best := ChooseFirst(responses, V6);
      } else {
        best := if |responses| >= 1 then Chosen(responses[0]) else Nothing;
      }
      calls, frees, held := calls + [best], frees + 1, false;
    }

    /** close_and_free_server: a pointer still kept is cancelled. */
    method Close()
      requires Valid() && !closed
      modifies this
      ensures Valid() && State() == Lived(old(State()), Closing) && calls == old(calls)
    {
      if held { Cancel(); held := false; }
      closed := true;
    }

    /** resolv_cancel: of a structure that may have been released already. The client is
        not called. */
    method Cancel()
      modifies this`pending4, this`pending6, this`frees, this`stale
      ensures !pending4 && !pending6 && frees == old(frees) + 1 && stale == (old(stale) || old(frees) > 0)
    {
      stale := stale || frees > 0;
      if pending4 { pending4 := false; }
      if pending6 { pending6 := false; }
      frees := frees + 1;
    }
  }
}
