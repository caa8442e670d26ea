/** Reference-counted cells: what `Inc` and `Dec` do at run time, and the invariant that
    every count is the number of references that exist. */
module RcHeap {
  import opened Options

  type Loc = nat

  datatype Value = Int(n: int) | Ref(loc: Loc)

  /** A location is never reused, so that a use after a free stays visible. */
  datatype Cell = Live(count: nat, tag: int, fields: seq<Value>) | Freed

  type Heap = seq<Cell>

  /** The value a cell stands for, without any heap. */
  datatype Tree = Num(n: int) | Con(tag: int, fields: seq<Tree>)

  function RefsOf(vs: seq<Value>): seq<Loc> {
    if vs == [] then []
    else (match vs[0] case Ref(l) => [l] case Int(_) => []) + RefsOf(vs[1..])
  }

  /** The one reference held by whoever owns `v`, if it is a reference. */
  function Tok(v: Value): multiset<Loc> {
    match v case Ref(l) => multiset{l} case Int(_) => multiset{}
  }

  function CellRefs(c: Cell): multiset<Loc> {
    match c case Live(_, _, fields) => multiset(RefsOf(fields)) case Freed => multiset{}
  }

  /** All references stored in fields of live cells. */
  function FieldRefs(h: Heap): multiset<Loc> {
    if h == [] then multiset{} else FieldRefs(h[..|h| - 1]) + CellRefs(h[|h| - 1])
  }

  ghost predicate IsLive(h: Heap, l: Loc) {
    l < |h| && h[l].Live?
  }

  /** Every count is the number of references from fields and from the owners `roots`;
      a freed cell has none; references point to older cells. */
  ghost predicate Inv(h: Heap, roots: multiset<Loc>) {
    && (forall l :: 0 <= l < |h| && h[l].Live? ==> h[l].count == FieldRefs(h)[l] + roots[l] && h[l].count > 0)
    && (forall l: Loc :: l < |h| && h[l].Freed? ==> FieldRefs(h)[l] + roots[l] == 0)
    && (forall l: Loc :: l >= |h| ==> FieldRefs(h)[l] + roots[l] == 0)
    && Older(h)
  }

  ghost predicate Older(h: Heap) {
    forall l, k :: 0 <= l < |h| && h[l].Live? && k in RefsOf(h[l].fields) ==> k < l
  }

  // ----- the operations -----

  function Allocate(h: Heap, tag: int, fields: seq<Value>): (Heap, Value) {
    (h + [Live(1, tag, fields)], Ref(|h|))
  }

  function Increment(h: Heap, v: Value, n: nat): Option<Heap> {
    match v
    case Int(_) => Some(h)
    case Ref(l) => if l < |h| && h[l].Live? then Some(h[l := h[l].(count := h[l].count + n)]) else None
  }

  function Total(h: Heap): nat {
    if h == [] then 0
    else Total(h[..|h| - 1]) + (match h[|h| - 1] case Live(c, _, _) => c case Freed => 0)
  }

  /** Drops one reference to each location of `work`; a cell that loses its last one is
      freed and its own references are dropped too. Touching a freed cell fails. */
  function Release(h: Heap, work: seq<Loc>): Option<Heap>
    decreases Total(h), |work|
  {
    if work == [] then Some(h)
    else
      var l := work[0];
      if l >= |h| || h[l].Freed? || h[l].count == 0 then None
      else if h[l].count > 1 then
        TotalUpdate(h, l, h[l].(count := h[l].count - 1));
        Release(h[l := h[l].(count := h[l].count - 1)], work[1..])
      else
        TotalUpdate(h, l, Freed);
        Release(h[l := Freed], RefsOf(h[l].fields) + work[1..])
  }

  function Decrement(h: Heap, v: Value): Option<Heap> {
    match v
    case Int(_) => Some(h)
    case Ref(l) => Release(h, [l])
  }

  function CountOf(c: Cell): nat {
    match c case Live(n, _, _) => n case Freed => 0
  }

  lemma {:induction false} TotalUpdate(h: Heap, l: Loc, c: Cell)
    requires l < |h|
    ensures Total(h[l := c]) + CountOf(h[l]) == Total(h) + CountOf(c)
  {
    if l == |h| - 1 {
      assert h[l := c][..l] == h[..l];
    } else {
      assert h[l := c][..|h| - 1] == h[..|h| - 1][l := c];
      TotalUpdate(h[..|h| - 1], l, c);
    }
  }

  lemma SwapSummands(a: multiset<Loc>, b: multiset<Loc>, x: multiset<Loc>, y: multiset<Loc>, z: multiset<Loc>)
    requires a + x == b + y
    ensures (a + z) + x == (b + z) + y
  {
    assert (a + z) + x == (a + x) + z;
  }

  lemma {:induction false} FieldRefsUpdate(h: Heap, l: Loc, c: Cell)
    requires l < |h|
    ensures FieldRefs(h[l := c]) + CellRefs(h[l]) == FieldRefs(h) + CellRefs(c)
  {
    hide CellRefs;
    var n := |h| - 1;
    var h' := h[l := c];
    if l == n {
      assert h'[..n] == h[..n];
      assert FieldRefs(h') == FieldRefs(h[..n]) + CellRefs(c);
    } else {
      assert h'[..n] == h[..n][l := c];
      FieldRefsUpdate(h[..n], l, c);
      SwapSummands(FieldRefs(h'[..n]), FieldRefs(h[..n]), CellRefs(h[l]), CellRefs(c), CellRefs(h[n]));
    }
  }

  lemma CancelSummand(a: multiset<Loc>, b: multiset<Loc>, x: multiset<Loc>)
    requires a + x == b + x
    ensures a == b
  {
    forall k ensures a[k] == b[k] {
      assert (a + x)[k] == (b + x)[k];
    }
  }

  /** Changing a count changes no reference. */
  lemma SameFields(h: Heap, l: Loc, n: nat)
    requires IsLive(h, l)
    ensures FieldRefs(h[l := h[l].(count := n)]) == FieldRefs(h)
  {
    var c := h[l].(count := n);
    FieldRefsUpdate(h, l, c);
    CancelSummand(FieldRefs(h[l := c]), FieldRefs(h), CellRefs(c));
  }

  lemma {:induction false} FieldRefsHas(h: Heap, l: Loc, k: Loc)
    requires l < |h| && h[l].Live? && k in RefsOf(h[l].fields)
    ensures FieldRefs(h)[k] > 0
  {
    if l < |h| - 1 {
      FieldRefsHas(h[..|h| - 1], l, k);
    }
  }

  /** What every heap step keeps: live old cells keep their contents, freed ones stay freed. */
  ghost predicate Shrinks(h: Heap, h': Heap) {
    && |h| <= |h'|
    && forall l :: 0 <= l < |h| && h'[l].Live? ==>
         h[l].Live? && h'[l].tag == h[l].tag && h'[l].fields == h[l].fields
  }

  lemma ShrinksTrans(a: Heap, b: Heap, c: Heap)
    requires Shrinks(a, b) && Shrinks(b, c)
    ensures Shrinks(a, c)
  {
  }

  /** `v` in heap `h` stands for the tree `t`, through live cells only. */
  ghost predicate Rep(h: Heap, v: Value, t: Tree)
    decreases t
  {
    match t
    case Num(n) => v == Int(n)
    case Con(tag, fields) =>
      && v.Ref? && IsLive(h, v.loc) && h[v.loc].tag == tag
      && |h[v.loc].fields| == |fields|
      && forall i :: 0 <= i < |fields| ==> Rep(h, h[v.loc].fields[i], fields[i])
  }

  lemma {:induction false} RefsOfHas(vs: seq<Value>, i: nat)
    requires i < |vs| && vs[i].Ref?
    ensures vs[i].loc in RefsOf(vs)
  {
    if i > 0 {
      RefsOfHas(vs[1..], i - 1);
    }
  }

  lemma FieldIsLive(h: Heap, roots: multiset<Loc>, l: Loc, i: nat)
    requires Inv(h, roots) && IsLive(h, l) && i < |h[l].fields| && h[l].fields[i].Ref?
    ensures IsLive(h, h[l].fields[i].loc)
  {
    RefsOfHas(h[l].fields, i);
    FieldRefsHas(h, l, h[l].fields[i].loc);
  }

  lemma RootIsLive(h: Heap, roots: multiset<Loc>, v: Value)
    requires Inv(h, roots) && Tok(v) <= roots && v.Ref?
    ensures IsLive(h, v.loc)
  {
    assert v.loc in Tok(v);
    assert roots[v.loc] > 0;
  }

  /** A value whose cell is still live after some steps still stands for the same tree. */
  lemma {:induction false} RepStays(h: Heap, h': Heap, roots: multiset<Loc>, v: Value, t: Tree)
    requires Rep(h, v, t) && Shrinks(h, h') && Inv(h', roots)
    requires v.Ref? ==> IsLive(h', v.loc)
    ensures Rep(h', v, t)
    decreases t
  {
    if t.Con? {
      forall i | 0 <= i < |t.fields| ensures Rep(h', h'[v.loc].fields[i], t.fields[i]) {
        if h'[v.loc].fields[i].Ref? {
          FieldIsLive(h', roots, v.loc, i);
        }
        RepStays(h, h', roots, h[v.loc].fields[i], t.fields[i]);
      }
    }
  }

  /** `n` references to whatever `v` refers to. */
  function Times(v: Value, n: nat): multiset<Loc> {
    match v case Ref(l) => multiset{}[l := n] case Int(_) => multiset{}
  }

  lemma IncrementCorrect(h: Heap, roots: multiset<Loc>, v: Value, n: nat)
    requires Inv(h, roots) && (v.Ref? ==> IsLive(h, v.loc))
    ensures Increment(h, v, n).Some?
    ensures Inv(Increment(h, v, n).value, roots + Times(v, n))
    ensures Shrinks(h, Increment(h, v, n).value)
  {
    hide Inv, Shrinks;
    match v {
      case Int(_) =>
        assert roots + Times(v, n) == roots;
        ShrinksRefl(h);
      case Ref(l) =>
        StepUp(h, roots, l, n);
    }
  }

  lemma StepUp(h: Heap, roots: multiset<Loc>, l: Loc, n: nat)
    requires Inv(h, roots) && IsLive(h, l)
    ensures var h' := h[l := h[l].(count := h[l].count + n)];
            Inv(h', roots + Times(Ref(l), n)) && Shrinks(h, h')
  {
    hide FieldRefs, RefsOf;
    SameFields(h, l, h[l].count + n);
  }

  lemma {:induction false} ReleaseCorrect(h: Heap, roots: multiset<Loc>, work: seq<Loc>)
    requires Inv(h, roots + multiset(work))
    ensures Release(h, work).Some?
    ensures Inv(Release(h, work).value, roots)
    ensures Shrinks(h, Release(h, work).value) && |Release(h, work).value| == |h|
    decreases Total(h), |work|
  {
    hide Release, Inv, Shrinks, FieldRefs, RefsOf, Total;
    if work == [] {
      assert roots + multiset(work) == roots;
      ReleaseNothing(h);
      ShrinksRefl(h);
    } else {
      var l := work[0];
      assert work == [l] + work[1..];
      assert multiset(work) == multiset{l} + multiset(work[1..]);
      var all := roots + multiset(work);
      assert l in all;
      RootCounted(h, all, l);
      if h[l].count > 1 {
        var c := h[l].(count := h[l].count - 1);
        StepDown(h, all, l);
        assert all - multiset{l} == roots + multiset(work[1..]);
        TotalUpdate(h, l, c);
        ReleaseCorrect(h[l := c], roots, work[1..]);
        ReleaseDown(h, work);
        ShrinksTrans(h, h[l := c], Release(h, work).value);
      } else {
        StepFree(h, all, l);
        var refs := RefsOf(h[l].fields);
        assert all - multiset{l} + multiset(refs) == roots + multiset(refs + work[1..]) by {
          assert multiset(refs + work[1..]) == multiset(refs) + multiset(work[1..]);
        }
        TotalUpdate(h, l, Freed);
        ReleaseCorrect(h[l := Freed], roots, refs + work[1..]);
        ReleaseFree(h, work);
        ShrinksTrans(h, h[l := Freed], Release(h, work).value);
      }
    }
  }

  lemma ShrinksRefl(h: Heap)
    ensures Shrinks(h, h)
  {
  }

  lemma RootCounted(h: Heap, all: multiset<Loc>, l: Loc)
    requires Inv(h, all) && l in all
    ensures IsLive(h, l) && h[l].count > 0
  {
  }

  lemma ReleaseNothing(h: Heap)
    ensures Release(h, []) == Some(h)
  {
  }

  lemma ReleaseDown(h: Heap, work: seq<Loc>)
    requires work != [] && IsLive(h, work[0]) && h[work[0]].count > 1
    ensures Release(h, work) == Release(h[work[0] := h[work[0]].(count := h[work[0]].count - 1)], work[1..])
  {
  }

  lemma ReleaseFree(h: Heap, work: seq<Loc>)
    requires work != [] && IsLive(h, work[0]) && h[work[0]].count == 1
    ensures Release(h, work) == Release(h[work[0] := Freed], RefsOf(h[work[0]].fields) + work[1..])
  {
  }

  lemma StepDown(h: Heap, all: multiset<Loc>, l: Loc)
    requires Inv(h, all) && l in all && IsLive(h, l) && h[l].count > 1
    ensures var h' := h[l := h[l].(count := h[l].count - 1)];
            Inv(h', all - multiset{l}) && Shrinks(h, h')
  {
    hide FieldRefs;
    SameFields(h, l, h[l].count - 1);
  }

  lemma FreedRefs(h: Heap, l: Loc, k: Loc)
    requires IsLive(h, l)
    ensures FieldRefs(h[l := Freed])[k] + multiset(RefsOf(h[l].fields))[k] == FieldRefs(h)[k]
  {
    FieldRefsUpdate(h, l, Freed);
    var refs := multiset(RefsOf(h[l].fields));
    assert (FieldRefs(h[l := Freed]) + refs)[k] == (FieldRefs(h) + multiset{})[k];
  }

  lemma StepFree(h: Heap, all: multiset<Loc>, l: Loc)
    requires Inv(h, all) && l in all && IsLive(h, l) && h[l].count == 1
    ensures Inv(h[l := Freed], all - multiset{l} + multiset(RefsOf(h[l].fields)))
    ensures Shrinks(h, h[l := Freed])
  {
    hide FieldRefs, RefsOf;
    var h' := h[l := Freed];
    var refs := multiset(RefsOf(h[l].fields));
    var roots := all - multiset{l} + refs;
    forall k: Loc ensures FieldRefs(h')[k] + roots[k] == FieldRefs(h)[k] + all[k] - (if k == l then 1 else 0) {
      FreedRefs(h, l, k);
    }
  }

  lemma DecrementCorrect(h: Heap, roots: multiset<Loc>, v: Value)
    requires Inv(h, roots + Tok(v))
    ensures Decrement(h, v).Some?
    ensures Inv(Decrement(h, v).value, roots)
    ensures Shrinks(h, Decrement(h, v).value)
  {
    match v {
      case Int(_) => assert roots + Tok(v) == roots;
      case Ref(l) =>
        assert multiset([l]) == multiset{l};
        ReleaseCorrect(h, roots, [l]);
    }
  }

  ghost predicate Reps(h: Heap, vs: seq<Value>, ts: seq<Tree>) {
    |vs| == |ts| && forall i :: 0 <= i < |vs| ==> Rep(h, vs[i], ts[i])
  }

  lemma RefsOfLive(h: Heap, roots: multiset<Loc>, fields: seq<Value>, k: Loc)
    requires Inv(h, roots + multiset(RefsOf(fields))) && k in RefsOf(fields)
    ensures IsLive(h, k)
  {
    assert (roots + multiset(RefsOf(fields)))[k] > 0;
  }

  lemma RootInRange(h: Heap, roots: multiset<Loc>, k: Loc)
    requires Inv(h, roots)
    ensures k >= |h| ==> FieldRefs(h)[k] == 0 && roots[k] == 0
  {
  }

  lemma AllocateInv(h: Heap, roots: multiset<Loc>, tag: int, fields: seq<Value>)
    requires Inv(h, roots + multiset(RefsOf(fields)))
    ensures var (h', v) := Allocate(h, tag, fields);
            Inv(h', roots + Tok(v)) && Shrinks(h, h')
  {
    hide FieldRefs, RefsOf;
    var c := Live(1, tag, fields);
    FieldRefsSnoc(h, c);
    forall k | k in RefsOf(fields) ensures k < |h| {
      RefsOfLive(h, roots, fields, k);
    }
    RootInRange(h, roots + CellRefs(c), |h|);
    OlderSnoc(h, c);
    CountsAfterAllocation(h, roots, c);
  }

  lemma FieldRefsSnoc(h: Heap, c: Cell)
    ensures FieldRefs(h + [c]) == FieldRefs(h) + CellRefs(c)
  {
    assert (h + [c])[..|h|] == h;
  }

  lemma OlderSnoc(h: Heap, c: Cell)
    requires Older(h) && c.Live? && forall k :: k in RefsOf(c.fields) ==> k < |h|
    ensures Older(h + [c])
  {
    hide RefsOf;
  }

  lemma CountsAfterAllocation(h: Heap, roots: multiset<Loc>, c: Cell)
    requires Inv(h, roots + CellRefs(c)) && c.Live? && c.count == 1
    requires FieldRefs(h + [c]) == FieldRefs(h) + CellRefs(c)
    requires Older(h + [c])
    ensures Inv(h + [c], roots + multiset{|h|})
  {
    hide FieldRefs, CellRefs, Older;
    var h', r' := h + [c], roots + multiset{|h|};
    forall k: Loc ensures FieldRefs(h')[k] + r'[k]
        == FieldRefs(h)[k] + (roots + CellRefs(c))[k] + (if k == |h| then 1 else 0) {
    }
  }

  /** A new cell takes over the references of its fields. */
  lemma AllocateCorrect(h: Heap, roots: multiset<Loc>, tag: int, fields: seq<Value>, ts: seq<Tree>)
    requires Inv(h, roots + multiset(RefsOf(fields))) && Reps(h, fields, ts)
    ensures var (h', v) := Allocate(h, tag, fields);
            Inv(h', roots + Tok(v)) && Rep(h', v, Con(tag, ts)) && Shrinks(h, h')
  {
    var (h', v) := Allocate(h, tag, fields);
    AllocateInv(h, roots, tag, fields);
    hide Inv, Shrinks;
    forall i | 0 <= i < |ts| ensures Rep(h', fields[i], ts[i]) {
      if fields[i].Ref? {
        RefsOfHas(fields, i);
        RefsOfLive(h, roots, fields, fields[i].loc);
      }
      RepStays(h, h', roots + Tok(v), fields[i], ts[i]);
    }
  }

  /** With no owner left, every cell has been freed. */
  lemma NoOwnersNoCells(h: Heap)
    requires Inv(h, multiset{})
    ensures forall l :: 0 <= l < |h| ==> h[l].Freed?
  {
    if exists l :: 0 <= l < |h| && h[l].Live? {
      var l := |h| - 1;
      while h[l].Freed?
        invariant 0 <= l < |h|
        invariant exists m :: 0 <= m <= l && h[m].Live?
        invariant forall m :: l < m < |h| ==> h[m].Freed?
        decreases l
      {
        l := l - 1;
      }
      TopCellUnreferenced(h, l);
    }
  }

  lemma CellRefsOlder(h: Heap, m: nat, l: Loc)
    requires Older(h) && m < |h| && (l < m ==> h[m].Freed?)
    ensures CellRefs(h[m])[l] == 0
  {
    hide RefsOf;
    assert h[m].Live? && l in RefsOf(h[m].fields) ==> l < m;
  }

  lemma {:induction false} NoRefsToTop(h: Heap, n: nat, l: Loc)
    requires n <= |h| && Older(h) && forall m :: l < m < n ==> h[m].Freed?
    ensures FieldRefs(h[..n])[l] == 0
  {
    if n > 0 {
      assert h[..n][..n - 1] == h[..n - 1];
      NoRefsToTop(h, n - 1, l);
      CellRefsOlder(h, n - 1, l);
      hide RefsOf, CellRefs, Older;
      assert FieldRefs(h[..n]) == FieldRefs(h[..n - 1]) + CellRefs(h[n - 1]);
    }
  }

  lemma TopCellUnreferenced(h: Heap, l: Loc)
    requires Older(h) && l < |h| && forall m :: l < m < |h| ==> h[m].Freed?
    ensures FieldRefs(h)[l] == 0
  {
    assert h[..|h|] == h;
    NoRefsToTop(h, |h|, l);
  }
}
