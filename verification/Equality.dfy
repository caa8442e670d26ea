/** Structural equality over Elm values, with an explicit stack for what lies deep. */
module Equality {

  /** A number, character or string; a tagged value or record with its fields; or a Dict or Set,
      of which two trees can hold the same list. */
  datatype Value =
    | Atom(a: int)
    | Tagged(tag: int, fields: seq<Value>)
    | Tree(shape: nat, list: Value)

  datatype Pair = Pair(x: Value, y: Value)

  function Size(v: Value): nat {
    match v
    case Atom(_) => 1
    case Tagged(_, fields) => 1 + Sizes(fields)
    case Tree(_, list) => 1 + Size(list)
  }

  function Sizes(vs: seq<Value>): nat {
    if vs == [] then 0 else Size(vs[0]) + Sizes(vs[1..])
  }

  /** What equality is to mean. */
  ghost predicate Same(x: Value, y: Value) {
    match (x, y)
    case (Atom(a), Atom(b)) => a == b
    case (Tagged(t, xs), Tagged(u, ys)) => t == u && |xs| == |ys| && forall i :: 0 <= i < |xs| ==> Same(xs[i], ys[i])
    case (Tree(_, l), Tree(_, m)) => Same(l, m)
    case _ => false
  }

  /** What the type checker ensures of two values that are compared. A tree lists its entries
      as a list, which is tagged. */
  ghost predicate OneType(x: Value, y: Value) {
    match (x, y)
    case (Atom(_), Atom(_)) => true
    case (Tagged(t, xs), Tagged(u, ys)) =>
      t == u ==> |xs| == |ys| && forall i :: 0 <= i < |xs| ==> OneType(xs[i], ys[i])
    case (Tree(_, l), Tree(_, m)) => l.Tagged? && m.Tagged? && OneType(l, m)
    case _ => false
  }

  ghost predicate AllSame(ps: seq<Pair>) {
    forall i :: 0 <= i < |ps| ==> Same(ps[i].x, ps[i].y)
  }

  ghost predicate AllOneType(ps: seq<Pair>) {
    forall i :: 0 <= i < |ps| ==> OneType(ps[i].x, ps[i].y)
  }

  function PairSizes(ps: seq<Pair>): nat {
    if ps == [] then 0 else PairSizes(ps[..|ps| - 1]) + Size(ps[|ps| - 1].x)
  }

  lemma {:induction false} PairSizesAppend(ps: seq<Pair>, qs: seq<Pair>)
    ensures PairSizes(ps + qs) == PairSizes(ps) + PairSizes(qs)
  {
    if qs == [] {
      assert ps + qs == ps;
    } else {
      assert (ps + qs)[..|ps + qs| - 1] == ps + qs[..|qs| - 1];
      PairSizesAppend(ps, qs[..|qs| - 1]);
    }
  }

  lemma NoPairs()
    ensures PairSizes([]) == 0 && AllSame([]) && AllOneType([]) && Sizes([]) == 0
  {
  }

  lemma OnePair(p: Pair)
    ensures PairSizes([p]) == Size(p.x) && (AllSame([p]) <==> Same(p.x, p.y))
            && (AllOneType([p]) <==> OneType(p.x, p.y))
  {
    hide Same, OneType, Size;
    assert [p][..0] == [];
    assert [p][0] == p;
  }

  lemma BothLists(ps: seq<Pair>, qs: seq<Pair>)
    ensures PairSizes(ps + qs) == PairSizes(ps) + PairSizes(qs)
    ensures AllSame(ps + qs) <==> AllSame(ps) && AllSame(qs)
    ensures AllOneType(ps + qs) <==> AllOneType(ps) && AllOneType(qs)
  {
    hide Same, OneType, Size, PairSizes;
    PairSizesAppend(ps, qs);
    assert forall i :: 0 <= i < |ps| ==> (ps + qs)[i] == ps[i];
    assert forall i :: 0 <= i < |qs| ==> (ps + qs)[|ps| + i] == qs[i];
  }

  lemma {:induction false} SizesAppend(vs: seq<Value>, v: Value)
    ensures Sizes(vs + [v]) == Sizes(vs) + Size(v)
  {
    if vs == [] {
      assert (vs + [v])[1..] == [];
    } else {
      assert (vs + [v])[1..] == vs[1..] + [v];
      SizesAppend(vs[1..], v);
    }
  }

  lemma SizesPrefix(vs: seq<Value>, i: nat)
    requires i < |vs|
    ensures Sizes(vs[..i + 1]) == Sizes(vs[..i]) + Size(vs[i])
  {
    assert vs[..i + 1] == vs[..i] + [vs[i]];
    SizesAppend(vs[..i], vs[i]);
  }

  lemma {:induction false} SizesOfPrefix(vs: seq<Value>, i: nat)
    requires i <= |vs|
    ensures Sizes(vs[..i]) <= Sizes(vs)
    decreases |vs| - i
  {
    if i == |vs| {
      assert vs[..i] == vs;
    } else {
      SizesPrefix(vs, i);
      SizesOfPrefix(vs, i + 1);
    }
  }

  lemma {:induction false} SameReflexive(x: Value)
    ensures Same(x, x)
  {
    match x
    case Atom(_) =>
    case Tagged(_, fields) =>
      forall i | 0 <= i < |fields|
        ensures Same(fields[i], fields[i])
      {
        SameReflexive(fields[i]);
      }
    case Tree(_, list) =>
      SameReflexive(list);
  }

  /** Identity of references: identical values are equal, and atoms are identical exactly when
      they are equal. */
  ghost predicate Identity(identical: (Value, Value) -> bool) {
    && (forall x, y :: identical(x, y) ==> x == y)
    && (forall a, b :: identical(Atom(a), Atom(b)) <==> a == b)
  }

  class Comparison {
    const identical: (Value, Value) -> bool
    var stack: seq<Pair>

    constructor (identical: (Value, Value) -> bool)
      requires Identity(identical)
      ensures this.identical == identical && stack == []
    {
      this.identical, stack := identical, [];
    }

    /** Compares down to a depth of 100; what lies deeper is put on the stack. The answer holds
        if the pairs put there compare equal. */
    method Help(x: Value, y: Value, depth: nat) returns (equal: bool)
      requires Identity(identical) && OneType(x, y)
      modifies this
      ensures |old(stack)| <= |stack| && stack[..|old(stack)|] == old(stack)
      ensures AllOneType(stack[|old(stack)|..])
      ensures equal ==> (Same(x, y) <==> AllSame(stack[|old(stack)|..]))
      ensures !equal ==> !Same(x, y)
      ensures PairSizes(stack[|old(stack)|..]) < Size(x) + (if depth > 100 then 1 else 0)
      decreases x
    {
      hide Same, OneType, Size, Sizes, PairSizes, AllSame, AllOneType;
      NoPairs();
      assert stack[|old(stack)|..] == [];
      SizePositive(x);
      if identical(x, y) {
        SameReflexive(x);
        return true;
      }
      if x.Atom? {
        DifferentAtoms(identical, x, y);
        return false;
      }
      if depth > 100 {
        stack := stack + [Pair(x, y)];
        assert stack[|old(stack)|..] == [Pair(x, y)];
        OnePair(Pair(x, y));
        return true;
      }
      CompareFields(x, y);
      var u, w := Entries(x), Entries(y);
      if u.tag != w.tag {
        return false;
      }
      ghost var before := stack;
      assert stack[|before|..] == [];
      assert u.fields[..0] == [];
      for i := 0 to |u.fields|
        invariant |before| <= |stack| && stack[..|before|] == before
        invariant AllOneType(stack[|before|..])
        invariant (forall j :: 0 <= j < i ==> Same(u.fields[j], w.fields[j])) <==> AllSame(stack[|before|..])
        invariant PairSizes(stack[|before|..]) <= Sizes(u.fields[..i])
      {
        ghost var middle := stack;
        var same := Help(u.fields[i], w.fields[i], depth + 1);
        assert stack[|before|..] == middle[|before|..] + stack[|middle|..];
        BothLists(middle[|before|..], stack[|middle|..]);
        SizesPrefix(u.fields, i);
        if !same {
          SizesOfPrefix(u.fields, i + 1);
          return false;
        }
      }
      assert u.fields[..|u.fields|] == u.fields;
      return true;
    }
  }

  /** The value whose fields are compared: a tree's list in its place. */
  function Entries(x: Value): Value {
    if x.Tree? then x.list else x
  }

  lemma SizePositive(x: Value)
    ensures Size(x) >= 1
  {
  }

  lemma DifferentAtoms(identical: (Value, Value) -> bool, x: Value, y: Value)
    requires Identity(identical) && OneType(x, y) && x.Atom? && !identical(x, y)
    ensures !Same(x, y)
  {
  }

  lemma CompareFields(x: Value, y: Value)
    requires OneType(x, y) && !x.Atom?
    ensures Entries(x).Tagged? && Entries(y).Tagged? && (x.Tree? <==> y.Tree?)
    ensures var u, w := Entries(x), Entries(y);
            && (u.tag != w.tag ==> !Same(x, y))
            && (u.tag == w.tag ==>
                  && |u.fields| == |w.fields|
                  && (forall i :: 0 <= i < |u.fields| ==> OneType(u.fields[i], w.fields[i]))
                  && (Same(x, y) <==> forall i :: 0 <= i < |u.fields| ==> Same(u.fields[i], w.fields[i])))
            && Sizes(u.fields) < Size(x)
  {
  }

  /** Equality is the same as having the same structure, for values of any depth. */
  method Equal(identical: (Value, Value) -> bool, x: Value, y: Value) returns (equal: bool)
    requires Identity(identical) && OneType(x, y)
    ensures equal <==> Same(x, y)
  {
    hide Same, OneType, Size, PairSizes, AllSame, AllOneType, Identity;
    var c := new Comparison(identical);
    NoPairs();
    equal := c.Help(x, y, 0);
    while equal && c.stack != []
      invariant c.identical == identical && fresh(c)
      invariant AllOneType(c.stack)
      invariant equal ==> (Same(x, y) <==> AllSame(c.stack))
      invariant !equal ==> !Same(x, y)
      decreases PairSizes(c.stack), equal
    {
      assert c.stack == c.stack[..|c.stack| - 1] + [c.stack[|c.stack| - 1]];
      var pair := c.stack[|c.stack| - 1];
      c.stack := c.stack[..|c.stack| - 1];
      ghost var rest := c.stack;
      BothLists(rest, [pair]);
      OnePair(pair);
      equal := c.Help(pair.x, pair.y, 0);
      assert c.stack == rest + c.stack[|rest|..];
      BothLists(rest, c.stack[|rest|..]);
    }
  }

  lemma {:induction false} SameSymmetric(x: Value, y: Value)
    requires Same(x, y)
    ensures Same(y, x)
  {
    match (x, y)
    case (Tagged(_, xs), Tagged(_, ys)) =>
      forall i | 0 <= i < |xs|
        ensures Same(ys[i], xs[i])
      {
        SameSymmetric(xs[i], ys[i]);
      }
    case (Tree(_, l), Tree(_, m)) =>
      SameSymmetric(l, m);
    case _ =>
  }

  lemma {:induction false} SameTransitive(x: Value, y: Value, z: Value)
    requires Same(x, y) && Same(y, z)
    ensures Same(x, z)
  {
    match (x, y)
    case (Tagged(_, xs), Tagged(_, ys)) =>
      forall i | 0 <= i < |xs|
        ensures Same(xs[i], z.fields[i])
      {
        SameTransitive(xs[i], ys[i], z.fields[i]);
      }
    case (Tree(_, l), Tree(_, m)) =>
      SameTransitive(l, m, z.list);
    case _ =>
  }
}
