/** Tarjan's strongly connected components, as the folder-cycle check and the
    recursion report run it: both copies are one algorithm, which this class runs
    once. `out` is what the first copy returns; `cycles` is what the second one
    returns, which keeps only the components that are real cycles. */
module Tarjan {
  import opened Graphs

  /** The part of the state the proof talks about, as a value. */
  datatype View<V> = View(index: map<V, nat>, stack: seq<V>, out: seq<seq<V>>, n: nat)

  ghost function Done<V>(out: seq<seq<V>>): set<V> {
    set c, x | c in out && x in c :: x
  }

  ghost function Elements<V>(s: seq<V>): set<V> {
    set x | x in s
  }

  ghost predicate Distinct<V>(s: seq<V>) {
    forall i, j :: 0 <= i < j < |s| ==> s[i] != s[j]
  }

  // ----- invariant -----

  ghost predicate StackOk<V>(s: View<V>) {
    && (forall x :: x in s.stack ==> x in s.index)
    && (forall i, j :: 0 <= i < j < |s.stack| ==> s.index[s.stack[i]] < s.index[s.stack[j]])
    && (forall x :: x in s.index ==> s.index[x] < s.n)
  }

  /** Every numbered node is either on the stack or in an emitted component. */
  ghost predicate Split<V(!new)>(s: View<V>) {
    && (forall x :: x in s.index <==> x in s.stack || x in Done(s.out))
    && (forall x :: x in s.stack ==> x !in Done(s.out))
  }

  ghost predicate NoBlackToWhite<V>(g: Graph<V>, s: View<V>, gray: set<V>) {
    forall x, y :: x in s.index && x !in gray && x in g && y in g[x] ==> y in s.index
  }

  ghost predicate StackReach<V(!new)>(g: Graph<V>, s: View<V>) {
    forall i, j :: 0 <= i <= j < |s.stack| ==> Reach(g, s.stack[i], s.stack[j])
  }

  /** `y` can go back to an unfinished call that started no later than `y` did. */
  ghost predicate ReturnsTo<V(!new)>(g: Graph<V>, s: View<V>, gray: set<V>, y: V)
  {
    y in s.index && exists x :: x in gray && x in s.index && s.index[x] <= s.index[y] && Reach(g, y, x)
  }

  ghost predicate ToGray<V(!new)>(g: Graph<V>, s: View<V>, gray: set<V>)
  {
    forall y :: y in s.stack ==> ReturnsTo(g, s, gray, y)
  }

  /** A component: exactly the nodes mutually reachable with each of its members. */
  ghost predicate IsScc<V(!new)>(g: Graph<V>, c: seq<V>) {
    && 0 < |c|
    && Distinct(c)
    && forall x, y :: x in c ==> (y in c <==> Mutual(g, x, y))
  }

  /** Edges of the components in `out` lead to the same or an earlier component. */
  ghost predicate ReverseTopological<V>(g: Graph<V>, out: seq<seq<V>>) {
    forall i, x, y :: 0 <= i < |out| && x in out[i] && x in g && y in g[x] ==> y in Done(out[..i + 1])
  }

  ghost predicate Disjoint<V>(out: seq<seq<V>>) {
    forall i, j, x :: 0 <= i < j < |out| && x in out[i] ==> x !in out[j]
  }

  ghost predicate OutOk<V(!new)>(g: Graph<V>, out: seq<seq<V>>) {
    && (forall c :: c in out ==> IsScc(g, c))
    && Disjoint(out)
    && ReverseTopological(g, out)
  }

  ghost predicate Good<V(!new)>(g: Graph<V>, s: View<V>, gray: set<V>) {
    && StackOk(s)
    && Split(s)
    && gray <= Elements(s.stack)
    && NoBlackToWhite(g, s, gray)
    && StackReach(g, s)
    && ToGray(g, s, gray)
    && OutOk(g, s.out)
  }

  /** What a call leaves in place: numbers, the stack below it, emitted components. */
  ghost predicate Extends<V>(s: View<V>, t: View<V>) {
    && s.stack <= t.stack
    && s.out <= t.out
    && s.n <= t.n
    && (forall x :: x in s.index ==> x in t.index && t.index[x] == s.index[x])
    && (forall x :: x in t.index && x !in s.index ==> s.n <= t.index[x])
  }

  /** The links from the nodes pushed at or above `from` to the old stack `s0` stay at or above `l`. */
  ghost predicate LinksAbove<V>(g: Graph<V>, s0: View<V>, s: View<V>, from: nat, l: nat)
  {
    forall i, y :: from <= i < |s.stack| && s.stack[i] in g && y in g[s.stack[i]] && y in s0.stack && y in s0.index
        ==> l <= s0.index[y]
  }

  /** `l` is the number of a stacked node that `v` reaches. */
  ghost predicate Attained<V(!new)>(g: Graph<V>, s: View<V>, v: V, l: nat)
  {
    exists y :: y in s.stack && y in s.index && s.index[y] == l && Reach(g, v, y)
  }

  /** What a finished call for `v` that started in `s0` with link `l` guarantees. */
  ghost predicate Finished<V(!new)>(g: Graph<V>, s0: View<V>, s: View<V>, v: V, l: nat)
  {
    && Extends(s0, s)
    && v in s.index
    && l <= s.index[v]
    && (|| (v in Done(s.out) && s.stack == s0.stack && l == s.index[v])
        || Attained(g, s0, v, l))
    && LinksAbove(g, s0, s, |s0.stack|, l)
  }

  function Push<V>(s: View<V>, v: V): View<V> {
    View(s.index[v := s.n], s.stack + [v], s.out, s.n + 1)
  }

  ghost predicate Numbered<V>(s: View<V>, ws: seq<V>) {
    forall w :: w in ws ==> w in s.index
  }

  ghost predicate ListAbove<V>(s0: View<V>, ws: seq<V>, l: nat)
  {
    forall w :: w in ws && w in s0.stack && w in s0.index ==> l <= s0.index[w]
  }

  /** The state of the loop over the successors of `v`, `k` of which are done. */
  ghost predicate InLoop<V(!new)>(g: Graph<V>, s0: View<V>, s: View<V>, gray: set<V>, v: V, k: nat, l: nat)
  {
    && k <= |Succ(g, v)|
    && Good(g, s, gray + {v})
    && Extends(Push(s0, v), s)
    && v !in s0.index
    && l <= s0.n
    && Attained(g, s, v, l)
    && LinksAbove(g, s0, s, |s0.stack| + 1, l)
    && Numbered(s, Succ(g, v)[..k])
    && ListAbove(s0, Succ(g, v)[..k], l)
  }

  // ----- steps of the proof -----

  lemma PushStackReach<V(!new)>(g: Graph<V>, s0: View<V>, gray: set<V>, v: V)
    requires StackOk(s0) && StackReach(g, s0) && ToGray(g, s0, gray)
    requires forall x :: x in gray ==> Reach(g, x, v)
    ensures StackReach(g, Push(s0, v))
  {
    hide Reach;
    var s := Push(s0, v);
    ReachRefl(g, v);
    forall i, j | 0 <= i <= j < |s.stack| ensures Reach(g, s.stack[i], s.stack[j]) {
      if j == |s0.stack| && i < j {
        var y := s0.stack[i];
        assert ReturnsTo(g, s0, gray, y);
        var x :| x in gray && x in s0.index && s0.index[x] <= s0.index[y] && Reach(g, y, x);
        ReachTrans(g, y, x, v);
      } else if j < |s0.stack| {
        assert s.stack[i] == s0.stack[i] && s.stack[j] == s0.stack[j];
      }
    }
  }

  lemma PushToGray<V(!new)>(g: Graph<V>, s0: View<V>, gray: set<V>, v: V)
    requires StackOk(s0) && ToGray(g, s0, gray) && v !in s0.index
    ensures StackOk(Push(s0, v)) && ToGray(g, Push(s0, v), gray + {v})
  {
    hide Reach;
    var s := Push(s0, v);
    ReachRefl(g, v);
    forall y | y in s.stack ensures ReturnsTo(g, s, gray + {v}, y) {
      if y in s0.stack {
        assert ReturnsTo(g, s0, gray, y);
        var x :| x in gray && x in s0.index && s0.index[x] <= s0.index[y] && Reach(g, y, x);
        assert x in gray + {v} && s.index[x] <= s.index[y];
      }
    }
  }

  lemma PushSplit<V(!new)>(s0: View<V>, v: V)
    requires Split(s0) && v !in s0.index
    ensures Split(Push(s0, v))
  {
    hide Done;
  }

  lemma PushStarts<V(!new)>(g: Graph<V>, s0: View<V>, gray: set<V>, v: V)
    requires Good(g, s0, gray)
    requires v !in s0.index
    requires forall x :: x in gray ==> Reach(g, x, v)
    ensures InLoop(g, s0, Push(s0, v), gray, v, 0, s0.n)
  {
    hide Reach, ToGray, StackReach, Split, OutOk, Done, Extends, StackOk, Attained, LinksAbove, NoBlackToWhite;
    PushStackReach(g, s0, gray, v);
    PushToGray(g, s0, gray, v);
    PushSplit(s0, v);
    PushLinks(g, s0, gray, v);
    assert Succ(g, v)[..0] == [];
  }

  lemma PushLinks<V(!new)>(g: Graph<V>, s0: View<V>, gray: set<V>, v: V)
    requires StackOk(s0) && NoBlackToWhite(g, s0, gray) && v !in s0.index
    ensures StackOk(Push(s0, v)) && Extends(Push(s0, v), Push(s0, v))
    ensures Attained(g, Push(s0, v), v, s0.n)
    ensures LinksAbove(g, s0, Push(s0, v), |s0.stack| + 1, s0.n)
    ensures NoBlackToWhite(g, Push(s0, v), gray + {v})
  {
    hide Reach;
    var s := Push(s0, v);
    ReachRefl(g, v);
    assert v in s.stack && s.index[v] == s0.n;
  }

  lemma ExtendsTrans<V>(a: View<V>, b: View<V>, c: View<V>)
    requires Extends(a, b) && Extends(b, c)
    ensures Extends(a, c)
  {
  }

  function Min(a: nat, b: nat): nat {
    if b < a then b else a
  }

  lemma LowerLink<V(!new)>(g: Graph<V>, s0: View<V>, s: View<V>, from: nat, ws: seq<V>, w: V, l: nat, l': nat)
    requires StackOk(s0) && l' <= l
    requires LinksAbove(g, s0, s, from, l) && ListAbove(s0, ws, l)
    requires w in s0.stack ==> l' <= s0.index[w]
    ensures LinksAbove(g, s0, s, from, l') && ListAbove(s0, ws + [w], l')
  {
  }

  lemma NextSuccessor<V>(g: Graph<V>, v: V, k: nat)
    requires k < |Succ(g, v)|
    ensures Succ(g, v)[..k + 1] == Succ(g, v)[..k] + [Succ(g, v)[k]]
  {
  }

  /** A successor on the stack lowers the link to that successor's number. */
  lemma SuccessorOnStack<V(!new)>(g: Graph<V>, s0: View<V>, s: View<V>, gray: set<V>, v: V, k: nat, l: nat)
    requires StackOk(s0) && StackOk(s) && k < |Succ(g, v)|
    requires InLoop(g, s0, s, gray, v, k, l)
    requires Succ(g, v)[k] in s.stack && Succ(g, v)[k] in s.index
    ensures InLoop(g, s0, s, gray, v, k + 1, Min(l, s.index[Succ(g, v)[k]]))
  {
    hide Reach, Good, Extends, Attained, LinksAbove, ListAbove;
    var w := Succ(g, v)[k];
    AttainedByEdge(g, s, v, w);
    BelowFacts(s0, s, v);
    SameBelow(s0, s, w);
    LowerLink(g, s0, s, |s0.stack| + 1, Succ(g, v)[..k], w, l, Min(l, s.index[w]));
    NextSuccessor(g, v, k);
  }

  lemma AttainedByEdge<V(!new)>(g: Graph<V>, s: View<V>, v: V, w: V)
    requires Edge(g, v, w) && w in s.stack && w in s.index
    ensures Attained(g, s, v, s.index[w])
  {
    hide Reach;
    ReachEdge(g, v, w);
  }

  lemma SameBelow<V>(s0: View<V>, s: View<V>, w: V)
    requires StackOk(s0) && Extends(s0, s)
    ensures w in s0.stack ==> w in s0.index && w in s.index && s.index[w] == s0.index[w]
  {
  }

  lemma SuccessorDone<V(!new)>(g: Graph<V>, s0: View<V>, s: View<V>, gray: set<V>, v: V, k: nat, l: nat)
    requires StackOk(s0) && StackOk(s) && k < |Succ(g, v)|
    requires InLoop(g, s0, s, gray, v, k, l)
    requires Succ(g, v)[k] in s.index && Succ(g, v)[k] !in s.stack
    ensures InLoop(g, s0, s, gray, v, k + 1, l)
  {
    hide Reach, StackReach, ToGray, OutOk, Split, NoBlackToWhite, LinksAbove, ListAbove, Attained, Done;
    BelowFacts(s0, s, v);
    LowerLink(g, s0, s, |s0.stack| + 1, Succ(g, v)[..k], Succ(g, v)[k], l, l);
    NextSuccessor(g, v, k);
  }

  /** The pushed node and everything below it, seen from any later state. */
  lemma BelowFacts<V(!new)>(s0: View<V>, s: View<V>, v: V)
    requires StackOk(s0) && StackOk(s)
    requires v !in s0.index && Extends(Push(s0, v), s)
    ensures Extends(s0, s)
    ensures |s0.stack| < |s.stack| && s.stack[|s0.stack|] == v
    ensures s.stack[..|s0.stack|] == s0.stack
    ensures v in s.index && s.index[v] == s0.n
    ensures forall x :: x in s0.stack ==> x in s.stack && x in s.index && s.index[x] == s0.index[x] < s0.n
    ensures forall i :: |s0.stack| < i < |s.stack| ==> s0.n < s.index[s.stack[i]]
  {
    var p := Push(s0, v);
    assert v in p.index && s.index[v] == p.index[v] == s0.n;
    assert s.stack[|s0.stack|] == p.stack[|s0.stack|] == v;
    assert s0.stack == p.stack[..|s0.stack|];
    forall x | x in s0.stack ensures x in s.stack {
      var i :| 0 <= i < |s0.stack| && s0.stack[i] == x;
      assert p.stack[i] == x && s.stack[i] == x;
    }
  }

  lemma LinksExtended<V(!new)>(g: Graph<V>, s0: View<V>, s: View<V>, t: View<V>, from: nat, l: nat, lw: nat)
    requires StackOk(s0) && StackOk(s)
    requires Extends(s0, s) && s.stack <= t.stack
    requires LinksAbove(g, s0, s, from, l)
    requires LinksAbove(g, s, t, |s.stack|, lw)
    ensures LinksAbove(g, s0, t, from, Min(l, lw))
  {
    forall i, y | from <= i < |t.stack| && Edge(g, t.stack[i], y) && y in s0.stack
      ensures Min(l, lw) <= s0.index[y]
    {
      if i < |s.stack| {
        assert t.stack[i] == s.stack[i];
      } else {
        assert y in s.stack && s.index[y] == s0.index[y];
      }
    }
  }

  lemma AttainedByChild<V(!new)>(g: Graph<V>, s: View<V>, t: View<V>, v: V, w: V, l: nat, lw: nat)
    requires StackOk(s) && StackOk(t) && Extends(s, t)
    requires Attained(g, s, v, l) && Reach(g, v, w)
    requires w !in s.index && w in t.index
    requires lw == t.index[w] || Attained(g, s, w, lw)
    ensures Attained(g, t, v, Min(l, lw))
  {
    hide Reach;
    var y :| y in s.stack && s.index[y] == l && Reach(g, v, y);
    assert y in t.stack && t.index[y] == l;
    if lw < l {
      assert s.n <= t.index[w];
      assert Attained(g, s, w, lw);
      var z :| z in s.stack && s.index[z] == lw && Reach(g, w, z);
      ReachTrans(g, v, w, z);
      assert z in t.stack && t.index[z] == lw;
    }
  }

  lemma VisitedLinks<V(!new)>(g: Graph<V>, s0: View<V>, s: View<V>, t: View<V>, v: V, ws: seq<V>, w: V, l: nat, lw: nat)
    requires StackOk(s0) && StackOk(s)
    requires v !in s0.index && Extends(Push(s0, v), s) && Extends(s, t)
    requires w !in s.index && w in t.index
    requires LinksAbove(g, s0, s, |s0.stack| + 1, l)
    requires LinksAbove(g, s, t, |s.stack|, lw)
    requires ListAbove(s0, ws, l) && Numbered(s, ws)
    ensures Extends(Push(s0, v), t)
    ensures LinksAbove(g, s0, t, |s0.stack| + 1, Min(l, lw))
    ensures ListAbove(s0, ws + [w], Min(l, lw)) && Numbered(t, ws + [w])
  {
    hide LinksAbove, ListAbove, Extends, StackOk, Numbered;
    ExtendsTrans(Push(s0, v), s, t);
    BelowFacts(s0, s, v);
    ExtendsStack(s, t);
    LinksExtended(g, s0, s, t, |s0.stack| + 1, l, lw);
    LowerList(s0, ws, l, Min(l, lw));
    LowerLink(g, s0, t, |s0.stack| + 1, ws, w, Min(l, lw), Min(l, lw));
    NumberedLater(s, t, ws, w);
  }

  /** A successor visited from here: its link is taken over. */
  lemma SuccessorVisited<V(!new)>(g: Graph<V>, s0: View<V>, s: View<V>, t: View<V>, gray: set<V>, v: V, k: nat, l: nat,
      lw: nat)
    requires StackOk(s0) && StackOk(s) && k < |Succ(g, v)|
    requires InLoop(g, s0, s, gray, v, k, l)
    requires Succ(g, v)[k] !in s.index
    requires Good(g, t, gray + {v})
    requires Finished(g, s, t, Succ(g, v)[k], lw)
    ensures InLoop(g, s0, t, gray, v, k + 1, Min(l, lw))
  {
    hide Reach, StackReach, ToGray, OutOk, Split, NoBlackToWhite, Attained, LinksAbove, ListAbove, Done, Extends,
         StackOk, Numbered;
    var w := Succ(g, v)[k];
    ReachEdge(g, v, w);
    AttainedByChild(g, s, t, v, w, l, lw);
    VisitedLinks(g, s0, s, t, v, Succ(g, v)[..k], w, l, lw);
    NextSuccessor(g, v, k);
  }

  lemma ExtendsStack<V>(s: View<V>, t: View<V>)
    requires Extends(s, t)
    ensures s.stack <= t.stack
  {
  }

  lemma LowerList<V>(s0: View<V>, ws: seq<V>, l: nat, l': nat)
    requires StackOk(s0) && l' <= l && ListAbove(s0, ws, l)
    ensures ListAbove(s0, ws, l')
  {
  }

  lemma NumberedLater<V>(s: View<V>, t: View<V>, ws: seq<V>, w: V)
    requires Extends(s, t) && Numbered(s, ws) && w in t.index
    ensures Numbered(t, ws + [w])
  {
  }

  lemma AllLinks<V(!new)>(g: Graph<V>, s0: View<V>, s: View<V>, v: V, l: nat)
    requires StackOk(s0)
    requires |s0.stack| < |s.stack| && s.stack[|s0.stack|] == v
    requires LinksAbove(g, s0, s, |s0.stack| + 1, l)
    requires ListAbove(s0, Succ(g, v), l)
    ensures LinksAbove(g, s0, s, |s0.stack|, l)
  {
    forall i, y | |s0.stack| <= i < |s.stack| && Edge(g, s.stack[i], y) && y in s0.stack
      ensures l <= s0.index[y]
    {
    }
  }

  lemma BlackenNode<V(!new)>(g: Graph<V>, s: View<V>, gray: set<V>, v: V)
    requires NoBlackToWhite(g, s, gray + {v})
    requires Numbered(s, Succ(g, v))
    ensures NoBlackToWhite(g, s, gray)
  {
    forall a, b | a in s.index && a !in gray && Edge(g, a, b) ensures b in s.index {
    }
  }

  lemma LowLinkReturns<V(!new)>(g: Graph<V>, s: View<V>, gray: set<V>, v: V, l: nat)
    requires StackOk(s) && ToGray(g, s, gray + {v})
    requires v in s.index && l < s.index[v] && Attained(g, s, v, l)
    ensures ToGray(g, s, gray)
  {
    hide Reach;
    var z :| z in s.stack && s.index[z] == l && Reach(g, v, z);
    assert ReturnsTo(g, s, gray + {v}, z);
    var x :| x in gray + {v} && x in s.index && s.index[x] <= s.index[z] && Reach(g, z, x);
    ReachTrans(g, v, z, x);
    forall y | y in s.stack ensures ReturnsTo(g, s, gray, y) {
      assert ReturnsTo(g, s, gray + {v}, y);
      var x' :| x' in gray + {v} && x' in s.index && s.index[x'] <= s.index[y] && Reach(g, y, x');
      if x' == v {
        ReachTrans(g, y, v, x);
      }
    }
  }

  lemma AttainedBelow<V(!new)>(g: Graph<V>, s0: View<V>, s: View<V>, v: V, l: nat)
    requires StackOk(s0) && StackOk(s)
    requires v !in s0.index && Extends(Push(s0, v), s)
    requires Attained(g, s, v, l) && l < s0.n
    ensures Attained(g, s0, v, l)
  {
    hide Reach;
    BelowFacts(s0, s, v);
    var z :| z in s.stack && s.index[z] == l && Reach(g, v, z);
    var i :| 0 <= i < |s.stack| && s.stack[i] == z;
    assert i < |s0.stack|;
    assert s.stack[..|s0.stack|][i] == z;
  }

  /** When the link points below `v`, `v` stays on the stack, finished. */
  lemma KeepOnStack<V(!new)>(g: Graph<V>, s0: View<V>, s: View<V>, gray: set<V>, v: V, l: nat)
    requires StackOk(s0) && StackOk(s)
    requires Good(g, s0, gray)
    requires InLoop(g, s0, s, gray, v, |Succ(g, v)|, l)
    requires l < s0.n
    ensures Good(g, s, gray)
    ensures Finished(g, s0, s, v, l)
  {
    hide Reach, StackReach, ToGray, OutOk, Split, NoBlackToWhite, Attained, LinksAbove, Done;
    BelowFacts(s0, s, v);
    assert Succ(g, v)[..|Succ(g, v)|] == Succ(g, v);
    AllLinks(g, s0, s, v, l);
    BlackenNode(g, s, gray, v);
    LowLinkReturns(g, s, gray, v, l);
    AttainedBelow(g, s0, s, v, l);
  }

  // ----- popping a component -----

  function Reversed<V(!new)>(s: seq<V>): (r: seq<V>)
    ensures |r| == |s|
    ensures forall i :: 0 <= i < |s| ==> r[i] == s[|s| - 1 - i]
    ensures forall x :: x in r <==> x in s
  {
    var r := seq(|s|, i requires 0 <= i < |s| => s[|s| - 1 - i]);
    assert forall i :: 0 <= i < |s| ==> s[i] == r[|s| - 1 - i];
    r
  }

  /** The state after the nodes from position `at` up have been popped, the topmost first. */
  function Pop<V(!new)>(s: View<V>, at: nat): View<V>
    requires at <= |s.stack|
  {
    View(s.index, s.stack[..at], s.out + [Reversed(s.stack[at..])], s.n)
  }

  lemma ElementsSnoc<V>(s: seq<V>, v: V)
    ensures Elements(s + [v]) == Elements(s) + {v}
  {
  }

  lemma DoneSnoc<V>(out: seq<seq<V>>, c: seq<V>)
    ensures Done(out + [c]) == Done(out) + Elements(c)
  {
    assert forall d :: d in out + [c] <==> d in out || d == c;
  }

  lemma DoneClosed<V>(g: Graph<V>, out: seq<seq<V>>)
    requires ReverseTopological(g, out)
    ensures Closed(g, Done(out))
  {
    forall x, y | x in Done(out) && Edge(g, x, y) ensures y in Done(out) {
      var c :| c in out && x in c;
      var i :| 0 <= i < |out| && out[i] == c;
      assert y in Done(out[..i + 1]);
      var d :| d in out[..i + 1] && y in d;
      assert d in out;
    }
  }

  /** The nodes above the old stack leave only for themselves and emitted components. */
  lemma ComponentClosed<V(!new)>(g: Graph<V>, s0: View<V>, s: View<V>, gray: set<V>)
    requires StackOk(s0) && StackOk(s) && s0.stack <= s.stack
    requires Split(s) && ReverseTopological(g, s.out)
    requires NoBlackToWhite(g, s, gray)
    requires forall x :: x in s.stack[|s0.stack|..] ==> x !in gray
    requires LinksAbove(g, s0, s, |s0.stack|, s0.n)
    ensures Closed(g, Elements(s.stack[|s0.stack|..]) + Done(s.out))
  {
    DoneClosed(g, s.out);
    hide Done, ReverseTopological;
    var c := s.stack[|s0.stack|..];
    forall x, y | x in Elements(c) + Done(s.out) && Edge(g, x, y)
      ensures y in Elements(c) + Done(s.out)
    {
      if x in c {
        var i :| 0 <= i < |c| && c[i] == x;
        assert s.stack[|s0.stack| + i] == x;
        assert y in s.index;
        assert y !in s0.stack;
        if y in s.stack {
          var j :| 0 <= j < |s.stack| && s.stack[j] == y;
          assert |s0.stack| <= j by {
            assert forall i :: 0 <= i < |s0.stack| ==> s.stack[i] == s0.stack[i];
          }
          assert c[j - |s0.stack|] == y;
        }
      }
    }
  }

  lemma ComponentMutual<V(!new)>(g: Graph<V>, s0: View<V>, s: View<V>, gray: set<V>, v: V, x: V)
    requires StackOk(s) && StackReach(g, s) && ToGray(g, s, gray + {v})
    requires forall x :: x in gray ==> Reach(g, x, v)
    requires |s0.stack| < |s.stack| && s.stack[|s0.stack|] == v && x in s.stack[|s0.stack|..]
    ensures Mutual(g, v, x)
  {
    hide Reach;
    var i :| 0 <= i < |s.stack[|s0.stack|..]| && s.stack[|s0.stack|..][i] == x;
    assert s.stack[|s0.stack| + i] == x;
    assert Reach(g, s.stack[|s0.stack|], s.stack[|s0.stack| + i]);
    assert x in s.stack && ReturnsTo(g, s, gray + {v}, x);
    var w :| w in gray + {v} && w in s.index && s.index[w] <= s.index[x] && Reach(g, x, w);
    if w != v {
      ReachTrans(g, x, w, v);
    }
  }

  /** A set of nodes mutually reachable with `v` and left only into finished ones is maximal. */
  lemma ClosedIsMaximal<V(!new)>(g: Graph<V>, c: seq<V>, done: set<V>, v: V, x: V, y: V)
    requires v in c && v !in done && x in c
    requires forall z :: z in c ==> Mutual(g, v, z)
    requires Closed(g, done) && Closed(g, Elements(c) + done)
    ensures y in c <==> Mutual(g, x, y)
  {
    hide Reach;
    if y in c {
      ReachTrans(g, x, v, y);
      ReachTrans(g, y, v, x);
    }
    if Mutual(g, x, y) {
      ReachStays(g, Elements(c) + done, x, y);
      if y in done {
        ReachTrans(g, y, x, v);
        ReachStays(g, done, y, v);
      }
    }
  }

  lemma ReversedDistinct<V(!new)>(c: seq<V>)
    requires Distinct(c)
    ensures Distinct(Reversed(c))
  {
    var r := Reversed(c);
    forall i, j | 0 <= i < j < |r| ensures r[i] != r[j] {
      assert r[i] == c[|c| - 1 - i] && r[j] == c[|c| - 1 - j];
    }
  }

  lemma SuffixDistinct<V(!new)>(s: View<V>, at: nat)
    requires StackOk(s) && at <= |s.stack|
    ensures Distinct(s.stack[at..])
  {
    var c := s.stack[at..];
    forall i, j | 0 <= i < j < |c| ensures c[i] != c[j] {
      assert s.index[s.stack[at + i]] < s.index[s.stack[at + j]];
    }
  }

  lemma OutSnoc<V(!new)>(g: Graph<V>, out: seq<seq<V>>, c: seq<V>)
    requires OutOk(g, out)
    requires IsScc(g, c)
    requires forall x :: x in c ==> x !in Done(out)
    requires Closed(g, Elements(c) + Done(out))
    ensures OutOk(g, out + [c])
  {
    hide Reach, IsScc;
    var o := out + [c];
    DoneSnoc(out, c);
    forall i, x, y | 0 <= i < |o| && x in o[i] && x in g && y in g[x] ensures y in Done(o[..i + 1]) {
      if i < |out| {
        assert o[..i + 1] == out[..i + 1];
      } else {
        assert o[..i + 1] == o;
        assert x in Elements(c) + Done(out);
      }
    }
    forall i, j, x | 0 <= i < j < |o| && x in o[i] ensures x !in o[j] {
      assert o[i] in out;
      assert x in Done(out);
    }
  }

  lemma PopDistinct<V(!new)>(s: View<V>, at: nat)
    requires StackOk(s) && at <= |s.stack|
    ensures StackOk(Pop(s, at))
    ensures forall x :: x in s.stack[..at] ==> x !in s.stack[at..]
    ensures forall x :: x in s.stack <==> x in s.stack[..at] || x in s.stack[at..]
  {
    hide Reversed;
    var b, c := s.stack[..at], s.stack[at..];
    assert s.stack == b + c;
    forall i, j | 0 <= i < |b| && 0 <= j < |c| ensures b[i] != c[j] {
      assert s.index[s.stack[i]] < s.index[s.stack[at + j]];
    }
  }

  lemma PopSplit<V(!new)>(s: View<V>, at: nat)
    requires StackOk(s) && Split(s) && at <= |s.stack|
    ensures StackOk(Pop(s, at)) && Split(Pop(s, at))
  {
    PopDistinct(s, at);
    hide Done, StackOk, Reversed;
    DoneSnoc(s.out, Reversed(s.stack[at..]));
  }

  lemma PopReturns<V(!new)>(g: Graph<V>, s0: View<V>, s: View<V>, gray: set<V>, v: V)
    requires StackOk(s0) && StackOk(s) && ToGray(g, s, gray + {v})
    requires v !in s0.index && Extends(Push(s0, v), s)
    requires StackOk(Pop(s, |s0.stack|))
    ensures ToGray(g, Pop(s, |s0.stack|), gray)
  {
    hide Reach, Done;
    BelowFacts(s0, s, v);
    var t := Pop(s, |s0.stack|);
    forall y | y in t.stack ensures ReturnsTo(g, t, gray, y) {
      assert y in s.stack && ReturnsTo(g, s, gray + {v}, y);
      var x :| x in gray + {v} && x in s.index && s.index[x] <= s.index[y] && Reach(g, y, x);
      assert x in gray;
    }
  }

  lemma PopStackReach<V(!new)>(g: Graph<V>, s: View<V>, at: nat)
    requires StackReach(g, s) && at <= |s.stack|
    ensures StackReach(g, Pop(s, at))
  {
    hide Reach;
  }

  lemma NotGrayAbove<V(!new)>(s0: View<V>, s: View<V>, gray: set<V>, v: V)
    requires StackOk(s0) && StackOk(s) && gray <= Elements(s0.stack)
    requires v !in s0.index && Extends(Push(s0, v), s)
    ensures |s0.stack| <= |s.stack|
    ensures forall x :: x in s.stack[|s0.stack|..] ==> x !in gray
  {
    BelowFacts(s0, s, v);
    forall x | x in s.stack[|s0.stack|..] ensures x !in gray {
      var i :| 0 <= i < |s.stack[|s0.stack|..]| && s.stack[|s0.stack|..][i] == x;
      assert s0.n <= s.index[s.stack[|s0.stack| + i]];
    }
  }

  /** When the link is `v`'s own number, the nodes from `v` up are one component. */
  lemma ComponentIsScc<V(!new)>(g: Graph<V>, s0: View<V>, s: View<V>, gray: set<V>, v: V)
    requires StackOk(s0) && StackOk(s)
    requires Good(g, s0, gray)
    requires forall x :: x in gray ==> Reach(g, x, v)
    requires InLoop(g, s0, s, gray, v, |Succ(g, v)|, s0.n)
    ensures |s0.stack| < |s.stack| && v in s.stack[|s0.stack|..]
    ensures IsScc(g, Reversed(s.stack[|s0.stack|..]))
    ensures Closed(g, Elements(s.stack[|s0.stack|..]) + Done(s.out))
  {
    hide Reach, StackReach, ToGray, NoBlackToWhite, Attained, LinksAbove, Closed, Mutual, Done, Disjoint,
         ReverseTopological;
    BelowFacts(s0, s, v);
    AllLinks(g, s0, s, v, s0.n);
    BlackenNode(g, s, gray, v);
    NotGrayAbove(s0, s, gray, v);
    ComponentClosed(g, s0, s, gray);
    DoneClosed(g, s.out);
    var c := s.stack[|s0.stack|..];
    assert v == c[0] && v in c && v in s.stack;
    forall x | x in c ensures Mutual(g, v, x) {
      ComponentMutual(g, s0, s, gray, v, x);
    }
    forall x, y | x in c ensures y in c <==> Mutual(g, x, y) {
      ClosedIsMaximal(g, c, Done(s.out), v, x, y);
    }
    SuffixDistinct(s, |s0.stack|);
    ReversedDistinct(c);
  }

  lemma PopGood<V(!new)>(g: Graph<V>, s0: View<V>, s: View<V>, gray: set<V>, v: V, at: nat)
    requires at == |s0.stack| < |s.stack|
    requires Good(g, s0, gray) && Good(g, s, gray + {v})
    requires v !in s0.index && Extends(Push(s0, v), s)
    requires Numbered(s, Succ(g, v))
    requires IsScc(g, Reversed(s.stack[at..]))
    requires Closed(g, Elements(s.stack[at..]) + Done(s.out))
    ensures Good(g, Pop(s, at), gray)
  {
    hide Reach, StackReach, ToGray, NoBlackToWhite, Closed, IsScc, Done, OutOk, Numbered, Extends, StackOk, Split,
         Elements;
    BelowFacts(s0, s, v);
    BlackenNode(g, s, gray, v);
    PopSplit(s, at);
    PopReturns(g, s0, s, gray, v);
    PopStackReach(g, s, at);
    PopOut(g, s, at);
    PopKeeps(g, s, gray, at);
  }

  lemma PopKeeps<V(!new)>(g: Graph<V>, s: View<V>, gray: set<V>, at: nat)
    requires at <= |s.stack| && NoBlackToWhite(g, s, gray)
    ensures NoBlackToWhite(g, Pop(s, at), gray)
  {
  }

  /** When the link is `v`'s own number, the nodes from `v` up are popped as one component. */
  lemma PopComponent<V(!new)>(g: Graph<V>, s0: View<V>, s: View<V>, gray: set<V>, v: V, at: nat)
    requires at == |s0.stack|
    requires Good(g, s0, gray)
    requires forall x :: x in gray ==> Reach(g, x, v)
    requires InLoop(g, s0, s, gray, v, |Succ(g, v)|, s0.n)
    ensures at < |s.stack| && v in s.stack[at..]
    ensures Good(g, Pop(s, at), gray)
    ensures Finished(g, s0, Pop(s, at), v, s0.n)
  {
    hide Reach, StackReach, ToGray, NoBlackToWhite, LinksAbove, Attained, Closed, IsScc, Done, OutOk, Numbered,
         ListAbove, Extends, Split, Elements;
    ComponentIsScc(g, s0, s, gray, v);
    assert Succ(g, v)[..|Succ(g, v)|] == Succ(g, v);
    PopGood(g, s0, s, gray, v, at);
    BelowFacts(s0, s, v);
    PopOut(g, s, at);
    PopFinished(g, s0, s, v, at);
  }

  lemma PopFinished<V(!new)>(g: Graph<V>, s0: View<V>, s: View<V>, v: V, at: nat)
    requires at == |s0.stack| < |s.stack| && s.stack[..at] == s0.stack
    requires Extends(s0, s) && v in s.index && s.index[v] == s0.n
    requires v in Done(Pop(s, at).out)
    ensures Finished(g, s0, Pop(s, at), v, s0.n)
  {
    hide Done, Attained;
  }

  lemma PopOut<V(!new)>(g: Graph<V>, s: View<V>, at: nat)
    requires at <= |s.stack| && Split(s) && OutOk(g, s.out)
    requires IsScc(g, Reversed(s.stack[at..]))
    requires Closed(g, Elements(s.stack[at..]) + Done(s.out))
    ensures OutOk(g, Pop(s, at).out)
    ensures forall x :: x in s.stack[at..] ==> x in Done(Pop(s, at).out)
  {
    hide Reach, Closed, IsScc, Done, OutOk;
    var c := Reversed(s.stack[at..]);
    assert Elements(c) == Elements(s.stack[at..]);
    forall x | x in c ensures x !in Done(s.out) {
      assert x in s.stack;
    }
    OutSnoc(g, s.out, c);
    DoneSnoc(s.out, c);
  }

  // ----- what the output means -----

  /** Two nodes share a component exactly when each reaches the other. */
  lemma SharedIffMutual<V(!new)>(g: Graph<V>, out: seq<seq<V>>, x: V, y: V)
    requires OutOk(g, out) && x in Done(out)
    ensures (exists c :: c in out && x in c && y in c) <==> Mutual(g, x, y)
  {
    hide Mutual;
    var c :| c in out && x in c;
    assert IsScc(g, c);
    if d :| d in out && x in d && y in d {
      assert IsScc(g, d);
    }
  }

  lemma PrefixClosed<V(!new)>(g: Graph<V>, out: seq<seq<V>>, i: nat)
    requires ReverseTopological(g, out) && i <= |out|
    ensures Closed(g, Done(out[..i]))
  {
    var o := out[..i];
    forall k, x, y | 0 <= k < |o| && x in o[k] && x in g && y in g[x] ensures y in Done(o[..k + 1]) {
      assert o[..k + 1] == out[..k + 1] && o[k] == out[k];
    }
    DoneClosed(g, o);
  }

  lemma OnlyOneComponent<V>(out: seq<seq<V>>, i: nat, j: nat, x: V)
    requires Disjoint(out) && i < |out| && j < |out|
    requires x in out[i] && x in out[j]
    ensures i == j
  {
  }

  /** Components come out in reverse topological order: a node reaches only its own and earlier ones. */
  lemma EmittedInReverseOrder<V(!new)>(g: Graph<V>, out: seq<seq<V>>, i: nat, j: nat, x: V, y: V)
    requires OutOk(g, out) && i < |out| && j < |out|
    requires x in out[i] && y in out[j] && Reach(g, x, y)
    ensures j <= i
  {
    hide Reach;
    PrefixClosed(g, out, i + 1);
    assert out[i] in out[..i + 1] by { assert out[..i + 1][i] == out[i]; }
    ReachStays(g, Done(out[..i + 1]), x, y);
    var c :| c in out[..i + 1] && y in c;
    var k :| 0 <= k < i + 1 && out[k] == c;
    OnlyOneComponent(out, k, j, y);
  }

  /** The second copy keeps a component when it has several nodes or a self-loop. */
  predicate RealCycle<V(==)>(g: Graph<V>, c: seq<V>) {
    |c| > 1 || (|c| == 1 && c[0] in g && c[0] in g[c[0]])
  }

  ghost function Cycles<V>(g: Graph<V>, out: seq<seq<V>>): seq<seq<V>> {
    if out == [] then []
    else
      var c := out[|out| - 1];
      Cycles(g, out[..|out| - 1]) + (if RealCycle(g, c) then [c] else [])
  }

  lemma {:induction false} CyclesMembers<V>(g: Graph<V>, out: seq<seq<V>>, c: seq<V>)
    ensures c in Cycles(g, out) <==> c in out && RealCycle(g, c)
  {
    if out != [] {
      CyclesMembers(g, out[..|out| - 1], c);
      assert out == out[..|out| - 1] + [out[|out| - 1]];
    }
  }

  /** A member of a component lies on a path back to itself exactly when the component is a real cycle. */
  lemma RealCycleIffReturns<V(!new)>(g: Graph<V>, c: seq<V>, v: V)
    requires IsScc(g, c) && v in c
    ensures RealCycle(g, c) <==> ReachPlus(g, v, v)
  {
    hide Reach;
    if |c| > 1 {
      var w := if c[0] == v then c[1] else c[0];
      assert Distinct(c) && w in c && w != v && Mutual(g, v, w);
      ReachFirstEdge(g, v, w);
      var u :| Edge(g, v, u) && Reach(g, u, w);
      ReachTrans(g, u, w, v);
    } else {
      assert v == c[0];
      if Edge(g, c[0], c[0]) {
        ReachRefl(g, v);
      }
      if ReachPlus(g, v, v) {
        var u :| Edge(g, v, u) && Reach(g, u, v);
        ReachEdge(g, v, u);
        assert Mutual(g, v, u);
        assert u in c;
      }
    }
  }

  /** A node is reported exactly when it returns to itself by at least one edge. */
  lemma ReportedIffOnCycle<V(!new)>(g: Graph<V>, out: seq<seq<V>>, v: V)
    requires OutOk(g, out) && v in Done(out)
    ensures (exists c :: c in Cycles(g, out) && v in c) <==> ReachPlus(g, v, v)
  {
    hide Reach, ReachPlus, RealCycle;
    var c :| c in out && v in c;
    CyclesMembers(g, out, c);
    RealCycleIffReturns(g, c, v);
    if d :| d in Cycles(g, out) && v in d {
      CyclesMembers(g, out, d);
      RealCycleIffReturns(g, d, v);
    }
  }

  lemma CyclesSnoc<V>(g: Graph<V>, out: seq<seq<V>>, c: seq<V>)
    ensures Cycles(g, out + [c]) == Cycles(g, out) + (if RealCycle(g, c) then [c] else [])
  {
    assert (out + [c])[..|out|] == out;
  }

  // ----- the algorithm -----

  lemma PushIs<V>(s0: View<V>, v: V)
    ensures Push(s0, v) == View(s0.index[v := s0.n], s0.stack + [v], s0.out, s0.n + 1)
  {
  }

  lemma PopIs<V(!new)>(s: View<V>, at: nat)
    requires at <= |s.stack|
    ensures Pop(s, at) == View(s.index, s.stack[..at], s.out + [Reversed(s.stack[at..])], s.n)
  {
  }

  lemma StartIsGood<V(!new)>(g: Graph<V>, s: View<V>)
    requires s == View(map[], [], [], 0)
    ensures Good(g, s, {})
  {
  }

  lemma GoodOut<V(!new)>(g: Graph<V>, s: View<V>, gray: set<V>)
    requires Good(g, s, gray)
    ensures OutOk(g, s.out)
  {
  }

  lemma LoopFacts<V(!new)>(g: Graph<V>, s0: View<V>, s: View<V>, gray: set<V>, v: V, k: nat, l: nat)
    requires Good(g, s0, gray) && InLoop(g, s0, s, gray, v, k, l)
    ensures Good(g, s, gray + {v}) && l <= s0.n
    ensures StackOk(s0) && StackOk(s)
    ensures v in s.index && s.index[v] == s0.n
    ensures |s0.stack| < |s.stack| && s.stack[|s0.stack|] == v && Distinct(s.stack)
    ensures forall x :: x in s0.index ==> x in s.index
  {
    hide Reach, StackReach, ToGray, NoBlackToWhite, LinksAbove, Attained, OutOk, Numbered, ListAbove, Split;
    BelowFacts(s0, s, v);
    SuffixDistinct(s, 0);
    assert s.stack[0..] == s.stack;
  }

  lemma GrayReachesNext<V(!new)>(g: Graph<V>, gray: set<V>, v: V, w: V)
    requires forall x :: x in gray ==> Reach(g, x, v)
    requires Edge(g, v, w)
    ensures forall x :: x in gray + {v} ==> Reach(g, x, w)
  {
    hide Reach;
    ReachEdge(g, v, w);
    forall x | x in gray + {v} ensures Reach(g, x, w) {
      if x != v {
        ReachTrans(g, x, v, w);
      }
    }
  }

  lemma FinishedKeeps<V(!new)>(g: Graph<V>, s: View<V>, t: View<V>, w: V, l: nat)
    requires Finished(g, s, t, w, l)
    ensures w in t.index && forall x :: x in s.index ==> x in t.index
  {
  }

  class Finder<V(==,!new)> {
    const edges: Graph<V>
    var index: map<V, nat>
    var low: map<V, nat>
    var stack: seq<V>
    var on: set<V>
    var out: seq<seq<V>>
    var cycles: seq<seq<V>>
    var n: nat

    ghost function Snap(): View<V>
      reads this
    {
      View(index, stack, out, n)
    }

    /** The redundant fields agree with the ones the invariant is about. */
    ghost predicate Valid()
      reads this
    {
      && on == Elements(stack)
      && low.Keys == index.Keys
      && cycles == Cycles(edges, out)
    }

    constructor (edges: Graph<V>)
      ensures this.edges == edges && Valid()
      ensures Snap() == View(map[], [], [], 0)
    {
      this.edges := edges;
      index, low, stack, on, out, cycles, n := map[], map[], [], {}, [], [], 0;
    }

    /** The inner loop: pops down to and including `v`. */
    method PopTo(v: V, ghost at: nat) returns (comp: seq<V>)
      requires at < |stack| && stack[at] == v && Distinct(stack) && on == Elements(stack)
      modifies `stack, `on
      ensures stack == old(stack)[..at] && on == Elements(stack)
      ensures comp == Reversed(old(stack)[at..])
    {
      comp := [];
      ghost var was := stack;
      while true
        invariant at < |stack| <= |was| && stack == was[..|stack|] && on == Elements(stack)
        invariant comp == Reversed(was[|stack|..])
        decreases |stack|
      {
        var w := stack[|stack| - 1];
        ghost var s := stack;
        stack := stack[..|stack| - 1];
        assert s == stack + [w];
        on := on - {w};
        assert was[|s| - 1..] == [w] + was[|s|..];
        comp := comp + [w];
        if w == v {
          assert |stack| == at;
          break;
        }
      }
    }

    /** The start of a visit: numbers the node and stacks it. */
    method Enter(v: V, ghost gray: set<V>)
      requires Valid() && Good(edges, Snap(), gray) && v !in index
      requires forall x :: x in gray ==> Reach(edges, x, v)
      modifies `index, `low, `n, `stack, `on
      ensures Valid() && index == old(index)[v := old(n)] && low == old(low)[v := old(n)]
      ensures InLoop(edges, old(Snap()), Snap(), gray, v, 0, low[v])
    {
      hide Reach, Good, InLoop, Finished, Done, Cycles, Push, Pop, RealCycle, StackOk;
      ghost var s0 := Snap();
      PushStarts(edges, s0, gray, v);
      index := index[v := n];
      low := low[v := n];
      n := n + 1;
      stack := stack + [v];
      on := on + {v};
      ElementsSnoc(s0.stack, v);
      PushIs(s0, v);

    }

    method Visit(v: V, ghost gray: set<V>, ghost all: set<V>)
      requires Valid() && Good(edges, Snap(), gray)
      requires v !in index && v in all && index.Keys <= all && Closed(edges, all)
      requires forall x :: x in gray ==> Reach(edges, x, v)
      modifies this
      ensures Valid() && Good(edges, Snap(), gray)
      ensures v in index && index.Keys <= all
      ensures Finished(edges, old(Snap()), Snap(), v, low[v])
      ensures forall x :: x in old(index) ==> low[x] == old(low[x])
      decreases all - index.Keys
    {
      hide Reach, Good, InLoop, Finished, Done, Cycles, Push, Pop, RealCycle, StackOk, Closed, Min, Distinct, Split;
      ghost var s0 := Snap();
      Enter(v, gray);

      var ws := Succ(edges, v);
      var k := 0;
      while k < |ws|
        invariant k <= |ws|
        invariant Valid() && v in index && index.Keys <= all
        invariant InLoop(edges, s0, Snap(), gray, v, k, low[v])
        invariant forall x :: x in old(index) ==> x in index && low[x] == old(low[x])
      {
        var w := ws[k];
        ghost var s := Snap();
        LoopFacts(edges, s0, s, gray, v, k, low[v]);
        if w !in index {
          GrayReachesNext(edges, gray, v, w);
          StaysIn(edges, all, v, w);
          Visit(w, gray + {v}, all);
          FinishedKeeps(edges, s, Snap(), w, low[w]);
          SuccessorVisited(edges, s0, s, Snap(), gray, v, k, low[v], low[w]);
          low := low[v := Min(low[v], low[w])];
        } else if w in on {
          SuccessorOnStack(edges, s0, s, gray, v, k, low[v]);
          low := low[v := Min(low[v], index[w])];
        } else {
          SuccessorDone(edges, s0, s, gray, v, k, low[v]);
        }
        k := k + 1;
      }
      Leave(v, s0, gray, low[v]);
    }

    /** The end of a visit: emits the component of `v` if `v` is its first node. */
    method Leave(v: V, ghost s0: View<V>, ghost gray: set<V>, ghost l: nat)
      requires v in low && v in index && l == low[v]
      requires Valid()
      requires Good(edges, s0, gray)
      requires forall x :: x in gray ==> Reach(edges, x, v)
      requires InLoop(edges, s0, Snap(), gray, v, |Succ(edges, v)|, l)
      modifies `stack, `on, `out, `cycles
      ensures Finished(edges, s0, Snap(), v, l)
      ensures Valid() && Good(edges, Snap(), gray)
    {
      hide Reach, Good, InLoop, Finished, Done, Cycles, RealCycle, StackOk, Pop, Reversed;
      ghost var s := Snap();
      LoopFacts(edges, s0, s, gray, v, |Succ(edges, v)|, low[v]);
      if low[v] == index[v] {
        PopComponent(edges, s0, s, gray, v, |s0.stack|);
        var comp := PopTo(v, |s0.stack|);
        CyclesSnoc(edges, out, comp);
        PopIs(s, |s0.stack|);
        out := out + [comp];
        if RealCycle(edges, comp) {
          cycles := cycles + [comp];
        }
      } else {
        KeepOnStack(edges, s0, s, gray, v, low[v]);
      }
    }

    /** Runs the search from every node, in the given order. */
    method Run(nodes: seq<V>)
      requires Valid() && Snap() == View(map[], [], [], 0)
      requires Closed(edges, Elements(nodes))
      modifies this
      ensures OutOk(edges, out)
      ensures Done(out) == Elements(nodes)
      ensures cycles == Cycles(edges, out)
    {
      hide Reach, Good, Finished, Done, Cycles, OutOk, Closed;
      ghost var all := Elements(nodes);
      StartIsGood(edges, Snap());
      var i := 0;
      while i < |nodes|
        invariant i <= |nodes|
        invariant Valid() && Good(edges, Snap(), {}) && index.Keys <= all
        invariant forall j :: 0 <= j < i ==> nodes[j] in index
      {
        if nodes[i] !in index {
          ghost var s := Snap();
          Visit(nodes[i], {}, all);
          FinishedKeeps(edges, s, Snap(), nodes[i], low[nodes[i]]);
        }
        i := i + 1;
      }
      EmptyStack(edges, Snap());
      GoodOut(edges, Snap(), {});
    }
  }

  lemma StaysIn<V>(g: Graph<V>, all: set<V>, v: V, w: V)
    requires Closed(g, all) && v in all && Edge(g, v, w)
    ensures w in all
  {
  }

  /** With no call in progress nothing is left on the stack. */
  lemma EmptyStack<V(!new)>(g: Graph<V>, s: View<V>)
    requires Good(g, s, {})
    ensures s.stack == [] && Done(s.out) == s.index.Keys
  {
    hide Reach, StackReach, NoBlackToWhite, OutOk, Done, ToGray;
    var bottom := s.stack[..if |s.stack| > 0 then 1 else 0];
    assert |bottom| > 0 ==> bottom[0] in s.stack;
    NothingReturns(g, s);
  }

  lemma NothingReturns<V(!new)>(g: Graph<V>, s: View<V>)
    requires ToGray(g, s, {})
    ensures forall y :: y !in s.stack
  {
    forall y | y in s.stack ensures ReturnsTo(g, s, {}, y) {
    }
  }
}
