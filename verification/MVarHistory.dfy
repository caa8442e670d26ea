/** What the requests and answers so far say of each MVar. */
module MVarHistory {
  import opened MVars

  /** The requests of kind `k` on `id` that came in, in order. */
  function AskedFor(k: Kind, id: nat, es: seq<Event>): seq<nat> {
    if es == [] then []
    else
      var e := es[|es| - 1];
      AskedFor(k, id, es[..|es| - 1]) + (if e.Asked? && e.op.id == id && KindOf(e.op) == k then [e.rid] else [])
  }

  /** The requests of kind `k` on `id` that were answered, in order. */
  function AnsweredFor(k: Kind, id: nat, es: seq<Event>): seq<nat> {
    if es == [] then []
    else
      var e := es[|es| - 1];
      AnsweredFor(k, id, es[..|es| - 1]) + (if e.Answered? && e.op.id == id && KindOf(e.op) == k then [e.rid] else [])
  }

  /** The values put into `id` since it was created. */
  function PutInto(id: nat, es: seq<Event>): seq<Body> {
    if es == [] then []
    else
      var e, before := es[|es| - 1], PutInto(id, es[..|es| - 1]);
      match e
      case Created(i) => if i == id then [] else before
      case Asked(_, Put(i, b)) => if i == id then before + [b] else before
      case _ => before
  }

  /** The values taken from `id` since it was created. */
  function TakenFrom(id: nat, es: seq<Event>): seq<Body> {
    if es == [] then []
    else
      var e, before := es[|es| - 1], TakenFrom(id, es[..|es| - 1]);
      match e
      case Created(i) => if i == id then [] else before
      case Answered(_, Take(i), Value(b)) => if i == id then before + [b] else before
      case _ => before
  }

  /** The read answered at step `k` saw the first value not yet taken. */
  ghost predicate SeesHead(es: seq<Event>, k: nat)
    requires k < |es|
  {
    es[k].Answered? && es[k].op.Read? && es[k].a.Value? ==>
      TakenFrom(es[k].op.id, es[..k]) + [es[k].a.b] <= PutInto(es[k].op.id, es[..k])
  }

  ghost predicate ReadsSeeHead(es: seq<Event>) {
    forall k :: 0 <= k < |es| ==> SeesHead(es, k)
  }

  lemma SeesHeadAppend(es: seq<Event>, e: Event)
    requires ReadsSeeHead(es)
    requires e.Answered? && e.op.Read? && e.a.Value? ==>
               TakenFrom(e.op.id, es) + [e.a.b] <= PutInto(e.op.id, es)
    ensures ReadsSeeHead(es + [e])
  {
    hide TakenFrom, PutInto;
    forall k | 0 <= k < |es + [e]|
      ensures SeesHead(es + [e], k)
    {
      if k < |es| {
        assert SeesHead(es, k);
        assert (es + [e])[..k] == es[..k];
      } else {
        assert (es + [e])[..k] == es;
      }
    }
  }

  /** One more event: who asked and who was answered. */
  lemma AppendCounts(k: Kind, id: nat, es: seq<Event>, e: Event)
    ensures AskedFor(k, id, es + [e]) ==
            AskedFor(k, id, es) + (if e.Asked? && e.op.id == id && KindOf(e.op) == k then [e.rid] else [])
    ensures AnsweredFor(k, id, es + [e]) ==
            AnsweredFor(k, id, es) + (if e.Answered? && e.op.id == id && KindOf(e.op) == k then [e.rid] else [])
  {
    assert (es + [e])[..|es|] == es;
  }

  /** One more event: what was put and taken. */
  lemma AppendValues(id: nat, es: seq<Event>, e: Event)
    ensures PutInto(id, es + [e]) ==
            if e == Created(id) then [] else PutInto(id, es) + (if e.Asked? && e.op.id == id then Added(e.op) else [])
    ensures TakenFrom(id, es + [e]) ==
            if e == Created(id) then []
            else TakenFrom(id, es) + (if e.Answered? && e.op.id == id && e.op.Take? && e.a.Value? then [e.a.b] else [])
  {
    assert (es + [e])[..|es|] == es;
  }

  lemma ServedOne(id: nat, ev: seq<Event>, q: seq<Body>, e: Event)
    requires e.Answered? && e.op.id == id && (e.a.Value? ==> q != [] && e.a.b == q[0] && !e.op.Put?)
    requires TakenFrom(id, ev) + q == PutInto(id, ev)
    requires ReadsSeeHead(ev)
    ensures PutInto(id, ev + [e]) == PutInto(id, ev)
    ensures TakenFrom(id, ev + [e]) + (if e.a.Value? && e.op.Take? then q[1..] else q) == PutInto(id, ev)
    ensures ReadsSeeHead(ev + [e])
  {
    hide PutInto, TakenFrom, ReadsSeeHead;
    AppendValues(id, ev, e);
    var taken := TakenFrom(id, ev);
    if e.a.Value? {
      assert q == [e.a.b] + q[1..];
      assert taken + [e.a.b] + q[1..] == taken + q;
    }
    assert PutInto(id, ev) + [] == PutInto(id, ev) && taken + [] == taken;
    SeesHeadAppend(ev, e);
  }

  /** Answers that serve the line in order keep what was put equal to what was taken and what
      is left in line. */
  lemma {:induction false} Served(id: nat, ev: seq<Event>, q: seq<Body>, es: seq<Event>)
    requires Serves(id, q, es)
    requires TakenFrom(id, ev) + q == PutInto(id, ev)
    requires ReadsSeeHead(ev)
    ensures PutInto(id, ev + es) == PutInto(id, ev)
    ensures TakenFrom(id, ev + es) + Left(q, es) == PutInto(id, ev + es)
    ensures ReadsSeeHead(ev + es)
    decreases es
  {
    hide AskedFor, AnsweredFor, PutInto, TakenFrom, ReadsSeeHead;
    if es == [] {
      assert ev + es == ev;
    } else {
      var e := es[0];
      var q' := if e.a.Value? && e.op.Take? then q[1..] else q;
      ServedOne(id, ev, q, e);
      Served(id, ev + [e], q', es[1..]);
      assert ev + [e] + es[1..] == ev + es;
    }
  }

  /** Answers on one MVar say nothing of another. */
  lemma {:induction false} Elsewhere(id: nat, other: nat, ev: seq<Event>, es: seq<Event>)
    requires other != id
    requires forall e :: e in es ==> e.Answered? && e.op.id == id
    ensures PutInto(other, ev + es) == PutInto(other, ev) && TakenFrom(other, ev + es) == TakenFrom(other, ev)
    decreases es
  {
    hide PutInto, TakenFrom;
    if es == [] {
      assert ev + es == ev;
    } else {
      assert es[0] in es;
      AppendValues(other, ev, es[0]);
      Elsewhere(id, other, ev + [es[0]], es[1..]);
      assert ev + [es[0]] + es[1..] == ev + es;
    }
  }

  lemma Associate(a: seq<nat>, b: seq<nat>, c: seq<nat>)
    ensures a + b + c == a + (b + c) && a + [] == a
  {
  }

  /** Each answer is counted once, for the MVar and the kind it is of. */
  lemma {:induction false} CountAnswers(k: Kind, id: nat, i: nat, ev: seq<Event>, es: seq<Event>)
    requires forall e :: e in es ==> e.Answered? && e.op.id == id
    ensures AskedFor(k, i, ev + es) == AskedFor(k, i, ev)
    ensures AnsweredFor(k, i, ev + es) == AnsweredFor(k, i, ev) + (if i == id then Rids(k, es) else [])
    decreases es
  {
    hide AskedFor, AnsweredFor;
    if es == [] {
      assert ev + es == ev;
      assert Rids(k, es) == [];
    } else {
      var e := es[0];
      assert e in es;
      var first := if KindOf(e.op) == k then [e.rid] else [];
      assert Rids(k, es) == first + Rids(k, es[1..]);
      AppendCounts(k, i, ev, e);
      CountAnswers(k, id, i, ev + [e], es[1..]);
      assert ev + [e] + es[1..] == ev + es;
      Associate(AnsweredFor(k, i, ev), first, Rids(k, es[1..]));
    }
  }

  lemma {:induction false} ServesAnswers(id: nat, q: seq<Body>, es: seq<Event>)
    requires Serves(id, q, es)
    ensures forall e :: e in es ==> e.Answered? && e.op.id == id
    decreases es
  {
    if es != [] {
      ServesAnswers(id, if es[0].a.Value? && es[0].op.Take? then q[1..] else q, es[1..]);
      assert es == [es[0]] + es[1..];
    }
  }

  /** Answers without a value take nothing, and no read is among them. */
  lemma {:induction false} ValuelessAnswers(id: nat, ev: seq<Event>, es: seq<Event>)
    requires forall e :: e in es ==> e.Answered? && !e.a.Value?
    requires ReadsSeeHead(ev)
    ensures PutInto(id, ev + es) == PutInto(id, ev) && TakenFrom(id, ev + es) == TakenFrom(id, ev)
    ensures ReadsSeeHead(ev + es)
    decreases es
  {
    hide PutInto, TakenFrom, ReadsSeeHead;
    if es == [] {
      assert ev + es == ev;
    } else {
      AppendValues(id, ev, es[0]);
      SeesHeadAppend(ev, es[0]);
      ValuelessAnswers(id, ev + [es[0]], es[1..]);
      assert ev + [es[0]] + es[1..] == ev + es;
    }
  }
}
