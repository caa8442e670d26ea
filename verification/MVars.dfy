/** The MVar server of the compiler's IO handler: blocking read, take and put over waiter
    queues, one MVar at a time. A request is one step; a response runs the program only up to
    its next request, and that request is handled after the current one. */
module MVars {
  import opened Options

  /** The bytes of a value: the 12-byte token of a stashed one, or an encoding. */
  datatype Body = Token(t: nat) | Plain(bytes: seq<bv8>)

  datatype Op = Read(id: nat) | Take(id: nat) | Put(id: nat, b: Body)

  /** A request that waits, with its responder. */
  datatype Waiter = Waiter(rid: nat, op: Op)

  datatype MVar = MVar(value: Option<Body>, waiters: seq<Waiter>)

  datatype Answer = Value(b: Body) | Unit | UnknownMVar | WasDropped

  datatype Event =
    | Created(id: nat)
    | Asked(rid: nat, op: Op)
    | Answered(rid: nat, op: Op, a: Answer)

  // ----- one MVar -----

  /** The wake-up loop: what it leaves and whom it answers, in order. */
  function Wake(m: MVar): (MVar, seq<Event>)
    decreases |m.waiters|
  {
    if m.waiters == [] then (m, [])
    else
      var w, rest := m.waiters[0], m.waiters[1..];
      match w.op
      case Read(_) =>
        if m.value.Some? then
          var (m', es) := Wake(MVar(m.value, rest));
          (m', [Answered(w.rid, w.op, Value(m.value.value))] + es)
        else (m, [])
      case Take(_) =>
        if m.value.Some? then
          var (m', es) := Wake(MVar(None, rest));
          (m', [Answered(w.rid, w.op, Value(m.value.value))] + es)
        else (m, [])
      case Put(_, b) =>
        if m.value.None? then
          var (m', es) := Wake(MVar(Some(b), rest));
          (m', [Answered(w.rid, w.op, Unit)] + es)
        else (m, [])
  }

  /** The values in line: the one held, then those of the waiting puts. */
  function Queue(m: MVar): seq<Body> {
    (if m.value.Some? then [m.value.value] else []) + PutBodies(m.waiters)
  }

  function PutBodies(ws: seq<Waiter>): seq<Body> {
    if ws == [] then []
    else (if ws[0].op.Put? then [ws[0].op.b] else []) + PutBodies(ws[1..])
  }

  /** A held value means that only puts wait, an empty slot that none does. */
  ghost predicate Settled(m: MVar) {
    forall i :: 0 <= i < |m.waiters| ==> (m.waiters[i].op.Put? <==> m.value.Some?)
  }

  /** All waiters are puts, or none is. */
  ghost predicate OneKind(m: MVar) {
    forall i, j :: 0 <= i < |m.waiters| && 0 <= j < |m.waiters| ==> (m.waiters[i].op.Put? <==> m.waiters[j].op.Put?)
  }

  datatype Kind = ReadKind | TakeKind | PutKind

  function KindOf(op: Op): Kind {
    match op case Read(_) => ReadKind case Take(_) => TakeKind case Put(_, _) => PutKind
  }

  /** The requests of one kind that wait, in order. */
  function Waiting(k: Kind, ws: seq<Waiter>): seq<nat> {
    if ws == [] then []
    else (if KindOf(ws[0].op) == k then [ws[0].rid] else []) + Waiting(k, ws[1..])
  }

  /** What a request does to the MVar it is for, and whom it answers, in order. */
  function Effect(m: MVar, rid: nat, op: Op): (MVar, seq<Event>) {
    match op
    case Read(_) =>
      if m.value.Some? then (m, [Answered(rid, op, Value(m.value.value))])
      else (m.(waiters := m.waiters + [Waiter(rid, op)]), [])
    case Take(_) =>
      if m.value.Some? then
        var (m', es) := Wake(m.(value := None));
        (m', [Answered(rid, op, Value(m.value.value))] + es)
      else (m.(waiters := m.waiters + [Waiter(rid, op)]), [])
    case Put(_, b) =>
      if m.value.None? then
        var (m', es) := Wake(m.(value := Some(b)));
        (m', [Answered(rid, op, Unit)] + es)
      else (m.(waiters := m.waiters + [Waiter(rid, op)]), [])
  }

  // ----- waking and conservation -----

  /** The answers `es` serve the line `q` first come first served: a read shows its head, a
      take removes it. */
  ghost predicate Serves(id: nat, q: seq<Body>, es: seq<Event>)
    decreases es
  {
    es == [] ||
    var e := es[0];
    && e.Answered? && e.op.id == id
    && match e.a
       case Value(b) =>
         q != [] && b == q[0] && !e.op.Put? && Serves(id, if e.op.Take? then q[1..] else q, es[1..])
       case Unit => e.op.Put? && Serves(id, q, es[1..])
       case _ => false
  }

  /** What is left of the line. */
  function Left(q: seq<Body>, es: seq<Event>): seq<Body>
    decreases es
  {
    if es == [] then q
    else Left(if es[0].Answered? && es[0].a.Value? && es[0].op.Take? && q != [] then q[1..] else q, es[1..])
  }

  /** The answered requests of one kind. */
  function Rids(k: Kind, es: seq<Event>): seq<nat> {
    if es == [] then []
    else (if es[0].Answered? && KindOf(es[0].op) == k then [es[0].rid] else []) + Rids(k, es[1..])
  }

  ghost predicate WaitersOf(id: nat, ws: seq<Waiter>) {
    forall i :: 0 <= i < |ws| ==> ws[i].op.id == id
  }

  /** The MVar after the first waiter is answered. */
  function AfterFirst(m: MVar): MVar
    requires m.waiters != []
  {
    match m.waiters[0].op
    case Read(_) => MVar(m.value, m.waiters[1..])
    case Take(_) => MVar(None, m.waiters[1..])
    case Put(_, b) => MVar(Some(b), m.waiters[1..])
  }

  /** The loop goes on: the first waiter can be answered. */
  predicate Ready(m: MVar) {
    m.waiters != [] && (m.waiters[0].op.Put? <==> m.value.None?)
  }

  /** The answer to the first waiter. */
  function FirstAnswer(m: MVar): Event
    requires Ready(m)
  {
    Answered(m.waiters[0].rid, m.waiters[0].op, if m.value.Some? then Value(m.value.value) else Unit)
  }

  /** One turn of the loop. */
  lemma WakeStep(m: MVar)
    ensures Wake(m) == if Ready(m) then
                         (Wake(AfterFirst(m)).0, [FirstAnswer(m)] + Wake(AfterFirst(m)).1)
                       else (m, [])
  {
  }

  lemma {:induction false} WakeSettles(id: nat, m: MVar)
    requires OneKind(m) && WaitersOf(id, m.waiters)
    ensures Settled(Wake(m).0) && WaitersOf(id, Wake(m).0.waiters)
    decreases |m.waiters|
  {
    hide Wake;
    WakeStep(m);
    if Ready(m) {
      assert forall i :: 0 <= i < |m.waiters| - 1 ==> m.waiters[1..][i] == m.waiters[i + 1];
      WakeSettles(id, AfterFirst(m));
    }
  }

  lemma {:induction false} WakeServes(id: nat, m: MVar)
    requires WaitersOf(id, m.waiters)
    ensures Serves(id, Queue(m), Wake(m).1) && Left(Queue(m), Wake(m).1) == Queue(Wake(m).0)
    decreases |m.waiters|
  {
    hide Wake;
    WakeStep(m);
    if Ready(m) {
      var n, e := AfterFirst(m), FirstAnswer(m);
      assert WaitersOf(id, n.waiters) by {
        assert forall i :: 0 <= i < |m.waiters| - 1 ==> m.waiters[1..][i] == m.waiters[i + 1];
      }
      WakeServes(id, n);
      QueueAfterFirst(m);
      assert m.waiters[0].op.id == id;
      ServesFirst(id, Queue(m), e, Wake(n).1);
    }
  }

  lemma QueueAfterFirst(m: MVar)
    requires Ready(m)
    ensures m.value.Some? ==> Queue(m) != [] && Queue(m)[0] == m.value.value
    ensures Queue(AfterFirst(m)) == if m.waiters[0].op.Take? then Queue(m)[1..] else Queue(m)
  {
  }

  lemma ServesFirst(id: nat, q: seq<Body>, e: Event, es: seq<Event>)
    requires e.Answered? && e.op.id == id && if e.op.Put? then e.a == Unit else e.a.Value?
    requires e.a.Value? ==> q != [] && q[0] == e.a.b
    requires Serves(id, if e.op.Take? then q[1..] else q, es)
    ensures Serves(id, q, [e] + es)
    ensures Left(q, [e] + es) == Left(if e.op.Take? then q[1..] else q, es)
  {
    assert ([e] + es)[0] == e && ([e] + es)[1..] == es;
  }

  lemma RidsCons(k: Kind, e: Event, es: seq<Event>)
    ensures Rids(k, [e] + es) == (if e.Answered? && KindOf(e.op) == k then [e.rid] else []) + Rids(k, es)
  {
    assert ([e] + es)[1..] == es;
  }

  lemma Associative<T>(a: seq<T>, b: seq<T>, c: seq<T>)
    ensures a + b + c == a + (b + c)
  {
  }

  lemma {:induction false} WakeInOrder(k: Kind, m: MVar)
    ensures Rids(k, Wake(m).1) + Waiting(k, Wake(m).0.waiters) == Waiting(k, m.waiters)
    decreases |m.waiters|
  {
    hide Wake;
    WakeStep(m);
    if Ready(m) {
      var n, e := AfterFirst(m), FirstAnswer(m);
      WakeInOrder(k, n);
      RidsCons(k, e, Wake(n).1);
      hide Rids, Waiting;
      Associative(if KindOf(e.op) == k then [e.rid] else [], Rids(k, Wake(n).1), Waiting(k, Wake(n).0.waiters));
    } else {
      assert Rids(k, []) == [];
    }
  }

  /** The wake-up loop leaves a settled MVar, serves the line in order, and answers each
      waiter it removes once, in order. */
  lemma WakeCorrect(id: nat, m: MVar, k: Kind)
    requires OneKind(m) && WaitersOf(id, m.waiters)
    ensures var (m', es) := Wake(m);
            && Settled(m') && WaitersOf(id, m'.waiters)
            && Serves(id, Queue(m), es) && Left(Queue(m), es) == Queue(m')
            && Rids(k, es) + Waiting(k, m'.waiters) == Waiting(k, m.waiters)
  {
    hide *;
    WakeSettles(id, m);
    WakeServes(id, m);
    WakeInOrder(k, m);
  }

  lemma {:induction false} WaitingAppend(k: Kind, ws: seq<Waiter>, w: Waiter)
    ensures Waiting(k, ws + [w]) == Waiting(k, ws) + (if KindOf(w.op) == k then [w.rid] else [])
  {
    hide KindOf;
    if ws == [] {
      assert ws + [w] == [w] && [w][1..] == [];
    } else {
      assert (ws + [w])[1..] == ws[1..] + [w];
      WaitingAppend(k, ws[1..], w);
      var first := if KindOf(ws[0].op) == k then [ws[0].rid] else [];
      var last := if KindOf(w.op) == k then [w.rid] else [];
      assert first + (Waiting(k, ws[1..]) + last) == first + Waiting(k, ws[1..]) + last;
    }
  }

  lemma {:induction false} PutBodiesAppend(ws: seq<Waiter>, w: Waiter)
    ensures PutBodies(ws + [w]) == PutBodies(ws) + (if w.op.Put? then [w.op.b] else [])
  {
    if ws == [] {
      assert ws + [w] == [w] && [w][1..] == [];
    } else {
      assert (ws + [w])[1..] == ws[1..] + [w];
      PutBodiesAppend(ws[1..], w);
      var first := if ws[0].op.Put? then [ws[0].op.b] else [];
      var last := if w.op.Put? then [w.op.b] else [];
      assert first + (PutBodies(ws[1..]) + last) == first + PutBodies(ws[1..]) + last;
    }
  }

  lemma SettledEmpty(m: MVar)
    requires Settled(m) && m.value.None?
    ensures PutBodies(m.waiters) == []
  {
    NoPuts(m.waiters);
  }

  lemma {:induction false} NoPuts(ws: seq<Waiter>)
    requires forall i :: 0 <= i < |ws| ==> !ws[i].op.Put?
    ensures PutBodies(ws) == []
  {
    if ws != [] {
      NoPuts(ws[1..]);
    }
  }

  /** The values a request adds to the line. */
  function Added(op: Op): seq<Body> {
    if op.Put? then [op.b] else []
  }

  /** A request keeps its MVar settled, serves the line in order, and adds its own value to
      the line and its own id to those waiting or answered. */
  lemma EffectCorrect(m: MVar, rid: nat, op: Op, k: Kind)
    requires Settled(m) && WaitersOf(op.id, m.waiters)
    ensures var (m', es) := Effect(m, rid, op);
            && Settled(m') && WaitersOf(op.id, m'.waiters)
            && Serves(op.id, Queue(m) + Added(op), es) && Left(Queue(m) + Added(op), es) == Queue(m')
            && Rids(k, es) + Waiting(k, m'.waiters) == Waiting(k, m.waiters) + (if KindOf(op) == k then [rid] else [])
  {
    hide Waiting, PutBodies, Wake;
    WaitingAppend(k, m.waiters, Waiter(rid, op));
    PutBodiesAppend(m.waiters, Waiter(rid, op));
    if m.value.None? {
      SettledEmpty(m);
    }
    match op
    case Read(_) =>
      assert Queue(m) + Added(op) == Queue(m);
      if m.value.Some? {
        assert Rids(k, [Answered(rid, op, Value(m.value.value))]) == (if k == ReadKind then [rid] else []);
        NothingWaits(k, m, rid, op);
      }
    case Take(_) =>
      assert Queue(m) + Added(op) == Queue(m);
      if m.value.Some? {
        var n := m.(value := None);
        WakeCorrect(op.id, n, k);
        assert Queue(m)[1..] == Queue(n);
        NothingWaits(k, m, rid, op);
      }
    case Put(_, b) =>
      if m.value.None? {
        var n := m.(value := Some(b));
        WakeCorrect(op.id, n, k);
        assert Queue(m) + Added(op) == Queue(n);
        NothingWaits(k, m, rid, op);
      } else {
        assert Queue(m.(waiters := m.waiters + [Waiter(rid, op)])) == Queue(m) + [b];
      }
  }

  /** A request that is answered at once finds no waiter of its own kind. */
  lemma NothingWaits(k: Kind, m: MVar, rid: nat, op: Op)
    requires Settled(m) && (m.value.Some? <==> !op.Put?)
    ensures KindOf(op) == k ==> Waiting(k, m.waiters) == []
  {
    if KindOf(op) == k {
      NoneOfKind(k, m.waiters);
    }
  }

  lemma {:induction false} NoneOfKind(k: Kind, ws: seq<Waiter>)
    requires forall i :: 0 <= i < |ws| ==> KindOf(ws[i].op) != k
    ensures Waiting(k, ws) == []
  {
    if ws != [] {
      NoneOfKind(k, ws[1..]);
    }
  }
}
