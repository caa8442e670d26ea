/** The MVar requests of the IO handler, over every run of requests. */
module MVarServer {
  import opened Options
  import opened MVars
  import opened MVarHistory

  /** A token holds the low 32 bits of its id, and 0 stands for no token. */
  const TOKEN_IDS := 0x1_0000_0000

  /** The value that a response's decoder got for a token. */
  datatype Decoded<V> = Decoded(rid: nat, op: Op, t: nat, v: V)

  datatype State<V> = State(
    mVars: map<nat, MVar>,
    nextId: nat,
    stashed: map<nat, V>,
    stashNextId: nat,
    unsent: set<nat>,     // tokens made and not yet sent with a put
    missing: bool,        // some token was decoded without its value
    events: seq<Event>,
    made: seq<V>,         // every value ever stashed; id n stood for the n-th
    decoded: seq<Decoded<V>>)

  datatype Command<V> = New | Request(rid: nat, op: Op) | Drop(id: nat) | Stash(v: V)

  /** Answering: a value's token is exchanged for the stashed value, which a take removes. */
  function Respond<V>(s: State<V>, e: Event): State<V> {
    var s' := s.(events := s.events + [e]);
    if e.Answered? && e.a.Value? && e.a.b.Token? then
      if e.a.b.t !in s.stashed then s'.(missing := true)
      else
        var d := Decoded(e.rid, e.op, e.a.b.t, s.stashed[e.a.b.t]);
        s'.(decoded := s.decoded + [d], stashed := if e.op.Take? then s.stashed - {e.a.b.t} else s.stashed)
    else s'
  }

  function RespondAll<V>(s: State<V>, es: seq<Event>): State<V>
    decreases es
  {
    if es == [] then s else RespondAll(Respond(s, es[0]), es[1..])
  }

  function Release<V>(s: State<V>, b: Body): State<V> {
    if b.Token? then s.(stashed := s.stashed - {b.t}) else s
  }

  function ReleaseAll<V>(s: State<V>, bs: seq<Body>): State<V>
    decreases bs
  {
    if bs == [] then s else ReleaseAll(Release(s, bs[0]), bs[1..])
  }

  /** Nobody can put into an MVar that is gone: its waiters are told so, in order. */
  function Refusals(ws: seq<Waiter>): seq<Event> {
    if ws == [] then [] else [Answered(ws[0].rid, ws[0].op, WasDropped)] + Refusals(ws[1..])
  }

  /** The request arrives; a token it carries has now been sent. */
  function Ask<V>(s: State<V>, rid: nat, op: Op): State<V> {
    s.(events := s.events + [Asked(rid, op)],
       unsent := if op.Put? && op.b.Token? then s.unsent - {op.b.t} else s.unsent)
  }

  /** Read, take and put. A request for an unknown MVar is refused, and a token it carries
      is released. */
  function Handle<V>(s: State<V>, rid: nat, op: Op): State<V> {
    var a := Ask(s, rid, op);
    if op.id !in s.mVars then
      Respond(if op.Put? then Release(a, op.b) else a, Answered(rid, op, UnknownMVar))
    else
      var (m', es) := Effect(s.mVars[op.id], rid, op);
      RespondAll(a.(mVars := s.mVars[op.id := m']), es)
  }

  function Create<V>(s: State<V>): State<V> {
    var id := s.nextId + 1;
    s.(nextId := id, mVars := s.mVars[id := MVar(None, [])], events := s.events + [Created(id)])
  }

  function DropMVar<V>(s: State<V>, id: nat): State<V> {
    if id !in s.mVars then s
    else
      RespondAll(ReleaseAll(s.(mVars := s.mVars - {id}), Queue(s.mVars[id])), Refusals(s.mVars[id].waiters))
  }

  function StashValue<V>(s: State<V>, v: V): State<V> {
    var id := s.stashNextId + 1;
    s.(stashNextId := id, stashed := s.stashed[id := v], unsent := s.unsent + {id % TOKEN_IDS} - {0},
        made := s.made + [v])
  }

  function Step<V>(s: State<V>, c: Command<V>): State<V> {
    match c
    case New => Create(s)
    case Request(rid, op) => Handle(s, rid, op)
    case Drop(id) => DropMVar(s, id)
    case Stash(v) => StashValue(s, v)
  }

  function Start<V>(): State<V> {
    State(map[], 0, map[], 0, {}, false, [], [], [])
  }

  function Run<V>(cs: seq<Command<V>>): State<V> {
    if cs == [] then Start() else Step(Run(cs[..|cs| - 1]), cs[|cs| - 1])
  }

  // ----- the invariant -----

  function Lines<V>(s: State<V>): map<nat, seq<Body>> {
    map id | id in s.mVars :: Queue(s.mVars[id])
  }

  ghost predicate AllSettled(mVars: map<nat, MVar>, nextId: nat) {
    forall id :: id in mVars ==> id <= nextId && Settled(mVars[id]) && WaitersOf(id, mVars[id].waiters)
  }

  /** What was put into an MVar is what was taken from it, then what is in line. */
  ghost predicate Conserved(lines: map<nat, seq<Body>>, es: seq<Event>) {
    && (forall id :: id in lines ==> TakenFrom(id, es) + lines[id] == PutInto(id, es))
    && (forall id :: TakenFrom(id, es) <= PutInto(id, es))
  }

  function WaitingAt(mVars: map<nat, MVar>, id: nat, k: Kind): seq<nat> {
    if id in mVars then Waiting(k, mVars[id].waiters) else []
  }

  /** The requests of a kind on an MVar are answered in the order they came, each once, and
      those not answered wait. */
  ghost predicate InOrder(mVars: map<nat, MVar>, es: seq<Event>) {
    forall id, k :: AnsweredFor(k, id, es) + WaitingAt(mVars, id, k) == AskedFor(k, id, es)
  }

  /** The MVars and the history of requests are in order. */
  ghost predicate Orderly<V>(s: State<V>) {
    && AllSettled(s.mVars, s.nextId)
    && Conserved(Lines(s), s.events)
    && ReadsSeeHead(s.events)
    && InOrder(s.mVars, s.events)
  }

  // ----- answers -----

  lemma {:induction false} RespondAllFrame<V>(s: State<V>, es: seq<Event>)
    ensures var r := RespondAll(s, es);
            r.mVars == s.mVars && r.nextId == s.nextId && r.unsent == s.unsent && r.stashNextId == s.stashNextId &&
            r.events == s.events + es
    decreases es
  {
    if es != [] {
      RespondAllFrame(Respond(s, es[0]), es[1..]);
      assert s.events + [es[0]] + es[1..] == s.events + es;
    }
  }

  lemma {:induction false} ReleaseAllFrame<V>(s: State<V>, q: seq<Body>)
    ensures var r := ReleaseAll(s, q); r == s.(stashed := r.stashed)
    decreases q
  {
    if q != [] {
      ReleaseAllFrame(Release(s, q[0]), q[1..]);
    }
  }

  // ----- lines -----

  lemma {:induction false} RefusalsAnswer(k: Kind, id: nat, ws: seq<Waiter>)
    requires WaitersOf(id, ws)
    ensures forall e :: e in Refusals(ws) ==> e.Answered? && e.a == WasDropped && e.op.id == id
    ensures Rids(k, Refusals(ws)) == Waiting(k, ws)
  {
    if ws != [] {
      assert WaitersOf(id, ws[1..]);
      RefusalsAnswer(k, id, ws[1..]);
      var e := Answered(ws[0].rid, ws[0].op, WasDropped);
      assert ([e] + Refusals(ws[1..]))[1..] == Refusals(ws[1..]);
      assert ws[0].op.id == id;
    }
  }

  // ----- what each command keeps -----

  lemma AskValues(lines: map<nat, seq<Body>>, rid: nat, op: Op, es: seq<Event>)
    requires Conserved(lines, es)
    ensures var ev := es + [Asked(rid, op)];
            && (forall id :: id in lines && id != op.id ==> TakenFrom(id, ev) + lines[id] == PutInto(id, ev))
            && (op.id in lines ==> TakenFrom(op.id, ev) + (lines[op.id] + Added(op)) == PutInto(op.id, ev))
            && (forall id :: TakenFrom(id, ev) <= PutInto(id, ev))
  {
    hide PutInto, TakenFrom;
    forall id {
      AppendValues(id, es, Asked(rid, op));
    }
  }

  lemma AskCounts(mVars: map<nat, MVar>, rid: nat, op: Op, es: seq<Event>)
    requires InOrder(mVars, es)
    ensures var ev := es + [Asked(rid, op)];
            forall id, k :: AnsweredFor(k, id, ev) + WaitingAt(mVars, id, k) + One(op, rid, id, k)
                == AskedFor(k, id, ev)
  {
    hide AskedFor, AnsweredFor, WaitingAt;
    var ev := es + [Asked(rid, op)];
    forall id, k
      ensures AnsweredFor(k, id, ev) + WaitingAt(mVars, id, k) + One(op, rid, id, k) == AskedFor(k, id, ev)
    {
      AppendCounts(k, id, es, Asked(rid, op));
      assert AnsweredFor(k, id, es) + WaitingAt(mVars, id, k) == AskedFor(k, id, es);
    }
  }

  lemma AskKeeps<V>(s: State<V>, rid: nat, op: Op)
    requires Orderly(s)
    ensures var ev := s.events + [Asked(rid, op)];
            && ReadsSeeHead(ev)
            && (forall id :: id in s.mVars && id != op.id ==> TakenFrom(id, ev) + Lines(s)[id] == PutInto(id, ev))
            && (op.id in s.mVars ==> TakenFrom(op.id, ev) + (Lines(s)[op.id] + Added(op)) == PutInto(op.id, ev))
            && (forall id :: TakenFrom(id, ev) <= PutInto(id, ev))
            && (forall id, k ::
                  AnsweredFor(k, id, ev) + WaitingAt(s.mVars, id, k) + One(op, rid, id, k) == AskedFor(k, id, ev))
  {
    hide AskedFor, AnsweredFor, PutInto, TakenFrom, AllSettled, ReadsSeeHead, WaitingAt, Queue, One, Conserved, InOrder,
         Added;
    SeesHeadAppend(s.events, Asked(rid, op));
    AskValues(Lines(s), rid, op, s.events);
    AskCounts(s.mVars, rid, op, s.events);
  }

  /** The request as one of kind `k` on `id`. */
  function One(op: Op, rid: nat, id: nat, k: Kind): seq<nat> {
    if op.id == id && KindOf(op) == k then [rid] else []
  }

  lemma UnknownKeeps<V>(s: State<V>, rid: nat, op: Op)
    requires Orderly(s) && op.id !in s.mVars
    ensures Orderly(Handle(s, rid, op))
  {
    hide AskedFor, AnsweredFor, PutInto, TakenFrom, AllSettled, ReadsSeeHead, Queue;
    var ev := s.events + [Asked(rid, op)];
    var e := Answered(rid, op, UnknownMVar);
    var r := Handle(s, rid, op);
    assert r.events == ev + [e] && Lines(r) == Lines(s);
    AskKeeps(s, rid, op);
    SeesHeadAppend(ev, e);
    forall id
      ensures TakenFrom(id, r.events) == TakenFrom(id, ev) && PutInto(id, r.events) == PutInto(id, ev)
    {
      AppendValues(id, ev, e);
    }
    forall id, k
      ensures AnsweredFor(k, id, r.events) + WaitingAt(r.mVars, id, k) == AskedFor(k, id, r.events)
    {
      assert AnsweredFor(k, id, ev) + WaitingAt(s.mVars, id, k) + One(op, rid, id, k) == AskedFor(k, id, ev);
      RefusedCounts(s, rid, op, ev, e, k, id);
    }
    hide Handle;
  }

  lemma RefusedCounts<V>(s: State<V>, rid: nat, op: Op, ev: seq<Event>, e: Event, k: Kind, id: nat)
    requires op.id !in s.mVars && e == Answered(rid, op, UnknownMVar)
    requires AnsweredFor(k, id, ev) + WaitingAt(s.mVars, id, k) + One(op, rid, id, k) == AskedFor(k, id, ev)
    ensures AnsweredFor(k, id, ev + [e]) + WaitingAt(s.mVars, id, k) == AskedFor(k, id, ev + [e])
  {
    hide AskedFor, AnsweredFor;
    AppendCounts(k, id, ev, e);
  }

  /** The answers to a request on a live MVar keep the history in order. */
  lemma ServedInOrder(mVars: map<nat, MVar>, m': MVar, rid: nat, op: Op, ev: seq<Event>, es: seq<Event>)
    requires op.id in mVars
    requires forall e :: e in es ==> e.Answered? && e.op.id == op.id
    requires forall id, k ::
               AnsweredFor(k, id, ev) + WaitingAt(mVars, id, k) + One(op, rid, id, k) == AskedFor(k, id, ev)
    requires forall k ::
               Rids(k, es) + Waiting(k, m'.waiters) == Waiting(k, mVars[op.id].waiters) + One(op, rid, op.id, k)
    ensures InOrder(mVars[op.id := m'], ev + es)
  {
    hide AskedFor, AnsweredFor, Waiting, Rids, One;
    forall id, k
      ensures AnsweredFor(k, id, ev + es) + WaitingAt(mVars[op.id := m'], id, k) == AskedFor(k, id, ev + es)
    {
      CountAnswers(k, op.id, id, ev, es);
      assert AnsweredFor(k, id, ev) + WaitingAt(mVars, id, k) + One(op, rid, id, k) == AskedFor(k, id, ev);
      if id == op.id {
        Associate(AnsweredFor(k, id, ev), Rids(k, es), Waiting(k, m'.waiters));
        Associate(AnsweredFor(k, id, ev), Waiting(k, mVars[id].waiters), One(op, rid, id, k));
      } else {
        NotThis(op, rid, id, k);
        Associate(AnsweredFor(k, id, ev), WaitingAt(mVars, id, k), []);
        assert AnsweredFor(k, id, ev) + [] == AnsweredFor(k, id, ev);
        assert AnsweredFor(k, id, ev) + WaitingAt(mVars, id, k) + []
            == AnsweredFor(k, id, ev) + WaitingAt(mVars, id, k);
      }
    }
  }

  lemma NotThis(op: Op, rid: nat, id: nat, k: Kind)
    requires op.id != id
    ensures One(op, rid, id, k) == []
  {
  }

  /** ... and what was put equal to what was taken and what is left. */
  lemma ServedConserves(lines: map<nat, seq<Body>>, id: nat, q: seq<Body>, ev: seq<Event>, es: seq<Event>)
    requires Serves(id, q, es) && id in lines
    requires ReadsSeeHead(ev)
    requires forall i :: i in lines && i != id ==> TakenFrom(i, ev) + lines[i] == PutInto(i, ev)
    requires TakenFrom(id, ev) + q == PutInto(id, ev)
    requires forall i :: TakenFrom(i, ev) <= PutInto(i, ev)
    ensures Conserved(lines[id := Left(q, es)], ev + es)
    ensures ReadsSeeHead(ev + es)
  {
    hide PutInto, TakenFrom, ReadsSeeHead, Serves, Left;
    Served(id, ev, q, es);
    ServesAnswers(id, q, es);
    forall i | i != id
      ensures TakenFrom(i, ev + es) == TakenFrom(i, ev) && PutInto(i, ev + es) == PutInto(i, ev)
    {
      Elsewhere(id, i, ev, es);
    }
  }

  lemma HandleKeeps<V>(s: State<V>, rid: nat, op: Op)
    requires Orderly(s)
    ensures Orderly(Handle(s, rid, op))
  {
    hide AskedFor, AnsweredFor, PutInto, TakenFrom, ReadsSeeHead, Queue, Conserved, InOrder, Waiting, WaitingAt, One,
         Serves, Left, Effect, Settled, WaitersOf, AllSettled, Rids;
    if op.id !in s.mVars {
      UnknownKeeps(s, rid, op);
    } else {
      var m := s.mVars[op.id];
      var a := Ask(s, rid, op);
      var (m', es) := Effect(m, rid, op);
      var q := Queue(m) + Added(op);
      var lines := Lines(s);
      forall k
        ensures Rids(k, es) + Waiting(k, m'.waiters) == Waiting(k, m.waiters) + One(op, rid, op.id, k)
      {
        SettledAt(s.mVars, s.nextId, op.id);
        EffectCorrect(m, rid, op, k);
        OneOf(op, rid, k);
      }
      SettledAt(s.mVars, s.nextId, op.id);
      EffectCorrect(m, rid, op, ReadKind);
      SettledUpdate(s.mVars, s.nextId, op.id, m');
      AskKeeps(s, rid, op);
      ServesAnswers(op.id, q, es);
      ServedInOrder(s.mVars, m', rid, op, a.events, es);
      ServedConserves(lines, op.id, q, a.events, es);
      var b := a.(mVars := s.mVars[op.id := m']);
      RespondAllFrame(b, es);
      var r := RespondAll(b, es);
      assert Lines(r) == lines[op.id := Left(q, es)];
    }
  }

  lemma SettledAt(mVars: map<nat, MVar>, nextId: nat, id: nat)
    requires AllSettled(mVars, nextId) && id in mVars
    ensures Settled(mVars[id]) && WaitersOf(id, mVars[id].waiters)
  {
  }

  lemma SettledUpdate(mVars: map<nat, MVar>, nextId: nat, id: nat, m: MVar)
    requires AllSettled(mVars, nextId) && id in mVars && Settled(m) && WaitersOf(id, m.waiters)
    ensures AllSettled(mVars[id := m], nextId)
  {
    hide Settled, WaitersOf;
  }

  lemma OneOf(op: Op, rid: nat, k: Kind)
    ensures One(op, rid, op.id, k) == if KindOf(op) == k then [rid] else []
  {
  }

  lemma CreateConserves(lines: map<nat, seq<Body>>, id: nat, es: seq<Event>)
    requires Conserved(lines, es) && id !in lines
    ensures Conserved(lines[id := []], es + [Created(id)])
  {
    hide PutInto, TakenFrom;
    forall i
      ensures PutInto(i, es + [Created(id)]) == (if i == id then [] else PutInto(i, es))
      ensures TakenFrom(i, es + [Created(id)]) == (if i == id then [] else TakenFrom(i, es))
    {
      AppendValues(i, es, Created(id));
      assert PutInto(i, es) + [] == PutInto(i, es) && TakenFrom(i, es) + [] == TakenFrom(i, es);
    }
  }

  lemma CreateInOrder(mVars: map<nat, MVar>, id: nat, es: seq<Event>)
    requires InOrder(mVars, es) && id !in mVars
    ensures InOrder(mVars[id := MVar(None, [])], es + [Created(id)])
  {
    hide AskedFor, AnsweredFor, WaitingAt;
    forall i, k
      ensures AnsweredFor(k, i, es + [Created(id)]) + WaitingAt(mVars[id := MVar(None, [])], i, k) ==
              AskedFor(k, i, es + [Created(id)])
    {
      AppendCounts(k, i, es, Created(id));
      NobodyWaits(mVars, id, i, k);
      assert AnsweredFor(k, i, es) + WaitingAt(mVars, i, k) == AskedFor(k, i, es);
    }
  }

  lemma NobodyWaits(mVars: map<nat, MVar>, id: nat, i: nat, k: Kind)
    requires id !in mVars
    ensures WaitingAt(mVars[id := MVar(None, [])], i, k) == WaitingAt(mVars, i, k)
  {
  }

  lemma NewSettled(id: nat)
    ensures Settled(MVar(None, [])) && WaitersOf(id, []) && Queue(MVar(None, [])) == []
  {
  }

  lemma CreateSettled(mVars: map<nat, MVar>, nextId: nat)
    requires AllSettled(mVars, nextId)
    ensures nextId + 1 !in mVars && AllSettled(mVars[nextId + 1 := MVar(None, [])], nextId + 1)
  {
    hide Settled, WaitersOf;
    NewSettled(nextId + 1);
  }

  lemma NewHistory(id: nat, es: seq<Event>)
    ensures PutInto(id, es + [Created(id)]) == TakenFrom(id, es + [Created(id)]) == []
  {
    AppendValues(id, es, Created(id));
  }

  lemma CreateKeeps<V>(s: State<V>)
    requires Orderly(s)
    ensures Orderly(Create(s))
    ensures var id, r := s.nextId + 1, Create(s);
            && id !in s.mVars && r.mVars == s.mVars[id := MVar(None, [])]
            && PutInto(id, r.events) == TakenFrom(id, r.events) == []
  {
    hide PutInto, TakenFrom, AllSettled, Queue, Conserved, InOrder, ReadsSeeHead, WaitersOf, Settled;
    var id := s.nextId + 1;
    NewHistory(id, s.events);
    NewSettled(id);
    CreateSettled(s.mVars, s.nextId);
    SeesHeadAppend(s.events, Created(id));
    CreateConserves(Lines(s), id, s.events);
    CreateInOrder(s.mVars, id, s.events);
    assert Lines(Create(s)) == Lines(s)[id := []];
  }

  lemma DropKeeps<V>(s: State<V>, id: nat)
    requires Orderly(s)
    ensures Orderly(DropMVar(s, id))
    ensures DropMVar(s, id).mVars == s.mVars - {id}
    ensures DropMVar(s, id).events == s.events + (if id in s.mVars then Refusals(s.mVars[id].waiters) else [])
  {
    hide AskedFor, AnsweredFor, PutInto, TakenFrom, ReadsSeeHead, Queue, Waiting, Settled, WaitersOf, Refusals;
    if id in s.mVars {
      var m := s.mVars[id];
      var es := Refusals(m.waiters);
      var b := s.(mVars := s.mVars - {id});
      var c := ReleaseAll(b, Queue(m));
      RefusalsAnswer(ReadKind, id, m.waiters);
      ReleaseAllFrame(b, Queue(m));
      RespondAllFrame(c, es);
      ValuelessAnswers(id, s.events, es);
      forall i {
        ValuelessAnswers(i, s.events, es);
      }
      forall i, k
        ensures AnsweredFor(k, i, s.events + es) + WaitingAt(b.mVars, i, k) == AskedFor(k, i, s.events + es)
      {
        RefusalsAnswer(k, id, m.waiters);
        CountAnswers(k, id, i, s.events, es);
        assert AnsweredFor(k, i, s.events) + WaitingAt(s.mVars, i, k) == AskedFor(k, i, s.events);
      }
      assert Lines(b) == Lines(s) - {id};
    }
  }

  lemma StepKeeps<V>(s: State<V>, c: Command<V>)
    requires Orderly(s)
    ensures Orderly(Step(s, c))
  {
    hide Handle, Create, DropMVar, Conserved, AllSettled, ReadsSeeHead, InOrder;
    match c
    case New => CreateKeeps(s);
    case Request(rid, op) => HandleKeeps(s, rid, op);
    case Drop(id) => DropKeeps(s, id);
    case Stash(v) => assert Lines(StashValue(s, v)) == Lines(s);
  }

  lemma StartKeeps<V>()
    ensures Orderly(Start<V>())
  {
    forall id, k
      ensures AnsweredFor(k, id, []) == [] && AskedFor(k, id, []) == [] && PutInto(id, []) == []
              && TakenFrom(id, []) == []
    {
    }
  }

  /** Over every run of requests: every MVar is settled, is a first-in first-out queue, and
      answers each request once. */
  lemma {:induction false} EveryRun<V>(cs: seq<Command<V>>)
    ensures Orderly(Run(cs))
  {
    hide Orderly, Step;
    if cs == [] {
      StartKeeps<V>();
    } else {
      EveryRun(cs[..|cs| - 1]);
      StepKeeps(Run(cs[..|cs| - 1]), cs[|cs| - 1]);
    }
  }

  // ----- what the answers are -----

  /** A read or take is answered with a value, a put with none, unless the request was refused. */
  ghost predicate Fits(e: Event) {
    e.Answered? ==> if e.op.Put? then !e.a.Value? else e.a != Unit
  }

  ghost predicate AllFit(es: seq<Event>) {
    forall e :: e in es ==> Fits(e)
  }

  lemma {:induction false} ServesFit(id: nat, q: seq<Body>, es: seq<Event>)
    requires Serves(id, q, es)
    ensures forall e :: e in es ==> Fits(e) && e.Answered? && e.a != UnknownMVar && e.a != WasDropped
    decreases es
  {
    if es != [] {
      ServesFit(id, if es[0].a.Value? && es[0].op.Take? then q[1..] else q, es[1..]);
      assert es == [es[0]] + es[1..];
    }
  }

  /** What a request adds to the history: itself, and a refusal if its MVar is not known; if it
      is, answers that refuse nobody. */
  lemma HandleAnswers<V>(s: State<V>, rid: nat, op: Op) returns (es: seq<Event>)
    requires Orderly(s)
    ensures Handle(s, rid, op).events == s.events + [Asked(rid, op)] + es
    ensures op.id !in s.mVars ==> es == [Answered(rid, op, UnknownMVar)]
    ensures op.id in s.mVars ==> forall e :: e in es ==> e.Answered? && e.a != UnknownMVar && e.a != WasDropped
    ensures AllFit(es)
  {
    hide Effect, RespondAll, Serves, Queue, Wake;
    if op.id !in s.mVars {
      es := [Answered(rid, op, UnknownMVar)];
    } else {
      var (m', es') := Effect(s.mVars[op.id], rid, op);
      es := es';
      SettledAt(s.mVars, s.nextId, op.id);
      EffectCorrect(s.mVars[op.id], rid, op, ReadKind);
      ServesFit(op.id, Queue(s.mVars[op.id]) + Added(op), es);
      RespondAllFrame(Ask(s, rid, op).(mVars := s.mVars[op.id := m']), es);
    }
  }

  /** A drop refuses each waiter and answers nobody else. */
  lemma DropAnswers<V>(s: State<V>, id: nat)
    requires Orderly(s)
    ensures DropMVar(s, id).events == s.events + (if id in s.mVars then Refusals(s.mVars[id].waiters) else [])
    ensures id in s.mVars ==> forall e :: e in Refusals(s.mVars[id].waiters) ==> e.Answered? && e.a == WasDropped
  {
    hide Queue, Refusals, RespondAll, ReleaseAll;
    if id in s.mVars {
      var b := s.(mVars := s.mVars - {id});
      SettledAt(s.mVars, s.nextId, id);
      RefusalsAnswer(ReadKind, id, s.mVars[id].waiters);
      ReleaseAllFrame(b, Queue(s.mVars[id]));
      RespondAllFrame(ReleaseAll(b, Queue(s.mVars[id])), Refusals(s.mVars[id].waiters));
    }
  }

  lemma {:induction false} AnswersFit<V>(cs: seq<Command<V>>)
    ensures AllFit(Run(cs).events)
  {
    hide Orderly, Handle, DropMVar;
    if cs != [] {
      var s, c := Run(cs[..|cs| - 1]), cs[|cs| - 1];
      EveryRun(cs[..|cs| - 1]);
      AnswersFit(cs[..|cs| - 1]);
      match c
      case New =>
      case Request(rid, op) =>
        var es := HandleAnswers(s, rid, op);
      case Drop(id) =>
        DropAnswers(s, id);
      case Stash(_) =>
    }
  }

  // ----- the history is that of the commands -----

  /** How many MVars were created. */
  function News<V>(cs: seq<Command<V>>): nat {
    if cs == [] then 0 else News(cs[..|cs| - 1]) + (if cs[|cs| - 1].New? then 1 else 0)
  }

  /** The MVars created and not dropped. */
  function Live<V>(cs: seq<Command<V>>): set<nat> {
    if cs == [] then {}
    else
      var c, before := cs[|cs| - 1], Live(cs[..|cs| - 1]);
      match c
      case New => before + {News(cs)}
      case Drop(id) => before - {id}
      case _ => before
  }

  /** What the commands enter into the history: MVars, numbered as they are created, requests,
      and the refusals of those that name no live MVar. */
  function Entries<V>(cs: seq<Command<V>>): seq<Event> {
    if cs == [] then []
    else
      var c, before := cs[|cs| - 1], cs[..|cs| - 1];
      Entries(before) + match c
                        case New => [Created(News(cs))]
                        case Request(rid, op) =>
                          [Asked(rid, op)] + (if op.id in Live(before) then [] else [Answered(rid, op, UnknownMVar)])
                        case _ => []
  }

  predicate IsEntry(e: Event) {
    e.Answered? ==> e.a == UnknownMVar
  }

  function EntriesIn(es: seq<Event>): seq<Event> {
    if es == [] then [] else EntriesIn(es[..|es| - 1]) + (if IsEntry(es[|es| - 1]) then [es[|es| - 1]] else [])
  }

  lemma EntriesSnoc(es: seq<Event>, e: Event)
    ensures EntriesIn(es + [e]) == EntriesIn(es) + (if IsEntry(e) then [e] else [])
  {
    assert (es + [e])[..|es|] == es;
  }

  lemma {:induction false} NoEntries(es: seq<Event>, more: seq<Event>)
    requires forall e :: e in more ==> !IsEntry(e)
    ensures EntriesIn(es + more) == EntriesIn(es)
  {
    if more == [] {
      assert es + more == es;
    } else {
      var n := |more| - 1;
      NoEntries(es, more[..n]);
      assert es + more == es + more[..n] + [more[n]];
      EntriesSnoc(es + more[..n], more[n]);
    }
  }

  /** Over every run the history holds exactly the MVars created, the requests made, and the
      refusals of those that name no live MVar, in the order of the commands. */
  lemma {:induction false} HistoryOfCommands<V>(cs: seq<Command<V>>)
    ensures EntriesIn(Run(cs).events) == Entries(cs)
    ensures Run(cs).nextId == News(cs) && Run(cs).mVars.Keys == Live(cs)
  {
    hide Orderly, Step, IsEntry;
    if cs != [] {
      var before, c := cs[..|cs| - 1], cs[|cs| - 1];
      HistoryOfCommands(before);
      EveryRun(before);
      StepEntries(Run(before), c);
    }
  }

  lemma StepEntries<V>(s: State<V>, c: Command<V>)
    requires Orderly(s)
    ensures var r := Step(s, c);
            match c
            case New =>
              && r.nextId == s.nextId + 1 && r.mVars.Keys == s.mVars.Keys + {r.nextId}
              && EntriesIn(r.events) == EntriesIn(s.events) + [Created(r.nextId)]
            case Request(rid, op) =>
              && r.nextId == s.nextId && r.mVars.Keys == s.mVars.Keys
              && EntriesIn(r.events) ==
                 EntriesIn(s.events) +
                 ([Asked(rid, op)] + (if op.id in s.mVars then [] else [Answered(rid, op, UnknownMVar)]))
            case Drop(id) =>
              r.nextId == s.nextId && r.mVars.Keys == s.mVars.Keys - {id} && EntriesIn(r.events) == EntriesIn(s.events)
            case Stash(_) => r.nextId == s.nextId && r.mVars == s.mVars && r.events == s.events
  {
    hide Orderly, EntriesIn, Effect, RespondAll, ReleaseAll, Refusals, Queue;
    match c
    case New => EntriesSnoc(s.events, Created(s.nextId + 1));
    case Request(rid, op) => RequestEntries(s, rid, op);
    case Drop(id) => DropEntries(s, id);
    case Stash(_) =>
  }

  lemma RequestEntries<V>(s: State<V>, rid: nat, op: Op)
    requires Orderly(s)
    ensures var r := Handle(s, rid, op);
            && r.nextId == s.nextId && r.mVars.Keys == s.mVars.Keys
            && EntriesIn(r.events) ==
               EntriesIn(s.events) +
               ([Asked(rid, op)] + (if op.id in s.mVars then [] else [Answered(rid, op, UnknownMVar)]))
  {
    hide *;
    var es := HandleAnswers(s, rid, op);
    HandleFrame(s, rid, op);
    EntriesSnoc(s.events, Asked(rid, op));
    if op.id in s.mVars {
      NotEntries(es);
      NoEntries(s.events + [Asked(rid, op)], es);
      assert [Asked(rid, op)] + [] == [Asked(rid, op)];
    } else {
      EntriesSnoc(s.events + [Asked(rid, op)], Answered(rid, op, UnknownMVar));
    }
    AreEntries(rid, op);
  }

  lemma AreEntries(rid: nat, op: Op)
    ensures IsEntry(Asked(rid, op)) && IsEntry(Answered(rid, op, UnknownMVar))
  {
  }

  lemma NotEntries(es: seq<Event>)
    requires forall e :: e in es ==> e.Answered? && e.a != UnknownMVar && e.a != WasDropped
    ensures forall e :: e in es ==> !IsEntry(e)
  {
  }

  lemma HandleFrame<V>(s: State<V>, rid: nat, op: Op)
    ensures Handle(s, rid, op).nextId == s.nextId && Handle(s, rid, op).mVars.Keys == s.mVars.Keys
  {
    hide Effect, RespondAll;
    if op.id in s.mVars {
      var (m', es) := Effect(s.mVars[op.id], rid, op);
      RespondAllFrame(Ask(s, rid, op).(mVars := s.mVars[op.id := m']), es);
    }
  }

  lemma DropEntries<V>(s: State<V>, id: nat)
    requires Orderly(s)
    ensures var r := DropMVar(s, id);
            r.nextId == s.nextId && r.mVars.Keys == s.mVars.Keys - {id} && EntriesIn(r.events) == EntriesIn(s.events)
  {
    DropAnswers(s, id);
    DropKeeps(s, id);
    hide Orderly, EntriesIn, RespondAll, ReleaseAll, Refusals, Queue;
    if id in s.mVars {
      var b := s.(mVars := s.mVars - {id});
      ReleaseAllFrame(b, Queue(s.mVars[id]));
      RespondAllFrame(ReleaseAll(b, Queue(s.mVars[id])), Refusals(s.mVars[id].waiters));
      NoEntries(s.events, Refusals(s.mVars[id].waiters));
    }
  }

  // ----- what the invariant says -----

  /** Values come out in the order they went in: the value the next take or read of a live
      MVar meets is the first one put and not yet taken, and a take that must wait finds
      nothing put that was not taken. */
  lemma FirstInFirstOut<V>(s: State<V>, id: nat)
    requires Orderly(s) && id in s.mVars
    ensures var put, taken := PutInto(id, s.events), TakenFrom(id, s.events);
            && taken <= put
            && (s.mVars[id].value.Some? <==> |taken| < |put|)
            && (s.mVars[id].value.Some? ==> s.mVars[id].value.value == put[|taken|])
  {
    hide PutInto, TakenFrom, ReadsSeeHead, InOrder, Waiting;
    if s.mVars[id].value.None? {
      SettledEmpty(s.mVars[id]);
      assert Lines(s)[id] == [];
    } else {
      assert Lines(s)[id][0] == s.mVars[id].value.value;
    }
  }
}
