/** The handler as it runs: MVar objects updated in place, a wake-up loop over the waiters of
    one, and the map of stashed values. */
module MVarHandler {
  import opened Options
  import opened MVars
  import opened MVarServer

  class Cell {
    var value: Option<Body>
    var waiters: seq<Waiter>

    constructor ()
      ensures Contents() == MVar(None, [])
    {
      value, waiters := None, [];
    }

    function Contents(): MVar
      reads this
    {
      MVar(value, waiters)
    }
  }

  class Handler<V> {
    var mVars: map<nat, Cell>
    var mVarNextId: nat
    var stashedValues: map<nat, V>
    var stashNextId: nat
    ghost var unsent: set<nat>
    ghost var missing: bool
    ghost var events: seq<Event>
    ghost var made: seq<V>
    ghost var decoded: seq<Decoded<V>>

    ghost function Cells(): set<Cell>
      reads this
    {
      set id | id in mVars :: mVars[id]
    }

    /** No two ids share an MVar. */
    ghost predicate Valid()
      reads this
    {
      forall i, j :: i in mVars && j in mVars && i != j ==> mVars[i] != mVars[j]
    }

    ghost function View(): State<V>
      reads this, Cells()
    {
      State(map id | id in mVars :: mVars[id].Contents(), mVarNextId, stashedValues, stashNextId, unsent, missing,
          events, made, decoded)
    }

    constructor ()
      ensures Valid() && View() == Start()
    {
      mVars, mVarNextId, stashedValues, stashNextId := map[], 0, map[], 0;
      unsent, missing, events, made, decoded := {}, false, [], [], [];
    }

    /** A response, and what its decoder does with a token. */
    method Reply(w: Waiter, a: Answer)
      modifies this`stashedValues, this`missing, this`events, this`decoded
      ensures View() == Respond(old(View()), Answered(w.rid, w.op, a))
    {
      events := events + [Answered(w.rid, w.op, a)];
      if a.Value? && a.b.Token? {
        var id := a.b.t;
        if id !in stashedValues {
          missing := true;
        } else {
          decoded := decoded + [Decoded(w.rid, w.op, id, stashedValues[id])];
          if w.op.Take? {
            stashedValues := stashedValues - {id};
          }
        }
      }
    }

    /** Releases the stashed value of `b`, if it is a token. */
    method ReleaseStashed(b: Body)
      modifies this`stashedValues
      ensures View() == Release(old(View()), b)
    {
      if b.Token? {
        stashedValues := stashedValues - {b.t};
      }
    }

    /** Answers the first waiter, if it can be answered. */
    method WakeFirst(ghost id: nat, mvar: Cell) returns (woken: bool)
      requires Valid() && id in mVars && mVars[id] == mvar && mvar.waiters != []
      modifies this`stashedValues, this`missing, this`events, this`decoded, mvar
      ensures woken == Ready(old(mvar.Contents()))
      ensures !woken ==> mvar.Contents() == old(mvar.Contents()) && View() == old(View())
      ensures woken ==>
                && mvar.Contents() == AfterFirst(old(mvar.Contents()))
                && View() == Respond(old(View()).(mVars := old(View()).mVars[id := mvar.Contents()]),
                    FirstAnswer(old(mvar.Contents())))
    {
      hide Wake, Respond;
      var waiter := mvar.waiters[0];
      woken := false;
      match waiter.op
      case Read(_) =>
        if mvar.value.Some? {
          mvar.waiters := mvar.waiters[1..];
          assert View().mVars == old(View()).mVars[id := mvar.Contents()];
          Reply(waiter, Value(mvar.value.value));
          woken := true;
        }
      case Take(_) =>
        if mvar.value.Some? {
          mvar.waiters := mvar.waiters[1..];
          var val := mvar.value.value;
          mvar.value := None;
          assert View().mVars == old(View()).mVars[id := mvar.Contents()];
          Reply(waiter, Value(val));
          woken := true;
        }
      case Put(_, b) =>
        if mvar.value.None? {
          mvar.waiters := mvar.waiters[1..];
          mvar.value := Some(b);
          assert View().mVars == old(View()).mVars[id := mvar.Contents()];
          Reply(waiter, Unit);
          woken := true;
        }
    }

    method WakeUpMVarWaiters(ghost id: nat, mvar: Cell)
      requires Valid() && id in mVars && mVars[id] == mvar
      modifies this`stashedValues, this`missing, this`events, this`decoded, mvar
      ensures var (m', es) := Wake(old(mvar.Contents()));
              View() == RespondAll(old(View()).(mVars := old(View()).mVars[id := m']), es)
    {
      hide Wake, Respond, RespondAll, Finish;
      ghost var m0, start := mvar.Contents(), View();
      Finished(m0, start, id);
      while |mvar.waiters| > 0
        invariant Finish(id, mvar.Contents(), View()) == Finish(id, m0, start)
        decreases |mvar.waiters|
      {
        Turn(id, mvar.Contents(), View());
        var woken := WakeFirst(id, mvar);
        if !woken {
          break;
        }
      }
      Finished(mvar.Contents(), View(), id);
    }

    /** MVar.new. */
    method New() returns (id: nat)
      requires Valid()
      modifies this
      ensures Valid() && View() == Create(old(View())) && id == mVarNextId
    {
      var cell := new Cell();
      mVarNextId := mVarNextId + 1;
      mVars := mVars[mVarNextId := cell];
      id := mVarNextId;
      events := events + [Created(id)];
      assert View().mVars == old(View()).mVars[id := MVar(None, [])];
    }

    /** Records that a request came in. */
    ghost method Receive(rid: nat, op: Op)
      modifies this`events, this`unsent
      ensures View() == MVarServer.Ask(old(View()), rid, op)
    {
      events := events + [Asked(rid, op)];
      unsent := if op.Put? && op.b.Token? then unsent - {op.b.t} else unsent;
    }

    /** MVar.read. */
    method Read(rid: nat, id: nat)
      requires Valid()
      modifies this`stashedValues, this`missing, this`events, this`decoded, this`unsent, Cells()
      ensures Valid() && mVars == old(mVars) && View() == Handle(old(View()), rid, Op.Read(id))
    {
      hide Wake, Respond, RespondAll;
      var op := Op.Read(id);
      Receive(rid, op);
      Direct(old(View()), rid, op);
      if id !in mVars {
        Reply(Waiter(rid, op), UnknownMVar);
      } else {
        var mvar := mVars[id];
        if mvar.value.Some? {
          assert View().mVars[id := View().mVars[id]] == View().mVars;
          Reply(Waiter(rid, op), Value(mvar.value.value));
        } else {
          mvar.waiters := mvar.waiters + [Waiter(rid, op)];
          assert View().mVars == old(View()).mVars[id := mvar.Contents()];
        }
      }
    }

    /** MVar.take. */
    method Take(rid: nat, id: nat)
      requires Valid()
      modifies this`stashedValues, this`missing, this`events, this`decoded, this`unsent, Cells()
      ensures Valid() && mVars == old(mVars) && View() == Handle(old(View()), rid, Op.Take(id))
    {
      hide Wake, Respond, RespondAll;
      var op := Op.Take(id);
      Receive(rid, op);
      Direct(old(View()), rid, op);
      if id !in mVars {
        Reply(Waiter(rid, op), UnknownMVar);
      } else {
        var mvar := mVars[id];
        if mvar.value.Some? {
          var val := mvar.value.value;
          mvar.value := None;
          assert View().mVars == old(View()).mVars[id := mvar.Contents()];
          Reply(Waiter(rid, op), Value(val));
          WakeUpMVarWaiters(id, mvar);
        } else {
          mvar.waiters := mvar.waiters + [Waiter(rid, op)];
          assert View().mVars == old(View()).mVars[id := mvar.Contents()];
        }
      }
    }

    /** MVar.put. */
    method Put(rid: nat, id: nat, body: Body)
      requires Valid()
      modifies this`stashedValues, this`missing, this`events, this`decoded, this`unsent, Cells()
      ensures Valid() && mVars == old(mVars) && View() == Handle(old(View()), rid, Op.Put(id, body))
    {
      hide Wake, Respond, RespondAll;
      var op := Op.Put(id, body);
      Receive(rid, op);
      Direct(old(View()), rid, op);
      if id !in mVars {
        ReleaseStashed(body);
        Reply(Waiter(rid, op), UnknownMVar);
      } else {
        var mvar := mVars[id];
        if mvar.value.None? {
          mvar.value := Some(body);
          assert View().mVars == old(View()).mVars[id := mvar.Contents()];
          Reply(Waiter(rid, op), Unit);
          WakeUpMVarWaiters(id, mvar);
        } else {
          mvar.waiters := mvar.waiters + [Waiter(rid, op)];
          assert View().mVars == old(View()).mVars[id := mvar.Contents()];
        }
      }
    }

    /** MVar.drop: releases what the MVar and the puts waiting on it hold, and refuses the
        waiters. */
    method Drop(id: nat)
      requires Valid()
      modifies this`mVars, this`stashedValues, this`missing, this`events, this`decoded
      ensures Valid() && View() == DropMVar(old(View()), id)
    {
      if id in mVars {
        var dropped := mVars[id];
        mVars := mVars - {id};
        ghost var m, start := dropped.Contents(), View();
        assert start == old(View()).(mVars := old(View()).mVars - {id});
        Released(start, m);
        if dropped.value.Some? {
          ReleaseStashed(dropped.value.value);
        }
        ReleasePuts(dropped);
        Refuse(dropped);
      }
    }

    method ReleasePuts(dropped: Cell)
      modifies this`stashedValues
      ensures View() == ReleaseAll(old(View()), PutBodies(dropped.waiters))
    {
      var ws := dropped.waiters;
      assert ws[0..] == ws;
      for i := 0 to |ws|
        invariant ReleaseAll(View(), PutBodies(ws[i..])) == ReleaseAll(old(View()), PutBodies(ws))
      {
        ReleaseNext(View(), ws[i..]);
        assert ws[i..][1..] == ws[i + 1..];
        if ws[i].op.Put? {
          ReleaseStashed(ws[i].op.b);
        }
      }
    }

    method Refuse(dropped: Cell)
      modifies this`stashedValues, this`missing, this`events, this`decoded
      ensures View() == RespondAll(old(View()), Refusals(dropped.waiters))
    {
      var ws := dropped.waiters;
      assert ws[0..] == ws;
      for i := 0 to |ws|
        invariant dropped.waiters == ws
        invariant RespondAll(View(), Refusals(ws[i..])) == RespondAll(old(View()), Refusals(ws))
      {
        assert ws[i..][1..] == ws[i + 1..];
        RespondFirst(View(), Answered(ws[i].rid, ws[i].op, WasDropped), Refusals(ws[i + 1..]));
        Reply(ws[i], WasDropped);
      }
    }

    /** Stashes a value and returns the id in its token. */
    method Stash(v: V) returns (token: nat)
      modifies this`stashedValues, this`stashNextId, this`unsent, this`made
      ensures View() == StashValue(old(View()), v)
      ensures token == stashNextId % TOKEN_IDS
    {
      stashNextId := stashNextId + 1;
      stashedValues := stashedValues[stashNextId := v];
      token := stashNextId % TOKEN_IDS;
      unsent := unsent + {token} - {0};
      made := made + [v];
    }
  }

  lemma Released<V>(s: State<V>, m: MVar)
    ensures ReleaseAll(s, Queue(m)) == ReleaseAll(if m.value.Some? then Release(s, m.value.value)
            else s, PutBodies(m.waiters))
  {
    if m.value.Some? {
      assert Queue(m)[1..] == PutBodies(m.waiters);
    } else {
      assert Queue(m) == PutBodies(m.waiters);
    }
  }

  lemma ReleaseNext<V>(s: State<V>, ws: seq<Waiter>)
    requires ws != []
    ensures ReleaseAll(s, PutBodies(ws)) ==
            ReleaseAll(if ws[0].op.Put? then Release(s, ws[0].op.b) else s, PutBodies(ws[1..]))
  {
    if ws[0].op.Put? {
      assert PutBodies(ws)[1..] == PutBodies(ws[1..]);
    } else {
      assert PutBodies(ws) == PutBodies(ws[1..]);
    }
  }

  /** A request, step by step: the first response, and then the waiters it wakes. */
  lemma Direct<V>(s: State<V>, rid: nat, op: Op)
    ensures var a := MVarServer.Ask(s, rid, op);
            Handle(s, rid, op) ==
            if op.id !in s.mVars then
              Respond(if op.Put? then Release(a, op.b) else a, Answered(rid, op, UnknownMVar))
            else
              var m := s.mVars[op.id];
              if m.value.Some? && op.Read? then Respond(a, Answered(rid, op, Value(m.value.value)))
              else if m.value.Some? && op.Take? then
                var n := m.(value := None);
                var r := Respond(a.(mVars := a.mVars[op.id := n]), Answered(rid, op, Value(m.value.value)));
                RespondAll(r.(mVars := r.mVars[op.id := Wake(n).0]), Wake(n).1)
              else if m.value.None? && op.Put? then
                var n := m.(value := Some(op.b));
                var r := Respond(a.(mVars := a.mVars[op.id := n]), Answered(rid, op, Unit));
                RespondAll(r.(mVars := r.mVars[op.id := Wake(n).0]), Wake(n).1)
              else a.(mVars := s.mVars[op.id := m.(waiters := m.waiters + [Waiter(rid, op)])])
  {
    hide Wake, Respond, RespondAll;
    if op.id in s.mVars {
      var m := s.mVars[op.id];
      var a := MVarServer.Ask(s, rid, op);
      assert s.mVars[op.id := m] == s.mVars;
      if m.value.Some? && op.Read? {
        RespondFirst(a, Answered(rid, op, Value(m.value.value)), []);
      } else if m.value.Some? && op.Take? {
        AnswerThenWake(a, op.id, m.(value := None), Answered(rid, op, Value(m.value.value)));
      } else if m.value.None? && op.Put? {
        AnswerThenWake(a, op.id, m.(value := Some(op.b)), Answered(rid, op, Unit));
      } else {
        RespondNone(a.(mVars := s.mVars[op.id := m.(waiters := m.waiters + [Waiter(rid, op)])]));
      }
    }
  }

  lemma AnswerThenWake<V>(a: State<V>, id: nat, n: MVar, e: Event)
    ensures var r := Respond(a.(mVars := a.mVars[id := n]), e);
            RespondAll(r.(mVars := r.mVars[id := Wake(n).0]), Wake(n).1) ==
            RespondAll(a.(mVars := a.mVars[id := Wake(n).0]), [e] + Wake(n).1)
  {
    hide Wake, Respond, RespondAll;
    var b := a.(mVars := a.mVars[id := n]);
    Elsewhere(b, e, a.mVars[id := Wake(n).0]);
    assert b.mVars[id := Wake(n).0] == a.mVars[id := Wake(n).0];
    RespondFirst(a.(mVars := a.mVars[id := Wake(n).0]), e, Wake(n).1);
  }

  lemma RespondFirst<V>(s: State<V>, e: Event, es: seq<Event>)
    ensures RespondAll(s, [e] + es) == RespondAll(Respond(s, e), es)
    ensures RespondAll(s, [e]) == Respond(s, e)
  {
    hide Respond;
    assert ([e] + es)[1..] == es;
  }

  lemma RespondNone<V>(s: State<V>)
    ensures RespondAll(s, []) == s
  {
  }

  /** The state once the wake-up loop of `id`, now holding `m`, is through. */
  ghost function Finish<V>(id: nat, m: MVar, v: State<V>): State<V> {
    RespondAll(v.(mVars := v.mVars[id := Wake(m).0]), Wake(m).1)
  }

  /** One turn of the wake-up loop. */
  lemma Turn<V>(id: nat, m: MVar, v: State<V>)
    ensures Ready(m) ==>
              var r := Respond(v.(mVars := v.mVars[id := AfterFirst(m)]), FirstAnswer(m));
              r.mVars == v.mVars[id := AfterFirst(m)] && Finish(id, AfterFirst(m), r) == Finish(id, m, v)
  {
    hide Wake, Respond;
    WakeStep(m);
    if Ready(m) {
      var es := Wake(AfterFirst(m)).1;
      assert ([FirstAnswer(m)] + es)[1..] == es;
      var v' := v.(mVars := v.mVars[id := AfterFirst(m)]);
      Elsewhere(v', FirstAnswer(m), v.mVars[id := Wake(m).0]);
      assert v'.mVars[id := Wake(m).0] == v.mVars[id := Wake(m).0];
    }
  }

  lemma Finished<V>(m: MVar, v: State<V>, id: nat)
    ensures !Ready(m) && id in v.mVars && v.mVars[id] == m ==> Finish(id, m, v) == v
    ensures Finish(id, m, v) == RespondAll(v.(mVars := v.mVars[id := Wake(m).0]), Wake(m).1)
  {
    WakeStep(m);
    if !Ready(m) && id in v.mVars && v.mVars[id] == m {
      assert v.mVars[id := m] == v.mVars;
    }
  }

  /** A response does not depend on the MVars. */
  lemma Elsewhere<V>(v: State<V>, e: Event, mVars: map<nat, MVar>)
    ensures Respond(v, e).mVars == v.mVars
    ensures Respond(v, e).(mVars := mVars) == Respond(v.(mVars := mVars), e)
  {
  }
}
