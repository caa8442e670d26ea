/** Elm tasks: what a task denotes, and the stack machine that steps a process. */
module Tasks {
  import opened Options

  /** `C` are the callbacks of andThen, onError and receive; `B` those of bindings. */
  datatype Task<C, V, B> =
    | Succeed(value: V)
    | Fail(error: V)
    | Binding(start: B)
    | AndThen(callback: C, task: Task<C, V, B>)
    | OnError(callback: C, task: Task<C, V, B>)
    | Receive(callback: C)

  datatype Tag = OnSucceed | OnFail

  datatype Frame<C> = Frame(tag: Tag, callback: C)

  /** A process: its root task (none once killed), its stack (top first) and its mailbox. */
  datatype Machine<C, V, B> = Machine(root: Option<Task<C, V, B>>, stack: seq<Frame<C>>, mailbox: seq<V>)

  /** What applying a callback gives. */
  type Call<!C, !V, !B> = (C, V) -> Task<C, V, B>

  // ----- the machine -----

  /** The frames left once those of the other kind above them are dropped. */
  function Skip<C>(stack: seq<Frame<C>>, tag: Tag): (r: seq<Frame<C>>)
    ensures r != [] ==> r[0].tag == tag
    decreases stack
  {
    if stack == [] || stack[0].tag == tag then stack else Skip(stack[1..], tag)
  }

  /** Only frames of the other kind are dropped, and the frame left on top is of this kind. */
  lemma {:induction false} SkipsOthers<C>(stack: seq<Frame<C>>, tag: Tag)
    ensures var r := Skip(stack, tag);
            && |r| <= |stack| && r == stack[|stack| - |r|..]
            && (forall i :: 0 <= i < |stack| - |r| ==> stack[i].tag != tag)
            && (r != [] ==> r[0].tag == tag)
    decreases stack
  {
    if stack != [] && stack[0].tag != tag {
      SkipsOthers(stack[1..], tag);
    }
  }

  datatype Turn<C, V, B> = Next(m: Machine<C, V, B>) | Stop(m: Machine<C, V, B>)

  predicate IsResult<C, V, B>(t: Task<C, V, B>) {
    t.Succeed? || t.Fail?
  }

  function ResultValue<C, V, B>(t: Task<C, V, B>): V
    requires IsResult(t)
  {
    if t.Succeed? then t.value else t.error
  }

  function ResultTag<C, V, B>(t: Task<C, V, B>): Tag {
    if t.Succeed? then OnSucceed else OnFail
  }

  /** One turn of the loop that steps a process. */
  function Iterate<C, V, B>(call: Call<C, V, B>, m: Machine<C, V, B>): Turn<C, V, B> {
    if m.root.None? then Stop(m)
    else
      match m.root.value
      case Binding(_) => Stop(m)
      case Receive(cb) =>
        if m.mailbox == [] then Stop(m)
        else Next(Machine(Some(call(cb, m.mailbox[0])), m.stack, m.mailbox[1..]))
      case AndThen(cb, t) => Next(Machine(Some(t), [Frame(OnSucceed, cb)] + m.stack, m.mailbox))
      case OnError(cb, t) => Next(Machine(Some(t), [Frame(OnFail, cb)] + m.stack, m.mailbox))
      case _ =>
        var rest := Skip(m.stack, ResultTag(m.root.value));
        if rest == [] then Stop(m.(stack := []))
        else Next(Machine(Some(call(rest[0].callback, ResultValue(m.root.value))), rest[1..], m.mailbox))
  }

  /** The machine once its loop has stopped, if it stops within `n` turns. */
  function Run<C, V, B>(call: Call<C, V, B>, m: Machine<C, V, B>, n: nat): Option<Machine<C, V, B>>
    decreases n
  {
    if n == 0 then None
    else
      match Iterate(call, m)
      case Stop(m') => Some(m')
      case Next(m') => Run(call, m', n - 1)
  }

  // ----- what a task denotes -----

  /** A task runs to a result; or it waits, at a binding or for a message, with what is to be
      done after. */
  datatype Outcome<C, V, B> =
    | Done(result: Task<C, V, B>, mailbox: seq<V>)
    | Waits(at: Task<C, V, B>, after: seq<Frame<C>>, mailbox: seq<V>)

  function Eval<C, V, B>(call: Call<C, V, B>, t: Task<C, V, B>, mailbox: seq<V>, fuel: nat): Option<Outcome<C, V, B>>
    decreases fuel, 1, t
  {
    match t
    case Succeed(_) => Some(Done(t, mailbox))
    case Fail(_) => Some(Done(t, mailbox))
    case Binding(_) => Some(Waits(t, [], mailbox))
    case Receive(cb) =>
      if mailbox == [] then Some(Waits(t, [], mailbox))
      else if fuel == 0 then None
      else Eval(call, call(cb, mailbox[0]), mailbox[1..], fuel - 1)
    case AndThen(cb, inner) => Continue(call, Eval(call, inner, mailbox, fuel), Frame(OnSucceed, cb), fuel)
    case OnError(cb, inner) => Continue(call, Eval(call, inner, mailbox, fuel), Frame(OnFail, cb), fuel)
  }

  /** What follows an outcome: a callback for that kind of result, or nothing. */
  function Continue<C, V, B>(call: Call<C, V, B>, o: Option<Outcome<C, V, B>>, f: Frame<C>,
      fuel: nat): Option<Outcome<C, V, B>>
    decreases fuel, 0
  {
    if o.None? then None
    else if o.value.Waits? then Some(o.value.(after := o.value.after + [f]))
    else
      match (f.tag, o.value.result)
      case (OnSucceed, Succeed(v)) =>
        if fuel == 0 then None else Eval(call, call(f.callback, v), o.value.mailbox, fuel - 1)
      case (OnFail, Fail(e)) =>
        if fuel == 0 then None else Eval(call, call(f.callback, e), o.value.mailbox, fuel - 1)
      case _ => o
  }

  /** The outcome of a task and then of the frames of a stack, top first. */
  function Resume<C, V, B>(call: Call<C, V, B>, o: Option<Outcome<C, V, B>>, stack: seq<Frame<C>>,
      fuel: nat): Option<Outcome<C, V, B>>
    decreases stack
  {
    if stack == [] then o else Resume(call, Continue(call, o, stack[0], fuel), stack[1..], fuel)
  }

  function Denotes<C, V, B>(call: Call<C, V, B>, m: Machine<C, V, B>, fuel: nat): Option<Outcome<C, V, B>>
    requires m.root.Some?
  {
    Resume(call, Eval(call, m.root.value, m.mailbox, fuel), m.stack, fuel)
  }

  /** The machine that stands for an outcome. */
  function Final<C, V, B>(o: Outcome<C, V, B>): Machine<C, V, B> {
    match o
    case Done(r, mailbox) => Machine(Some(r), [], mailbox)
    case Waits(t, after, mailbox) => Machine(Some(t), after, mailbox)
  }

  // ----- fuel -----

  lemma {:induction false} EvalMore<C, V, B>(call: Call<C, V, B>, t: Task<C, V, B>, mailbox: seq<V>, fuel: nat,
      more: nat)
    requires fuel <= more && Eval(call, t, mailbox, fuel).Some?
    ensures Eval(call, t, mailbox, more) == Eval(call, t, mailbox, fuel)
    decreases fuel, 1, t
  {
    match t
    case Receive(cb) =>
      if mailbox != [] {
        EvalMore(call, call(cb, mailbox[0]), mailbox[1..], fuel - 1, more - 1);
      }
    case AndThen(cb, inner) =>
      EvalMore(call, inner, mailbox, fuel, more);
      ContinueMore(call, Eval(call, inner, mailbox, fuel), Frame(OnSucceed, cb), fuel, more);
    case OnError(cb, inner) =>
      EvalMore(call, inner, mailbox, fuel, more);
      ContinueMore(call, Eval(call, inner, mailbox, fuel), Frame(OnFail, cb), fuel, more);
    case _ =>
  }

  lemma {:induction false} ContinueMore<C, V, B>(call: Call<C, V, B>, o: Option<Outcome<C, V, B>>, f: Frame<C>,
      fuel: nat, more: nat)
    requires fuel <= more && Continue(call, o, f, fuel).Some?
    ensures Continue(call, o, f, more) == Continue(call, o, f, fuel)
    decreases fuel, 0
  {
    if o.value.Done? && IsResult(o.value.result) && ResultTag(o.value.result) == f.tag {
      EvalMore(call, call(f.callback, ResultValue(o.value.result)), o.value.mailbox, fuel - 1, more - 1);
    }
  }

  lemma {:induction false} ResumeMore<C, V, B>(call: Call<C, V, B>, o: Option<Outcome<C, V, B>>, stack: seq<Frame<C>>,
      fuel: nat, more: nat)
    requires fuel <= more && Resume(call, o, stack, fuel).Some?
    ensures Resume(call, o, stack, more) == Resume(call, o, stack, fuel)
    decreases stack
  {
    if stack != [] {
      var o' := Continue(call, o, stack[0], fuel);
      if o'.None? {
        ResumeNone(call, stack[1..], fuel);
      } else {
        ContinueMore(call, o, stack[0], fuel, more);
        ResumeMore(call, o', stack[1..], fuel, more);
      }
    }
  }

  lemma {:induction false} ResumeNone<C, V, B>(call: Call<C, V, B>, stack: seq<Frame<C>>, fuel: nat)
    ensures Resume(call, None, stack, fuel) == None
    decreases stack
  {
    if stack != [] {
      ResumeNone(call, stack[1..], fuel);
    }
  }

  lemma DenotesMore<C, V, B>(call: Call<C, V, B>, m: Machine<C, V, B>, fuel: nat, more: nat)
    requires m.root.Some? && fuel <= more && Denotes(call, m, fuel).Some?
    ensures Denotes(call, m, more) == Denotes(call, m, fuel)
  {
    var o := Eval(call, m.root.value, m.mailbox, fuel);
    if o.None? {
      ResumeNone(call, m.stack, fuel);
    } else {
      EvalMore(call, m.root.value, m.mailbox, fuel, more);
      ResumeMore(call, o, m.stack, fuel, more);
    }
  }

  // ----- each turn keeps what the machine denotes -----

  /** A result passes by the frames of the other kind. */
  lemma {:induction false} ResumeSkips<C, V, B>(call: Call<C, V, B>, r: Task<C, V, B>, mailbox: seq<V>,
      stack: seq<Frame<C>>, fuel: nat)
    requires IsResult(r)
    ensures Resume(call, Some(Done(r, mailbox)), stack, fuel) ==
            Resume(call, Some(Done(r, mailbox)), Skip(stack, ResultTag(r)), fuel)
    decreases stack
  {
    if stack != [] && stack[0].tag != ResultTag(r) {
      ResumeSkips(call, r, mailbox, stack[1..], fuel);
    }
  }

  /** A waiting task keeps all the frames. */
  lemma {:induction false} ResumeWaits<C, V, B>(call: Call<C, V, B>, t: Task<C, V, B>, after: seq<Frame<C>>,
      mailbox: seq<V>, stack: seq<Frame<C>>, fuel: nat)
    ensures Resume(call, Some(Waits(t, after, mailbox)), stack, fuel) == Some(Waits(t, after + stack, mailbox))
    decreases stack
  {
    if stack == [] {
      assert after + stack == after;
    } else {
      ResumeWaits(call, t, after + [stack[0]], mailbox, stack[1..], fuel);
      assert after + [stack[0]] + stack[1..] == after + stack;
    }
  }

  /** A turn that goes on leaves what the machine denotes. */
  lemma TurnKeeps<C, V, B>(call: Call<C, V, B>, m: Machine<C, V, B>, fuel: nat)
    requires m.root.Some? && Iterate(call, m).Next? && Denotes(call, Iterate(call, m).m, fuel).Some?
    ensures Iterate(call, m).m.root.Some?
    ensures Denotes(call, m, fuel + 1) == Denotes(call, Iterate(call, m).m, fuel)
  {
    var m' := Iterate(call, m).m;
    DenotesMore(call, m', fuel, fuel + 1);
    match m.root.value
    case Receive(cb) =>
      if Eval(call, m'.root.value, m'.mailbox, fuel).None? {
        ResumeNone(call, m'.stack, fuel);
      } else {
        ResumeMore(call, Eval(call, m'.root.value, m'.mailbox, fuel), m'.stack, fuel, fuel + 1);
      }
    case AndThen(cb, t) =>
      assert m'.stack[1..] == m.stack;
    case OnError(cb, t) =>
      assert m'.stack[1..] == m.stack;
    case Succeed(_) => ResultTurn(call, m, fuel);
    case Fail(_) => ResultTurn(call, m, fuel);
    case Binding(_) =>
  }

  lemma ResultTurn<C, V, B>(call: Call<C, V, B>, m: Machine<C, V, B>, fuel: nat)
    requires m.root.Some? && IsResult(m.root.value)
    requires Iterate(call, m).Next? && Denotes(call, Iterate(call, m).m, fuel).Some?
    ensures Denotes(call, m, fuel + 1) == Denotes(call, Iterate(call, m).m, fuel)
  {
    var m' := Iterate(call, m).m;
    ResumeSkips(call, m.root.value, m.mailbox, m.stack, fuel + 1);
    if Eval(call, m'.root.value, m'.mailbox, fuel).None? {
      ResumeNone(call, m'.stack, fuel);
    } else {
      ResumeMore(call, Eval(call, m'.root.value, m'.mailbox, fuel), m'.stack, fuel, fuel + 1);
    }
  }

  /** A turn that stops stops at what the machine denotes. */
  lemma StopDenotes<C, V, B>(call: Call<C, V, B>, m: Machine<C, V, B>)
    requires m.root.Some? && Iterate(call, m).Stop?
    ensures Denotes(call, m, 0).Some? && Final(Denotes(call, m, 0).value) == Iterate(call, m).m
  {
    match m.root.value
    case Binding(_) =>
      ResumeWaits(call, m.root.value, [], m.mailbox, m.stack, 0);
      assert [] + m.stack == m.stack;
    case Receive(_) =>
      ResumeWaits(call, m.root.value, [], m.mailbox, m.stack, 0);
      assert [] + m.stack == m.stack;
    case AndThen(_, _) =>
    case OnError(_, _) =>
    case _ =>
      ResumeSkips(call, m.root.value, m.mailbox, m.stack, 0);
  }

  /** A machine that stops has stopped at what it denoted when it started. */
  lemma {:induction false} RunDenotes<C, V, B>(call: Call<C, V, B>, m: Machine<C, V, B>, n: nat) returns (fuel: nat)
    requires m.root.Some? && Run(call, m, n).Some?
    ensures Denotes(call, m, fuel).Some? && Final(Denotes(call, m, fuel).value) == Run(call, m, n).value
    decreases n
  {
    match Iterate(call, m)
    case Stop(_) =>
      StopDenotes(call, m);
      fuel := 0;
    case Next(m') =>
      fuel := RunDenotes(call, m', n - 1);
      TurnKeeps(call, m, fuel);
      fuel := fuel + 1;
  }

  // ----- what is denoted is reached -----

  /** The machine in which outcome `o` is the root, above `stack`. */
  function After<C, V, B>(o: Outcome<C, V, B>, stack: seq<Frame<C>>): Machine<C, V, B> {
    match o
    case Done(r, mailbox) => Machine(Some(r), stack, mailbox)
    case Waits(t, after, mailbox) => Machine(Some(t), after + stack, mailbox)
  }

  /** An outcome is a result, or really waits. */
  predicate Proper<C, V, B>(o: Outcome<C, V, B>) {
    if o.Done? then IsResult(o.result) else o.at.Binding? || (o.at.Receive? && o.mailbox == [])
  }

  lemma {:induction false} EvalProper<C, V, B>(call: Call<C, V, B>, t: Task<C, V, B>, mailbox: seq<V>, fuel: nat)
    requires Eval(call, t, mailbox, fuel).Some?
    ensures Proper(Eval(call, t, mailbox, fuel).value)
    decreases fuel, 1, t
  {
    match t
    case Receive(cb) =>
      if mailbox != [] {
        EvalProper(call, call(cb, mailbox[0]), mailbox[1..], fuel - 1);
      }
    case AndThen(cb, inner) =>
      EvalProper(call, inner, mailbox, fuel);
      ContinueProper(call, Eval(call, inner, mailbox, fuel).value, Frame(OnSucceed, cb), fuel);
    case OnError(cb, inner) =>
      EvalProper(call, inner, mailbox, fuel);
      ContinueProper(call, Eval(call, inner, mailbox, fuel).value, Frame(OnFail, cb), fuel);
    case _ =>
  }

  lemma {:induction false} ContinueProper<C, V, B>(call: Call<C, V, B>, o: Outcome<C, V, B>, f: Frame<C>, fuel: nat)
    requires Proper(o) && Continue(call, Some(o), f, fuel).Some?
    ensures Proper(Continue(call, Some(o), f, fuel).value)
    decreases fuel, 0
  {
    if o.Done? && ResultTag(o.result) == f.tag {
      EvalProper(call, call(f.callback, ResultValue(o.result)), o.mailbox, fuel - 1);
    }
  }

  /** A frame above the stack passes a result on, or is passed by. */
  lemma FrameTurn<C, V, B>(call: Call<C, V, B>, r: Task<C, V, B>, f: Frame<C>, stack: seq<Frame<C>>, mailbox: seq<V>,
      n: nat)
    requires IsResult(r)
    ensures var m := Machine(Some(r), [f] + stack, mailbox);
            && (ResultTag(r) != f.tag ==> Run(call, m, n) == Run(call, Machine(Some(r), stack, mailbox), n))
            && (ResultTag(r) == f.tag ==>
                  Run(call, m, n + 1) == Run(call, Machine(Some(call(f.callback, ResultValue(r))), stack, mailbox), n))
  {
    assert ([f] + stack)[1..] == stack;
  }

  /** The machine works a task off to its outcome, above any stack, and goes on from there. */
  lemma {:induction false} EvalRuns<C, V, B>(call: Call<C, V, B>, t: Task<C, V, B>, stack: seq<Frame<C>>,
      mailbox: seq<V>, fuel: nat, k: nat) returns (n: nat)
    requires Eval(call, t, mailbox, fuel).Some?
    ensures Run(call, Machine(Some(t), stack, mailbox), n) ==
            Run(call, After(Eval(call, t, mailbox, fuel).value, stack), k)
    decreases fuel, 1, t, 0
  {
    match t
    case Succeed(_) => n := k;
    case Fail(_) => n := k;
    case Binding(_) =>
      assert [] + stack == stack;
      n := k;
    case Receive(cb) =>
      if mailbox == [] {
        assert [] + stack == stack;
        n := k;
      } else {
        n := EvalRuns(call, call(cb, mailbox[0]), stack, mailbox[1..], fuel - 1, k);
        n := n + 1;
      }
    case AndThen(cb, inner) =>
      n := UnderRuns(call, inner, Frame(OnSucceed, cb), stack, mailbox, fuel, k);
      n := n + 1;
    case OnError(cb, inner) =>
      n := UnderRuns(call, inner, Frame(OnFail, cb), stack, mailbox, fuel, k);
      n := n + 1;
  }

  /** ... and under a frame that was pushed for it. */
  lemma {:induction false} UnderRuns<C, V, B>(call: Call<C, V, B>, inner: Task<C, V, B>, f: Frame<C>,
      stack: seq<Frame<C>>, mailbox: seq<V>, fuel: nat, k: nat) returns (n: nat)
    requires Continue(call, Eval(call, inner, mailbox, fuel), f, fuel).Some?
    ensures Run(call, Machine(Some(inner), [f] + stack, mailbox), n) ==
            Run(call, After(Continue(call, Eval(call, inner, mailbox, fuel), f, fuel).value, stack), k)
    decreases fuel, 1, inner, 1
  {
    var o := Eval(call, inner, mailbox, fuel).value;
    EvalProper(call, inner, mailbox, fuel);
    var k' := k;
    if o.Waits? {
      assert o.after + ([f] + stack) == o.after + [f] + stack;
    } else if ResultTag(o.result) == f.tag {
      k' := EvalRuns(call, call(f.callback, ResultValue(o.result)), stack, o.mailbox, fuel - 1, k);
      FrameTurn(call, o.result, f, stack, o.mailbox, k');
      k' := k' + 1;
    } else {
      FrameTurn(call, o.result, f, stack, o.mailbox, k);
    }
    n := EvalRuns(call, inner, [f] + stack, mailbox, fuel, k');
  }

  lemma {:induction false} ResumeRuns<C, V, B>(call: Call<C, V, B>, o: Outcome<C, V, B>, stack: seq<Frame<C>>,
      fuel: nat) returns (n: nat)
    requires Proper(o) && Resume(call, Some(o), stack, fuel).Some?
    ensures Run(call, After(o, stack), n) == Some(Final(Resume(call, Some(o), stack, fuel).value))
    decreases stack
  {
    if stack == [] {
      n := 1;
      if o.Waits? {
        assert o.after + [] == o.after;
      }
    } else {
      var f, rest := stack[0], stack[1..];
      assert stack == [f] + rest;
      var o' := Continue(call, Some(o), f, fuel);
      if o'.None? {
        ResumeNone(call, rest, fuel);
      }
      ContinueProper(call, o, f, fuel);
      n := ResumeRuns(call, o'.value, rest, fuel);
      if o.Waits? {
        assert o.after + stack == o.after + [f] + rest;
      } else if ResultTag(o.result) == f.tag {
        n := EvalRuns(call, call(f.callback, ResultValue(o.result)), rest, o.mailbox, fuel - 1, n);
        FrameTurn(call, o.result, f, rest, o.mailbox, n);
        n := n + 1;
      } else {
        FrameTurn(call, o.result, f, rest, o.mailbox, n);
      }
    }
  }

  /** A machine reaches what it denotes. */
  lemma DenotedIsReached<C, V, B>(call: Call<C, V, B>, m: Machine<C, V, B>, fuel: nat) returns (n: nat)
    requires m.root.Some? && Denotes(call, m, fuel).Some?
    ensures Run(call, m, n) == Some(Final(Denotes(call, m, fuel).value))
  {
    var o := Eval(call, m.root.value, m.mailbox, fuel);
    if o.None? {
      ResumeNone(call, m.stack, fuel);
    }
    EvalProper(call, m.root.value, m.mailbox, fuel);
    n := ResumeRuns(call, o.value, m.stack, fuel);
    n := EvalRuns(call, m.root.value, m.stack, m.mailbox, fuel, n);
  }

  ghost predicate StopsAt<C, V, B>(call: Call<C, V, B>, m: Machine<C, V, B>, end: Machine<C, V, B>) {
    exists n: nat :: Run(call, m, n) == Some(end)
  }

  ghost predicate Means<C, V, B>(call: Call<C, V, B>, t: Task<C, V, B>, mailbox: seq<V>, o: Outcome<C, V, B>) {
    exists fuel: nat :: Eval(call, t, mailbox, fuel) == Some(o)
  }

  /** A process started on a task stops exactly when the task has an outcome, and stops at it:
      an empty stack below the result, or the waiting task above the frames still to be run. */
  lemma StopsAtItsMeaning<C, V, B>(call: Call<C, V, B>, t: Task<C, V, B>, mailbox: seq<V>, end: Machine<C, V, B>)
    ensures StopsAt(call, Machine(Some(t), [], mailbox), end) <==>
            exists o :: Means(call, t, mailbox, o) && end == Final(o)
  {
    var m := Machine(Some(t), [], mailbox);
    if StopsAt(call, m, end) {
      var n: nat :| Run(call, m, n) == Some(end);
      var fuel := RunDenotes(call, m, n);
      var o := Eval(call, t, mailbox, fuel).value;
      assert Means(call, t, mailbox, o) && end == Final(o);
    }
    if exists o :: Means(call, t, mailbox, o) && end == Final(o) {
      var o :| Means(call, t, mailbox, o) && end == Final(o);
      var fuel: nat :| Eval(call, t, mailbox, fuel) == Some(o);
      var n := DenotedIsReached(call, m, fuel);
    }
  }

  /** A task has at most one outcome. */
  lemma OneMeaning<C, V, B>(call: Call<C, V, B>, t: Task<C, V, B>, mailbox: seq<V>, o: Outcome<C, V, B>,
      o': Outcome<C, V, B>)
    requires Means(call, t, mailbox, o) && Means(call, t, mailbox, o')
    ensures o == o'
  {
    var fuel: nat :| Eval(call, t, mailbox, fuel) == Some(o);
    var fuel': nat :| Eval(call, t, mailbox, fuel') == Some(o');
    if fuel <= fuel' {
      EvalMore(call, t, mailbox, fuel, fuel');
    } else {
      EvalMore(call, t, mailbox, fuel', fuel);
    }
  }

  // ----- the laws of tasks -----

  /** A result, a binding, and a receive without messages mean themselves; a receive with
      messages means what its callback makes of the first. */
  lemma AtomsMean<C, V, B>(call: Call<C, V, B>, x: V, b: B, cb: C, mailbox: seq<V>, o: Outcome<C, V, B>)
    ensures Means(call, Succeed(x), mailbox, o) <==> o == Done(Succeed(x), mailbox)
    ensures Means(call, Fail(x), mailbox, o) <==> o == Done(Fail(x), mailbox)
    ensures Means(call, Binding(b), mailbox, o) <==> o == Waits(Binding(b), [], mailbox)
    ensures mailbox == [] ==> (Means(call, Receive(cb), mailbox, o) <==> o == Waits(Receive(cb), [], mailbox))
    ensures mailbox != [] ==>
              (Means(call, Receive(cb), mailbox, o) <==> Means(call, call(cb, mailbox[0]), mailbox[1..], o))
  {
    EvalAtoms(call, x, b, mailbox);
    if mailbox == [] {
      assert Eval(call, Receive(cb), mailbox, 0) == Some(Waits(Receive(cb), [], mailbox));
    } else {
      if fuel: nat :| Eval(call, Receive(cb), mailbox, fuel) == Some(o) {
        assert Eval(call, call(cb, mailbox[0]), mailbox[1..], fuel - 1) == Some(o);
      }
      if fuel: nat :| Eval(call, call(cb, mailbox[0]), mailbox[1..], fuel) == Some(o) {
        assert Eval(call, Receive(cb), mailbox, fuel + 1) == Some(o);
      }
    }
  }

  lemma EvalAtoms<C, V, B>(call: Call<C, V, B>, x: V, b: B, mailbox: seq<V>)
    ensures Eval(call, Succeed(x), mailbox, 0) == Some(Done(Succeed(x), mailbox))
    ensures Eval(call, Fail(x), mailbox, 0) == Some(Done(Fail(x), mailbox))
    ensures Eval(call, Binding(b), mailbox, 0) == Some(Waits(Binding(b), [], mailbox))
  {
  }

  /** The outcome `o` of a waiting task, under one more frame. */
  ghost predicate WaitsUnder<C, V, B>(call: Call<C, V, B>, t: Task<C, V, B>, mailbox: seq<V>, f: Frame<C>,
      o: Outcome<C, V, B>) {
    && o.Waits? && o.after != [] && o.after[|o.after| - 1] == f
    && Means(call, t, mailbox, Waits(o.at, o.after[..|o.after| - 1], o.mailbox))
  }

  lemma EvalAndThen<C, V, B>(call: Call<C, V, B>, cb: C, t: Task<C, V, B>, mailbox: seq<V>, fuel: nat)
    ensures Eval(call, AndThen(cb, t), mailbox, fuel) ==
            match Eval(call, t, mailbox, fuel)
            case None => None
            case Some(Waits(at, after, rest)) => Some(Waits(at, after + [Frame(OnSucceed, cb)], rest))
            case Some(Done(r, rest)) =>
              if !r.Succeed? then Some(Done(r, rest))
              else if fuel == 0 then None
              else Eval(call, call(cb, r.value), rest, fuel - 1)
  {
    var o := Eval(call, t, mailbox, fuel);
    assert Eval(call, AndThen(cb, t), mailbox, fuel) == Continue(call, o, Frame(OnSucceed, cb), fuel);
  }

  /** `andThen` goes on from a success with the callback's task, and lets a failure through; a
      task that waits has it still to do. */
  lemma AndThenMeans<C, V, B>(call: Call<C, V, B>, cb: C, t: Task<C, V, B>, mailbox: seq<V>, o: Outcome<C, V, B>)
    ensures Means(call, AndThen(cb, t), mailbox, o) <==>
              || (exists x, rest ::
                    Means(call, t, mailbox, Done(Succeed(x), rest)) && Means(call, call(cb, x), rest, o))
              || (o.Done? && o.result.Fail? && Means(call, t, mailbox, o))
              || WaitsUnder(call, t, mailbox, Frame(OnSucceed, cb), o)
  {
    hide Continue;
    var f := Frame(OnSucceed, cb);
    if Means(call, AndThen(cb, t), mailbox, o) {
      var fuel: nat :| Eval(call, AndThen(cb, t), mailbox, fuel) == Some(o);
      EvalAndThen(call, cb, t, mailbox, fuel);
      var i := Eval(call, t, mailbox, fuel).value;
      EvalProper(call, t, mailbox, fuel);
      hide Eval;
      assert Means(call, t, mailbox, i);
      if i.Waits? {
        assert o.after[..|o.after| - 1] == i.after;
      } else if i.result.Succeed? {
        assert Means(call, call(cb, i.result.value), i.mailbox, o);
      }
    }
    hide Eval;
    if x, rest :| Means(call, t, mailbox, Done(Succeed(x), rest)) && Means(call, call(cb, x), rest, o) {
      var a: nat :| Eval(call, t, mailbox, a) == Some(Done(Succeed(x), rest));
      var b: nat :| Eval(call, call(cb, x), rest, b) == Some(o);
      EvalMore(call, t, mailbox, a, a + b + 1);
      EvalMore(call, call(cb, x), rest, b, a + b);
      EvalAndThen(call, cb, t, mailbox, a + b + 1);
    }
    if o.Done? && o.result.Fail? && Means(call, t, mailbox, o) {
      var a: nat :| Eval(call, t, mailbox, a) == Some(o);
      EvalAndThen(call, cb, t, mailbox, a);
    }
    if WaitsUnder(call, t, mailbox, f, o) {
      var i := Waits(o.at, o.after[..|o.after| - 1], o.mailbox);
      var a: nat :| Eval(call, t, mailbox, a) == Some(i);
      assert i.after + [f] == o.after;
      EvalAndThen(call, cb, t, mailbox, a);
    }
  }

  lemma EvalOnError<C, V, B>(call: Call<C, V, B>, cb: C, t: Task<C, V, B>, mailbox: seq<V>, fuel: nat)
    ensures Eval(call, OnError(cb, t), mailbox, fuel) ==
            match Eval(call, t, mailbox, fuel)
            case None => None
            case Some(Waits(at, after, rest)) => Some(Waits(at, after + [Frame(OnFail, cb)], rest))
            case Some(Done(r, rest)) =>
              if !r.Fail? then Some(Done(r, rest))
              else if fuel == 0 then None
              else Eval(call, call(cb, r.error), rest, fuel - 1)
  {
    var o := Eval(call, t, mailbox, fuel);
    assert Eval(call, OnError(cb, t), mailbox, fuel) == Continue(call, o, Frame(OnFail, cb), fuel);
  }

  /** `onError` goes on from a failure with the callback's task, and lets a success through. */
  lemma OnErrorMeans<C, V, B>(call: Call<C, V, B>, cb: C, t: Task<C, V, B>, mailbox: seq<V>, o: Outcome<C, V, B>)
    ensures Means(call, OnError(cb, t), mailbox, o) <==>
              || (exists x, rest ::
                    Means(call, t, mailbox, Done(Fail(x), rest)) && Means(call, call(cb, x), rest, o))
              || (o.Done? && o.result.Succeed? && Means(call, t, mailbox, o))
              || WaitsUnder(call, t, mailbox, Frame(OnFail, cb), o)
  {
    hide Continue;
    var f := Frame(OnFail, cb);
    if Means(call, OnError(cb, t), mailbox, o) {
      var fuel: nat :| Eval(call, OnError(cb, t), mailbox, fuel) == Some(o);
      EvalOnError(call, cb, t, mailbox, fuel);
      var i := Eval(call, t, mailbox, fuel).value;
      EvalProper(call, t, mailbox, fuel);
      hide Eval;
      assert Means(call, t, mailbox, i);
      if i.Waits? {
        assert o.after[..|o.after| - 1] == i.after;
      } else if i.result.Fail? {
        assert Means(call, call(cb, i.result.error), i.mailbox, o);
      }
    }
    hide Eval;
    if x, rest :| Means(call, t, mailbox, Done(Fail(x), rest)) && Means(call, call(cb, x), rest, o) {
      var a: nat :| Eval(call, t, mailbox, a) == Some(Done(Fail(x), rest));
      var b: nat :| Eval(call, call(cb, x), rest, b) == Some(o);
      EvalMore(call, t, mailbox, a, a + b + 1);
      EvalMore(call, call(cb, x), rest, b, a + b);
      EvalOnError(call, cb, t, mailbox, a + b + 1);
    }
    if o.Done? && o.result.Succeed? && Means(call, t, mailbox, o) {
      var a: nat :| Eval(call, t, mailbox, a) == Some(o);
      EvalOnError(call, cb, t, mailbox, a);
    }
    if WaitsUnder(call, t, mailbox, f, o) {
      var i := Waits(o.at, o.after[..|o.after| - 1], o.mailbox);
      var a: nat :| Eval(call, t, mailbox, a) == Some(i);
      assert i.after + [f] == o.after;
      EvalOnError(call, cb, t, mailbox, a);
    }
  }

  /** A frame on the stack stands for the task that would have pushed it, so that a task that
      waited goes on, once its root is answered, as if the answer had been there from the start. */
  lemma FramesAreTasks<C, V, B>(call: Call<C, V, B>, t: Task<C, V, B>, cb: C, stack: seq<Frame<C>>, mailbox: seq<V>,
      end: Machine<C, V, B>)
    ensures StopsAt(call, Machine(Some(t), [Frame(OnSucceed, cb)] + stack, mailbox), end) <==>
            StopsAt(call, Machine(Some(AndThen(cb, t)), stack, mailbox), end)
    ensures StopsAt(call, Machine(Some(t), [Frame(OnFail, cb)] + stack, mailbox), end) <==>
            StopsAt(call, Machine(Some(OnError(cb, t)), stack, mailbox), end)
  {
    TurnStopsAt(call, Machine(Some(AndThen(cb, t)), stack, mailbox), end);
    TurnStopsAt(call, Machine(Some(OnError(cb, t)), stack, mailbox), end);
  }

  lemma TurnStopsAt<C, V, B>(call: Call<C, V, B>, m: Machine<C, V, B>, end: Machine<C, V, B>)
    requires Iterate(call, m).Next?
    ensures StopsAt(call, m, end) <==> StopsAt(call, Iterate(call, m).m, end)
  {
    hide Iterate;
    if n: nat :| Run(call, m, n) == Some(end) {
      assert Run(call, Iterate(call, m).m, n - 1) == Some(end);
    }
    if n: nat :| Run(call, Iterate(call, m).m, n) == Some(end) {
      assert Run(call, m, n + 1) == Some(end);
    }
  }
}
