/** The scheduler's run queue and the queue of effects. Both are drained by the call that finds
    nobody draining, and what runs inside may call back in: the calls in progress are a stack. */
module RunQueue {
  import opened Options
  import opened Tasks

  datatype Mail<V> = Mail(to: nat, msg: V)

  /** What a step is at: its own loop, a callback whose result is to be the root, above the
      frames left then, or the function of the binding it reached. */
  datatype Phase<C, V, B> =
    | Running
    | Calling(root: Task<C, V, B>, stack: seq<Frame<C>>)
    | Started

  /** A call in progress. */
  datatype Activity<C, V, B> =
    | Drain                                // the loop over the run queue
    | Stepping(p: nat, phase: Phase<C, V, B>)
    | FxDrain                              // the loop over the effects queue
    | Dispatching(rest: seq<Mail<V>>)      // a batch of effects, with the mail still to be sent

  datatype System<C, V, B> = System(
    procs: seq<Machine<C, V, B>>,
    started: seq<bool>,            // the process is at a binding that was started
    queue: seq<nat>,
    working: bool,
    effects: seq<seq<Mail<V>>>,
    effectsActive: bool,
    calls: seq<Activity<C, V, B>>,       // innermost last
    enqueued: seq<nat>,            // the processes ever put on the run queue, in order
    dequeued: seq<nat>,            // ... and taken off it
    effectsIn: seq<seq<Mail<V>>>,  // the batches ever put on the effects queue
    effectsOut: seq<seq<Mail<V>>>, // ... and taken off it
    delivered: seq<Mail<V>>,       // the mail of dispatched batches, as it was sent
    sent: seq<seq<V>>,             // the messages ever sent to each process
    received: seq<seq<V>>)         // ... and received by it

  /** What code outside the scheduler may do: event handlers, the bindings that a step starts,
      and what a callback calls, such as the subscribers of an outgoing port. */
  datatype Action<C, V, B> =
    | Spawn(task: Task<C, V, B>)
    | Send(mail: Mail<V>)
    | Answer(p: nat, root: Task<C, V, B>)     // the callback given to a binding
    | Kill(p: nat)
    | Effects(batch: seq<Mail<V>>)
    | Return                                  // a binding's function or a callback ends
    | Advance                                 // the innermost loop goes on

  function Top<C, V, B>(s: System<C, V, B>): Option<Activity<C, V, B>> {
    if s.calls == [] then None else Some(s.calls[|s.calls| - 1])
  }

  predicate OutsideRuns<C(==), V(==), B(==)>(s: System<C, V, B>) {
    s.calls == [] || (Top(s).value.Stepping? && !Top(s).value.phase.Running?)
  }

  predicate Addressed<V>(n: nat, mail: seq<Mail<V>>) {
    forall k :: 0 <= k < |mail| ==> mail[k].to < n
  }

  predicate Enabled<C(==), V(==), B(==)>(s: System<C, V, B>, a: Action<C, V, B>) {
    match a
    case Spawn(_) => OutsideRuns(s)
    case Send(mail) => OutsideRuns(s) && mail.to < |s.procs|
    case Answer(p, _) => OutsideRuns(s) && p < |s.procs|
    case Kill(p) => OutsideRuns(s) && p < |s.procs|
    case Effects(batch) => OutsideRuns(s) && Addressed(|s.procs|, batch)
    case Return => s.calls != [] && OutsideRuns(s)
    case Advance => s.calls != [] && !OutsideRuns(s)
  }

  // ----- the operations -----

  function Pop<C, V, B>(s: System<C, V, B>): System<C, V, B>
    requires s.calls != []
  {
    s.(calls := s.calls[..|s.calls| - 1])
  }

  function Push<C, V, B>(s: System<C, V, B>, c: Activity<C, V, B>): System<C, V, B> {
    s.(calls := s.calls + [c])
  }

  /** Puts a process on the run queue; whoever finds the scheduler idle drains it. */
  function Enqueue<C, V, B>(s: System<C, V, B>, p: nat): System<C, V, B> {
    var s' := s.(queue := s.queue + [p], enqueued := s.enqueued + [p]);
    if s.working then s' else Push(s'.(working := true), Drain)
  }

  function RawSend<C, V, B>(s: System<C, V, B>, mail: Mail<V>): System<C, V, B>
    requires mail.to < |s.procs| && |s.sent| == |s.procs|
  {
    var m := s.procs[mail.to];
    Enqueue(s.(procs := s.procs[mail.to := m.(mailbox := m.mailbox + [mail.msg])],
               sent := s.sent[mail.to := s.sent[mail.to] + [mail.msg]]), mail.to)
  }

  function RawSpawn<C, V, B>(s: System<C, V, B>, task: Task<C, V, B>): System<C, V, B> {
    Enqueue(s.(procs := s.procs + [Machine(Some(task), [], [])], started := s.started + [false], sent := s.sent + [[]],
        received := s.received + [[]]), |s.procs|)
  }

  function SetRoot<C, V, B>(s: System<C, V, B>, p: nat, root: Option<Task<C, V, B>>): System<C, V, B>
    requires p < |s.procs| && |s.started| == |s.procs|
  {
    s.(procs := s.procs[p := s.procs[p].(root := root)], started := s.started[p := false])
  }

  function EnqueueEffects<C, V, B>(s: System<C, V, B>, batch: seq<Mail<V>>): System<C, V, B> {
    var s' := s.(effects := s.effects + [batch], effectsIn := s.effectsIn + [batch]);
    if s.effectsActive then s' else Push(s'.(effectsActive := true), FxDrain)
  }

  predicate AtBinding<C, V, B>(m: Machine<C, V, B>) {
    m.root.Some? && m.root.value.Binding?
  }

  /** The messages received so far, after a turn that may receive the first one waiting. */
  function ReceivedAfter<C, V, B>(received: seq<seq<V>>, p: nat, m: Machine<C, V, B>): seq<seq<V>>
    requires p < |received|
  {
    if m.root.Some? && m.root.value.Receive? && m.mailbox != [] then received[p := received[p] + [m.mailbox[0]]]
        else received
  }

  /** The step of `p` enters a callback, which is to give `root` and leave `stack`. */
  function CallBack<C, V, B>(s: System<C, V, B>, p: nat, during: Machine<C, V, B>, received: seq<seq<V>>,
      root: Task<C, V, B>, stack: seq<Frame<C>>): System<C, V, B>
    requires s.calls != [] && p < |s.procs| && |s.started| == |s.procs|
  {
    Push(Pop(s.(procs := s.procs[p := during], started := s.started[p := false], received := received)),
         Stepping(p, Calling(root, stack)))
  }

  /** One turn of the loop that steps the process of the innermost call. A turn that receives a
      message or passes a result on runs a callback: the message is taken and the frames of the
      other kind are dropped before it, the root and the frames after it. */
  function StepTurn<C, V, B>(call: Call<C, V, B>, s: System<C, V, B>, p: nat): System<C, V, B>
    requires s.calls != [] && p < |s.procs| && |s.received| == |s.procs| && |s.started| == |s.procs|
  {
    var m := s.procs[p];
    match Iterate(call, m)
    case Next(m') =>
      if m.root.value.AndThen? || m.root.value.OnError? then
        s.(procs := s.procs[p := m'], started := s.started[p := false])
      else
        var during := if m.root.value.Receive? then m.(mailbox := m'.mailbox)
                      else m.(stack := Skip(m.stack, ResultTag(m.root.value)));
        CallBack(s, p, during, ReceivedAfter(s.received, p, m), m'.root.value, m'.stack)
    case Stop(m') =>
      var s' := Pop(s.(procs := s.procs[p := m'], started := s.started[p := AtBinding(m')]));
      if AtBinding(m') then Push(s', Stepping(p, Started)) else s'
  }

  /** A binding's function ends, and with it the step; or a callback, and the step goes on with
      its result, whatever happened to the root meanwhile. */
  function ReturnFrom<C, V, B>(s: System<C, V, B>): System<C, V, B>
    requires s.calls != [] && OutsideRuns(s) && Sized(s)
  {
    var c := Top(s).value;
    if c.phase.Started? then Pop(s)
    else
      Push(Pop(s.(procs := s.procs[c.p := s.procs[c.p].(root := Some(c.phase.root), stack := c.phase.stack)],
                  started := s.started[c.p := false])),
           Stepping(c.p, Running))
  }

  function Continue<C, V, B>(call: Call<C, V, B>, s: System<C, V, B>): System<C, V, B>
    requires s.calls != [] && Sized(s)
  {
    match Top(s).value
    case Drain =>
      if s.queue == [] then Pop(s.(working := false))
      else Push(s.(queue := s.queue[1..], dequeued := s.dequeued + [s.queue[0]]), Stepping(s.queue[0], Running))
    case Stepping(p, _) => StepTurn(call, s, p)
    case FxDrain =>
      if s.effects == [] then Pop(s.(effectsActive := false))
      else Push(s.(effects := s.effects[1..], effectsOut := s.effectsOut + [s.effects[0]]), Dispatching(s.effects[0]))
    case Dispatching(rest) =>
      if rest == [] then Pop(s)
      else RawSend(Push(Pop(s), Dispatching(rest[1..])).(delivered := s.delivered + [rest[0]]), rest[0])
  }

  function Next<C(==), V(==), B(==)>(call: Call<C, V, B>, s: System<C, V, B>, a: Action<C, V, B>): System<C, V, B>
    requires Enabled(s, a) && Sized(s)
  {
    match a
    case Spawn(task) => RawSpawn(s, task)
    case Send(mail) => RawSend(s, mail)
    case Answer(p, root) => Enqueue(SetRoot(s, p, Some(root)), p)
    case Kill(p) => SetRoot(s, p, None)
    case Effects(batch) => EnqueueEffects(s, batch)
    case Return => ReturnFrom(s)
    case Advance => Continue(call, s)
  }

  function Idle<C, V, B>(): System<C, V, B> {
    System([], [], [], false, [], false, [], [], [], [], [], [], [], [])
  }

  // ----- the invariant -----

  /** Every process named exists. */
  predicate Sized<C, V, B>(s: System<C, V, B>) {
    && |s.sent| == |s.procs| && |s.received| == |s.procs| && |s.started| == |s.procs|
    && (forall k :: 0 <= k < |s.queue| ==> s.queue[k] < |s.procs|)
    && (forall k :: 0 <= k < |s.effects| ==> Addressed(|s.procs|, s.effects[k]))
    && (forall k :: 0 <= k < |s.calls| ==> CallSized(|s.procs|, s.calls[k]))
  }

  predicate CallSized<C, V, B>(n: nat, c: Activity<C, V, B>) {
    match c
    case Stepping(p, _) => p < n
    case Dispatching(rest) => Addressed(n, rest)
    case _ => true
  }

  /** A loop is in progress exactly when its flag is set, and once; a step is made by the loop
      over the run queue, a dispatch by that over the effects. */
  ghost predicate NotNested<C, V, B>(calls: seq<Activity<C, V, B>>, working: bool, effectsActive: bool) {
    && (working <==> exists i :: 0 <= i < |calls| && calls[i].Drain?)
    && (effectsActive <==> exists i :: 0 <= i < |calls| && calls[i].FxDrain?)
    && (forall i, j :: 0 <= i < |calls| && 0 <= j < |calls| && calls[i].Drain? && calls[j].Drain? ==> i == j)
    && (forall i, j :: 0 <= i < |calls| && 0 <= j < |calls| && calls[i].FxDrain? && calls[j].FxDrain? ==> i == j)
    && (forall i :: 0 <= i < |calls| && calls[i].Stepping? ==> i > 0 && calls[i - 1].Drain?)
    && (forall i :: 0 <= i < |calls| && calls[i].Dispatching? ==> i > 0 && calls[i - 1].FxDrain?)
    && (forall i :: 0 <= i < |calls| && calls[i].Stepping? && calls[i].phase.Running? ==> i == |calls| - 1)
  }

  /** The process can go on without anything from outside. */
  predicate Runnable<C, V, B>(call: Call<C, V, B>, m: Machine<C, V, B>) {
    Iterate(call, m).Next?
  }

  /** The process can go on, or is at a binding that has still to be started. */
  predicate Pending<C, V, B>(call: Call<C, V, B>, m: Machine<C, V, B>, started: bool) {
    Runnable(call, m) || (AtBinding(m) && !started)
  }

  ghost predicate BeingStepped<C, V, B>(calls: seq<Activity<C, V, B>>, p: nat) {
    exists c :: c in calls && c.Stepping? && c.p == p && !c.phase.Started?
  }

  /** A process that can go on, or whose binding nobody has started, is queued or being stepped. */
  ghost predicate NoLostWakeUp<C, V, B>(call: Call<C, V, B>, procs: seq<Machine<C, V, B>>, started: seq<bool>,
      queue: seq<nat>, calls: seq<Activity<C, V, B>>) {
    |started| == |procs| &&
    forall p :: 0 <= p < |procs| && Pending(call, procs[p], started[p]) ==> p in queue || BeingStepped(calls, p)
  }

  function Flat<V>(batches: seq<seq<Mail<V>>>): seq<Mail<V>> {
    if batches == [] then [] else Flat(batches[..|batches| - 1]) + batches[|batches| - 1]
  }

  /** The mail of the batch being dispatched that is still to be sent. */
  function Undelivered<C, V, B>(calls: seq<Activity<C, V, B>>): seq<Mail<V>> {
    if calls == [] then []
    else Undelivered(calls[..|calls| - 1]) + (if calls[|calls| - 1].Dispatching? then calls[|calls| - 1].rest else [])
  }

  ghost predicate InOrder<C, V, B>(s: System<C, V, B>) {
    && s.enqueued == s.dequeued + s.queue
    && s.effectsIn == s.effectsOut + s.effects
    && (|s.sent| == |s.procs| && |s.received| == |s.procs| ==>
          forall p :: 0 <= p < |s.procs| ==> s.sent[p] == s.received[p] + s.procs[p].mailbox)
    && (s.queue != [] ==> s.working)
    && (s.effects != [] ==> s.effectsActive)
  }

  /** Batches are dispatched whole, one after the other. */
  ghost predicate Dispatched<C, V, B>(delivered: seq<Mail<V>>, calls: seq<Activity<C, V, B>>,
      effectsOut: seq<seq<Mail<V>>>) {
    delivered + Undelivered(calls) == Flat(effectsOut)
  }

  ghost predicate Inv<C, V, B>(call: Call<C, V, B>, s: System<C, V, B>) {
    && Sized(s)
    && NotNested(s.calls, s.working, s.effectsActive)
    && NoLostWakeUp(call, s.procs, s.started, s.queue, s.calls)
    && InOrder(s)
    && Dispatched(s.delivered, s.calls, s.effectsOut)
  }

  // ----- each operation keeps it -----

  lemma PushCall<C, V, B>(calls: seq<Activity<C, V, B>>, working: bool, effectsActive: bool, c: Activity<C, V, B>)
    requires NotNested(calls, working, effectsActive)
    requires forall i :: 0 <= i < |calls| && calls[i].Stepping? ==> !calls[i].phase.Running?
    requires c.Drain? ==> !working
    requires c.FxDrain? ==> !effectsActive
    requires c.Stepping? ==> calls != [] && calls[|calls| - 1].Drain?
    requires c.Dispatching? ==> calls != [] && calls[|calls| - 1].FxDrain?
    ensures NotNested(calls + [c], working || c.Drain?, effectsActive || c.FxDrain?)
  {
    var calls' := calls + [c];
    assert forall i :: 0 <= i < |calls| ==> calls'[i] == calls[i];
    if working {
      var i :| 0 <= i < |calls| && calls[i].Drain?;
      assert calls'[i].Drain?;
    }
    if effectsActive {
      var i :| 0 <= i < |calls| && calls[i].FxDrain?;
      assert calls'[i].FxDrain?;
    }
    assert calls'[|calls|] == c;
  }

  lemma PopCall<C, V, B>(calls: seq<Activity<C, V, B>>, working: bool, effectsActive: bool)
    requires NotNested(calls, working, effectsActive) && calls != []
    ensures var c := calls[|calls| - 1];
            NotNested(calls[..|calls| - 1], working && !c.Drain?, effectsActive && !c.FxDrain?)
  {
    var calls' := calls[..|calls| - 1];
    assert forall i :: 0 <= i < |calls'| ==> calls'[i] == calls[i];
    if working && !calls[|calls| - 1].Drain? {
      var i :| 0 <= i < |calls| && calls[i].Drain?;
      assert calls'[i].Drain?;
    }
    if effectsActive && !calls[|calls| - 1].FxDrain? {
      var i :| 0 <= i < |calls| && calls[i].FxDrain?;
      assert calls'[i].FxDrain?;
    }
    if calls[|calls| - 1].Drain? {
      assert forall i :: 0 <= i < |calls'| ==> !calls'[i].Drain?;
    }
    if calls[|calls| - 1].FxDrain? {
      assert forall i :: 0 <= i < |calls'| ==> !calls'[i].FxDrain?;
    }
  }

  lemma UndeliveredPush<C, V, B>(calls: seq<Activity<C, V, B>>, c: Activity<C, V, B>)
    ensures Undelivered(calls + [c]) == Undelivered(calls) + (if c.Dispatching? then c.rest else [])
  {
    assert (calls + [c])[..|calls|] == calls;
  }

  lemma SteppedPush<C, V, B>(calls: seq<Activity<C, V, B>>, c: Activity<C, V, B>, p: nat)
    ensures BeingStepped(calls + [c], p) <==> BeingStepped(calls, p) || (c.Stepping? && c.p == p && !c.phase.Started?)
  {
    var calls' := calls + [c];
    assert forall d :: d in calls' <==> d in calls || d == c;
  }

  ghost predicate NoneRunning<C, V, B>(calls: seq<Activity<C, V, B>>) {
    forall i :: 0 <= i < |calls| && calls[i].Stepping? ==> !calls[i].phase.Running?
  }

  /** The invariant, but that process `p` may be able to go on without being queued. */
  ghost predicate InvBut<C, V, B>(call: Call<C, V, B>, s: System<C, V, B>, p: nat) {
    && Sized(s) && p < |s.procs|
    && NotNested(s.calls, s.working, s.effectsActive)
    && (forall q ::
          0 <= q < |s.procs| && q != p && Pending(call, s.procs[q], s.started[q]) ==>
            q in s.queue || BeingStepped(s.calls, q))
    && InOrder(s)
    && Dispatched(s.delivered, s.calls, s.effectsOut)
  }

  lemma EnqueueKeeps<C, V, B>(call: Call<C, V, B>, s: System<C, V, B>, p: nat)
    requires InvBut(call, s, p) && NoneRunning(s.calls)
    ensures var r := Enqueue(s, p);
            && Inv(call, r) && r.queue == s.queue + [p] && r.working
            && r.calls == s.calls + (if s.working then [] else [Drain])
            && r == s.(queue := r.queue, enqueued := r.enqueued, working := true, calls := r.calls)
  {
    hide NotNested, Pending, Undelivered, Flat, BeingStepped;
    var r := Enqueue(s, p);
    if !s.working {
      forall q {
        SteppedPush(s.calls, Drain, q);
      }
      PushCall(s.calls, s.working, s.effectsActive, Drain);
      UndeliveredPush(s.calls, Drain);
      assert Undelivered(s.calls) + [] == Undelivered(s.calls);
    }
    assert p == r.queue[|s.queue|];
    assert forall q :: q in s.queue ==> q in r.queue;
    assert r.enqueued == r.dequeued + r.queue;
  }

  lemma RawSendKeeps<C, V, B>(call: Call<C, V, B>, s: System<C, V, B>, mail: Mail<V>)
    requires Inv(call, s) && NoneRunning(s.calls) && mail.to < |s.procs|
    ensures var m, r := s.procs[mail.to], RawSend(s, mail);
            && Inv(call, r) && r.procs == s.procs[mail.to := m.(mailbox := m.mailbox + [mail.msg])]
            && r.queue == s.queue + [mail.to] && r.working && r.delivered == s.delivered
            && r.calls == s.calls + (if s.working then [] else [Drain])
  {
    hide NotNested, Iterate, Undelivered, Flat, Enqueue;
    var m := s.procs[mail.to];
    var s' := s.(procs := s.procs[mail.to := m.(mailbox := m.mailbox + [mail.msg])],
                 sent := s.sent[mail.to := s.sent[mail.to] + [mail.msg]]);
    assert s'.sent[mail.to] == s'.received[mail.to] + s'.procs[mail.to].mailbox;
    EnqueueKeeps(call, s', mail.to);
  }

  lemma RawSpawnKeeps<C, V, B>(call: Call<C, V, B>, s: System<C, V, B>, task: Task<C, V, B>)
    requires Inv(call, s) && NoneRunning(s.calls)
    ensures var r := RawSpawn(s, task);
            && Inv(call, r) && r.procs == s.procs + [Machine(Some(task), [], [])]
            && r.queue == s.queue + [|s.procs|] && r.working
  {
    hide NotNested, Iterate, Undelivered, Flat, Enqueue;
    var s' := s.(procs := s.procs + [Machine(Some(task), [], [])], started := s.started + [false],
        sent := s.sent + [[]], received := s.received + [[]]);
    assert forall k :: 0 <= k < |s.calls| ==> CallSized(|s.procs|, s.calls[k]) && CallSized(|s'.procs|, s.calls[k]);
    EnqueueKeeps(call, s', |s.procs|);
  }

  lemma AnswerKeeps<C, V, B>(call: Call<C, V, B>, s: System<C, V, B>, p: nat, root: Task<C, V, B>)
    requires Inv(call, s) && NoneRunning(s.calls) && p < |s.procs|
    ensures var r := Enqueue(SetRoot(s, p, Some(root)), p);
            && Inv(call, r) && r.procs == s.procs[p := s.procs[p].(root := Some(root))] && !r.started[p]
            && r.queue == s.queue + [p] && r.working
  {
    hide NotNested, Iterate, Undelivered, Flat, Enqueue;
    EnqueueKeeps(call, SetRoot(s, p, Some(root)), p);
  }

  lemma KillKeeps<C, V, B>(call: Call<C, V, B>, s: System<C, V, B>, p: nat)
    requires Inv(call, s) && p < |s.procs|
    ensures var r := SetRoot(s, p, None);
            Inv(call, r) && r.procs[p].root == None && !Pending(call, r.procs[p], r.started[p])
  {
    hide NotNested, Undelivered, Flat, BeingStepped;
    assert !Pending(call, SetRoot(s, p, None).procs[p], false);
    hide Iterate;
  }

  lemma EffectsKeep<C, V, B>(call: Call<C, V, B>, s: System<C, V, B>, batch: seq<Mail<V>>)
    requires Inv(call, s) && NoneRunning(s.calls) && Addressed(|s.procs|, batch)
    ensures var r := EnqueueEffects(s, batch);
            && Inv(call, r) && r.effects == s.effects + [batch] && r.effectsActive
            && r.calls == s.calls + (if s.effectsActive then [] else [FxDrain])
  {
    hide NotNested, Pending, Undelivered, Flat, BeingStepped;
    var r := EnqueueEffects(s, batch);
    if !s.effectsActive {
      forall q {
        SteppedPush(s.calls, FxDrain, q);
      }
      PushCall(s.calls, s.working, s.effectsActive, FxDrain);
      UndeliveredPush(s.calls, FxDrain);
      assert Undelivered(s.calls) + [] == Undelivered(s.calls);
    }
    assert r.effectsIn == r.effectsOut + r.effects;
  }

  /** A call that ends: no step that has still to go on, and no mail still to be sent. */
  lemma PopKeeps<C, V, B>(call: Call<C, V, B>, s: System<C, V, B>)
    requires Inv(call, s) && s.calls != []
    requires var c := s.calls[|s.calls| - 1];
             && (c.Stepping? ==> c.phase.Started? || !Pending(call, s.procs[c.p], s.started[c.p]))
             && (c.Dispatching? ==> c.rest == [])
             && (c.Drain? ==> s.queue == []) && (c.FxDrain? ==> s.effects == [])
    ensures var c := s.calls[|s.calls| - 1];
            Inv(call, Pop(s.(working := s.working && !c.Drain?, effectsActive := s.effectsActive && !c.FxDrain?)))
  {
    hide NotNested, Pending, Flat, BeingStepped;
    var n := |s.calls| - 1;
    forall q {
      SteppedPush(s.calls[..n], s.calls[n], q);
    }
    PopCall(s.calls, s.working, s.effectsActive);
    assert s.calls == s.calls[..n] + [s.calls[n]];
    assert Undelivered(s.calls) == Undelivered(s.calls[..n]);
  }

  /** Taking a process off the run queue begins its step. */
  lemma StepBegins<C, V, B>(call: Call<C, V, B>, s: System<C, V, B>)
    requires Inv(call, s) && s.calls != [] && s.calls[|s.calls| - 1].Drain? && s.queue != []
    ensures Inv(call, Push(s.(queue := s.queue[1..], dequeued := s.dequeued + [s.queue[0]]),
            Stepping(s.queue[0], Running)))
  {
    hide NotNested, Pending, Undelivered, Flat, BeingStepped;
    var p := s.queue[0];
    RunningIsTop(s.calls, s.working, s.effectsActive);
    forall q {
      SteppedPush(s.calls, Stepping(p, Running), q);
    }
    PushCall(s.calls, s.working, s.effectsActive, Stepping(p, Running));
    WorkingWhile(s.calls, s.working, s.effectsActive, |s.calls| - 1);
    UndeliveredPush(s.calls, Stepping(p, Running));
    assert Undelivered(s.calls) + [] == Undelivered(s.calls);
    assert s.queue == [p] + s.queue[1..];
    assert s.dequeued + s.queue == s.dequeued + [p] + s.queue[1..];
  }

  lemma DrainKeeps<C, V, B>(call: Call<C, V, B>, s: System<C, V, B>)
    requires Inv(call, s) && s.calls != [] && s.calls[|s.calls| - 1].Drain?
    ensures var r := Continue(call, s);
            && Inv(call, r)
            && if s.queue == [] then !r.working && r.calls == s.calls[..|s.calls| - 1]
               else r.queue == s.queue[1..] && r.calls == s.calls + [Stepping(s.queue[0], Running)]
  {
    hide Inv, RawSend, StepTurn;
    if s.queue == [] {
      PopKeeps(call, s);
    } else {
      StepBegins(call, s);
    }
  }

  /** Only the innermost call can be a step that is in its own loop. */
  lemma RunningIsTop<C, V, B>(calls: seq<Activity<C, V, B>>, working: bool, effectsActive: bool)
    requires NotNested(calls, working, effectsActive)
    requires calls != [] ==> var c := calls[|calls| - 1]; !c.Stepping? || !c.phase.Running?
    ensures NoneRunning(calls)
  {
  }

  lemma WorkingWhile<C, V, B>(calls: seq<Activity<C, V, B>>, working: bool, effectsActive: bool, i: nat)
    requires NotNested(calls, working, effectsActive) && i < |calls|
    ensures calls[i].Drain? ==> working
    ensures calls[i].FxDrain? ==> effectsActive
  {
  }

  lemma MoreCalls<C, V, B>(call: Call<C, V, B>, procs: seq<Machine<C, V, B>>,
      started: seq<bool>, queue: seq<nat>, calls: seq<Activity<C, V, B>>, c: Activity<C, V, B>)
    requires NoLostWakeUp(call, procs, started, queue, calls)
    ensures NoLostWakeUp(call, procs, started, queue, calls + [c])
  {
    hide Pending, BeingStepped;
    forall q {
      SteppedPush(calls, c, q);
    }
  }

  /** Taking a batch off the effects queue begins its dispatch. */
  lemma DispatchBegins<C, V, B>(call: Call<C, V, B>, s: System<C, V, B>)
    requires Inv(call, s) && s.calls != [] && s.calls[|s.calls| - 1].FxDrain? && s.effects != []
    ensures Inv(call, Push(s.(effects := s.effects[1..], effectsOut := s.effectsOut + [s.effects[0]]),
            Dispatching(s.effects[0])))
  {
    hide NotNested, NoLostWakeUp, Undelivered;
    var batch := s.effects[0];
    var calls, out := s.calls + [Dispatching(batch)], s.effectsOut + [batch];
    RunningIsTop(s.calls, s.working, s.effectsActive);
    PushCall(s.calls, s.working, s.effectsActive, Dispatching(batch));
    WorkingWhile(s.calls, s.working, s.effectsActive, |s.calls| - 1);
    UndeliveredPush(s.calls, Dispatching(batch));
    assert out[..|s.effectsOut|] == s.effectsOut;
    assert s.delivered + (Undelivered(s.calls) + batch) == s.delivered + Undelivered(s.calls) + batch;
    MoreCalls(call, s.procs, s.started, s.queue, s.calls, Dispatching(batch));
    assert forall k :: 0 <= k < |s.calls| ==> calls[k] == s.calls[k];
    assert forall k :: 0 <= k < |s.effects[1..]| ==> s.effects[1..][k] == s.effects[k + 1];
    assert s.effectsOut + s.effects == out + s.effects[1..];
  }

  lemma FxDrainKeeps<C, V, B>(call: Call<C, V, B>, s: System<C, V, B>)
    requires Inv(call, s) && s.calls != [] && s.calls[|s.calls| - 1].FxDrain?
    ensures var r := Continue(call, s);
            && Inv(call, r)
            && if s.effects == [] then !r.effectsActive && r.calls == s.calls[..|s.calls| - 1]
               else r.effects == s.effects[1..] && r.calls == s.calls + [Dispatching(s.effects[0])]
  {
    hide Inv, RawSend, StepTurn;
    if s.effects == [] {
      PopKeeps(call, s);
    } else {
      DispatchBegins(call, s);
    }
  }

  /** Sending one message of a batch. */
  lemma DispatchingKeeps<C, V, B>(call: Call<C, V, B>, s: System<C, V, B>)
    requires Inv(call, s) && s.calls != [] && s.calls[|s.calls| - 1].Dispatching?
    ensures var rest, under, r := s.calls[|s.calls| - 1].rest, s.calls[..|s.calls| - 1], Continue(call, s);
            && Inv(call, r)
            && if rest == [] then r == s.(calls := under)
               else
                 var to := rest[0].to;
                 && to < |s.procs| && r.delivered == s.delivered + [rest[0]]
                 && r.procs == s.procs[to := s.procs[to].(mailbox := s.procs[to].mailbox + [rest[0].msg])]
                 && |under| < |r.calls| && r.calls[..|under|] == under && r.calls[|under|] == Dispatching(rest[1..])
  {
    hide Inv, RawSend, StepTurn;
    var rest := s.calls[|s.calls| - 1].rest;
    if rest == [] {
      PopKeeps(call, s);
    } else {
      SendsFirst(call, s);
      RawSendKeeps(call, Push(Pop(s), Dispatching(rest[1..])).(delivered := s.delivered + [rest[0]]), rest[0]);
    }
  }

  lemma SendsFirst<C, V, B>(call: Call<C, V, B>, s: System<C, V, B>)
    requires Inv(call, s) && s.calls != [] && s.calls[|s.calls| - 1].Dispatching?
    requires s.calls[|s.calls| - 1].rest != []
    ensures var rest := s.calls[|s.calls| - 1].rest;
            var s' := Push(Pop(s), Dispatching(rest[1..])).(delivered := s.delivered + [rest[0]]);
            && Inv(call, s') && NoneRunning(s'.calls) && rest[0].to < |s.procs|
  {
    hide NotNested, Pending, Undelivered, Flat, Dispatched, NoLostWakeUp;
    var n := |s.calls| - 1;
    var rest, under := s.calls[n].rest, s.calls[..n];
    var c' := Dispatching(rest[1..]);
    BelowDispatch(s.calls, s.working, s.effectsActive, rest[1..]);
    SentFirst(s.delivered, s.calls, s.working, s.effectsActive, s.effectsOut);
    OtherTop(call, s.procs, s.started, s.queue, s.calls, c');
    assert CallSized(|s.procs|, s.calls[n]);
    assert forall k :: 0 <= k < n ==> under[k] == s.calls[k];
  }

  lemma OtherTop<C, V, B>(call: Call<C, V, B>, procs: seq<Machine<C, V, B>>,
      started: seq<bool>, queue: seq<nat>, calls: seq<Activity<C, V, B>>, c: Activity<C, V, B>)
    requires NoLostWakeUp(call, procs, started, queue, calls) && calls != [] && calls[|calls| - 1].Dispatching?
    ensures NoLostWakeUp(call, procs, started, queue, calls[..|calls| - 1] + [c])
  {
    hide Pending, BeingStepped;
    var under := calls[..|calls| - 1];
    assert calls == under + [calls[|calls| - 1]];
    forall q {
      SteppedPush(under, calls[|calls| - 1], q);
    }
    forall q {
      SteppedPush(under, c, q);
    }
  }

  lemma SentFirst<C, V, B>(delivered: seq<Mail<V>>, calls: seq<Activity<C, V, B>>, working: bool, effectsActive: bool,
      out: seq<seq<Mail<V>>>)
    requires Dispatched(delivered, calls, out)
    requires NotNested(calls, working, effectsActive) && calls != [] && calls[|calls| - 1].Dispatching?
    requires calls[|calls| - 1].rest != []
    ensures var rest := calls[|calls| - 1].rest;
            Dispatched(delivered + [rest[0]], calls[..|calls| - 1] + [Dispatching(rest[1..])], out)
  {
    hide NotNested, Undelivered, Flat;
    var n := |calls| - 1;
    var rest, under := calls[n].rest, calls[..n];
    assert calls == under + [calls[n]];
    NothingBelow(calls, working, effectsActive);
    UndeliveredPush(under, calls[n]);
    UndeliveredPush(under, Dispatching(rest[1..]));
    assert [] + rest == rest && [] + rest[1..] == rest[1..];
    assert delivered + rest == delivered + [rest[0]] + rest[1..];
  }

  lemma BelowDispatch<C, V, B>(calls: seq<Activity<C, V, B>>, working: bool, effectsActive: bool, rest: seq<Mail<V>>)
    requires NotNested(calls, working, effectsActive) && calls != [] && calls[|calls| - 1].Dispatching?
    ensures NotNested(calls[..|calls| - 1] + [Dispatching(rest)], working, effectsActive)
    ensures NoneRunning(calls[..|calls| - 1] + [Dispatching(rest)])
  {
    var under := calls[..|calls| - 1];
    PopCall(calls, working, effectsActive);
    assert forall i :: 0 <= i < |under| ==> under[i] == calls[i];
    PushCall(under, working, effectsActive, Dispatching(rest));
  }

  /** Only one dispatch is in progress. */
  lemma NothingBelow<C, V, B>(calls: seq<Activity<C, V, B>>, working: bool, effectsActive: bool)
    requires NotNested(calls, working, effectsActive) && calls != [] && calls[|calls| - 1].Dispatching?
    ensures Undelivered(calls[..|calls| - 1]) == []
  {
    var n := |calls| - 1;
    assert calls[n - 1].FxDrain?;
    assert forall i :: 0 <= i < n - 1 ==> !calls[i].FxDrain?;
    forall i | 0 <= i < n
      ensures !calls[..n][i].Dispatching?
    {
      assert i > 0 ==> !calls[i - 1].FxDrain?;
    }
    NoDispatch(calls[..n]);
  }

  lemma {:induction false} NoDispatch<C, V, B>(calls: seq<Activity<C, V, B>>)
    requires forall i :: 0 <= i < |calls| ==> !calls[i].Dispatching?
    ensures Undelivered(calls) == []
  {
    if calls != [] {
      NoDispatch(calls[..|calls| - 1]);
    }
  }

  lemma SwapStep<C, V, B>(call: Call<C, V, B>, procs: seq<Machine<C, V, B>>,
      started: seq<bool>, queue: seq<nat>, calls: seq<Activity<C, V, B>>, p: nat,
      m: Machine<C, V, B>, b: bool, phase: Phase<C, V, B>)
    requires NoLostWakeUp(call, procs, started, queue, calls) && p < |procs| && calls != []
    requires var c := calls[|calls| - 1]; c.Stepping? && c.p == p
    requires phase.Started? ==> !Pending(call, m, b)
    ensures NoLostWakeUp(call, procs[p := m], started[p := b], queue, calls[..|calls| - 1] + [Stepping(p, phase)])
  {
    hide Pending, BeingStepped;
    var under, was := calls[..|calls| - 1], calls[|calls| - 1];
    var now: Activity<C, V, B> := Stepping(p, phase);
    assert calls == under + [was];
    forall q {
      SteppedPush(under, was, q);
    }
    forall q {
      SteppedPush(under, now, q);
    }
  }

  lemma SwapCall<C, V, B>(calls: seq<Activity<C, V, B>>, working: bool, effectsActive: bool, now: Activity<C, V, B>)
    requires NotNested(calls, working, effectsActive) && calls != [] && calls[|calls| - 1].Stepping? && now.Stepping?
    ensures NotNested(calls[..|calls| - 1] + [now], working, effectsActive)
    ensures Undelivered(calls[..|calls| - 1] + [now]) == Undelivered(calls)
  {
    hide NotNested, Undelivered;
    var under, was := calls[..|calls| - 1], calls[|calls| - 1];
    assert calls == under + [was];
    PopCall(calls, working, effectsActive);
    DrainUnder(calls, working, effectsActive);
    PushCall(under, working, effectsActive, now);
    UndeliveredPush(under, was);
    UndeliveredPush(under, now);
  }

  /** The innermost step changes its own process, and what it is at. */
  lemma SameStep<C, V, B>(call: Call<C, V, B>, s: System<C, V, B>, p: nat, m: Machine<C, V, B>, b: bool,
      received: seq<seq<V>>, phase: Phase<C, V, B>)
    requires p < |s.procs| && |s.sent| == |s.procs| && |received| == |s.procs|
    requires |s.received| == |s.procs| && |s.started| == |s.procs|
    requires s.calls != [] && s.calls[|s.calls| - 1].Stepping? && s.calls[|s.calls| - 1].p == p
    requires received == s.received[p := received[p]]
    requires s.sent[p] == received[p] + m.mailbox
    requires phase.Started? ==> !Pending(call, m, b)
    requires Inv(call, s)
    ensures Inv(call, Push(Pop(s.(procs := s.procs[p := m], started := s.started[p := b], received := received)),
            Stepping(p, phase)))
  {
    hide Undelivered, Flat, Pending, NotNested, NoLostWakeUp;
    SwapCall(s.calls, s.working, s.effectsActive, Stepping(p, phase));
    SwapStep(call, s.procs, s.started, s.queue, s.calls, p, m, b, phase);
    var now: Activity<C, V, B> := Stepping(p, phase);
    assert CallSized(|s.procs|, now);
  }

  /** A turn of the step receives the first message of the mailbox, or none, and no other
      process is touched. */
  lemma GoesOn<C, V, B>(call: Call<C, V, B>, s: System<C, V, B>, p: nat)
    requires p < |s.procs| && |s.sent| == |s.procs| && |s.received| == |s.procs| && |s.started| == |s.procs|
    requires s.calls != [] && s.calls[|s.calls| - 1] == Stepping(p, Running)
    requires Iterate(call, s.procs[p]).Next?
    requires Inv(call, s)
    ensures var r := StepTurn(call, s, p);
            && Inv(call, r)
            && r.received == ReceivedAfter(s.received, p, s.procs[p])
            && p < |r.procs| && r.procs == s.procs[p := r.procs[p]] && r.started == s.started[p := false]
            && |r.calls| == |s.calls| && r.calls[..|s.calls| - 1] == s.calls[..|s.calls| - 1]
  {
    hide Inv, Iterate, NoLostWakeUp, NotNested, Dispatched, Addressed;
    InvMail(call, s, p);
    var m, r := s.procs[p], StepTurn(call, s, p);
    TurnMail(call, m);
    var received := ReceivedAfter(s.received, p, m);
    assert m.root.value.Receive? ==> m.mailbox == [m.mailbox[0]] + m.mailbox[1..];
    assert received == s.received[p := received[p]];
    var phase := r.calls[|r.calls| - 1].phase;
    SameStep(call, s, p, r.procs[p], false, received, phase);
    var whole := Push(Pop(s.(procs := s.procs[p := r.procs[p]], started := s.started[p := false],
                             received := received)), Stepping(p, phase));
    assert r.calls == whole.calls;
    assert r == whole;
  }

  /** The innermost call can always go on or return, and where outside code runs it may spawn,
      send, and queue effects. */
  lemma AlwaysGoesOn<C, V, B>(call: Call<C, V, B>, s: System<C, V, B>, task: Task<C, V, B>, mail: Mail<V>)
    requires Inv(call, s) && mail.to < |s.procs|
    ensures s.calls != [] ==> Enabled(s, Return) || Enabled(s, Advance)
    ensures s.calls == [] || Enabled(s, Return) ==>
              && Enabled(s, Spawn(task)) && Enabled(s, Send(mail)) && Enabled(s, Answer(mail.to, task))
              && Enabled(s, Kill(mail.to)) && Enabled(s, Effects([mail]))
  {
  }

  lemma InvMail<C, V, B>(call: Call<C, V, B>, s: System<C, V, B>, p: nat)
    requires Inv(call, s) && p < |s.procs|
    ensures |s.received| == |s.procs| && |s.sent| == |s.procs| && s.sent[p] == s.received[p] + s.procs[p].mailbox
  {
    hide NoLostWakeUp, NotNested, Dispatched;
  }

  lemma TurnMail<C, V, B>(call: Call<C, V, B>, m: Machine<C, V, B>)
    requires Iterate(call, m).Next?
    ensures m.root.Some?
    ensures m.root.value.Receive? ==> m.mailbox != [] && Iterate(call, m).m.mailbox == m.mailbox[1..]
    ensures !m.root.value.Receive? ==> Iterate(call, m).m.mailbox == m.mailbox
    ensures Iterate(call, m).m.root.Some?
    ensures m.root.value.AndThen? || m.root.value.OnError? || m.root.value.Receive? || IsResult(m.root.value)
    ensures IsResult(m.root.value) ==>
              var left := Skip(m.stack, ResultTag(m.root.value)); left != [] && left[1..] == Iterate(call, m).m.stack
  {
  }

  /** A step ends when its process cannot go on, or is at a binding, which it starts. */
  lemma Stops<C, V, B>(call: Call<C, V, B>, s: System<C, V, B>, p: nat)
    requires p < |s.procs| && |s.sent| == |s.procs| && |s.received| == |s.procs| && |s.started| == |s.procs|
    requires s.calls != [] && s.calls[|s.calls| - 1] == Stepping(p, Running)
    requires Iterate(call, s.procs[p]).Stop?
    requires Inv(call, s)
    ensures var m, r := Iterate(call, s.procs[p]).m, StepTurn(call, s, p);
            && Inv(call, r) && r.procs == s.procs[p := m] && r.started == s.started[p := AtBinding(m)]
            && !Pending(call, m, AtBinding(m))
            && r.calls == s.calls[..|s.calls| - 1] + (if AtBinding(m) then [Stepping(p, Started)] else [])
  {
    hide NotNested, Undelivered, Flat, Iterate, Inv;
    var m := Iterate(call, s.procs[p]).m;
    StopAgain(call, s.procs[p]);
    InvMail(call, s, p);
    if AtBinding(m) {
      SameStep(call, s, p, m, true, s.received, Started);
    } else {
      SameStep(call, s, p, m, false, s.received, Running);
      var s1 := Push(Pop(s.(procs := s.procs[p := m], started := s.started[p := false])), Stepping(p, Running));
      PopKeeps(call, s1);
      assert s1.calls[..|s1.calls| - 1] == s.calls[..|s.calls| - 1];
      assert StepTurn(call, s, p) == Pop(s1);
    }
  }

  lemma StopAgain<C, V, B>(call: Call<C, V, B>, m: Machine<C, V, B>)
    requires Iterate(call, m).Stop?
    ensures !Runnable(call, Iterate(call, m).m) && Iterate(call, m).m.mailbox == m.mailbox
  {
  }

  lemma SteppingKeeps<C, V, B>(call: Call<C, V, B>, s: System<C, V, B>)
    requires Inv(call, s) && s.calls != []
    requires var c := s.calls[|s.calls| - 1]; c.Stepping? && c.phase.Running?
    ensures Inv(call, Continue(call, s))
  {
    hide Inv, RawSend, Iterate, StepTurn;
    var p := s.calls[|s.calls| - 1].p;
    InvSized(call, s);
    match Iterate(call, s.procs[p])
    case Next(_) => GoesOn(call, s, p);
    case Stop(_) => Stops(call, s, p);
  }

  lemma InvSized<C, V, B>(call: Call<C, V, B>, s: System<C, V, B>)
    requires Inv(call, s)
    ensures Sized(s) && |s.sent| == |s.procs| && |s.received| == |s.procs| && |s.started| == |s.procs|
    ensures forall k :: 0 <= k < |s.calls| ==> CallSized(|s.procs|, s.calls[k])
  {
  }

  /** A binding's function ends its step; a callback gives its result to the step it is in. */
  lemma ReturnKeeps<C, V, B>(call: Call<C, V, B>, s: System<C, V, B>)
    requires Inv(call, s) && s.calls != [] && OutsideRuns(s)
    ensures Inv(call, ReturnFrom(s))
  {
    hide Inv, Runnable;
    InvSized(call, s);
    var c := s.calls[|s.calls| - 1];
    if c.phase.Started? {
      PopKeeps(call, s);
    } else {
      InvMail(call, s, c.p);
      var m := s.procs[c.p].(root := Some(c.phase.root), stack := c.phase.stack);
      SameStep(call, s, c.p, m, false, s.received, Running);
    }
  }

  /** A callback during which nothing else happens. */
  lemma CallBackReturns<C, V, B>(s: System<C, V, B>, p: nat, during: Machine<C, V, B>, received: seq<seq<V>>,
      root: Task<C, V, B>, stack: seq<Frame<C>>)
    requires Sized(s) && p < |s.procs| && s.calls != [] && s.calls[|s.calls| - 1] == Stepping(p, Running)
    requires |received| == |s.procs|
    ensures var t := CallBack(s, p, during, received, root, stack);
            && t.calls != [] && OutsideRuns(t) && Sized(t)
            && ReturnFrom(t).procs == s.procs[p := during.(root := Some(root), stack := stack)]
            && ReturnFrom(t).calls == s.calls
  {
    hide Addressed;
    var now: Activity<C, V, B> := Stepping(p, Calling(root, stack));
    var t := CallBack(s, p, during, received, root, stack);
    SwapTop(s.calls, Stepping(p, Running));
    assert t.calls == s.calls[..|s.calls| - 1] + [now];
    assert t.calls[..|t.calls| - 1] == s.calls[..|s.calls| - 1];
    forall k | 0 <= k < |t.calls|
      ensures CallSized(|t.procs|, t.calls[k])
    {
      assert k < |s.calls| - 1 ==> t.calls[k] == s.calls[k];
    }
  }

  /** When nothing else happens during its callback, a turn is that of the machine. */
  lemma TurnWhole<C, V, B>(call: Call<C, V, B>, s: System<C, V, B>, p: nat)
    requires Sized(s) && p < |s.procs| && s.calls != [] && s.calls[|s.calls| - 1] == Stepping(p, Running)
    requires Iterate(call, s.procs[p]).Next?
    ensures var t, after := StepTurn(call, s, p), s.procs[p := Iterate(call, s.procs[p]).m];
            if t.calls != [] && OutsideRuns(t) then
              Sized(t) && ReturnFrom(t).procs == after && ReturnFrom(t).calls == s.calls
            else t.procs == after && t.calls == s.calls
  {
    hide Iterate, CallBack, Sized, ReturnFrom, Skip;
    var m, m' := s.procs[p], Iterate(call, s.procs[p]).m;
    SizedReceived(s);
    TurnMail(call, m);
    if !m.root.value.AndThen? && !m.root.value.OnError? {
      var during := if m.root.value.Receive? then m.(mailbox := m'.mailbox)
                    else m.(stack := Skip(m.stack, ResultTag(m.root.value)));
      CallBackReturns(s, p, during, ReceivedAfter(s.received, p, m), m'.root.value, m'.stack);
    }
  }

  lemma SizedReceived<C, V, B>(s: System<C, V, B>)
    requires Sized(s)
    ensures |s.received| == |s.procs| && |s.started| == |s.procs|
  {
  }

  lemma SwapTop<C, V, B>(calls: seq<Activity<C, V, B>>, c: Activity<C, V, B>)
    requires calls != []
    ensures calls[|calls| - 1] == c ==> calls[..|calls| - 1] + [c] == calls
    ensures |calls[..|calls| - 1] + [c]| == |calls|
  {
  }

  lemma DrainUnder<C, V, B>(calls: seq<Activity<C, V, B>>, working: bool, effectsActive: bool)
    requires NotNested(calls, working, effectsActive) && calls != [] && calls[|calls| - 1].Stepping?
    ensures var under := calls[..|calls| - 1];
            under != [] && under[|under| - 1].Drain? && NoneRunning(under)
  {
  }

  /** The innermost loop takes what is first in its queue, or ends; a step makes the machine's
      turn, up to the callback if there is one. */
  ghost predicate Advances<C, V, B>(call: Call<C, V, B>, s: System<C, V, B>, top: Activity<C, V, B>,
      under: seq<Activity<C, V, B>>, r: System<C, V, B>) {
    match top
    case Drain =>
      && r.procs == s.procs
      && if s.queue == [] then !r.working && r.queue == [] && r.calls == under
         else r.queue == s.queue[1..] && r.calls == s.calls + [Stepping(s.queue[0], Running)]
    case FxDrain =>
      && r.procs == s.procs
      && if s.effects == [] then !r.effectsActive && r.effects == [] && r.calls == under
         else r.effects == s.effects[1..] && r.calls == s.calls + [Dispatching(s.effects[0])]
    case Dispatching(rest) =>
      if rest == [] then r == s.(calls := under)
      else
        var p := rest[0].to;
        && p < |s.procs| && r.queue == s.queue + [p]
        && r.procs == s.procs[p := s.procs[p].(mailbox := s.procs[p].mailbox + [rest[0].msg])]
        && r.calls == under + [Dispatching(rest[1..])] + (if s.working then [] else [Drain])
    case Stepping(p, _) => p < |s.procs| && StepMakes(call, s, p, under, r)
  }

  /** A step makes the machine's turn. If it runs a callback, the message is taken and the frames
      passed by are gone before it; the root, and the rest of the stack, wait for its end. */
  ghost predicate StepMakes<C, V, B>(call: Call<C, V, B>, s: System<C, V, B>, p: nat, under: seq<Activity<C, V, B>>,
      r: System<C, V, B>)
    requires p < |s.procs|
  {
    && p < |r.procs| && r.queue == s.queue && r.effects == s.effects
    && var m := Iterate(call, s.procs[p]).m;
    if Iterate(call, s.procs[p]).Stop? then
      && r.procs == s.procs[p := m]
      && r.calls == under + (if AtBinding(m) then [Stepping(p, Started)] else [])
    else if s.procs[p].root.value.AndThen? || s.procs[p].root.value.OnError? then
      r.procs == s.procs[p := m] && r.calls == s.calls
    else
      && m.root.Some? && r.calls == under + [Stepping(p, Calling(m.root.value, m.stack))]
      && r.procs == s.procs[p := r.procs[p]] && r.procs[p].mailbox == m.mailbox
      && r.procs[p].root == s.procs[p].root
      && if s.procs[p].root.value.Receive? then r.procs[p].stack == s.procs[p].stack
         else r.procs[p].stack != [] && r.procs[p].stack[1..] == m.stack
  }

  lemma StepMakesTurn<C, V, B>(call: Call<C, V, B>, s: System<C, V, B>, p: nat)
    requires Sized(s) && s.calls != [] && s.calls[|s.calls| - 1] == Stepping(p, Running) && p < |s.procs|
    ensures StepMakes(call, s, p, s.calls[..|s.calls| - 1], StepTurn(call, s, p))
  {
    hide Addressed, Iterate, Skip;
    if Iterate(call, s.procs[p]).Next? {
      TurnMail(call, s.procs[p]);
    }
  }

  lemma AdvanceDoes<C, V, B>(call: Call<C, V, B>, s: System<C, V, B>)
    requires Sized(s) && s.calls != [] && !OutsideRuns(s)
    ensures Advances(call, s, s.calls[|s.calls| - 1], s.calls[..|s.calls| - 1], Continue(call, s))
  {
    hide Addressed, StepTurn, StepMakes;
    assert CallSized(|s.procs|, s.calls[|s.calls| - 1]);
    match Top(s).value
    case Stepping(p, _) => StepMakesTurn(call, s, p);
    case Dispatching(rest) =>
      if rest != [] {
        AddressedFirst(|s.procs|, rest);
      }
    case _ =>
  }

  lemma AddressedFirst<V>(n: nat, mail: seq<Mail<V>>)
    requires Addressed(n, mail) && mail != []
    ensures mail[0].to < n
  {
  }

  /** What each action does to processes, run queue and effects. */
  ghost predicate Does<C, V, B>(call: Call<C, V, B>, s: System<C, V, B>, a: Action<C, V, B>, r: System<C, V, B>) {
    match a
    case Advance => s.calls != [] && Advances(call, s, s.calls[|s.calls| - 1], s.calls[..|s.calls| - 1], r)
    case Spawn(task) =>
      && r.procs == s.procs + [Machine(Some(task), [], [])] && r.queue == s.queue + [|s.procs|] && r.working
      && r.effects == s.effects
    case Send(mail) =>
      && mail.to < |s.procs|
      && r.procs == s.procs[mail.to := s.procs[mail.to].(mailbox := s.procs[mail.to].mailbox + [mail.msg])]
      && r.queue == s.queue + [mail.to] && r.working && r.effects == s.effects
    case Answer(p, root) =>
      && p < |s.procs| && r.procs == s.procs[p := s.procs[p].(root := Some(root))]
      && r.queue == s.queue + [p] && r.working && r.effects == s.effects
    case Kill(p) =>
      && p < |s.procs| && r.procs == s.procs[p := s.procs[p].(root := None)]
      && r.queue == s.queue && r.calls == s.calls && r.effects == s.effects
    case Effects(batch) =>
      r.procs == s.procs && r.queue == s.queue && r.effects == s.effects + [batch] && r.effectsActive
    case Return =>
      && s.calls != [] && s.calls[|s.calls| - 1].Stepping? && r.queue == s.queue && r.effects == s.effects
      && var c, under := s.calls[|s.calls| - 1], s.calls[..|s.calls| - 1];
      match c.phase
      case Running => false
      case Started => r.procs == s.procs && r.calls == under
      case Calling(root, stack) =>
        && c.p < |s.procs| && r.procs == s.procs[c.p := s.procs[c.p].(root := Some(root), stack := stack)]
        && r.calls == under + [Stepping(c.p, Running)]
  }

  lemma ActionDoes<C, V, B>(call: Call<C, V, B>, s: System<C, V, B>, a: Action<C, V, B>)
    requires Sized(s) && Enabled(s, a)
    ensures Does(call, s, a, Next(call, s, a))
  {
    hide Continue, Addressed, Advances;
    if a.Advance? {
      AdvanceDoes(call, s);
    }
    if a.Return? {
      assert CallSized(|s.procs|, s.calls[|s.calls| - 1]);
    }
  }

  lemma ActionKeeps<C, V, B>(call: Call<C, V, B>, s: System<C, V, B>, a: Action<C, V, B>)
    requires Inv(call, s) && Enabled(s, a)
    ensures Inv(call, Next(call, s, a))
  {
    hide Continue, RawSend, RawSpawn, Enqueue, EnqueueEffects, NotNested, NoLostWakeUp, InOrder, Dispatched;
    if OutsideRuns(s) {
      RunningIsTop(s.calls, s.working, s.effectsActive);
    }
    hide Inv, NoneRunning;
    match a
    case Spawn(task) => RawSpawnKeeps(call, s, task);
    case Send(mail) => RawSendKeeps(call, s, mail);
    case Answer(p, root) => AnswerKeeps(call, s, p, root);
    case Kill(p) => KillKeeps(call, s, p);
    case Effects(batch) => EffectsKeep(call, s, batch);
    case Return => ReturnKeeps(call, s);
    case Advance =>
      match Top(s).value
      case Drain => DrainKeeps(call, s);
      case Stepping(_, _) => SteppingKeeps(call, s);
      case FxDrain => FxDrainKeeps(call, s);
      case Dispatching(_) => DispatchingKeeps(call, s);
  }

  // ----- every run -----

  ghost predicate IsRun<C, V, B>(call: Call<C, V, B>, actions: seq<Action<C, V, B>>, states: seq<System<C, V, B>>) {
    && |states| == |actions| + 1
    && states[0] == Idle()
    && forall k :: 0 <= k < |actions| ==>
         Sized(states[k]) && Enabled(states[k], actions[k]) && states[k + 1] == Next(call, states[k], actions[k])
  }

  /** The mail a process is sent by an action: that of outside code, or the next of a batch. */
  function MailOf<C, V, B>(s: System<C, V, B>, a: Action<C, V, B>): seq<Mail<V>> {
    if a.Send? then [a.mail]
    else if a.Advance? && Top(s).Some? && Top(s).value.Dispatching? && Top(s).value.rest != [] then
      [Top(s).value.rest[0]]
    else []
  }

  /** All mail of the first `k` actions of a run, in order. */
  function AllMail<C, V, B>(actions: seq<Action<C, V, B>>, states: seq<System<C, V, B>>, k: nat): seq<Mail<V>>
    requires k <= |actions| && k <= |states|
  {
    if k == 0 then [] else AllMail(actions, states, k - 1) + MailOf(states[k - 1], actions[k - 1])
  }

  /** The messages addressed to `p`, in order. */
  function To<V>(p: nat, mail: seq<Mail<V>>): seq<V> {
    if mail == [] then []
    else
      var m := mail[|mail| - 1];
      To(p, mail[..|mail| - 1]) + (if m.to == p then [m.msg] else [])
  }

  /** The batches of effects that the actions queue, in order. */
  function Batches<C, V, B>(actions: seq<Action<C, V, B>>): seq<seq<Mail<V>>> {
    if actions == [] then []
    else
      var a := actions[|actions| - 1];
      Batches(actions[..|actions| - 1]) + (if a.Effects? then [a.batch] else [])
  }

  /** The tasks that the actions spawn. */
  function Spawned<C, V, B>(actions: seq<Action<C, V, B>>): nat {
    if actions == [] then 0
    else Spawned(actions[..|actions| - 1]) + (if actions[|actions| - 1].Spawn? then 1 else 0)
  }

  lemma ToSnoc<V>(p: nat, mail: seq<Mail<V>>, m: Mail<V>)
    ensures To(p, mail + [m]) == To(p, mail) + (if m.to == p then [m.msg] else [])
  {
    assert (mail + [m])[..|mail|] == mail;
  }

  /** One action adds its mail to what its receivers were sent, and its batch to the effects. */
  lemma ActionHistory<C, V, B>(call: Call<C, V, B>, s: System<C, V, B>, a: Action<C, V, B>)
    requires Inv(call, s) && Enabled(s, a)
    ensures var r, mail := Next(call, s, a), MailOf(s, a);
            && |r.procs| == |s.procs| + (if a.Spawn? then 1 else 0) && |r.sent| == |r.procs|
            && (forall p :: 0 <= p < |r.sent| ==>
                  r.sent[p] == (if p < |s.sent| then s.sent[p] else []) + To(p, mail))
            && (forall m :: m in mail ==> m.to < |s.procs|)
            && r.effectsIn == s.effectsIn + (if a.Effects? then [a.batch] else [])
  {
    hide Inv, Iterate, StepTurn, RawSend, Addressed, To;
    InvSized(call, s);
    var r, mail := Next(call, s, a), MailOf(s, a);
    NothingTo<V>();
    if mail != [] {
      assert mail == [mail[0]];
      SendHistory(s, mail[0]);
    }
    if a.Advance? {
      AdvanceHistory(call, s);
    }
  }

  lemma NothingTo<V>()
    ensures forall p :: To<V>(p, []) == []
    ensures forall p, m: Mail<V> :: To(p, [m]) == if m.to == p then [m.msg] else []
  {
    forall p, m: Mail<V>
      ensures To(p, [m]) == if m.to == p then [m.msg] else []
    {
      ToSnoc(p, [], m);
      assert [] + [m] == [m];
    }
  }

  /** Sending adds the message to what its receiver was sent. */
  lemma SendHistory<C, V, B>(s: System<C, V, B>, mail: Mail<V>)
    requires Sized(s)
    ensures mail.to < |s.procs| ==>
              var r := RawSend(s, mail);
              && |r.procs| == |s.procs| && r.effectsIn == s.effectsIn
              && r.sent == s.sent[mail.to := s.sent[mail.to] + [mail.msg]]
  {
  }

  lemma StepHistory<C, V, B>(call: Call<C, V, B>, s: System<C, V, B>, p: nat)
    requires Sized(s) && s.calls != [] && p < |s.procs|
    ensures var r := StepTurn(call, s, p);
            |r.procs| == |s.procs| && r.effectsIn == s.effectsIn && r.sent == s.sent
  {
    hide Iterate, Skip;
    TurnGoesOn(call, s.procs[p]);
  }

  lemma TurnGoesOn<C, V, B>(call: Call<C, V, B>, m: Machine<C, V, B>)
    ensures Iterate(call, m).Next? ==> m.root.Some? && Iterate(call, m).m.root.Some?
  {
  }

  lemma AdvanceHistory<C, V, B>(call: Call<C, V, B>, s: System<C, V, B>)
    requires Inv(call, s) && s.calls != [] && !OutsideRuns(s)
    ensures var r := Continue(call, s);
            && |r.procs| == |s.procs| == |s.sent| == |r.sent| && r.effectsIn == s.effectsIn
            && match Top(s).value
               case Dispatching(rest) =>
                 if rest == [] then r.sent == s.sent
                 else
                   && rest[0].to < |s.procs|
                   && r.sent == s.sent[rest[0].to := s.sent[rest[0].to] + [rest[0].msg]]
               case _ => r.sent == s.sent
  {
    hide Inv, StepTurn, RawSend, Addressed;
    InvSized(call, s);
    assert CallSized(|s.procs|, s.calls[|s.calls| - 1]);
    var c := Top(s).value;
    if c.Stepping? {
      StepHistory(call, s, c.p);
    }
    if c.Dispatching? && c.rest != [] {
      SendsFirst(call, s);
      var s' := Push(Pop(s), Dispatching(c.rest[1..])).(delivered := s.delivered + [c.rest[0]]);
      InvSized(call, s');
      SendHistory(s', c.rest[0]);
    }
  }

  lemma ToConcat<V>(p: nat, mail: seq<Mail<V>>, more: seq<Mail<V>>)
    requires |more| <= 1
    ensures To(p, mail + more) == To(p, mail) + To(p, more)
  {
    NothingTo<V>();
    if more == [] {
      assert mail + more == mail;
    } else {
      assert more == [more[0]];
      ToSnoc(p, mail, more[0]);
    }
  }

  lemma {:induction false} ToNobody<V>(p: nat, mail: seq<Mail<V>>)
    requires forall m :: m in mail ==> m.to != p
    ensures To(p, mail) == []
  {
    if mail != [] {
      ToNobody(p, mail[..|mail| - 1]);
    }
  }

  /** Processes, messages and effects are those that the actions brought in. */
  ghost predicate History<C, V, B>(actions: seq<Action<C, V, B>>, states: seq<System<C, V, B>>, k: nat)
    requires k <= |actions| && k < |states|
  {
    var s, mail := states[k], AllMail(actions, states, k);
    && |s.procs| == |s.sent| == Spawned(actions[..k])
    && (forall p :: 0 <= p < |s.sent| ==> s.sent[p] == To(p, mail))
    && (forall m :: m in mail ==> m.to < |s.procs|)
    && s.effectsIn == Batches(actions[..k])
  }

  lemma HistoryStep<C, V, B>(call: Call<C, V, B>, actions: seq<Action<C, V, B>>, states: seq<System<C, V, B>>, k: nat)
    requires k < |actions| && |states| == |actions| + 1 && Inv(call, states[k]) && Enabled(states[k], actions[k])
    requires states[k + 1] == Next(call, states[k], actions[k]) && History(actions, states, k)
    ensures History(actions, states, k + 1)
  {
    hide Inv, Enabled, Next, To;
    var s, r, a := states[k], states[k + 1], actions[k];
    var mail, more := AllMail(actions, states, k), MailOf(s, a);
    ActionHistory(call, s, a);
    assert actions[..k + 1][..k] == actions[..k] && actions[..k + 1][k] == a;
    forall p | 0 <= p < |r.sent|
      ensures r.sent[p] == To(p, mail + more)
    {
      ToConcat(p, mail, more);
      if p >= |s.sent| {
        ToNobody(p, mail);
      }
    }
  }

  /** Whatever calls in, and from wherever: loops and steps do not nest, no process that can go
      on or has a binding to start is forgotten, and run queue, mailboxes and effects are served
      first come, first served. The processes are those spawned, each was sent exactly the mail
      for it, of outside code and of the batches as they were dispatched, and the batches are
      those queued. */
  lemma {:induction false} EveryRun<C, V, B>(call: Call<C, V, B>, actions: seq<Action<C, V, B>>,
      states: seq<System<C, V, B>>, k: nat)
    requires IsRun(call, actions, states) && k <= |actions|
    ensures Inv(call, states[k]) && History(actions, states, k)
    ensures k < |actions| ==> Does(call, states[k], actions[k], states[k + 1])
  {
    hide Next, Enabled, Inv, Sized, Does, History;
    if k == 0 {
      IdleInv(call);
      IdleHistory(actions, states);
    } else {
      EveryRun(call, actions, states, k - 1);
      ActionKeeps(call, states[k - 1], actions[k - 1]);
      HistoryStep(call, actions, states, k - 1);
    }
    if k < |actions| {
      ActionDoes(call, states[k], actions[k]);
    }
  }

  lemma IdleHistory<C, V, B>(actions: seq<Action<C, V, B>>, states: seq<System<C, V, B>>)
    requires states != [] && states[0] == Idle()
    ensures History(actions, states, 0)
  {
  }

  lemma IdleInv<C, V, B>(call: Call<C, V, B>)
    ensures Inv(call, Idle<C, V, B>())
  {
  }

  /** When no call is in progress, both queues are empty, all effects were dispatched, and each
      process is dead, done, at a binding that was started, or waiting with an empty mailbox. */
  lemma WhenIdle<C, V, B>(call: Call<C, V, B>, s: System<C, V, B>)
    requires Inv(call, s) && s.calls == []
    ensures s.queue == [] && s.effects == [] && s.delivered == Flat(s.effectsIn)
    ensures forall p :: 0 <= p < |s.procs| ==>
              var m := s.procs[p];
              && Iterate(call, m).Stop?
              && (AtBinding(m) ==> s.started[p])
              && (m.root.Some? && m.root.value.Receive? ==> m.mailbox == [] && s.received[p] == s.sent[p])
  {
    hide Flat;
    assert s.queue == [] && s.effects == [];
    assert s.delivered + [] == s.delivered;
    assert s.effectsOut + [] == s.effectsOut;
    forall p | 0 <= p < |s.procs|
      ensures Iterate(call, s.procs[p]).Stop? && (AtBinding(s.procs[p]) ==> s.started[p])
      ensures s.procs[p].root.Some? && s.procs[p].root.value.Receive?
              ==> s.procs[p].mailbox == [] && s.received[p] == s.sent[p]
    {
      assert !Pending(call, s.procs[p], s.started[p]);
      assert s.sent[p] == s.received[p] + s.procs[p].mailbox;
    }
  }

  /** At most one step and one dispatch are in progress at a time. */
  lemma NoNesting<C, V, B>(call: Call<C, V, B>, s: System<C, V, B>, i: nat, j: nat)
    requires Inv(call, s) && i < |s.calls| && j < |s.calls|
    ensures s.calls[i].Stepping? && s.calls[j].Stepping? ==> i == j
    ensures s.calls[i].Dispatching? && s.calls[j].Dispatching? ==> i == j
  {
    hide NoLostWakeUp, InOrder, Dispatched, Sized;
    if s.calls[i].Stepping? && s.calls[j].Stepping? {
      assert s.calls[i - 1].Drain? && s.calls[j - 1].Drain?;
    }
    if s.calls[i].Dispatching? && s.calls[j].Dispatching? {
      assert s.calls[i - 1].FxDrain? && s.calls[j - 1].FxDrain?;
    }
  }
}
