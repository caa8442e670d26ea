/** The event log of a channel: any number of savers pop events off a shared list, read the
    counter, and write the event together with the next counter value, on condition that the
    counter still has the value read. Each access to a shared table is one step. */
module EventLog {

  datatype Saver<E> =
    | Idle                          // about to pop, or drained
    | Holding(e: E)                 // popped an event
    | HasRead(e: E, last: nat)      // ... and read the counter
    | Recorded(e: E, seqNo: nat)    // ... and recorded it; about to publish
    | Broken                        // stopped by an error

  datatype Published<E> = Published(seqNo: nat, e: E)

  datatype State<E> = State(
    pushed: seq<E>,                 // every event ever put on the save list
    saveList: seq<E>,
    lastId: nat,                    // the counter in the metadata record
    rows: map<nat, E>,              // the event table
    published: seq<Published<E>>,
    savers: seq<Saver<E>>,
    numbers: seq<seq<nat>>,        // what each saver was told it recorded, in order
    lost: multiset<E>,              // popped, and dropped by an error
    silent: set<nat>)               // recorded, and not published because of an error

  datatype Step<E> =
    | Push(e: E)
    | Join                                 // another saver starts
    | Pop(i: nat, k: nat)                  // saver i gets the event at position k of the list
    | PopFails(i: nat, k: nat)             // ... and cannot decode it, or the answer is lost
    | ReadMetadata(i: nat)
    | ReadFails(i: nat)
    | Write(i: nat)                        // the transaction commits, or its condition fails
    | WriteFails(i: nat, applied: bool)    // another error, perhaps after the commit
    | Publish(i: nat)
    | PublishFails(i: nat, delivered: bool)

  predicate Fails<E>(t: Step<E>) {
    t.PopFails? || t.ReadFails? || t.WriteFails? || t.PublishFails?
  }

  predicate Enabled<E(==)>(s: State<E>, t: Step<E>) {
    match t
    case Push(_) => true
    case Join => true
    case Pop(i, k) => i < |s.savers| && s.savers[i] == Idle && k < |s.saveList|
    case PopFails(i, k) => i < |s.savers| && s.savers[i] == Idle && k < |s.saveList|
    case ReadMetadata(i) => i < |s.savers| && s.savers[i].Holding?
    case ReadFails(i) => i < |s.savers| && s.savers[i].Holding?
    case Write(i) => i < |s.savers| && s.savers[i].HasRead?
    case WriteFails(i, applied) => i < |s.savers| && s.savers[i].HasRead? && (applied ==> s.savers[i].last == s.lastId)
    case Publish(i) => i < |s.savers| && s.savers[i].Recorded?
    case PublishFails(i, _) => i < |s.savers| && s.savers[i].Recorded?
  }

  /** The transaction: the counter goes up and the event gets the number after the one read. */
  function Commit<E>(s: State<E>, e: E, last: nat): State<E> {
    s.(lastId := s.lastId + 1, rows := s.rows[last + 1 := e])
  }

  function Set<E>(s: State<E>, i: nat, v: Saver<E>): State<E>
    requires i < |s.savers|
  {
    s.(savers := s.savers[i := v])
  }

  function Next<E(==)>(s: State<E>, t: Step<E>): State<E>
    requires Enabled(s, t) && |s.numbers| == |s.savers|
  {
    match t
    case Push(e) => s.(pushed := s.pushed + [e], saveList := s.saveList + [e])
    case Join => s.(savers := s.savers + [Idle], numbers := s.numbers + [[]])
    case Pop(i, k) => Set(s.(saveList := s.saveList[..k] + s.saveList[k + 1..]), i, Holding(s.saveList[k]))
    case PopFails(i, k) =>
      Set(s.(saveList := s.saveList[..k] + s.saveList[k + 1..], lost := s.lost + multiset{s.saveList[k]}), i, Broken)
    case ReadMetadata(i) => Set(s, i, HasRead(s.savers[i].e, s.lastId))
    case ReadFails(i) => Set(s.(lost := s.lost + multiset{s.savers[i].e}), i, Broken)
    case Write(i) =>
      var e, last := s.savers[i].e, s.savers[i].last;
      if last == s.lastId then
        Set(Commit(s, e, last).(numbers := s.numbers[i := s.numbers[i] + [last + 1]]), i, Recorded(e, last + 1))
      else Set(s, i, Holding(e))
    case WriteFails(i, applied) =>
      var e, last := s.savers[i].e, s.savers[i].last;
      if applied then Set(Commit(s, e, last).(silent := s.silent + {last + 1}), i, Broken)
      else Set(s.(lost := s.lost + multiset{e}), i, Broken)
    case Publish(i) => Set(s.(published := s.published + [Published(s.savers[i].seqNo, s.savers[i].e)]), i, Idle)
    case PublishFails(i, delivered) =>
      var p := Published(s.savers[i].seqNo, s.savers[i].e);
      if delivered then Set(s.(published := s.published + [p]), i, Broken)
      else Set(s.(silent := s.silent + {p.seqNo}), i, Broken)
  }

  /** A channel that was just created. */
  function Created<E>(): State<E> {
    State([], [], 0, map[], [], [], [], multiset{}, {})
  }

  ghost predicate Inv<E>(s: State<E>) {
    && |s.numbers| == |s.savers|
    && Dense(s.rows, s.lastId)
    && SaversAgree(s.savers, s.rows, s.lastId)
    && PublishedRows(s.published, s.rows)
    && Increasing(s.numbers, s.savers, s.lastId)
    && Announced(s)
    && Conserved(s)
  }

  /** The table holds the numbers 1 to `last`, each once. */
  ghost predicate Dense<E>(rows: map<nat, E>, last: nat) {
    forall k :: k in rows <==> 1 <= k <= last
  }

  ghost predicate SaversAgree<E>(savers: seq<Saver<E>>, rows: map<nat, E>, last: nat) {
    forall i :: 0 <= i < |savers| ==>
      && (savers[i].HasRead? ==> savers[i].last <= last)
      && (savers[i].Recorded? ==> savers[i].seqNo in rows && rows[savers[i].seqNo] == savers[i].e)
  }

  /** Everything published is a recorded row. */
  ghost predicate PublishedRows<E>(published: seq<Published<E>>, rows: map<nat, E>) {
    forall p :: p in published ==> p.seqNo in rows && rows[p.seqNo] == p.e
  }

  ghost predicate Ascends(a: seq<nat>) {
    forall j, k :: 0 <= j < k < |a| ==> a[j] < a[k]
  }

  /** A saver's own numbers ascend, and no two savers were assigned the same one. */
  ghost predicate Increasing<E>(numbers: seq<seq<nat>>, savers: seq<Saver<E>>, last: nat) {
    && (forall i :: 0 <= i < |numbers| ==> Ascends(numbers[i]))
    && (forall i, n :: 0 <= i < |numbers| && n in numbers[i] ==> 1 <= n <= last)
    && (forall i, j, n :: 0 <= i < |numbers| && 0 <= j < |numbers| && i != j && n in numbers[i] ==> n !in numbers[j])
    && (|numbers| == |savers| ==>
          forall i :: 0 <= i < |savers| && savers[i].Recorded? ==> savers[i].seqNo in numbers[i])
  }

  ghost predicate Pending<E>(savers: seq<Saver<E>>, n: nat) {
    exists i :: 0 <= i < |savers| && savers[i].Recorded? && savers[i].seqNo == n
  }

  ghost predicate WasPublished<E>(published: seq<Published<E>>, n: nat) {
    exists k :: 0 <= k < |published| && published[k].seqNo == n
  }

  /** Each recorded number is announced once, or is about to be, or its announcement failed. */
  ghost predicate Announced<E>(s: State<E>) {
    && (forall n :: n in s.rows <==> WasPublished(s.published, n) || Pending(s.savers, n) || n in s.silent)
    && (forall n :: Pending(s.savers, n) ==> !WasPublished(s.published, n) && n !in s.silent)
    && (forall j, k :: 0 <= j < k < |s.published| ==> s.published[j].seqNo != s.published[k].seqNo)
    && (forall k :: 0 <= k < |s.published| ==> s.published[k].seqNo !in s.silent)
  }

  function HeldBy<E>(v: Saver<E>): multiset<E> {
    if v.Holding? || v.HasRead? then multiset{v.e} else multiset{}
  }

  function Held<E>(savers: seq<Saver<E>>): multiset<E> {
    if savers == [] then multiset{} else Held(savers[..|savers| - 1]) + HeldBy(savers[|savers| - 1])
  }

  function RowBag<E>(rows: map<nat, E>, n: nat): multiset<E> {
    if n == 0 then multiset{} else RowBag(rows, n - 1) + (if n in rows then multiset{rows[n]} else multiset{})
  }

  /** Every event pushed is in exactly one place. */
  ghost predicate Conserved<E>(s: State<E>) {
    Adds(multiset(s.saveList), Held(s.savers), RowBag(s.rows, s.lastId), s.lost, multiset(s.pushed))
  }

  // ----- bags -----

  lemma BothPlus<E>(a: multiset<E>, b: multiset<E>, c: multiset<E>, d: multiset<E>, w: multiset<E>)
    requires a + b == c + d
    ensures a + w + b == c + w + d
  {
    assert a + w + b == a + b + w && c + w + d == c + d + w;
  }

  /** The places an event can be in. */
  ghost predicate Adds<E>(list: multiset<E>, held: multiset<E>, rows: multiset<E>, lost: multiset<E>,
      all: multiset<E>) {
    list + held + rows + lost == all
  }

  /** The events a saver gains and loses are those the other places lose and gain. */
  lemma Moves<E>(list: multiset<E>, held: multiset<E>, rows: multiset<E>, lost: multiset<E>, all: multiset<E>,
      list': multiset<E>, held': multiset<E>, rows': multiset<E>, lost': multiset<E>, before: multiset<E>,
      after: multiset<E>, e: multiset<E>)
    requires Adds(list, held, rows, lost, all)
    requires held' + before == held + after
    requires || (list' == list && rows' == rows && lost' == lost && before == after)
             || (list' + e == list && rows' == rows && lost' == lost && before == multiset{} && after == e)
             || (list' + e == list && rows' == rows && lost' == lost + e && before == multiset{} && after == multiset{})
             || (list' == list && rows' == rows + e && lost' == lost && before == e && after == multiset{})
             || (list' == list && rows' == rows && lost' == lost + e && before == e && after == multiset{})
    ensures Adds(list', held', rows', lost', all)
  {
    var sum, sum' := list + held + rows + lost, list' + held' + rows' + lost';
    forall x: E
      ensures sum'[x] == sum[x]
    {
      assert (held' + before)[x] == (held + after)[x];
      assert (list' + e)[x] == list'[x] + e[x];
    }
    assert sum' == sum;
  }

  lemma {:induction false} HeldUpdate<E>(savers: seq<Saver<E>>, i: nat, v: Saver<E>)
    requires i < |savers|
    ensures Held(savers[i := v]) + HeldBy(savers[i]) == Held(savers) + HeldBy(v)
  {
    hide HeldBy;
    var n := |savers| - 1;
    if i == n {
      assert savers[i := v][..n] == savers[..n];
    } else {
      HeldUpdate(savers[..n], i, v);
      assert savers[i := v][..n] == savers[..n][i := v];
      BothPlus(Held(savers[..n][i := v]), HeldBy(savers[i]), Held(savers[..n]), HeldBy(v), HeldBy(savers[n]));
    }
  }

  lemma HeldAppend<E>(savers: seq<Saver<E>>, v: Saver<E>)
    ensures Held(savers + [v]) == Held(savers) + HeldBy(v)
  {
    assert (savers + [v])[..|savers|] == savers;
  }

  lemma {:induction false} RowBagFrame<E>(rows: map<nat, E>, n: nat, k: nat, e: E)
    requires n < k
    ensures RowBag(rows[k := e], n) == RowBag(rows, n)
  {
    if n > 0 {
      RowBagFrame(rows, n - 1, k, e);
    }
  }

  lemma Removed<E>(q: seq<E>, k: nat)
    requires k < |q|
    ensures multiset(q[..k] + q[k + 1..]) + multiset{q[k]} == multiset(q)
  {
    assert q == q[..k] + [q[k]] + q[k + 1..];
  }

  // ----- each step keeps the invariant -----

  lemma NextConserves<E>(s: State<E>, t: Step<E>)
    requires Inv(s) && Enabled(s, t)
    ensures Conserved(Next(s, t))
  {
    hide Held, RowBag, SaversAgree, PublishedRows, Increasing, Announced, Adds;
    var r := Next(s, t);
    if t.Push? {
      Pushed(multiset(s.saveList), Held(s.savers), RowBag(s.rows, s.lastId), s.lost, multiset(s.pushed), multiset{t.e});
      assert multiset(r.saveList) == multiset(s.saveList) + multiset{t.e};
    } else if t.Join? {
      HeldAppend(s.savers, Idle);
      assert Held(r.savers) == Held(s.savers);
    } else if t.Pop? || t.PopFails? {
      ListStep(s, t);
    } else if r.lastId == s.lastId {
      SaverStep(s, t);
    } else {
      CommitStep(s, t);
    }
  }

  lemma ListStepChanges<E>(s: State<E>, t: Step<E>)
    requires |s.numbers| == |s.savers| && Enabled(s, t) && (t.Pop? || t.PopFails?)
    ensures var r := Next(s, t);
            && t.i < |s.savers| && t.k < |s.saveList| && s.savers[t.i] == Idle
            && r.savers == s.savers[t.i := if t.Pop? then Holding(s.saveList[t.k]) else Broken]
            && r.pushed == s.pushed && r.rows == s.rows && r.lastId == s.lastId
            && r.saveList == s.saveList[..t.k] + s.saveList[t.k + 1..]
            && r.lost == if t.Pop? then s.lost else s.lost + multiset{s.saveList[t.k]}
  {
  }

  lemma ListStep<E>(s: State<E>, t: Step<E>)
    requires Inv(s) && Enabled(s, t) && (t.Pop? || t.PopFails?)
    ensures Conserved(Next(s, t))
  {
    hide Held, RowBag, SaversAgree, PublishedRows, Increasing, Announced, Adds, Dense, Next, Enabled;
    ListStepChanges(s, t);
    var r := Next(s, t);
    Removed(s.saveList, t.k);
    HeldUpdate(s.savers, t.i, r.savers[t.i]);
    var e := multiset{s.saveList[t.k]};
    Moves(multiset(s.saveList), Held(s.savers), RowBag(s.rows, s.lastId), s.lost, multiset(s.pushed),
          multiset(r.saveList), Held(r.savers), RowBag(r.rows, r.lastId), r.lost,
          multiset{}, if t.Pop? then e else multiset{}, e);
  }

  /** Both savers hold the same event, or neither holds one. */
  predicate SameEvent<E(==)>(u: Saver<E>, v: Saver<E>) {
    if u.Holding? || u.HasRead? then (v.Holding? || v.HasRead?) && u.e == v.e
    else !v.Holding? && !v.HasRead?
  }

  lemma SaverStepChanges<E>(s: State<E>, t: Step<E>)
    requires |s.numbers| == |s.savers| && Enabled(s, t) && !t.Push? && !t.Join? && !t.Pop? && !t.PopFails?
    requires Next(s, t).lastId == s.lastId
    ensures var r := Next(s, t);
            && t.i < |s.savers| && r.savers == s.savers[t.i := r.savers[t.i]]
            && r.pushed == s.pushed && r.saveList == s.saveList && r.rows == s.rows
            && (t.ReadFails? || t.WriteFails? ==>
                  (s.savers[t.i].Holding? || s.savers[t.i].HasRead?) &&
                  r.savers[t.i] == Broken && r.lost == s.lost + multiset{s.savers[t.i].e})
            && (!t.ReadFails? && !t.WriteFails? ==>
                  r.lost == s.lost && SameEvent(s.savers[t.i], r.savers[t.i]))
  {
    match t
    case ReadMetadata(i) =>
    case ReadFails(i) =>
    case Write(i) =>
    case WriteFails(i, applied) =>
    case Publish(i) =>
    case PublishFails(i, delivered) =>
  }

  lemma SaverStep<E>(s: State<E>, t: Step<E>)
    requires Inv(s) && Enabled(s, t) && !t.Push? && !t.Join? && !t.Pop? && !t.PopFails?
    requires Next(s, t).lastId == s.lastId
    ensures Conserved(Next(s, t))
  {
    hide Held, RowBag, SaversAgree, PublishedRows, Increasing, Announced, Adds, Dense, Next, Enabled;
    SaverStepChanges(s, t);
    var r := Next(s, t);
    var was, now := HeldBy(s.savers[t.i]), HeldBy(r.savers[t.i]);
    HeldUpdate(s.savers, t.i, r.savers[t.i]);
    Moves(multiset(s.saveList), Held(s.savers), RowBag(s.rows, s.lastId), s.lost, multiset(s.pushed),
          multiset(r.saveList), Held(r.savers), RowBag(r.rows, r.lastId), r.lost, was, now, was);
  }

  lemma CommitStep<E>(s: State<E>, t: Step<E>)
    requires Inv(s) && Enabled(s, t)
    requires Next(s, t).lastId != s.lastId
    ensures Conserved(Next(s, t))
  {
    hide Held, RowBag, SaversAgree, PublishedRows, Increasing, Announced, Adds, Dense;
    var r := Next(s, t);
    assert t.Write? || t.WriteFails?;
    assert r.savers == s.savers[t.i := r.savers[t.i]];
    var e := multiset{s.savers[t.i].e};
    HeldUpdate(s.savers, t.i, r.savers[t.i]);
    Committed(s.rows, s.lastId, s.savers[t.i].e);
    Moves(multiset(s.saveList), Held(s.savers), RowBag(s.rows, s.lastId), s.lost, multiset(s.pushed),
          multiset(r.saveList), Held(r.savers), RowBag(r.rows, r.lastId), r.lost, e, multiset{}, e);
  }

  lemma Pushed<E>(list: multiset<E>, held: multiset<E>, rows: multiset<E>, lost: multiset<E>, all: multiset<E>,
      e: multiset<E>)
    requires Adds(list, held, rows, lost, all)
    ensures Adds(list + e, held, rows, lost, all + e)
  {
  }

  lemma Committed<E>(rows: map<nat, E>, last: nat, e: E)
    ensures RowBag(rows[last + 1 := e], last + 1) == RowBag(rows, last) + multiset{e}
  {
    RowBagFrame(rows, last, last + 1, e);
  }

  /** The table only grows, and rows never change. */
  ghost predicate Extends<E>(rows: map<nat, E>, rows': map<nat, E>) {
    forall k :: k in rows ==> k in rows' && rows'[k] == rows[k]
  }

  predicate Commits<E>(s: State<E>, t: Step<E>)
    requires Enabled(s, t)
  {
    (t.Write? && s.savers[t.i].last == s.lastId) || (t.WriteFails? && t.applied)
  }

  /** What a step does to the counter, the table and the announcements. */
  lemma TableChanges<E>(s: State<E>, t: Step<E>)
    requires |s.numbers| == |s.savers| && Enabled(s, t)
    ensures var r := Next(s, t);
            && (Commits(s, t) ==> r.lastId == s.lastId + 1 && r.rows == s.rows[s.lastId + 1 := s.savers[t.i].e])
            && (!Commits(s, t) ==> r.lastId == s.lastId && r.rows == s.rows)
            && (r.published == if t.Publish? || (t.PublishFails? && t.delivered)
                               then s.published + [Published(s.savers[t.i].seqNo, s.savers[t.i].e)] else s.published)
            && (r.silent == if t.PublishFails? && !t.delivered then s.silent + {s.savers[t.i].seqNo}
                            else if t.WriteFails? && t.applied then s.silent + {s.lastId + 1} else s.silent)
  {
    match t
    case Push(_) =>
    case Join =>
    case Pop(i, k) =>
    case PopFails(i, k) =>
    case ReadMetadata(i) =>
    case ReadFails(i) =>
    case Write(i) =>
    case WriteFails(i, applied) =>
    case Publish(i) =>
    case PublishFails(i, delivered) =>
  }

  /** What a step does to the savers. */
  lemma SaversChange<E>(s: State<E>, t: Step<E>)
    requires |s.numbers| == |s.savers| && Enabled(s, t)
    ensures var r := Next(s, t);
            && |r.numbers| == |r.savers|
            && (t.Push? ==> r.savers == s.savers)
            && (t.Join? ==> r.savers == s.savers + [Idle])
            && (!t.Push? && !t.Join? ==>
                  && t.i < |s.savers|
                  && r.savers == s.savers[t.i := r.savers[t.i]]
                  && (r.savers[t.i].HasRead? ==> r.savers[t.i].last == s.lastId)
                  && (r.savers[t.i].Recorded? <==> t.Write? && Commits(s, t))
                  && (r.savers[t.i].Recorded? ==> r.savers[t.i] == Recorded(s.savers[t.i].e, s.lastId + 1)))
  {
    match t
    case Push(_) =>
    case Join =>
    case Pop(i, k) =>
    case PopFails(i, k) =>
    case ReadMetadata(i) =>
    case ReadFails(i) =>
    case Write(i) =>
    case WriteFails(i, applied) =>
    case Publish(i) =>
    case PublishFails(i, delivered) =>
  }

  lemma NextRows<E>(s: State<E>, t: Step<E>)
    requires Inv(s) && Enabled(s, t)
    ensures var r := Next(s, t);
            && |r.numbers| == |r.savers|
            && Dense(r.rows, r.lastId) && Extends(s.rows, r.rows) && s.lastId <= r.lastId
            && SaversAgree(r.savers, r.rows, r.lastId)
            && PublishedRows(r.published, r.rows)
  {
    hide Conserved, Announced, Increasing, Next;
    var r := Next(s, t);
    TableChanges(s, t);
    SaversChange(s, t);
  }

  lemma NextIncreasing<E>(s: State<E>, t: Step<E>)
    requires Inv(s) && Enabled(s, t)
    ensures var r := Next(s, t); Increasing(r.numbers, r.savers, r.lastId)
  {
    hide Conserved, Announced, Dense, PublishedRows;
    var r := Next(s, t);
    if t.Write? && s.savers[t.i].last == s.lastId {
      Assigns(s.numbers, s.savers, s.lastId, t.i, r.savers[t.i]);
    } else if t.Join? {
      NewSaver(s.numbers, s.savers, s.lastId);
    } else if !t.Push? {
      Reports(s.numbers, s.savers, s.lastId, t.i, r.savers[t.i], r.lastId);
    }
  }

  /** A saver is assigned the next number. */
  lemma Assigns<E>(numbers: seq<seq<nat>>, savers: seq<Saver<E>>, last: nat, i: nat, v: Saver<E>)
    requires Increasing(numbers, savers, last) && |numbers| == |savers| && i < |savers|
    requires v.Recorded? && v.seqNo == last + 1
    ensures Increasing(numbers[i := numbers[i] + [last + 1]], savers[i := v], last + 1)
  {
    var numbers' := numbers[i := numbers[i] + [last + 1]];
    forall k | 0 <= k < |numbers'|
      ensures Ascends(numbers'[k])
    {
      assert Ascends(numbers[k]);
      if k == i {
        assert forall j :: 0 <= j < |numbers[i]| ==> numbers[i][j] in numbers[i];
      }
    }
    forall k, n | 0 <= k < |numbers'| && n in numbers'[k]
      ensures n in numbers[k] || (k == i && n == last + 1)
    {
    }
  }

  lemma NewSaver<E>(numbers: seq<seq<nat>>, savers: seq<Saver<E>>, last: nat)
    requires Increasing(numbers, savers, last) && |numbers| == |savers|
    ensures Increasing(numbers + [[]], savers + [Idle], last)
  {
    assert Ascends([]);
  }

  /** A saver that is assigned nothing: what it says it recorded, it recorded. */
  lemma Reports<E>(numbers: seq<seq<nat>>, savers: seq<Saver<E>>, last: nat, i: nat, v: Saver<E>, last': nat)
    requires Increasing(numbers, savers, last) && |numbers| == |savers| && i < |savers| && last <= last'
    requires v.Recorded? ==> v == savers[i]
    ensures Increasing(numbers, savers[i := v], last')
  {
  }

  /** No two savers are about to publish the same number. */
  lemma SoleSaver<E>(s: State<E>, i: nat, j: nat)
    requires Inv(s) && i < |s.savers| && j < |s.savers|
    requires s.savers[i].Recorded? && s.savers[j].Recorded? && s.savers[i].seqNo == s.savers[j].seqNo
    ensures i == j
  {
    hide Conserved, Announced, Dense, PublishedRows;
    assert s.savers[i].seqNo in s.numbers[i];
  }

  /** The number that step `t` records. */
  predicate Records<E(==)>(s: State<E>, t: Step<E>, n: nat)
    requires Enabled(s, t)
  {
    t.Write? && s.savers[t.i].last == s.lastId && n == s.lastId + 1
  }

  /** The number whose announcement step `t` settles. */
  predicate Settles<E(==)>(s: State<E>, t: Step<E>, n: nat)
    requires Enabled(s, t)
  {
    (t.Publish? || t.PublishFails?) && n == s.savers[t.i].seqNo
  }

  lemma NextPending<E>(s: State<E>, t: Step<E>, n: nat)
    requires Inv(s) && Enabled(s, t)
    ensures Pending(Next(s, t).savers, n) <==> Records(s, t, n) || (Pending(s.savers, n) && !Settles(s, t, n))
  {
    hide Conserved, Announced, Dense, PublishedRows, Increasing, SaversAgree, Next;
    var r := Next(s, t);
    SaversChange(s, t);
    if Pending(r.savers, n) && !Records(s, t, n) {
      var j :| 0 <= j < |r.savers| && r.savers[j].Recorded? && r.savers[j].seqNo == n;
      assert j < |s.savers| && s.savers[j] == r.savers[j];
      if Settles(s, t, n) {
        SoleSaver(s, j, t.i);
      }
    }
    if Pending(s.savers, n) && !Settles(s, t, n) {
      var j :| 0 <= j < |s.savers| && s.savers[j].Recorded? && s.savers[j].seqNo == n;
      assert r.savers[j] == s.savers[j];
    }
    if Records(s, t, n) {
      assert r.savers[t.i].Recorded? && r.savers[t.i].seqNo == n;
    }
  }

  lemma NextPublished<E>(s: State<E>, t: Step<E>, n: nat)
    requires Inv(s) && Enabled(s, t)
    ensures WasPublished(Next(s, t).published, n) <==>
            WasPublished(s.published, n) || (Settles(s, t, n) && (t.Publish? || t.delivered))
  {
    hide Conserved, Announced, Dense, PublishedRows, Increasing, SaversAgree, Next;
    TableChanges(s, t);
    var r := Next(s, t);
    if WasPublished(s.published, n) {
      var k :| 0 <= k < |s.published| && s.published[k].seqNo == n;
      assert r.published[k].seqNo == n;
    }
    if Settles(s, t, n) && (t.Publish? || t.delivered) {
      assert r.published[|s.published|].seqNo == n;
    }
  }

  lemma NextAnnounced<E>(s: State<E>, t: Step<E>)
    requires Inv(s) && Enabled(s, t)
    ensures Announced(Next(s, t))
  {
    hide Conserved, Pending, WasPublished, Increasing, PublishedRows, Next;
    var r := Next(s, t);
    forall n
      ensures n in r.rows <==> WasPublished(r.published, n) || Pending(r.savers, n) || n in r.silent
      ensures Pending(r.savers, n) ==> !WasPublished(r.published, n) && n !in r.silent
    {
      NextPending(s, t, n);
      NextPublished(s, t, n);
      NextSilent(s, t, n);
    }
    OncePublished(s, t);
  }

  lemma NextSilent<E>(s: State<E>, t: Step<E>, n: nat)
    requires Inv(s) && Enabled(s, t)
    ensures n in Next(s, t).silent <==>
            || n in s.silent
            || (Settles(s, t, n) && t.PublishFails? && !t.delivered)
            || (t.WriteFails? && t.applied && n == s.lastId + 1)
    ensures n in Next(s, t).rows <==>
              n in s.rows || Records(s, t, n) || (t.WriteFails? && t.applied && n == s.lastId + 1)
    ensures Settles(s, t, n) ==> Pending(s.savers, n)
  {
    hide Conserved, Announced, Dense, PublishedRows, Increasing, Next;
    TableChanges(s, t);
  }

  lemma OncePublished<E>(s: State<E>, t: Step<E>)
    requires Inv(s) && Enabled(s, t)
    ensures var r := Next(s, t);
            && (forall j, k :: 0 <= j < k < |r.published| ==> r.published[j].seqNo != r.published[k].seqNo)
            && (forall k :: 0 <= k < |r.published| ==> r.published[k].seqNo !in r.silent)
  {
    hide Conserved, Increasing, PublishedRows, Next;
    TableChanges(s, t);
    var r := Next(s, t);
    if t.Publish? || t.PublishFails? {
      var n := s.savers[t.i].seqNo;
      assert Pending(s.savers, n);
      assert !WasPublished(s.published, n);
    } else if t.WriteFails? {
      forall k | 0 <= k < |s.published|
        ensures s.published[k].seqNo != s.lastId + 1
      {
        assert WasPublished(s.published, s.published[k].seqNo);
      }
    }
  }

  lemma NextKeeps<E>(s: State<E>, t: Step<E>)
    requires Inv(s) && Enabled(s, t)
    ensures Inv(Next(s, t)) && Extends(s.rows, Next(s, t).rows)
  {
    hide Next, Enabled, Conserved, Announced, Dense, PublishedRows, Increasing, SaversAgree, Extends;
    NextRows(s, t);
    NextIncreasing(s, t);
    NextAnnounced(s, t);
    NextConserves(s, t);
  }

  // ----- runs -----

  /** The events that the steps push, in order. */
  function PushedBy<E>(steps: seq<Step<E>>): seq<E> {
    if steps == [] then []
    else
      var t := steps[|steps| - 1];
      PushedBy(steps[..|steps| - 1]) + (if t.Push? then [t.e] else [])
  }

  /** The event that a step takes off the list, and what that leaves of it. */
  function PoppedBy<E>(list: seq<E>, t: Step<E>): (seq<E>, seq<E>) {
    match t
    case Pop(_, k) => if k < |list| then ([list[k]], list[..k] + list[k + 1..]) else ([], list)
    case PopFails(_, k) => if k < |list| then ([list[k]], list[..k] + list[k + 1..]) else ([], list)
    case _ => ([], list)
  }

  /** A saver pops, reads, writes and publishes in turn, reads again when its condition fails, and
      stops at any other error. */
  ghost predicate SaverDoes<E>(t: Step<E>, last: nat, popped: seq<E>, v: Saver<E>, v': Saver<E>) {
    match (t, v, v')
    case (Pop(_, _), Idle, Holding(e)) => popped == [e]
    case (ReadMetadata(_), Holding(e), HasRead(e', read)) => e' == e && read == last
    case (Write(_), HasRead(e, read), Recorded(e', n)) => read == last && e' == e && n == last + 1
    case (Write(_), HasRead(e, read), Holding(e')) => read != last && e' == e
    case (Publish(_), Recorded(_, _), Idle) => true
    case (PopFails(_, _), Idle, Broken) => popped != []
    case (ReadFails(_), Holding(_), Broken) => true
    case (WriteFails(_, applied), HasRead(_, read), Broken) => applied ==> read == last
    case (PublishFails(_, _), Recorded(_, _), Broken) => true
    case _ => false
  }

  /** An error loses the event it happens to, unless the event was recorded before. */
  ghost function LostBy<E>(t: Step<E>, v: Saver<E>, popped: seq<E>): multiset<E> {
    match (t, v)
    case (PopFails(_, _), _) => multiset(popped)
    case (ReadFails(_), Holding(e)) => multiset{e}
    case (WriteFails(_, applied), HasRead(e, _)) => if applied then multiset{} else multiset{e}
    case _ => multiset{}
  }

  /** What a step does to the list and to the saver that takes it. */
  ghost predicate Does<E>(s: State<E>, t: Step<E>, r: State<E>) {
    match t
    case Push(e) =>
      r.pushed == s.pushed + [e] && r.saveList == s.saveList + [e] && r.savers == s.savers && r.lost == s.lost
    case Join =>
      r.pushed == s.pushed && r.saveList == s.saveList && r.savers == s.savers + [Idle] && r.lost == s.lost
    case _ =>
      && t.i < |s.savers| == |r.savers| && r.savers == s.savers[t.i := r.savers[t.i]]
      && r.pushed == s.pushed && r.saveList == PoppedBy(s.saveList, t).1
      && SaverDoes(t, s.lastId, PoppedBy(s.saveList, t).0, s.savers[t.i], r.savers[t.i])
      && r.lost == s.lost + LostBy(t, s.savers[t.i], PoppedBy(s.saveList, t).0)
  }

  lemma NextList<E>(s: State<E>, t: Step<E>)
    requires |s.numbers| == |s.savers| && Enabled(s, t) && !t.Push? && !t.Join?
    ensures Next(s, t).pushed == s.pushed && Next(s, t).saveList == PoppedBy(s.saveList, t).1
  {
  }

  lemma NextLost<E>(s: State<E>, t: Step<E>)
    requires |s.numbers| == |s.savers| && Enabled(s, t) && !t.Push? && !t.Join?
    ensures t.i < |s.savers| && Next(s, t).lost == s.lost + LostBy(t, s.savers[t.i], PoppedBy(s.saveList, t).0)
  {
    if t.PopFails? {
      assert multiset([s.saveList[t.k]]) == multiset{s.saveList[t.k]};
    }
  }

  lemma NextSaver<E>(s: State<E>, t: Step<E>)
    requires |s.numbers| == |s.savers| && Enabled(s, t) && !t.Push? && !t.Join?
    ensures var r := Next(s, t);
            && t.i < |s.savers| == |r.savers| && r.savers == s.savers[t.i := r.savers[t.i]]
            && SaverDoes(t, s.lastId, PoppedBy(s.saveList, t).0, s.savers[t.i], r.savers[t.i])
  {
  }

  lemma NextDoes<E>(s: State<E>, t: Step<E>)
    requires |s.numbers| == |s.savers| && Enabled(s, t)
    ensures Does(s, t, Next(s, t))
  {
    if !t.Push? && !t.Join? {
      hide Next, Enabled, SaverDoes, PoppedBy, LostBy;
      NextList(s, t);
      NextLost(s, t);
      NextSaver(s, t);
    }
  }

  /** The steps lead from one state to another. */
  ghost predicate Leads<E>(s: State<E>, steps: seq<Step<E>>, r: State<E>)
    decreases |steps|
  {
    if steps == [] then r == s
    else |s.numbers| == |s.savers| && Enabled(s, steps[0]) && Leads(Next(s, steps[0]), steps[1..], r)
  }

  lemma {:induction false} LeadsOn<E>(s: State<E>, steps: seq<Step<E>>, mid: State<E>, more: seq<Step<E>>, r: State<E>)
    requires Leads(s, steps, mid) && Leads(mid, more, r)
    ensures Leads(s, steps + more, r)
    decreases |steps|
  {
    hide Next, Enabled;
    if steps == [] {
      assert steps + more == more;
    } else {
      LeadsOn(Next(s, steps[0]), steps[1..], mid, more, r);
      assert (steps + more)[1..] == steps[1..] + more;
    }
  }

  lemma OneStep<E>(s: State<E>, t: Step<E>)
    requires |s.numbers| == |s.savers| && Enabled(s, t)
    ensures Leads(s, [t], Next(s, t))
  {
    hide Next, Enabled;
    assert [t][1..] == [];
    assert Leads(Next(s, t), [], Next(s, t));
  }

  /** The next step of a saver that has an event. */
  function Onward<E>(v: Saver<E>, i: nat): Step<E> {
    if v.Holding? then ReadMetadata(i) else if v.HasRead? then Write(i) else Publish(i)
  }

  /** How many steps the saver needs when nobody interferes. */
  function StepsLeft<E>(v: Saver<E>, last: nat): nat {
    match v
    case Idle => 0
    case Recorded(_, _) => 1
    case HasRead(_, read) => if read == last then 2 else 4
    case Holding(_) => 3
    case Broken => 0
  }

  function Busy<E>(savers: seq<Saver<E>>): nat {
    if savers == [] then 0
    else Busy(savers[..|savers| - 1]) + (if savers[|savers| - 1].Idle? then 0 else 1)
  }

  lemma {:induction false} BusyUpdate<E>(savers: seq<Saver<E>>, i: nat, v: Saver<E>)
    requires i < |savers|
    ensures Busy(savers[i := v]) + (if savers[i].Idle? then 0 else 1) == Busy(savers) + (if v.Idle? then 0 else 1)
  {
    var n := |savers| - 1;
    if i < n {
      BusyUpdate(savers[..n], i, v);
      assert savers[i := v][..n] == savers[..n][i := v];
    } else {
      assert savers[i := v][..n] == savers[..n];
    }
  }

  ghost predicate Undisturbed<E>(steps: seq<Step<E>>) {
    forall k :: 0 <= k < |steps| ==> !Fails(steps[k]) && !steps[k].Push? && !steps[k].Join?
  }

  /** A saver that goes on alone records its event, publishes it and is idle again. */
  lemma {:induction false} RunsOut<E>(s: State<E>, i: nat) returns (steps: seq<Step<E>>, r: State<E>)
    requires Inv(s) && i < |s.savers| && !s.savers[i].Broken?
    ensures Inv(r) && Leads(s, steps, r) && Undisturbed(steps)
    ensures r.savers == s.savers[i := Idle] && r.saveList == s.saveList && r.pushed == s.pushed
    decreases StepsLeft(s.savers[i], s.lastId)
  {
    hide Conserved, Announced, Dense, PublishedRows, Increasing;
    if s.savers[i].Idle? {
      steps, r := [], s;
    } else {
      var t := Onward(s.savers[i], i);
      var next := Next(s, t);
      NextDoes(s, t);
      NextKeeps(s, t);
      OneStep(s, t);
      assert StepsLeft(next.savers[i], next.lastId) < StepsLeft(s.savers[i], s.lastId);
      hide Next, Enabled, Inv;
      var more: seq<Step<E>>;
      more, r := RunsOut(next, i);
      steps := [t] + more;
      LeadsOn(s, [t], next, more, r);
    }
  }

  /** No saver blocks another: from every state in which none is broken, and there is one at all,
      the list can be drained, whoever holds what and whatever was read before. */
  lemma {:induction false} CanDrain<E>(s: State<E>) returns (steps: seq<Step<E>>, r: State<E>)
    requires Inv(s) && s.savers != [] && forall i :: 0 <= i < |s.savers| ==> !s.savers[i].Broken?
    ensures Inv(r) && Leads(s, steps, r) && Undisturbed(steps) && Quiet(r) && r.pushed == s.pushed
    decreases |s.saveList|, Busy(s.savers)
  {
    hide Conserved, Announced, Dense, PublishedRows, Increasing, Next, Enabled, Inv;
    if exists i :: 0 <= i < |s.savers| && !s.savers[i].Idle? {
      var i :| 0 <= i < |s.savers| && !s.savers[i].Idle?;
      var first, mid := RunsOut(s, i);
      BusyUpdate(s.savers, i, Idle);
      var more: seq<Step<E>>;
      more, r := CanDrain(mid);
      steps := first + more;
      LeadsOn(s, first, mid, more, r);
    } else if s.saveList != [] {
      var t := Pop(0, 0);
      var mid := PopsFirst(s);
      var more: seq<Step<E>>;
      more, r := CanDrain(mid);
      steps := [t] + more;
      LeadsOn(s, [t], mid, more, r);
    } else {
      steps, r := [], s;
    }
  }

  lemma PopsFirst<E>(s: State<E>) returns (r: State<E>)
    requires Inv(s) && s.savers != [] && s.saveList != [] && s.savers[0].Idle?
    ensures Inv(r) && Leads(s, [Pop(0, 0)], r)
    ensures r.saveList == s.saveList[1..] && r.pushed == s.pushed && |r.savers| == |s.savers|
    ensures r.savers == s.savers[0 := r.savers[0]] && !r.savers[0].Broken?
  {
    hide Conserved, Announced, Dense, PublishedRows, Increasing;
    var t: Step<E> := Pop(0, 0);
    r := Next(s, t);
    NextDoes(s, t);
    NextKeeps(s, t);
    OneStep(s, t);
    assert s.saveList[..0] + s.saveList[1..] == s.saveList[1..];
  }

  /** The states of a run: each step is enabled where it is taken. */
  ghost predicate IsRun<E>(steps: seq<Step<E>>, states: seq<State<E>>) {
    && |states| == |steps| + 1
    && states[0] == Created()
    && forall k :: 0 <= k < |steps| ==>
         |states[k].numbers| == |states[k].savers| && Enabled(states[k], steps[k])
             && states[k + 1] == Next(states[k], steps[k])
  }

  /** However the savers interleave, and whatever fails: the table holds exactly the numbers 1
      to lastId, what is published is a recorded row and is published once, each saver's
      numbers ascend, and every event pushed by one of the steps is in one place. */
  lemma {:induction false} EveryRun<E>(steps: seq<Step<E>>, states: seq<State<E>>, k: nat)
    requires IsRun(steps, states) && k <= |steps|
    ensures Inv(states[k]) && states[k].pushed == PushedBy(steps[..k])
    ensures k < |steps| ==> Does(states[k], steps[k], states[k + 1])
  {
    hide Next, Enabled, Inv, Does;
    if k == 0 {
      CreatedInv<E>();
    } else {
      EveryRun(steps, states, k - 1);
      NextKeeps(states[k - 1], steps[k - 1]);
      DoesPush(states[k - 1], steps[k - 1], states[k]);
      assert steps[..k][..k - 1] == steps[..k - 1];
    }
    if k < |steps| {
      NextDoes(states[k], steps[k]);
    }
  }

  lemma DoesPush<E>(s: State<E>, t: Step<E>, r: State<E>)
    requires Does(s, t, r)
    ensures r.pushed == s.pushed + (if t.Push? then [t.e] else [])
  {
  }

  lemma CreatedInv<E>()
    ensures Inv(Created<E>())
  {
    assert forall n :: !WasPublished<E>([], n) && !Pending<E>([], n);
  }

  /** What was recorded stays recorded, under the same number. */
  lemma {:induction false} RowsStay<E>(steps: seq<Step<E>>, states: seq<State<E>>, j: nat, k: nat)
    requires IsRun(steps, states) && j <= k <= |steps|
    ensures Extends(states[j].rows, states[k].rows) && states[j].lastId <= states[k].lastId
    decreases k
  {
    hide Next, Enabled, Inv;
    if j < k {
      RowsStay(steps, states, j, k - 1);
      EveryRun(steps, states, k - 1);
      NextKeeps(states[k - 1], steps[k - 1]);
      assert Dense(states[k].rows, states[k].lastId) && Dense(states[j].rows, states[j].lastId) by {
        EveryRun(steps, states, k);
        EveryRun(steps, states, j);
        InvDense(states[j]);
        InvDense(states[k]);
      }
      assert states[j].lastId in states[j].rows || states[j].lastId == 0;
    }
  }

  lemma InvDense<E>(s: State<E>)
    requires Inv(s)
    ensures Dense(s.rows, s.lastId)
  {
  }

  ghost predicate NothingFails<E>(steps: seq<Step<E>>) {
    forall k :: 0 <= k < |steps| ==> !Fails(steps[k])
  }

  ghost predicate NothingLost<E>(s: State<E>) {
    s.lost == multiset{} && s.silent == {} && forall i :: 0 <= i < |s.savers| ==> !s.savers[i].Broken?
  }

  /** A run in which only condition checks fail loses nothing: an event popped is held by a
      saver or recorded, and a number recorded is published or about to be. */
  lemma {:induction false} OnlyConflicts<E>(steps: seq<Step<E>>, states: seq<State<E>>, k: nat)
    requires IsRun(steps, states) && NothingFails(steps) && k <= |steps|
    ensures NothingLost(states[k])
  {
    hide Next, Enabled, Fails;
    if k > 0 {
      OnlyConflicts(steps, states, k - 1);
      StepLosesNothing(states[k - 1], steps[k - 1]);
    }
  }

  lemma StepLosesNothing<E>(s: State<E>, t: Step<E>)
    requires |s.numbers| == |s.savers| && Enabled(s, t)
    ensures NothingLost(s) && !Fails(t) ==> NothingLost(Next(s, t))
  {
  }

  ghost predicate Quiet<E>(s: State<E>) {
    s.saveList == [] && forall i :: 0 <= i < |s.savers| ==> s.savers[i].Idle?
  }

  /** Once such a run has drained the list, the log holds each event pushed exactly once, and
      exactly its rows have been published, each once. */
  lemma Drained<E>(steps: seq<Step<E>>, states: seq<State<E>>)
    requires IsRun(steps, states) && NothingFails(steps) && Quiet(states[|steps|])
    ensures var s := states[|steps|];
            && RowBag(s.rows, s.lastId) == multiset(s.pushed)
            && (forall n :: n in s.rows <==> WasPublished(s.published, n))
            && (forall j, k :: 0 <= j < k < |s.published| ==> s.published[j].seqNo != s.published[k].seqNo)
            && PublishedRows(s.published, s.rows)
  {
    hide Next, Enabled, Fails;
    var s := states[|steps|];
    EveryRun(steps, states, |steps|);
    OnlyConflicts(steps, states, |steps|);
    IdleHoldNothing(s.savers);
    assert forall n :: !Pending(s.savers, n);
  }

  lemma {:induction false} IdleHoldNothing<E>(savers: seq<Saver<E>>)
    requires forall i :: 0 <= i < |savers| ==> savers[i].Idle?
    ensures Held(savers) == multiset{}
  {
    if savers != [] {
      IdleHoldNothing(savers[..|savers| - 1]);
    }
  }
}
