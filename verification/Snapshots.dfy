/** Compaction of a channel's log into snapshots, while savers keep appending to it. */
module Snapshots {
  import opened Options
  import opened EventLog

  datatype Message<E> =
    | RTPersisted(seqNo: nat, val: E)
    | RTTransient(val: E)
    | RTSnapshot(seqNo: nat, model: E)

  datatype Snapshot<M> = Snapshot(seqNo: nat, model: M)

  /** How the first message makes a snapshot, and how each later one changes it. */
  datatype Reducer<!E, !M> = Reducer(
    initial: Message<E> -> Option<Snapshot<M>>,
    step: (Message<E>, Snapshot<M>) -> Snapshot<M>)

  /** A snapshot that a recorded event makes or changes has the event's number. */
  ghost predicate Numbered<E(!new), M(!new)>(rd: Reducer<E, M>) {
    forall n, v ::
      && rd.initial(RTPersisted(n, v)).Some?
      && rd.initial(RTPersisted(n, v)).value.seqNo == n
      && forall s :: rd.step(RTPersisted(n, v), s).seqNo == n
  }

  /** The left fold of the messages over a base snapshot, if there is one. */
  function Fold<E, M>(rd: Reducer<E, M>, base: Option<Snapshot<M>>, ms: seq<Message<E>>): Option<Snapshot<M>>
    decreases ms
  {
    if ms == [] then base
    else Fold(rd, FoldOne(rd, base, ms[0]), ms[1..])
  }

  function FoldOne<E, M>(rd: Reducer<E, M>, base: Option<Snapshot<M>>, m: Message<E>): Option<Snapshot<M>> {
    if base.None? then rd.initial(m) else Some(rd.step(m, base.value))
  }

  /** A query for the events after number `from`, in order. */
  function Later<E>(rows: map<nat, E>, from: nat, last: nat): seq<Message<E>> {
    if last <= from then []
    else Later(rows, from, last - 1) + (if last in rows then [RTPersisted(last, rows[last])] else [])
  }

  function SeqOf<M>(base: Option<Snapshot<M>>): nat {
    if base.Some? then base.value.seqNo else 0
  }

  // ----- compactors -----

  datatype Compactor<E, M> =
    | Resting
    | Querying(wanted: nat)                                        // the cache was not enough
    | Checked(wanted: nat, base: Option<Snapshot<M>>)              // out of date, or no snapshot
    | GotEvents(wanted: nat, base: Option<Snapshot<M>>, later: seq<Message<E>>)
    | Stopped

  datatype Channel<E, M> = Channel(
    log: EventLog.State<E>,
    table: map<nat, M>,             // the snapshot table, by sequence number
    compactors: seq<Compactor<E, M>>,
    caches: seq<Option<Snapshot<M>>>)

  datatype Action<E> =
    | Log(t: EventLog.Step<E>)
    | Start                               // another compactor
    | Request(i: nat, wanted: nat)
    | QueryLatest(i: nat)
    | ReadLater(i: nat)
    | Save(i: nat)
    | SaveFails(i: nat, applied: bool)
    | Stop(i: nat)                        // a query fails

  /** The query for the latest snapshot: the one with the greatest number. */
  function Latest<M>(table: map<nat, M>): (r: Option<Snapshot<M>>)
    ensures r.None? <==> table == map[]
    ensures r.Some? ==> r.value.seqNo in table && table[r.value.seqNo] == r.value.model
    ensures r.Some? ==> forall n :: n in table ==> n <= r.value.seqNo
  {
    if table == map[] then None
    else
      MaxExists(table.Keys);
      var n :| n in table && forall m :: m in table ==> m <= n;
      Some(Snapshot(n, table[n]))
  }

  lemma {:induction false} MaxExists(ns: set<nat>)
    requires ns != {}
    ensures exists n :: n in ns && forall m :: m in ns ==> m <= n
  {
    var x :| x in ns;
    var rest := ns - {x};
    assert forall m :: m in ns ==> m == x || m in rest;
    if rest == {} {
      assert forall m :: m in ns ==> m <= x;
    } else {
      MaxExists(rest);
      var y :| y in rest && forall m :: m in rest ==> m <= y;
      var top := if x < y then y else x;
      assert top in ns && forall m :: m in ns ==> m == x || m in rest;
    }
  }

  predicate Enabled<E(==), M(==)>(s: Channel<E, M>, t: Action<E>) {
    match t
    case Log(u) => |s.log.numbers| == |s.log.savers| && EventLog.Enabled(s.log, u)
    case Start => true
    case Request(i, _) => i < |s.compactors| && s.compactors[i].Resting?
    case QueryLatest(i) => i < |s.compactors| && s.compactors[i].Querying?
    case ReadLater(i) => i < |s.compactors| && s.compactors[i].Checked?
    case Save(i) => i < |s.compactors| && s.compactors[i].GotEvents?
    case SaveFails(i, _) => i < |s.compactors| && s.compactors[i].GotEvents?
    case Stop(i) => i < |s.compactors| && (s.compactors[i].Querying? || s.compactors[i].Checked?)
  }

  function At<E, M>(s: Channel<E, M>, i: nat, c: Compactor<E, M>): Channel<E, M>
    requires i < |s.compactors|
  {
    s.(compactors := s.compactors[i := c])
  }

  function Next<E(==), M(==)>(rd: Reducer<E, M>, s: Channel<E, M>, t: Action<E>): Channel<E, M>
    requires Enabled(s, t) && |s.caches| == |s.compactors|
  {
    match t
    case Log(u) => s.(log := EventLog.Next(s.log, u))
    case Start => s.(compactors := s.compactors + [Resting], caches := s.caches + [None])
    case Request(i, wanted) =>
      if s.caches[i].Some? && s.caches[i].value.seqNo >= wanted then s
      else At(s, i, Querying(wanted))
    case QueryLatest(i) =>
      var wanted, latest := s.compactors[i].wanted, Latest(s.table);
      if latest.Some? && latest.value.seqNo >= wanted then At(s.(caches := s.caches[i := latest]), i, Resting)
      else At(s, i, Checked(wanted, latest))
    case ReadLater(i) =>
      var c := s.compactors[i];
      At(s, i, GotEvents(c.wanted, c.base, Later(s.log.rows, SeqOf(c.base), s.log.lastId)))
    case Save(i) =>
      var next := Fold(rd, s.compactors[i].base, s.compactors[i].later);
      if next.Some? then
        At(s.(table := s.table[next.value.seqNo := next.value.model], caches := s.caches[i := next]), i, Resting)
      else At(s, i, Resting)
    case SaveFails(i, applied) =>
      var next := Fold(rd, s.compactors[i].base, s.compactors[i].later);
      if next.Some? && applied then At(s.(table := s.table[next.value.seqNo := next.value.model]), i, Stopped)
      else At(s, i, Stopped)
    case Stop(i) => At(s, i, Stopped)
  }

  function Created<E, M>(): Channel<E, M> {
    Channel(EventLog.Created(), map[], [], [])
  }

  /** A snapshot numbered n is the fold of the events 1 to n. */
  ghost predicate Denotes<E, M>(rd: Reducer<E, M>, rows: map<nat, E>, last: nat, snap: Snapshot<M>) {
    1 <= snap.seqNo <= last && Fold(rd, None, Later(rows, 0, snap.seqNo)) == Some(snap)
  }

  ghost predicate BaseDenotes<E, M>(rd: Reducer<E, M>, rows: map<nat, E>, last: nat, base: Option<Snapshot<M>>) {
    base.Some? ==> Denotes(rd, rows, last, base.value)
  }

  ghost predicate TableDenotes<E, M>(rd: Reducer<E, M>, rows: map<nat, E>, last: nat, table: map<nat, M>) {
    forall n :: n in table ==> Denotes(rd, rows, last, Snapshot(n, table[n]))
  }

  /** The events read are those between the base and some number the log had reached. */
  ghost predicate ReadUpTo<E, M>(rows: map<nat, E>, last: nat, base: Option<Snapshot<M>>, later: seq<Message<E>>,
      to: nat) {
    SeqOf(base) <= to <= last && later == Later(rows, SeqOf(base), to)
  }

  ghost predicate CompactorOk<E, M>(rd: Reducer<E, M>, rows: map<nat, E>, last: nat, c: Compactor<E, M>) {
    && ((c.Checked? || c.GotEvents?) ==> BaseDenotes(rd, rows, last, c.base))
    && (c.GotEvents? ==> exists to :: ReadUpTo(rows, last, c.base, c.later, to))
  }

  ghost predicate Inv<E, M>(rd: Reducer<E, M>, s: Channel<E, M>) {
    && EventLog.Inv(s.log)
    && |s.caches| == |s.compactors|
    && TableDenotes(rd, s.log.rows, s.log.lastId, s.table)
    && (forall i :: 0 <= i < |s.caches| ==> BaseDenotes(rd, s.log.rows, s.log.lastId, s.caches[i]))
    && (forall i :: 0 <= i < |s.compactors| ==> CompactorOk(rd, s.log.rows, s.log.lastId, s.compactors[i]))
  }

  // ----- folds -----

  lemma {:induction false} FoldAppend<E, M>(rd: Reducer<E, M>, base: Option<Snapshot<M>>, ms: seq<Message<E>>,
      more: seq<Message<E>>)
    ensures Fold(rd, base, ms + more) == Fold(rd, Fold(rd, base, ms), more)
    decreases ms
  {
    if ms == [] {
      assert ms + more == more;
    } else {
      assert (ms + more)[1..] == ms[1..] + more;
      FoldAppend(rd, FoldOne(rd, base, ms[0]), ms[1..], more);
    }
  }

  lemma FoldSnoc<E, M>(rd: Reducer<E, M>, base: Option<Snapshot<M>>, ms: seq<Message<E>>, m: Message<E>)
    ensures Fold(rd, base, ms + [m]) == FoldOne(rd, Fold(rd, base, ms), m)
  {
    hide FoldOne;
    FoldAppend(rd, base, ms, [m]);
    assert [m][1..] == [];
    var before := Fold(rd, base, ms);
    assert Fold(rd, FoldOne(rd, before, m), []) == FoldOne(rd, before, m);
  }

  lemma {:induction false} LaterSplit<E>(rows: map<nat, E>, mid: nat, last: nat)
    requires mid <= last
    ensures Later(rows, 0, last) == Later(rows, 0, mid) + Later(rows, mid, last)
  {
    if mid < last {
      LaterSplit(rows, mid, last - 1);
    }
  }

  lemma {:induction false} LaterStays<E>(rows: map<nat, E>, rows': map<nat, E>, from: nat, last: nat)
    requires Extends(rows, rows') && forall k :: from < k <= last ==> k in rows
    ensures Later(rows', from, last) == Later(rows, from, last)
  {
    if from < last {
      LaterStays(rows, rows', from, last - 1);
    }
  }

  /** The fold of all events up to `n` is numbered n. */
  lemma FoldNumbered<E(!new), M(!new)>(rd: Reducer<E, M>, rows: map<nat, E>, n: nat)
    requires Numbered(rd) && n >= 1 && n in rows
    ensures Fold(rd, None, Later(rows, 0, n)).Some? && Fold(rd, None, Later(rows, 0, n)).value.seqNo == n
  {
    FoldSnoc(rd, None, Later(rows, 0, n - 1), RTPersisted(n, rows[n]));
  }

  /** Compacting from any earlier snapshot gives the snapshot of the whole log up to where it
      was read. */
  lemma Compacts<E(!new), M(!new)>(rd: Reducer<E, M>, rows: map<nat, E>, last: nat, base: Option<Snapshot<M>>,
      later: seq<Message<E>>, to: nat)
    requires Numbered(rd) && Dense(rows, last)
    requires BaseDenotes(rd, rows, last, base) && ReadUpTo(rows, last, base, later, to)
    ensures to == 0 ==> Fold(rd, base, later).None?
    ensures to > 0 ==>
              var r := Fold(rd, base, later);
              r.Some? && r.value.seqNo == to && Denotes(rd, rows, last, r.value)
  {
    hide Numbered;
    var b := SeqOf(base);
    LaterSplit(rows, b, to);
    FoldAppend(rd, None, Later(rows, 0, b), later);
    assert Fold(rd, None, Later(rows, 0, b)) == base;
    if to > 0 {
      FoldNumbered(rd, rows, to);
    }
  }

  // ----- each action keeps the invariant -----

  lemma DenotesStays<E, M>(rd: Reducer<E, M>, rows: map<nat, E>, last: nat, rows': map<nat, E>, last': nat,
      snap: Snapshot<M>)
    requires Dense(rows, last) && Extends(rows, rows') && last <= last' && Denotes(rd, rows, last, snap)
    ensures Denotes(rd, rows', last', snap)
  {
    LaterStays(rows, rows', 0, snap.seqNo);
  }

  lemma CompactorStays<E, M>(rd: Reducer<E, M>, rows: map<nat, E>, last: nat, rows': map<nat, E>, last': nat,
      c: Compactor<E, M>)
    requires Dense(rows, last) && Extends(rows, rows') && last <= last' && CompactorOk(rd, rows, last, c)
    ensures CompactorOk(rd, rows', last', c)
  {
    hide Denotes, Later;
    if (c.Checked? || c.GotEvents?) && c.base.Some? {
      DenotesStays(rd, rows, last, rows', last', c.base.value);
    }
    if c.GotEvents? {
      var to :| ReadUpTo(rows, last, c.base, c.later, to);
      LaterStays(rows, rows', SeqOf(c.base), to);
      assert ReadUpTo(rows', last', c.base, c.later, to);
    }
  }

  /** While savers append, snapshots stay what they were folds of. */
  lemma LogKeeps<E, M>(rd: Reducer<E, M>, s: Channel<E, M>, u: EventLog.Step<E>)
    requires Inv(rd, s) && Enabled(s, Log(u))
    ensures Inv(rd, Next(rd, s, Log(u)))
  {
    hide EventLog.Inv, EventLog.Next, Denotes, CompactorOk, Dense, Extends;
    var log' := EventLog.Next(s.log, u);
    NextKeeps(s.log, u);
    LogGrows(s.log, u);
    forall n | n in s.table
      ensures Denotes(rd, log'.rows, log'.lastId, Snapshot(n, s.table[n]))
    {
      DenotesStays(rd, s.log.rows, s.log.lastId, log'.rows, log'.lastId, Snapshot(n, s.table[n]));
    }
    forall i | 0 <= i < |s.caches|
      ensures BaseDenotes(rd, log'.rows, log'.lastId, s.caches[i])
    {
      if s.caches[i].Some? {
        DenotesStays(rd, s.log.rows, s.log.lastId, log'.rows, log'.lastId, s.caches[i].value);
      }
    }
    forall i | 0 <= i < |s.compactors|
      ensures CompactorOk(rd, log'.rows, log'.lastId, s.compactors[i])
    {
      CompactorStays(rd, s.log.rows, s.log.lastId, log'.rows, log'.lastId, s.compactors[i]);
    }
  }

  lemma LogGrows<E>(log: EventLog.State<E>, u: EventLog.Step<E>)
    requires EventLog.Inv(log) && EventLog.Enabled(log, u)
    ensures Dense(log.rows, log.lastId) && log.lastId <= EventLog.Next(log, u).lastId
  {
    hide EventLog.Next, EventLog.Enabled;
    TableChanges(log, u);
  }

  lemma CompactorKeeps<E(!new), M(!new)>(rd: Reducer<E, M>, s: Channel<E, M>, t: Action<E>)
    requires Numbered(rd) && Inv(rd, s) && Enabled(s, t) && !t.Log?
    ensures Inv(rd, Next(rd, s, t))
  {
    hide EventLog.Inv, Denotes, Later, Fold, Dense, Numbered;
    match t
    case Start =>
    case Request(i, wanted) =>
    case QueryLatest(i) =>
    case ReadLater(i) => ReadsToEnd(rd, s, i);
    case Save(i) => SaveDenotes(rd, s, i);
    case SaveFails(i, _) => SaveDenotes(rd, s, i);
    case Stop(i) =>
  }

  lemma ReadsToEnd<E, M>(rd: Reducer<E, M>, s: Channel<E, M>, i: nat)
    requires Inv(rd, s) && i < |s.compactors| && s.compactors[i].Checked?
    ensures var base, rows, last := s.compactors[i].base, s.log.rows, s.log.lastId;
            ReadUpTo(rows, last, base, Later(rows, SeqOf(base), last), last)
  {
    hide EventLog.Inv, Denotes, Later, Fold, Dense;
    assert CompactorOk(rd, s.log.rows, s.log.lastId, s.compactors[i]);
    BaseInLog(rd, s.log.rows, s.log.lastId, s.compactors[i].base);
  }

  lemma BaseInLog<E, M>(rd: Reducer<E, M>, rows: map<nat, E>, last: nat, base: Option<Snapshot<M>>)
    requires BaseDenotes(rd, rows, last, base)
    ensures SeqOf(base) <= last
  {
  }

  lemma SaveDenotes<E(!new), M(!new)>(rd: Reducer<E, M>, s: Channel<E, M>, i: nat)
    requires Numbered(rd) && Inv(rd, s) && i < |s.compactors| && s.compactors[i].GotEvents?
    ensures BaseDenotes(rd, s.log.rows, s.log.lastId, Fold(rd, s.compactors[i].base, s.compactors[i].later))
  {
    hide EventLog.Inv, Denotes, Later, Fold, Dense, Numbered;
    InvDense(s.log);
    var c := s.compactors[i];
    assert CompactorOk(rd, s.log.rows, s.log.lastId, c);
    var to :| ReadUpTo(s.log.rows, s.log.lastId, c.base, c.later, to);
    Compacts(rd, s.log.rows, s.log.lastId, c.base, c.later, to);
  }

  // ----- what each action does -----

  /** The number a compactor has read up to. */
  function ReadTo<E, M>(base: Option<Snapshot<M>>, later: seq<Message<E>>): nat {
    SeqOf(base) + |later|
  }

  /** The events read are those after `from`, each with its number, in order. */
  lemma {:induction false} LaterAre<E>(rows: map<nat, E>, from: nat, last: nat)
    requires from <= last && forall k :: from < k <= last ==> k in rows
    ensures |Later(rows, from, last)| == last - from
    ensures forall k :: 0 <= k < last - from ==>
              Later(rows, from, last)[k] == RTPersisted(from + 1 + k, rows[from + 1 + k])
  {
    if from < last {
      LaterAre(rows, from, last - 1);
    }
  }

  /** Between two states the table and the cache of compactor `i` gained the snapshot numbered n
      that the log denotes, or nothing if n is 0. */
  ghost predicate Gained<E, M>(rd: Reducer<E, M>, s: Channel<E, M>, i: nat, n: nat, table: map<nat, M>,
      cache: Option<Snapshot<M>>)
    requires i < |s.caches|
  {
    if n == 0 then table == s.table && cache == s.caches[i]
    else
      && cache.Some? && cache.value.seqNo == n && Denotes(rd, s.log.rows, s.log.lastId, cache.value)
      && table == s.table[n := cache.value.model]
  }

  ghost predicate Does<E, M(!new)>(rd: Reducer<E, M>, s: Channel<E, M>, t: Action<E>, r: Channel<E, M>) {
    match t
    case Log(u) =>
      |s.log.numbers| == |s.log.savers| && EventLog.Enabled(s.log, u) && r == s.(log := EventLog.Next(s.log, u))
    case Start => r == s.(compactors := s.compactors + [Resting], caches := s.caches + [None])
    case Request(i, wanted) =>
      && i < |s.compactors| == |s.caches|
      && if s.caches[i].Some? && s.caches[i].value.seqNo >= wanted then r == s
         else r == s.(compactors := s.compactors[i := Querying(wanted)])
    case QueryLatest(i) =>
      && i < |s.compactors| == |s.caches| && s.compactors[i].Querying?
      && var wanted := s.compactors[i].wanted;
      && r == s.(compactors := r.compactors, caches := r.caches)
      && if exists n :: n in s.table && n >= wanted then
           r.compactors == s.compactors[i := Resting] && r.caches == s.caches[i := Latest(s.table)]
         else r.compactors == s.compactors[i := Checked(wanted, Latest(s.table))] && r.caches == s.caches
    case ReadLater(i) =>
      && i < |s.compactors| && s.compactors[i].Checked? && |r.compactors| == |s.compactors|
      && var c := r.compactors[i];
      && r == s.(compactors := s.compactors[i := c])
      && c.GotEvents? && c.wanted == s.compactors[i].wanted && c.base == s.compactors[i].base
      && ReadUpTo(s.log.rows, s.log.lastId, c.base, c.later, s.log.lastId)
      && ReadTo(c.base, c.later) == s.log.lastId
    case Save(i) =>
      && i < |s.compactors| == |s.caches| == |r.caches| && s.compactors[i].GotEvents?
      && var c := s.compactors[i];
      && r == s.(compactors := s.compactors[i := Resting], caches := s.caches[i := r.caches[i]], table := r.table)
      && Gained(rd, s, i, ReadTo(c.base, c.later), r.table, r.caches[i])
    case SaveFails(i, applied) =>
      && i < |s.compactors| == |s.caches| && s.compactors[i].GotEvents?
      && var c := s.compactors[i];
      && r == s.(compactors := s.compactors[i := Stopped], table := r.table)
      && if applied then exists cache :: Gained(rd, s, i, ReadTo(c.base, c.later), r.table, cache)
         else r.table == s.table
    case Stop(i) => i < |s.compactors| && r == s.(compactors := s.compactors[i := Stopped])
  }

  lemma SaveGains<E(!new), M(!new)>(rd: Reducer<E, M>, s: Channel<E, M>, i: nat)
    requires Numbered(rd) && Inv(rd, s) && i < |s.compactors| && s.compactors[i].GotEvents?
    ensures var c := s.compactors[i];
            var next, n := Fold(rd, c.base, c.later), ReadTo(c.base, c.later);
            if n == 0 then next.None?
            else next.Some? && next.value.seqNo == n && Denotes(rd, s.log.rows, s.log.lastId, next.value)
  {
    hide EventLog.Inv, Denotes, Later, Fold, Numbered;
    InvDense(s.log);
    var c := s.compactors[i];
    assert CompactorOk(rd, s.log.rows, s.log.lastId, c);
    var to :| ReadUpTo(s.log.rows, s.log.lastId, c.base, c.later, to);
    LaterAre(s.log.rows, SeqOf(c.base), to);
    Compacts(rd, s.log.rows, s.log.lastId, c.base, c.later, to);
  }

  lemma ActionDoes<E(!new), M(!new)>(rd: Reducer<E, M>, s: Channel<E, M>, t: Action<E>)
    requires Numbered(rd) && Inv(rd, s) && Enabled(s, t)
    ensures Does(rd, s, t, Next(rd, s, t))
  {
    hide EventLog.Inv, EventLog.Next, Denotes, Later, Fold, Dense, Numbered;
    match t
    case Log(_) =>
    case Start =>
    case Request(_, _) =>
    case QueryLatest(_) =>
    case ReadLater(i) =>
      ReadsToEnd(rd, s, i);
      ReadCount(rd, s, i);
    case Save(i) => SaveGains(rd, s, i);
    case SaveFails(i, _) =>
      SaveGains(rd, s, i);
      var c, r := s.compactors[i], Next(rd, s, t);
      var n, next := ReadTo(c.base, c.later), Fold(rd, c.base, c.later);
      assert t.applied ==> Gained(rd, s, i, n, r.table, if n == 0 then s.caches[i] else next);
    case Stop(_) =>
  }

  lemma ReadCount<E, M>(rd: Reducer<E, M>, s: Channel<E, M>, i: nat)
    requires Inv(rd, s) && i < |s.compactors| && s.compactors[i].Checked?
    ensures var base := s.compactors[i].base;
            ReadTo(base, Later(s.log.rows, SeqOf(base), s.log.lastId)) == s.log.lastId
  {
    hide EventLog.Inv, Denotes, Later, Fold;
    InvDense(s.log);
    ReadsToEnd(rd, s, i);
    LaterAre(s.log.rows, SeqOf(s.compactors[i].base), s.log.lastId);
  }

  /** A compactor that works on a request can always go on, and one at rest can be asked. */
  lemma CompactorGoesOn<E, M>(s: Channel<E, M>, i: nat, wanted: nat)
    requires i < |s.compactors|
    ensures match s.compactors[i]
            case Resting => Enabled(s, Request(i, wanted))
            case Querying(_) => Enabled(s, QueryLatest(i))
            case Checked(_, _) => Enabled(s, ReadLater(i))
            case GotEvents(_, _, _) => Enabled(s, Save(i))
            case Stopped => true
  {
  }

  ghost predicate IsRun<E, M>(rd: Reducer<E, M>, actions: seq<Action<E>>, states: seq<Channel<E, M>>) {
    && |states| == |actions| + 1
    && states[0] == Created()
    && forall k :: 0 <= k < |actions| ==>
         && |states[k].caches| == |states[k].compactors| && Enabled(states[k], actions[k])
         && states[k + 1] == Next(rd, states[k], actions[k])
  }

  /** However snapshots are made and changed, as long as they carry the number of the last
      event: whatever savers and compactors do, and whatever fails, every snapshot in the table
      or a cache is the fold of all the log's events up to its number. A save puts the snapshot of
      all it read into the table and the cache. */
  lemma {:induction false} EverySnapshot<E(!new), M(!new)>(rd: Reducer<E, M>, actions: seq<Action<E>>,
      states: seq<Channel<E, M>>, k: nat)
    requires Numbered(rd) && IsRun(rd, actions, states) && k <= |actions|
    ensures Inv(rd, states[k])
    ensures k < |actions| ==> Does(rd, states[k], actions[k], states[k + 1])
  {
    hide Next, Enabled, Inv, Numbered, Does;
    if k == 0 {
      CreatedInv<E>();
      StartInv(rd);
    } else {
      EverySnapshot(rd, actions, states, k - 1);
      ActionKeeps(rd, states[k - 1], actions[k - 1]);
    }
    if k < |actions| {
      ActionDoes(rd, states[k], actions[k]);
    }
  }

  lemma RunLength<E, M>(rd: Reducer<E, M>, actions: seq<Action<E>>, states: seq<Channel<E, M>>)
    requires IsRun(rd, actions, states)
    ensures |states| == |actions| + 1
  {
  }

  lemma StartInv<E, M>(rd: Reducer<E, M>)
    requires EventLog.Inv(EventLog.Created<E>())
    ensures Inv(rd, Created<E, M>())
  {
    hide EventLog.Inv;
  }

  lemma ActionKeeps<E(!new), M(!new)>(rd: Reducer<E, M>, s: Channel<E, M>, t: Action<E>)
    requires Numbered(rd) && Inv(rd, s) && Enabled(s, t)
    ensures Inv(rd, Next(rd, s, t))
  {
    hide Next, Enabled, Inv, Numbered;
    if t.Log? {
      LogKeeps(rd, s, t.t);
    } else {
      CompactorKeeps(rd, s, t);
    }
  }

  /** Two snapshots with one number are equal, wherever they are. */
  lemma SnapshotsAgree<E, M>(rd: Reducer<E, M>, rows: map<nat, E>, last: nat, a: Snapshot<M>, b: Snapshot<M>)
    requires Denotes(rd, rows, last, a) && Denotes(rd, rows, last, b) && a.seqNo == b.seqNo
    ensures a == b
  {
  }

  /** A compaction that goes through saves a snapshot of the whole log as it was read, so one
      that covers any number recorded by then. */
  lemma SavesAllRead<E(!new), M(!new)>(rd: Reducer<E, M>, s: Channel<E, M>, i: nat)
    requires Numbered(rd) && Inv(rd, s) && i < |s.compactors| && s.compactors[i].Checked?
    ensures var c := Next(rd, s, ReadLater(i)).compactors[i];
            var next := Fold(rd, c.base, c.later);
            && (next.None? <==> s.log.lastId == 0)
            && (next.Some? ==> next.value.seqNo == s.log.lastId && Denotes(rd, s.log.rows, s.log.lastId, next.value))
  {
    hide EventLog.Inv, Denotes, Later, Fold, Dense, Numbered;
    InvDense(s.log);
    var base := s.compactors[i].base;
    assert CompactorOk(rd, s.log.rows, s.log.lastId, s.compactors[i]);
    ReadsToEnd(rd, s, i);
    Compacts(rd, s.log.rows, s.log.lastId, base, Later(s.log.rows, SeqOf(base), s.log.lastId), s.log.lastId);
  }

  // ----- what a run keeps and reaches -----

  /** The table only grows, and no snapshot in it changes. */
  ghost predicate Keeps<M>(table: map<nat, M>, table': map<nat, M>) {
    forall n :: n in table ==> n in table' && table'[n] == table[n]
  }

  lemma ActionKeepsTable<E(!new), M(!new)>(rd: Reducer<E, M>, s: Channel<E, M>, t: Action<E>)
    requires Numbered(rd) && Inv(rd, s) && Enabled(s, t)
    ensures Keeps(s.table, Next(rd, s, t).table)
  {
    hide EventLog.Inv, Later, Fold, Dense, Numbered, Next;
    ActionDoes(rd, s, t);
    var r := Next(rd, s, t);
    if (t.Save? || (t.SaveFails? && t.applied)) && r.table != s.table {
      var c := s.compactors[t.i];
      var n := ReadTo(c.base, c.later);
      var cache :| Gained(rd, s, t.i, n, r.table, cache);
      if n in s.table {
        SnapshotsAgree(rd, s.log.rows, s.log.lastId, Snapshot(n, s.table[n]), cache.value);
      }
    }
  }

  lemma {:induction false} TableKeeps<E(!new), M(!new)>(rd: Reducer<E, M>, actions: seq<Action<E>>,
      states: seq<Channel<E, M>>, j: nat, k: nat)
    requires Numbered(rd) && IsRun(rd, actions, states) && j <= k <= |actions|
    ensures Keeps(states[j].table, states[k].table) && states[j].log.lastId <= states[k].log.lastId
    decreases k
  {
    hide Next, Enabled, Inv, Numbered;
    if j < k {
      TableKeeps(rd, actions, states, j, k - 1);
      EverySnapshot(rd, actions, states, k - 1);
      ActionKeepsTable(rd, states[k - 1], actions[k - 1]);
      LogNeverShrinks(rd, states[k - 1], actions[k - 1]);
    }
  }

  lemma LogNeverShrinks<E, M>(rd: Reducer<E, M>, s: Channel<E, M>, t: Action<E>)
    requires Inv(rd, s) && Enabled(s, t)
    ensures s.log.lastId <= Next(rd, s, t).log.lastId
  {
    hide EventLog.Inv, EventLog.Next, EventLog.Enabled, Denotes, Later, Fold;
    if t.Log? {
      LogGrows(s.log, t.t);
    }
  }

  /** From a save on, the latest snapshot covers all that the save had read. */
  lemma SavedForGood<E(!new), M(!new)>(rd: Reducer<E, M>, actions: seq<Action<E>>, states: seq<Channel<E, M>>, j: nat,
      k: nat)
    requires Numbered(rd) && IsRun(rd, actions, states) && j < k <= |actions|
    requires actions[j].Save?
    ensures var i := actions[j].i;
            && i < |states[j].compactors| && states[j].compactors[i].GotEvents?
            && var c := states[j].compactors[i];
            && var n, latest := ReadTo(c.base, c.later), Latest(states[k].table);
            (n > 0 ==> n in states[k].table && latest.Some? && latest.value.seqNo >= n)
  {
    hide Next, Enabled, Inv, Numbered, Denotes;
    EverySnapshot(rd, actions, states, j);
    TableKeeps(rd, actions, states, j + 1, k);
  }

  /** Compactor `i` is working off a request for `w`, or has a snapshot that covers it. */
  ghost predicate Serving<E, M>(s: Channel<E, M>, i: nat, w: nat) {
    && i < |s.compactors| == |s.caches|
    && match s.compactors[i]
       case Resting => s.caches[i].Some? && s.caches[i].value.seqNo >= w
       case Querying(wanted) => wanted == w
       case Checked(wanted, _) => wanted == w
       case GotEvents(wanted, base, later) => wanted == w && ReadTo(base, later) >= w
       case Stopped => true
  }

  lemma ServingStep<E, M(!new)>(rd: Reducer<E, M>, s: Channel<E, M>, t: Action<E>, r: Channel<E, M>, i: nat, w: nat)
    requires Does(rd, s, t, r) && Enabled(s, t) && 1 <= w <= s.log.lastId && |r.caches| == |r.compactors|
    requires !(t.Request? && t.i == i)
    requires Serving(s, i, w)
    ensures Serving(r, i, w)
  {
    hide Denotes, ReadUpTo, EventLog.Enabled;
    if t.QueryLatest? && t.i == i && r.compactors[i].Resting? {
      var n :| n in s.table && n >= w;
    }
  }

  /** A request for a number the log had reached, if it ends and no query or save of its own
      fails, ends with a snapshot in the cache that covers the number. */
  lemma {:induction false} RequestServed<E(!new), M(!new)>(rd: Reducer<E, M>, actions: seq<Action<E>>,
      states: seq<Channel<E, M>>, j: nat, k: nat)
    requires Numbered(rd) && IsRun(rd, actions, states) && j < k <= |actions|
    requires actions[j].Request? && 1 <= actions[j].wanted <= states[j].log.lastId
    requires forall m :: j < m < k ==> !(actions[m].Request? && actions[m].i == actions[j].i)
    ensures Serving(states[k], actions[j].i, actions[j].wanted)
    decreases k
  {
    hide Next, Enabled, Inv, Numbered, Does;
    var i, w := actions[j].i, actions[j].wanted;
    EverySnapshot(rd, actions, states, k - 1);
    if j == k - 1 {
      RequestBegins(rd, states[j], states[k], i, w);
    } else {
      RequestServed(rd, actions, states, j, k - 1);
      TableKeeps(rd, actions, states, j, k - 1);
      EverySnapshot(rd, actions, states, k);
      InvCaches(rd, states[k]);
      ServingStep(rd, states[k - 1], actions[k - 1], states[k], i, w);
    }
  }

  lemma RequestBegins<E, M(!new)>(rd: Reducer<E, M>, s: Channel<E, M>, r: Channel<E, M>, i: nat, w: nat)
    requires Does(rd, s, Request(i, w), r) && Enabled(s, Request(i, w))
    ensures Serving(r, i, w)
  {
  }

  lemma InvCaches<E, M>(rd: Reducer<E, M>, s: Channel<E, M>)
    requires Inv(rd, s)
    ensures |s.caches| == |s.compactors|
  {
  }

  // ----- joining -----

  /** The events sent to a client that joins: those after its snapshot, or after number 1. */
  function JoinEvents<E, M>(latest: Option<Snapshot<M>>, rows: map<nat, E>, last: nat): seq<Message<E>> {
    Later(rows, if latest.Some? then latest.value.seqNo else 1, last)
  }

  /** In every state of a channel, folding them onto the latest snapshot gives the fold of the
      whole log, unless there is no snapshot and the log has an event: then they are all events
      but the first. */
  lemma JoinComplete<E, M>(rd: Reducer<E, M>, s: Channel<E, M>)
    requires Inv(rd, s)
    ensures var rows, last, sent := s.log.rows, s.log.lastId, JoinEvents(Latest(s.table), s.log.rows, s.log.lastId);
            if s.table != map[] || last == 0 then
              sent == Later(rows, SeqOf(Latest(s.table)), last)
              && Fold(rd, Latest(s.table), sent) == Fold(rd, None, Later(rows, 0, last))
            else 1 in rows && Later(rows, 0, last) == [RTPersisted(1, rows[1])] + sent
  {
    hide EventLog.Inv, Later, Fold;
    InvDense(s.log);
    var rows, last, latest := s.log.rows, s.log.lastId, Latest(s.table);
    if last == 0 {
      LaterNone(rows, 1, 0);
      LaterNone(rows, 0, 0);
    } else if latest.None? {
      LaterSplit(rows, 1, last);
      LaterFirst(rows);
    } else {
      var n := latest.value.seqNo;
      assert Denotes(rd, rows, last, Snapshot(n, s.table[n]));
      LaterSplit(rows, n, last);
      FoldAppend(rd, None, Later(rows, 0, n), Later(rows, n, last));
    }
  }

  lemma LaterFirst<E>(rows: map<nat, E>)
    requires 1 in rows
    ensures Later(rows, 0, 1) == [RTPersisted(1, rows[1])]
  {
    assert Later(rows, 0, 0) == [];
  }

  /** A client that keeps every message it is given. */
  function Transcript<E>(): Reducer<E, seq<Message<E>>> {
    Reducer((m: Message<E>) => Some(Snapshot(if m.RTTransient? then 0 else m.seqNo, [m])),
            (m: Message<E>, s: Snapshot<seq<Message<E>>>) =>
              Snapshot(if m.RTTransient? then s.seqNo else m.seqNo, s.model + [m]))
  }

  lemma TranscriptNumbered<E(!new)>()
    ensures Numbered(Transcript<E>())
  {
  }

  lemma {:induction false} FoldTranscript<E>(ms: seq<Message<E>>)
    ensures Fold(Transcript(), None, ms).Some? <==> ms != []
    ensures ms != [] ==> Fold(Transcript(), None, ms).value.model == ms
    decreases |ms|
  {
    if ms != [] {
      var n := |ms| - 1;
      FoldTranscript(ms[..n]);
      FoldSnoc(Transcript(), None, ms[..n], ms[n]);
      assert ms == ms[..n] + [ms[n]];
    }
  }

  /** After any run, such a client has the whole log after joining if and only if there is a
      snapshot or the log is empty. */
  lemma JoinCompleteIff<E(!new)>(actions: seq<Action<E>>, states: seq<Channel<E, seq<Message<E>>>>, k: nat)
    requires IsRun(Transcript(), actions, states) && k <= |actions|
    ensures var s := states[k];
            Fold(Transcript(), Latest(s.table), JoinEvents(Latest(s.table), s.log.rows, s.log.lastId))
            == Fold(Transcript(), None, Later(s.log.rows, 0, s.log.lastId))
            <==> s.table != map[] || s.log.lastId == 0
  {
    hide Inv, Transcript, Later, Fold, JoinEvents, Numbered, IsRun;
    TranscriptNumbered<E>();
    EverySnapshot(Transcript(), actions, states, k);
    assert k < |states| by { RunLength(Transcript(), actions, states); }
    var s := states[k];
    JoinComplete(Transcript(), s);
    var all, sent := Later(s.log.rows, 0, s.log.lastId), JoinEvents(Latest(s.table), s.log.rows, s.log.lastId);
    if s.table == map[] && s.log.lastId > 0 {
      FoldTranscript(all);
      FoldTranscript(sent);
      assert |all| == |sent| + 1;
    }
  }

  lemma LaterNone<E>(rows: map<nat, E>, from: nat, last: nat)
    requires last <= from
    ensures Later(rows, from, last) == []
  {
  }

  /** The log after `k` of the steps by which one saver pops and records the only event. */
  function OneEvent<E>(e: E, k: nat): EventLog.State<E> {
    var pushed := EventLog.Created().(pushed := [e]);
    if k == 0 then EventLog.Created()
    else if k == 1 then pushed.(saveList := [e])
    else if k == 2 then pushed.(saveList := [e], savers := [Idle], numbers := [[]])
    else if k == 3 then pushed.(savers := [Holding(e)], numbers := [[]])
    else if k == 4 then pushed.(savers := [HasRead(e, 0)], numbers := [[]])
    else pushed.(savers := [Recorded(e, 1)], numbers := [[1]], rows := map[1 := e], lastId := 1)
  }

  function OneEventStep<E>(e: E, k: nat): EventLog.Step<E> {
    if k == 0 then Push(e)
    else if k == 1 then Join
    else if k == 2 then Pop(0, 0)
    else if k == 3 then ReadMetadata(0)
    else Write(0)
  }

  lemma OneEventTurn<E>(e: E, k: nat)
    requires k < 5
    ensures var l, t := OneEvent(e, k), OneEventStep(e, k);
            |l.numbers| == |l.savers| && EventLog.Enabled(l, t) && EventLog.Next(l, t) == OneEvent(e, k + 1)
  {
    var none: seq<E>, nobody: seq<Saver<E>>, nothing: seq<seq<nat>> := [], [], [];
    if k == 0 {
      assert none + [e] == [e];
    } else if k == 1 {
      assert nobody + [Idle] == [Idle] && nothing + [[]] == [[]];
    } else if k == 2 {
      assert [e][..0] + [e][1..] == none && [Idle][0 := Holding(e)] == [Holding(e)];
    } else if k == 3 {
      assert [Holding(e)][0 := HasRead(e, 0)] == [HasRead(e, 0)];
    } else {
      assert [HasRead(e, 0)][0 := Recorded(e, 1)] == [Recorded(e, 1)];
      var l := OneEvent(e, 4);
      assert l.numbers[0] + [1] == [1] && l.numbers[0 := [1]] == [[1]] && l.rows[1 := e] == map[1 := e];
    }
  }

  /** A run that leaves such a channel: one event is pushed, popped and recorded, and nothing is
      compacted yet. A client that joins is sent no event at all. */
  lemma JoinMissesFirst<E, M>(rd: Reducer<E, M>, e: E) returns (actions: seq<Action<E>>, states: seq<Channel<E, M>>)
    ensures IsRun(rd, actions, states)
    ensures var s := states[|actions|];
            && s.table == map[] && s.log.rows == map[1 := e] && s.log.lastId == 1
            && JoinEvents(Latest(s.table), s.log.rows, s.log.lastId) == []
            && Later(s.log.rows, 0, s.log.lastId) == [RTPersisted(1, e)]
  {
    actions := seq(5, k requires 0 <= k => Log(OneEventStep(e, k)));
    states := seq(6, k requires 0 <= k => Channel(OneEvent(e, k), map[], [], []));
    forall k | 0 <= k < 5
      ensures |states[k].caches| == |states[k].compactors| && Enabled(states[k], actions[k])
      ensures states[k + 1] == Next(rd, states[k], actions[k])
    {
      hide EventLog.Next, EventLog.Enabled, OneEvent, OneEventStep;
      OneEventTurn(e, k);
    }
    var rows := states[5].log.rows;
    assert Later(rows, 0, 1) == Later(rows, 0, 0) + [RTPersisted(1, e)];
  }

  // ----- the snapshots the application makes -----

  /** A JSON value: text, or a payload as it was sent. */
  datatype Json<E> = Text(s: string) | Payload(e: E)

  function FromInt(n: nat): string {
    (if n < 10 then [] else FromInt(n / 10)) + ["0123456789"[n % 10]]
  }

  function InitialSnapshot<E>(m: Message<E>): Option<Snapshot<Json<E>>> {
    match m
    case RTPersisted(n, _) => Some(Snapshot(n, Text("hello-" + FromInt(n))))
    case RTTransient(_) => None
    case RTSnapshot(n, v) => Some(Snapshot(n, Payload(v)))
  }

  function StepSnapshot<E>(m: Message<E>, current: Snapshot<Json<E>>): Snapshot<Json<E>> {
    match m
    case RTPersisted(n, _) => Snapshot(n, Text("hello-" + FromInt(n)))
    case RTTransient(_) => current
    case RTSnapshot(n, v) => Snapshot(n, Payload(v))
  }

  /** How the application makes and changes snapshots. */
  function Application<E>(): Reducer<E, Json<E>> {
    Reducer(m => InitialSnapshot(m), (m, s) => StepSnapshot(m, s))
  }

  lemma ApplicationNumbered<E(!new)>()
    ensures Numbered(Application<E>())
  {
    hide FromInt;
  }

  function ToInt(s: string): nat {
    if s == [] then 0
    else ToInt(s[..|s| - 1]) * 10 + (if '0' <= s[|s| - 1] <= '9' then s[|s| - 1] as int - '0' as int else 0)
  }

  function Digit(d: nat): (c: char)
    requires d < 10
    ensures '0' <= c <= '9' && c as int == '0' as int + d
  {
    '0' + d as char
  }

  lemma DigitsInOrder(d: nat)
    requires d < 10
    ensures "0123456789"[d] == Digit(d)
  {
    assert d == 0 || d == 1 || d == 2 || d == 3 || d == 4 || d == 5 || d == 6 || d == 7 || d == 8 || d == 9;
  }

  lemma ToIntSnoc(s: string, d: nat)
    requires d < 10
    ensures ToInt(s + [Digit(d)]) == ToInt(s) * 10 + d
  {
    assert (s + [Digit(d)])[..|s|] == s;
  }

  ghost predicate Digits(s: string) {
    forall i :: 0 <= i < |s| ==> '0' <= s[i] <= '9'
  }

  lemma DigitsSnoc(s: string, d: nat)
    requires d < 10 && Digits(s)
    ensures Digits(s + [Digit(d)])
  {
  }

  /** The text has decimal digits only, none of them a leading zero, and the number can be read
      back from it. */
  lemma {:induction false} FromIntInverse(n: nat)
    ensures ToInt(FromInt(n)) == n && FromInt(n) != [] && Digits(FromInt(n))
    ensures n > 0 ==> FromInt(n)[0] != '0'
    ensures n < 10 ==> FromInt(n) == [Digit(n)]
  {
    DigitsInOrder(n % 10);
    if n < 10 {
      assert [] + [Digit(n)] == [Digit(n)];
      ToIntSnoc([], n);
    } else {
      assert FromInt(n) == FromInt(n / 10) + [Digit(n % 10)];
      FromIntInverse(n / 10);
      hide FromInt, ToInt, Digits;
      ToIntSnoc(FromInt(n / 10), n % 10);
      DigitsSnoc(FromInt(n / 10), n % 10);
    }
  }

  /** The last message that is not transient decides the application's snapshot. */
  lemma {:induction false} FoldLast<E>(base: Option<Snapshot<Json<E>>>, ms: seq<Message<E>>, m: Message<E>,
      after: seq<Message<E>>)
    requires !m.RTTransient? && forall x :: x in after ==> x.RTTransient?
    ensures var r := Fold(Application(), base, ms + [m] + after);
            && (m.RTPersisted? ==> r == Some(Snapshot(m.seqNo, Text("hello-" + FromInt(m.seqNo)))))
            && (m.RTSnapshot? ==> r == Some(Snapshot(m.seqNo, Payload(m.model))))
  {
    hide FromInt, Fold;
    FoldAppend(Application(), base, ms + [m], after);
    FoldSnoc(Application(), base, ms, m);
    FoldTransient(FoldOne(Application(), Fold(Application(), base, ms), m), after);
  }

  /** Transient messages change no snapshot. */
  lemma {:induction false} FoldTransient<E>(base: Option<Snapshot<Json<E>>>, ms: seq<Message<E>>)
    requires forall x :: x in ms ==> x.RTTransient?
    ensures Fold(Application(), base, ms) == base
    decreases ms
  {
    if ms != [] {
      assert ms[0] in ms;
      FoldTransient(base, ms[1..]);
    }
  }

  /** The application's snapshot of the events 1 to n. */
  lemma SnapshotAt<E>(rows: map<nat, E>, n: nat)
    requires n >= 1 && n in rows
    ensures Fold(Application(), None, Later(rows, 0, n)) == Some(Snapshot(n, Text("hello-" + FromInt(n))))
  {
    var m := RTPersisted(n, rows[n]);
    assert Later(rows, 0, n) == Later(rows, 0, n - 1) + [m] + [];
    FoldLast(None, Later(rows, 0, n - 1), m, []);
  }
}
