/** The stash that keeps a value beside the token that stands for it. */
module MVarStash {
  import opened MVars
  import opened MVarHistory
  import opened MVarServer

  /** A put sends a token that was not sent before. One whose MVar is unknown, so that its token
      is released, may also send one for which nothing is stashed. */
  predicate Proper<V>(s: State<V>, c: Command<V>) {
    c.Request? && c.op.Put? && c.op.b.Token? ==>
      c.op.b.t in s.unsent || (c.op.id !in s.mVars && c.op.b.t !in s.stashed)
  }

  ghost predicate ProperRun<V>(cs: seq<Command<V>>) {
    forall k :: 0 <= k < |cs| ==> Proper(Run(cs[..k]), cs[k])
  }

  function Stashes<V>(cs: seq<Command<V>>): nat {
    if cs == [] then 0 else Stashes(cs[..|cs| - 1]) + (if cs[|cs| - 1].Stash? then 1 else 0)
  }

  // ----- the invariant -----

  /** The token is held in an MVar or carried by a put that waits. */
  ghost predicate InLine(lines: map<nat, seq<Body>>, t: nat) {
    exists id :: id in lines && Token(t) in lines[id]
  }

  ghost predicate NoTokenTwice(q: seq<Body>) {
    forall i, j :: 0 <= i < j < |q| && q[i].Token? ==> q[i] != q[j]
  }

  ghost predicate OneHolder(lines: map<nat, seq<Body>>) {
    forall i, j, t :: i in lines && j in lines && i != j && Token(t) in lines[i] ==> Token(t) !in lines[j]
  }

  /** The stash holds the values of exactly the tokens that are unsent or in a line, and no
      token is in two places. */
  ghost predicate StashExact<V>(lines: map<nat, seq<Body>>, unsent: set<nat>, stashed: map<nat, V>, last: nat) {
    && (forall t :: t in stashed <==> t in unsent || InLine(lines, t))
    && (forall t :: t in stashed ==> 0 < t <= last)
    && (forall t :: t in unsent ==> !InLine(lines, t))
    && (forall id :: id in lines ==> NoTokenTwice(lines[id]))
    && OneHolder(lines)
  }

  ghost predicate Exact<V>(s: State<V>) {
    StashExact(Lines(s), s.unsent, s.stashed, s.stashNextId)
  }

  ghost predicate Inv<V>(s: State<V>) {
    Orderly(s) && Exact(s) && !s.missing
  }

  // ----- answers and the stash -----

  /** The token did not leave the line `q` when `left` is what is left of it. */
  ghost predicate Kept(t: nat, q: seq<Body>, left: seq<Body>) {
    Token(t) in q ==> Token(t) in left
  }

  /** Taking the first of a line whose values are all stashed. */
  lemma TakeFirst<V>(s: State<V>, q: seq<Body>, e: Event)
    requires q != [] && NoTokenTwice(q) && e.Answered? && e.a == Value(q[0]) && e.op.Take?
    requires forall t :: Token(t) in q ==> t in s.stashed
    ensures NoTokenTwice(q[1..]) && (forall b :: b in q <==> b == q[0] || b in q[1..])
    ensures q[0].Token? ==> q[0] !in q[1..]
    ensures var r := Respond(s, e);
            && r.missing == s.missing
            && (forall t :: t in r.stashed <==> t in s.stashed && Token(t) != q[0])
            && (forall t :: t in r.stashed ==> r.stashed[t] == s.stashed[t])
  {
    var q1 := q[1..];
    assert q == [q[0]] + q1;
    assert forall i :: 0 <= i < |q1| ==> q1[i] == q[i + 1];
    assert q[0] in q;
  }

  /** Serving a line decodes only values that are there, and removes exactly those taken. */
  lemma {:induction false} ServeStash<V>(id: nat, s: State<V>, q: seq<Body>, es: seq<Event>)
    requires Serves(id, q, es) && NoTokenTwice(q)
    requires forall t :: Token(t) in q ==> t in s.stashed
    ensures var r := RespondAll(s, es);
            && r.missing == s.missing
            && (forall t :: t in r.stashed <==> t in s.stashed && Kept(t, q, Left(q, es)))
            && (forall t :: t in r.stashed ==> r.stashed[t] == s.stashed[t])
    ensures forall b :: b in Left(q, es) ==> b in q
    ensures NoTokenTwice(Left(q, es))
    decreases es
  {
    if es != [] {
      var e := es[0];
      var s1 := Respond(s, e);
      if e.a.Value? && e.op.Take? {
        TakeFirst(s, q, e);
        hide Respond, NoTokenTwice;
        ServeStash(id, s1, q[1..], es[1..]);
      } else {
        assert s1.stashed == s.stashed && s1.missing == s.missing;
        ServeStash(id, s1, q, es[1..]);
      }
    }
  }

  lemma {:induction false} ReleaseAllStash<V>(s: State<V>, q: seq<Body>)
    ensures var r := ReleaseAll(s, q);
            && r == s.(stashed := r.stashed)
            && (forall t :: t in r.stashed <==> t in s.stashed && Token(t) !in q)
            && (forall t :: t in r.stashed ==> r.stashed[t] == s.stashed[t])
    decreases q
  {
    if q != [] {
      ReleaseAllStash(Release(s, q[0]), q[1..]);
      assert q == [q[0]] + q[1..];
    }
  }

  lemma {:induction false} ValuelessStash<V>(s: State<V>, es: seq<Event>)
    requires forall e :: e in es ==> e.Answered? && !e.a.Value?
    ensures RespondAll(s, es) == s.(events := s.events + es)
    decreases es
  {
    if es != [] {
      assert es[0] in es;
      ValuelessStash(Respond(s, es[0]), es[1..]);
      assert s.events + [es[0]] + es[1..] == s.events + es;
    } else {
      assert s.events + es == s.events;
    }
  }

  // ----- lines -----

  /** A token that was unsent joins the end of a line. */
  lemma Joins<V>(lines: map<nat, seq<Body>>, unsent: set<nat>, stashed: map<nat, V>, last: nat, op: Op)
    requires StashExact(lines, unsent, stashed, last) && op.id in lines
    requires op.Put? && op.b.Token? ==> op.b.t in unsent
    ensures StashExact(lines[op.id := lines[op.id] + Added(op)],
                       if op.Put? && op.b.Token? then unsent - {op.b.t} else unsent, stashed, last)
  {
    hide InLine, OneHolder, NoTokenTwice;
    forall t {
      JoinsLine(lines, op, t);
    }
    JoinsApart(lines, unsent, op);
  }

  lemma JoinsLine(lines: map<nat, seq<Body>>, op: Op, t: nat)
    requires op.id in lines
    ensures InLine(lines[op.id := lines[op.id] + Added(op)], t) <==> InLine(lines, t) || (op.Put? && op.b == Token(t))
  {
    var lines' := lines[op.id := lines[op.id] + Added(op)];
    if InLine(lines, t) {
      var id :| id in lines && Token(t) in lines[id];
      assert id in lines' && Token(t) in lines'[id];
    }
    if op.Put? && op.b == Token(t) {
      assert Token(t) in lines'[op.id];
    }
  }

  lemma JoinsApart(lines: map<nat, seq<Body>>, unsent: set<nat>, op: Op)
    requires op.id in lines
    requires op.Put? && op.b.Token? ==> !InLine(lines, op.b.t)
    requires forall id :: id in lines ==> NoTokenTwice(lines[id])
    requires OneHolder(lines)
    ensures var lines' := lines[op.id := lines[op.id] + Added(op)];
            (forall id :: id in lines' ==> NoTokenTwice(lines'[id])) && OneHolder(lines')
  {
  }

  /** A line is replaced by what is left of it, and the stash loses the tokens that left. */
  lemma Leaves<V>(lines: map<nat, seq<Body>>, unsent: set<nat>, stashed: map<nat, V>, last: nat, id: nat,
      left: seq<Body>, stashed': map<nat, V>)
    requires StashExact(lines, unsent, stashed, last) && id in lines
    requires forall b :: b in left ==> b in lines[id]
    requires NoTokenTwice(left)
    requires forall t :: t in stashed' <==> t in stashed && Kept(t, lines[id], left)
    ensures StashExact(lines[id := left], unsent, stashed', last)
  {
    var lines' := lines[id := left];
    forall t
      ensures InLine(lines', t) <==> InLine(lines, t) && Kept(t, lines[id], left)
    {
      if InLine(lines', t) {
        var i :| i in lines' && Token(t) in lines'[i];
        assert Token(t) in lines[i];
      }
      if InLine(lines, t) && Kept(t, lines[id], left) {
        var i :| i in lines && Token(t) in lines[i];
        assert Token(t) in lines'[i];
      }
    }
    assert forall t :: t in unsent ==> t in stashed && Kept(t, lines[id], left);
  }

  // ----- what each command keeps -----

  lemma ReleaseUnsent<V>(lines: map<nat, seq<Body>>, unsent: set<nat>, stashed: map<nat, V>, last: nat, op: Op)
    requires StashExact(lines, unsent, stashed, last)
    requires op.Put? && op.b.Token? ==> op.b.t in unsent || op.b.t !in stashed
    ensures op.Put? && op.b.Token? ==> StashExact(lines, unsent - {op.b.t}, stashed - {op.b.t}, last)
  {
    hide InLine;
  }

  lemma LineStashed<V>(lines: map<nat, seq<Body>>, unsent: set<nat>, stashed: map<nat, V>, last: nat, id: nat)
    requires StashExact(lines, unsent, stashed, last) && id in lines
    ensures NoTokenTwice(lines[id])
    ensures forall t :: Token(t) in lines[id] ==> t in stashed
  {
    forall t | Token(t) in lines[id]
      ensures t in stashed
    {
      assert InLine(lines, t);
    }
  }

  /** An empty line holds no token. */
  lemma EmptyLine<V>(lines: map<nat, seq<Body>>, unsent: set<nat>, stashed: map<nat, V>, last: nat, id: nat)
    requires StashExact(lines, unsent, stashed, last) && id !in lines
    ensures StashExact(lines[id := []], unsent, stashed, last)
  {
    var lines' := lines[id := []];
    forall t
      ensures InLine(lines', t) <==> InLine(lines, t)
    {
      if InLine(lines, t) {
        var i :| i in lines && Token(t) in lines[i];
        assert Token(t) in lines'[i];
      }
    }
  }

  /** A line goes, and the stash loses its tokens. */
  lemma Removed<V>(lines: map<nat, seq<Body>>, unsent: set<nat>, stashed: map<nat, V>, last: nat, id: nat,
      stashed': map<nat, V>)
    requires StashExact(lines, unsent, stashed, last) && id in lines
    requires forall t :: t in stashed' <==> t in stashed && Token(t) !in lines[id]
    ensures StashExact(lines - {id}, unsent, stashed', last)
  {
    var lines' := lines - {id};
    forall t
      ensures InLine(lines', t) <==> InLine(lines, t) && Token(t) !in lines[id]
    {
      if InLine(lines', t) {
        var i :| i in lines' && Token(t) in lines'[i];
        assert i in lines && Token(t) in lines[i];
      }
      if InLine(lines, t) && Token(t) !in lines[id] {
        var i :| i in lines && Token(t) in lines[i];
        assert i in lines' && Token(t) in lines'[i];
      }
    }
    forall t | Token(t) in lines[id]
      ensures InLine(lines, t)
    {
    }
  }

  lemma HandleExact<V>(s: State<V>, rid: nat, op: Op)
    requires Inv(s) && Proper(s, Request(rid, op))
    ensures Exact(Handle(s, rid, op)) && !Handle(s, rid, op).missing
  {
    hide Queue, Conserved, InOrder, ReadsSeeHead, Serves, Left, Effect, Settled, WaitersOf, StashExact, AllSettled,
         NoTokenTwice, Kept;
    var a := Ask(s, rid, op);
    var lines := Lines(s);
    if op.id !in s.mVars {
      ReleaseUnsent(lines, s.unsent, s.stashed, s.stashNextId, op);
      assert Lines(Handle(s, rid, op)) == lines;
    } else {
      var m := s.mVars[op.id];
      var (m', es) := Effect(m, rid, op);
      var q := Queue(m) + Added(op);
      var b := a.(mVars := s.mVars[op.id := m']);
      SettledAt(s.mVars, s.nextId, op.id);
      EffectCorrect(m, rid, op, ReadKind);
      RespondAllFrame(b, es);
      Joins(lines, s.unsent, s.stashed, s.stashNextId, op);
      LineStashed(lines[op.id := q], a.unsent, s.stashed, s.stashNextId, op.id);
      ServeStash(op.id, b, q, es);
      var r := RespondAll(b, es);
      Leaves(lines[op.id := q], a.unsent, s.stashed, s.stashNextId, op.id, Left(q, es), r.stashed);
      var joined: map<nat, seq<Body>> := lines[op.id := q];
      assert joined[op.id := Left(q, es)] == lines[op.id := Left(q, es)];
      assert Lines(r) == lines[op.id := Left(q, es)];
    }
  }

  lemma {:induction false} StashShrinks<V>(s: State<V>, es: seq<Event>)
    ensures var r := RespondAll(s, es); r.stashed.Keys <= s.stashed.Keys && (s.missing ==> r.missing)
    decreases es
  {
    if es != [] {
      StashShrinks(Respond(s, es[0]), es[1..]);
    }
  }

  /** A token that left the line was taken: its value is no longer stashed, and was missed if it
      was not stashed before. */
  lemma {:induction false} LeftStash<V>(id: nat, s: State<V>, q: seq<Body>, es: seq<Event>, t: nat)
    requires Serves(id, q, es) && Token(t) in q && Token(t) !in Left(q, es)
    ensures var r := RespondAll(s, es); t !in r.stashed && (t !in s.stashed ==> r.missing)
    decreases es
  {
    var s1 := Respond(s, es[0]);
    StashShrinks(s1, es[1..]);
    if !(es[0].a.Value? && es[0].op.Take? && q[0] == Token(t)) {
      var q1 := if es[0].a.Value? && es[0].op.Take? then q[1..] else q;
      assert q != [] ==> q == [q[0]] + q[1..];
      LeftStash(id, s1, q1, es[1..], t);
    }
  }

  /** A put that is not proper leaves the stash inexact or misses a value. */
  lemma HandleInexact<V>(s: State<V>, rid: nat, op: Op)
    requires Inv(s) && !Proper(s, Request(rid, op))
    ensures !Exact(Handle(s, rid, op)) || Handle(s, rid, op).missing
  {
    hide Queue, Conserved, InOrder, ReadsSeeHead, Serves, Left, Effect, Settled, WaitersOf, AllSettled, NoTokenTwice,
         OneHolder, RespondAll;
    var t := op.b.t;
    var r := Handle(s, rid, op);
    if op.id !in s.mVars {
      assert Lines(r) == Lines(s) && t !in r.stashed;
    } else {
      var m := s.mVars[op.id];
      var (m', es) := Effect(m, rid, op);
      var q := Queue(m) + Added(op);
      var b := Ask(s, rid, op).(mVars := s.mVars[op.id := m']);
      SettledAt(s.mVars, s.nextId, op.id);
      EffectCorrect(m, rid, op, ReadKind);
      RespondAllFrame(b, es);
      StashShrinks(b, es);
      assert Lines(r) == Lines(s)[op.id := Left(q, es)];
      PutWaits(m, rid, op);
      SentTwiceBreaks(Lines(s), op.id, Queue(m), q, es, b, t);
    }
  }

  /** A put waits behind what is in line. */
  lemma PutWaits(m: MVar, rid: nat, op: Op)
    requires Settled(m) && op.Put?
    ensures Queue(m) != [] ==> Effect(m, rid, op).1 == []
  {
    hide Wake, PutBodies;
    if m.value.None? {
      SettledEmpty(m);
    }
  }

  /** When a token sent before joins a line again, it is in two places, or its value is gone. */
  lemma SentTwiceBreaks<V>(lines: map<nat, seq<Body>>, id: nat, line: seq<Body>, q: seq<Body>, es: seq<Event>,
      b: State<V>, t: nat)
    requires id in lines && lines[id] == line && q == line + [Token(t)] && Serves(id, q, es)
    requires line != [] ==> es == []
    requires InLine(lines, t) <==> t in b.stashed
    ensures var r := RespondAll(b, es);
            r.missing || !StashExact(lines[id := Left(q, es)], r.unsent, r.stashed, r.stashNextId)
  {
    hide Serves, RespondAll;
    var left := Left(q, es);
    var r := RespondAll(b, es);
    var lines' := lines[id := left];
    assert q[|line|] == Token(t);
    StashShrinks(b, es);
    if Token(t) !in left {
      LeftStash(id, b, q, es, t);
    }
    if t in b.stashed {
      var i :| i in lines && Token(t) in lines[i];
      assert i != id ==> Token(t) in lines'[i];
      if i == id {
        var k :| 0 <= k < |line| && line[k] == Token(t);
        assert q[k] == q[|line|] && !NoTokenTwice(q);
        assert left == q && lines'[id] == q;
      } else if Token(t) in left {
        assert Token(t) in lines'[id] && Token(t) in lines'[i];
        assert !OneHolder(lines');
      } else {
        assert InLine(lines', t) && t !in r.stashed;
      }
    } else if Token(t) in left {
      assert Token(t) in lines'[id];
      assert InLine(lines', t);
    }
  }

  lemma CreateExact<V>(s: State<V>)
    requires Inv(s)
    ensures Exact(Create(s)) && !Create(s).missing
  {
    hide Conserved, InOrder, StashExact, ReadsSeeHead, WaitersOf, Settled;
    var id := s.nextId + 1;
    NewSettled(id);
    EmptyLine(Lines(s), s.unsent, s.stashed, s.stashNextId, id);
    assert Lines(Create(s)) == Lines(s)[id := []];
  }

  lemma DropExact<V>(s: State<V>, id: nat)
    requires Inv(s)
    ensures Exact(DropMVar(s, id)) && !DropMVar(s, id).missing
    ensures id in s.mVars ==> forall t :: t in DropMVar(s, id).stashed <==>
                                t in s.stashed && Token(t) !in Queue(s.mVars[id])
  {
    hide Conserved, InOrder, ReadsSeeHead, Queue, Settled, WaitersOf, Refusals, StashExact;
    if id in s.mVars {
      var m := s.mVars[id];
      var b := s.(mVars := s.mVars - {id});
      var c := ReleaseAll(b, Queue(m));
      SettledAt(s.mVars, s.nextId, id);
      RefusalsAnswer(ReadKind, id, m.waiters);
      ReleaseAllStash(b, Queue(m));
      ValuelessStash(c, Refusals(m.waiters));
      assert Lines(b) == Lines(s) - {id};
      Removed(Lines(s), s.unsent, s.stashed, s.stashNextId, id, c.stashed);
    }
  }

  /** Stashing keeps the stash exact if and only if the next id fits a token: an id that does
      not is stashed under a key no token names. */
  lemma StashKeeps<V>(s: State<V>, v: V)
    requires Inv(s)
    ensures Exact(StashValue(s, v)) <==> s.stashNextId + 1 < TOKEN_IDS
  {
    hide OneHolder, NoTokenTwice;
    var id := s.stashNextId + 1;
    assert Lines(StashValue(s, v)) == Lines(s);
    assert id !in s.stashed;
    assert !InLine(Lines(s), id);
  }

  /** The id of a value about to be stashed fits a token. */
  predicate Fits<V>(s: State<V>, c: Command<V>) {
    c.Stash? ==> s.stashNextId + 1 < TOKEN_IDS
  }

  /** Of all commands exactly the proper ones, within the ids a token can hold, keep the stash
      exact and miss no value. */
  lemma StepExact<V>(s: State<V>, c: Command<V>)
    requires Inv(s)
    ensures Inv(Step(s, c)) <==> Proper(s, c) && Fits(s, c)
  {
    hide Orderly, Exact, Handle, Create, DropMVar, Proper;
    StepKeeps(s, c);
    match c
    case New =>
      CreateExact(s);
      NoPut(s, c);
    case Request(rid, op) =>
      if Proper(s, c) {
        HandleExact(s, rid, op);
      } else {
        HandleInexact(s, rid, op);
      }
    case Drop(id) =>
      DropExact(s, id);
      NoPut(s, c);
    case Stash(v) =>
      StashKeeps(s, v);
      NoPut(s, c);
  }

  lemma NoPut<V>(s: State<V>, c: Command<V>)
    requires !c.Request?
    ensures Proper(s, c)
  {
  }

  lemma StartExact<V>()
    ensures Exact(Start<V>())
  {
  }

  lemma {:induction false} StashCount<V>(cs: seq<Command<V>>)
    ensures Run(cs).stashNextId == Stashes(cs)
  {
    if cs != [] {
      var c := cs[|cs| - 1];
      StashCount(cs[..|cs| - 1]);
      StepStashCount(Run(cs[..|cs| - 1]), c);
    }
  }

  lemma StepStashCount<V>(s: State<V>, c: Command<V>)
    ensures Step(s, c).stashNextId == s.stashNextId + (if c.Stash? then 1 else 0)
  {
    hide Effect, RespondAll, ReleaseAll, Queue, Refusals;
    match c
    case New =>
    case Request(rid, op) =>
      if op.id in s.mVars {
        var (m', es) := Effect(s.mVars[op.id], rid, op);
        RespondAllFrame(Ask(s, rid, op).(mVars := s.mVars[op.id := m']), es);
      }
    case Drop(id) =>
      if id in s.mVars {
        var b := s.(mVars := s.mVars - {id});
        ReleaseAllFrame(b, Queue(s.mVars[id]));
        RespondAllFrame(ReleaseAll(b, Queue(s.mVars[id])), Refusals(s.mVars[id].waiters));
      }
    case Stash(v) =>
  }

  lemma ProperBefore<V>(cs: seq<Command<V>>)
    requires cs != []
    ensures ProperRun(cs) <==> ProperRun(cs[..|cs| - 1]) && Proper(Run(cs[..|cs| - 1]), cs[|cs| - 1])
  {
    hide Proper, Run;
    var before := cs[..|cs| - 1];
    assert forall k :: 0 <= k < |before| ==> before[..k] == cs[..k] && before[k] == cs[k];
  }

  /** At every point of the run the stash is exact, and no decode has missed its value. */
  ghost predicate AlwaysExact<V>(cs: seq<Command<V>>) {
    forall k :: 0 <= k <= |cs| ==> Inv(Run(cs[..k]))
  }

  lemma ExactBefore<V>(cs: seq<Command<V>>)
    requires cs != []
    ensures AlwaysExact(cs) <==> AlwaysExact(cs[..|cs| - 1]) && Inv(Run(cs))
  {
    hide Inv, Run;
    var before := cs[..|cs| - 1];
    assert cs[..|cs|] == cs;
    assert forall k :: 0 <= k <= |before| ==> before[..k] == cs[..k];
    if AlwaysExact(before) && Inv(Run(cs)) {
      forall k | 0 <= k <= |cs|
        ensures Inv(Run(cs[..k]))
      {
        if k < |cs| {
          assert before[..k] == cs[..k];
        }
      }
    }
  }

  lemma ExactNow<V>(cs: seq<Command<V>>)
    requires AlwaysExact(cs)
    ensures Inv(Run(cs))
  {
    hide Inv, Run;
    assert cs[..|cs|] == cs;
  }

  /** A run keeps the stash exact throughout if and only if each put into a known MVar sends a
      token not sent before, no put into an unknown one releases what is held elsewhere, and
      no more values are stashed than a token can tell apart. */
  lemma {:induction false} TokensTellApart<V>(cs: seq<Command<V>>)
    ensures AlwaysExact(cs) <==> ProperRun(cs) && Stashes(cs) < TOKEN_IDS
  {
    hide Inv, AlwaysExact, Proper, ProperRun, Run, Step;
    if cs == [] {
      EmptyRun<V>();
    } else {
      var before, c := cs[..|cs| - 1], cs[|cs| - 1];
      TokensTellApart(before);
      ProperBefore(cs);
      ExactBefore(cs);
      StashCount(before);
      RunLast(cs);
      if AlwaysExact(before) {
        ExactNow(before);
        StepExact(Run(before), c);
      }
    }
  }

  lemma RunLast<V>(cs: seq<Command<V>>)
    requires cs != []
    ensures Run(cs) == Step(Run(cs[..|cs| - 1]), cs[|cs| - 1])
  {
  }

  lemma EmptyRun<V>()
    ensures AlwaysExact<V>([]) && ProperRun<V>([]) && Stashes<V>([]) == 0
  {
    hide Orderly, Exact;
    StartKeeps<V>();
    StartExact<V>();
  }

  /** When no MVar is live and every token was sent, nothing is stashed. */
  lemma NothingOutlives<V>(s: State<V>)
    requires Inv(s)
    ensures s.mVars == map[] && s.unsent == {} ==> s.stashed == map[]
  {
    hide Conserved, InOrder, ReadsSeeHead, AllSettled;
    if s.mVars == map[] && s.unsent == {} {
      assert forall t :: !InLine(Lines(s), t);
      assert s.stashed.Keys == {};
    }
  }
}
