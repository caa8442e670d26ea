/** What tokens stand for over whole runs: the value that was stashed, as long as their ids fit
    32 bits, and what happens when they no longer do. */
module MVarTokens {
  import opened Options
  import opened MVars
  import opened MVarHistory
  import opened MVarServer
  import opened MVarStash

  // ----- values -----

  /** The values of the stash commands, in order. */
  function StashedValues<V>(cs: seq<Command<V>>): seq<V> {
    if cs == [] then []
    else StashedValues(cs[..|cs| - 1]) + (if cs[|cs| - 1].Stash? then [cs[|cs| - 1].v] else [])
  }

  ghost predicate Under<V>(made: seq<V>, t: nat, v: V) {
    0 < t <= |made| && made[t - 1] == v
  }

  /** What is stashed under an id, and what was ever decoded for it, is what was stashed with it. */
  ghost predicate Remembered<V>(s: State<V>) {
    && |s.made| == s.stashNextId
    && (forall t :: t in s.stashed ==> Under(s.made, t, s.stashed[t]))
    && (forall d :: d in s.decoded ==> Under(s.made, d.t, d.v))
  }

  /** The responses that give a token away, with the request each answers. */
  function Deliveries(es: seq<Event>): seq<(nat, Op, nat)> {
    if es == [] then []
    else
      var e := es[|es| - 1];
      Deliveries(es[..|es| - 1]) + (if e.Answered? && e.a.Value? && e.a.b.Token? then [(e.rid, e.op, e.a.b.t)] else [])
  }

  function Tokens<V>(ds: seq<Decoded<V>>): seq<(nat, Op, nat)> {
    if ds == [] then []
    else
      var d := ds[|ds| - 1];
      Tokens(ds[..|ds| - 1]) + [(d.rid, d.op, d.t)]
  }

  /** Unless a value was missing, every token given away was decoded. */
  ghost predicate AllDecoded<V>(s: State<V>) {
    !s.missing ==> Tokens(s.decoded) == Deliveries(s.events)
  }

  lemma RespondRemembers<V>(s: State<V>, e: Event)
    requires Remembered(s) && AllDecoded(s)
    ensures Remembered(Respond(s, e)) && AllDecoded(Respond(s, e))
  {
    hide *;
    RespondRemembered(s, e);
    RespondDecodes(s, e);
  }

  lemma RespondRemembered<V>(s: State<V>, e: Event)
    requires Remembered(s)
    ensures Remembered(Respond(s, e))
  {
    hide Under;
  }

  lemma RespondDecodes<V>(s: State<V>, e: Event)
    requires AllDecoded(s)
    ensures AllDecoded(Respond(s, e))
  {
    var r := Respond(s, e);
    assert r.events[..|s.events|] == s.events;
    if r.decoded != s.decoded {
      assert r.decoded[..|s.decoded|] == s.decoded;
    }
  }

  lemma {:induction false} RespondAllRemembers<V>(s: State<V>, es: seq<Event>)
    requires Remembered(s) && AllDecoded(s)
    ensures Remembered(RespondAll(s, es)) && AllDecoded(RespondAll(s, es))
    decreases es
  {
    hide Respond, Remembered, AllDecoded;
    if es != [] {
      RespondRemembers(s, es[0]);
      RespondAllRemembers(Respond(s, es[0]), es[1..]);
    }
  }

  /** A request or a new MVar adds no delivery. */
  lemma NoDelivery(es: seq<Event>, e: Event)
    requires !e.Answered?
    ensures Deliveries(es + [e]) == Deliveries(es)
  {
    assert (es + [e])[..|es|] == es;
  }

  lemma StepRemembers<V>(s: State<V>, c: Command<V>)
    requires Remembered(s) && AllDecoded(s)
    ensures Remembered(Step(s, c)) && AllDecoded(Step(s, c))
  {
    hide Effect, RespondAll, Deliveries, Tokens, Queue, Refusals, ReleaseAll;
    match c
    case New => NoDelivery(s.events, Created(s.nextId + 1));
    case Request(rid, op) =>
      var a := Ask(s, rid, op);
      NoDelivery(s.events, Asked(rid, op));
      if op.id !in s.mVars {
        RespondRemembers(if op.Put? then Release(a, op.b) else a, Answered(rid, op, UnknownMVar));
      } else {
        var (m', es) := Effect(s.mVars[op.id], rid, op);
        RespondAllRemembers(a.(mVars := s.mVars[op.id := m']), es);
      }
    case Drop(id) =>
      if id in s.mVars {
        var b := s.(mVars := s.mVars - {id});
        ReleaseAllStash(b, Queue(s.mVars[id]));
        RespondAllRemembers(ReleaseAll(b, Queue(s.mVars[id])), Refusals(s.mVars[id].waiters));
      }
    case Stash(v) =>
  }

  lemma StepMade<V>(s: State<V>, c: Command<V>)
    ensures Step(s, c).made == s.made + (if c.Stash? then [c.v] else [])
  {
    hide Effect, RespondAll, Queue, Refusals, ReleaseAll;
    match c
    case New =>
    case Request(rid, op) =>
      if op.id in s.mVars {
        var (m', es) := Effect(s.mVars[op.id], rid, op);
        RespondAllMade(Ask(s, rid, op).(mVars := s.mVars[op.id := m']), es);
      }
    case Drop(id) =>
      if id in s.mVars {
        var b := s.(mVars := s.mVars - {id});
        ReleaseAllStash(b, Queue(s.mVars[id]));
        RespondAllMade(ReleaseAll(b, Queue(s.mVars[id])), Refusals(s.mVars[id].waiters));
      }
    case Stash(_) =>
  }

  lemma {:induction false} RespondAllMade<V>(s: State<V>, es: seq<Event>)
    ensures RespondAll(s, es).made == s.made
    decreases es
  {
    if es != [] {
      RespondAllMade(Respond(s, es[0]), es[1..]);
    }
  }

  lemma {:induction false} RunRemembers<V>(cs: seq<Command<V>>)
    ensures Remembered(Run(cs)) && AllDecoded(Run(cs)) && Run(cs).made == StashedValues(cs)
  {
    hide Step;
    if cs != [] {
      RunRemembers(cs[..|cs| - 1]);
      StepRemembers(Run(cs[..|cs| - 1]), cs[|cs| - 1]);
      StepMade(Run(cs[..|cs| - 1]), cs[|cs| - 1]);
    }
  }

  /** As long as no value was missing, every response that gives away token t is decoded to the
      value of the t-th stash command, which made this token if ids still fit. Over proper runs
      within those ids no value is missing. */
  lemma DecodesWhatWasStashed<V>(cs: seq<Command<V>>)
    ensures !Run(cs).missing ==> Tokens(Run(cs).decoded) == Deliveries(Run(cs).events)
    ensures forall d :: d in Run(cs).decoded ==> Under(StashedValues(cs), d.t, d.v)
    ensures ProperRun(cs) && Stashes(cs) < TOKEN_IDS ==> !Run(cs).missing
  {
    hide Orderly, Exact, Tokens, Deliveries, Run, AlwaysExact, ProperRun;
    TokensTellApart(cs);
    RunRemembers(cs);
    if AlwaysExact(cs) {
      ExactNow(cs);
    }
  }

  // ----- ids that do not fit -----

  /** A token in a body has 32 bits that are not all 0; any other body is not a token. */
  predicate Sendable<V>(c: Command<V>) {
    c.Request? && c.op.Put? && c.op.b.Token? ==> 0 < c.op.b.t < TOKEN_IDS
  }

  ghost predicate AllSendable<V>(cs: seq<Command<V>>) {
    forall c :: c in cs ==> Sendable(c)
  }

  ghost predicate SmallTokens(q: seq<Body>) {
    forall b :: b in q && b.Token? ==> b.t < TOKEN_IDS
  }

  /** All tokens in use have 32 bits. */
  ghost predicate Small<V>(s: State<V>) {
    && (forall t :: t in s.unsent ==> t < TOKEN_IDS)
    && (forall id :: id in s.mVars ==> SmallTokens(Queue(s.mVars[id])))
  }

  /** Every value stashed under an id that no token can hold is still there. */
  ghost predicate Lasts<V>(s: State<V>, r: State<V>) {
    forall k :: k >= TOKEN_IDS && k in s.stashed ==> k in r.stashed && r.stashed[k] == s.stashed[k]
  }

  lemma {:induction false} LeftFrom(id: nat, q: seq<Body>, es: seq<Event>)
    requires Serves(id, q, es)
    ensures forall b :: b in Left(q, es) ==> b in q
    ensures forall e :: e in es ==> e.Answered? && (e.a.Value? ==> e.a.b in q)
    decreases es
  {
    if es != [] {
      LeftFrom(id, if es[0].a.Value? && es[0].op.Take? then q[1..] else q, es[1..]);
      assert es == [es[0]] + es[1..];
    }
  }

  lemma {:induction false} RespondAllLasts<V>(s: State<V>, es: seq<Event>)
    requires forall e :: e in es && e.Answered? && e.a.Value? && e.a.b.Token? ==> e.a.b.t < TOKEN_IDS
    ensures Lasts(s, RespondAll(s, es))
    decreases es
  {
    if es != [] {
      assert es[0] in es;
      RespondAllLasts(Respond(s, es[0]), es[1..]);
    }
  }

  lemma HandleLasts<V>(s: State<V>, rid: nat, op: Op)
    requires Orderly(s) && Small(s) && Sendable<V>(Request(rid, op))
    ensures Small(Handle(s, rid, op)) && Lasts(s, Handle(s, rid, op))
  {
    hide Queue, Conserved, InOrder, ReadsSeeHead, Serves, Left, Effect, Settled, WaitersOf, AllSettled, RespondAll;
    if op.id in s.mVars {
      var m := s.mVars[op.id];
      var (m', es) := Effect(m, rid, op);
      var q := Queue(m) + Added(op);
      var b := Ask(s, rid, op).(mVars := s.mVars[op.id := m']);
      SettledAt(s.mVars, s.nextId, op.id);
      EffectCorrect(m, rid, op, ReadKind);
      LeftFrom(op.id, q, es);
      assert SmallTokens(Queue(m));
      assert SmallTokens(q) && SmallTokens(Queue(m'));
      RespondAllFrame(b, es);
      RespondAllLasts(b, es);
    }
  }

  lemma DropLasts<V>(s: State<V>, id: nat)
    requires Orderly(s) && Small(s)
    ensures Small(DropMVar(s, id)) && Lasts(s, DropMVar(s, id))
  {
    hide Queue, Conserved, InOrder, ReadsSeeHead, Settled, WaitersOf, Refusals;
    if id in s.mVars {
      var m := s.mVars[id];
      var b := s.(mVars := s.mVars - {id});
      SettledAt(s.mVars, s.nextId, id);
      RefusalsAnswer(ReadKind, id, m.waiters);
      ReleaseAllStash(b, Queue(m));
      ValuelessStash(ReleaseAll(b, Queue(m)), Refusals(m.waiters));
      assert SmallTokens(Queue(m));
    }
  }

  lemma StepLasts<V>(s: State<V>, c: Command<V>)
    requires Orderly(s) && Remembered(s) && Small(s) && Sendable(c)
    ensures Small(Step(s, c)) && Lasts(s, Step(s, c))
  {
    hide Orderly, Handle, DropMVar;
    match c
    case New => NewSettled(s.nextId + 1);
    case Request(rid, op) => HandleLasts(s, rid, op);
    case Drop(id) => DropLasts(s, id);
    case Stash(v) => StashLasts(s, v);
  }

  lemma StashLasts<V>(s: State<V>, v: V)
    requires Remembered(s) && Small(s)
    ensures Small(StashValue(s, v)) && Lasts(s, StashValue(s, v))
  {
    hide SmallTokens;
    var id := s.stashNextId + 1;
    assert id % TOKEN_IDS < TOKEN_IDS;
    assert id !in s.stashed;
  }

  lemma {:induction false} RunSmall<V>(cs: seq<Command<V>>)
    requires AllSendable(cs)
    ensures Small(Run(cs))
  {
    hide Orderly, Step, Sendable, Remembered;
    if cs != [] {
      RunSmall(cs[..|cs| - 1]);
      EveryRun(cs[..|cs| - 1]);
      RunRemembers(cs[..|cs| - 1]);
      StepLasts(Run(cs[..|cs| - 1]), cs[|cs| - 1]);
    }
  }

  /** The value is stashed for good: under an id above 32 bits, which no token names. */
  ghost predicate Lost<V>(s: State<V>, k: nat, v: V) {
    && k >= TOKEN_IDS && k in s.stashed && s.stashed[k] == v
    && k !in s.unsent && !InLine(Lines(s), k)
  }

  lemma LargeIsLost<V>(s: State<V>, k: nat)
    requires Small(s) && k >= TOKEN_IDS && k in s.stashed
    ensures Lost(s, k, s.stashed[k])
  {
    hide Queue;
    forall id | id in s.mVars
      ensures Token(k) !in Queue(s.mVars[id])
    {
      assert SmallTokens(Queue(s.mVars[id]));
    }
  }

  /** Once more values were stashed than a token can tell apart, the value of each later stash
      command stays for good, and no token ever names it. */
  lemma {:induction false} NeverFoundAgain<V>(cs: seq<Command<V>>, k: nat)
    requires AllSendable(cs) && TOKEN_IDS <= k <= Stashes(cs)
    ensures |StashedValues(cs)| == Stashes(cs) && Lost(Run(cs), k, StashedValues(cs)[k - 1])
  {
    hide Orderly, Step, Sendable, Small, Lost;
    var before, c := cs[..|cs| - 1], cs[|cs| - 1];
    RunRemembers(before);
    RunRemembers(cs);
    StashCount(before);
    StashCount(cs);
    EveryRun(before);
    RunSmall(before);
    RunSmall(cs);
    StepLasts(Run(before), c);
    if k <= Stashes(before) {
      NeverFoundAgain(before, k);
      LostIsStashed(Run(before), k, StashedValues(before)[k - 1]);
    } else {
      StashedLast(Run(before), c.v);
    }
    LargeIsLost(Run(cs), k);
  }

  lemma LostIsStashed<V>(s: State<V>, k: nat, v: V)
    requires Lost(s, k, v)
    ensures k in s.stashed && s.stashed[k] == v
  {
  }

  lemma StashedLast<V>(s: State<V>, v: V)
    ensures var r := Step(s, Stash(v)); s.stashNextId + 1 in r.stashed && r.stashed[s.stashNextId + 1] == v
  {
  }

  /** From then on the stash is never exact again. */
  lemma NeverExactAgain<V>(cs: seq<Command<V>>)
    requires AllSendable(cs) && Stashes(cs) >= TOKEN_IDS
    ensures !Exact(Run(cs))
  {
    hide Orderly, Step, Sendable, Run;
    NeverFoundAgain(cs, TOKEN_IDS);
  }

  // ----- runs that make too many tokens -----

  function Again<V>(n: nat, v: V): seq<Command<V>> {
    seq(n, _ => Stash(v))
  }

  /** State `r` is `s` after `n` stash commands. */
  ghost predicate AfterStashes<V>(s: State<V>, r: State<V>, n: nat) {
    && r.stashNextId == s.stashNextId + n
    && r.mVars == s.mVars && r.missing == s.missing
    && (forall t :: t in r.stashed <==> t in s.stashed || s.stashNextId < t <= s.stashNextId + n)
    && (n > 0 && r.stashNextId % TOKEN_IDS != 0 ==> r.stashNextId % TOKEN_IDS in r.unsent)
  }

  lemma StashStep<V>(s: State<V>, r: State<V>, n: nat, v: V)
    requires AfterStashes(s, r, n)
    ensures AfterStashes(s, Step(r, Stash(v)), n + 1)
  {
    hide Handle, Create, DropMVar;
  }

  lemma StashesSnoc<V>(cs: seq<Command<V>>, v: V)
    ensures Stashes(cs + [Stash(v)]) == Stashes(cs) + 1
  {
    assert (cs + [Stash(v)])[..|cs|] == cs;
  }

  /** `n` more stash commands after `cs`: they send nothing, and stash `n` more values. */
  lemma {:induction false} StashAgain<V>(cs: seq<Command<V>>, n: nat, v: V)
    requires ProperRun(cs)
    ensures ProperRun(cs + Again(n, v)) && AfterStashes(Run(cs), Run(cs + Again(n, v)), n)
    ensures Stashes(cs + Again(n, v)) == Stashes(cs) + n
  {
    hide ProperRun, Run, Step, Stashes;
    if n == 0 {
      assert cs + Again(0, v) == cs;
    } else {
      StashAgain(cs, n - 1, v);
      var before := cs + Again(n - 1, v);
      assert cs + Again(n, v) == before + [Stash(v)];
      OneMore(before, Stash(v));
      StashStep(Run(cs), Run(before), n - 1, v);
      StashesSnoc(before, v);
    }
  }

  /** A run goes on with a command that is proper where it stands. */
  lemma OneMore<V>(cs: seq<Command<V>>, c: Command<V>)
    requires ProperRun(cs) && (c.Stash? || Proper(Run(cs), c))
    ensures ProperRun(cs + [c]) && Run(cs + [c]) == Step(Run(cs), c)
  {
    hide Step, Run;
    var all := cs + [c];
    assert all[..|cs|] == cs;
    RunSnoc(cs, c);
    forall k | 0 <= k < |all|
      ensures Proper(Run(all[..k]), all[k])
    {
      if k < |cs| {
        assert all[..k] == cs[..k] && all[k] == cs[k];
      }
    }
  }

  lemma RunSnoc<V>(cs: seq<Command<V>>, c: Command<V>)
    ensures Run(cs + [c]) == Step(Run(cs), c)
  {
    assert (cs + [c])[..|cs|] == cs;
  }

  /** The run of 2^32 stash commands leaves the stash inexact. */
  lemma TooManyStashes<V>(v: V)
    ensures ProperRun(Again(TOKEN_IDS, v)) && !Exact(Run(Again(TOKEN_IDS, v)))
  {
    hide Run, Exact, Stashes;
    var none: seq<Command<V>> := [];
    assert ProperRun(none);
    StashAgain(none, TOKEN_IDS, v);
    assert none + Again(TOKEN_IDS, v) == Again(TOKEN_IDS, v);
    NoStashes<V>();
    NeverExactAgain(Again(TOKEN_IDS, v));
  }

  lemma NoStashes<V>()
    ensures Stashes<V>([]) == 0
  {
  }

  /** A value is stashed, put and taken; 2^32 more are stashed, so that the last one's token is
      that of the first; putting it and taking it misses a value. */
  lemma DecodeMisses<V>(v: V) returns (cs: seq<Command<V>>)
    ensures AllSendable(cs) && ProperRun(cs) && Run(cs).missing
  {
    var first := FirstTaken(v);
    var full := first + Again(TOKEN_IDS, v);
    StashAgain(first, TOKEN_IDS, v);
    hide Run, Step, ProperRun, AllSendable, Again;
    var s := Run(full);
    FirstTokenAgain(Run(first), s);
    var put: Command<V> := Request(2, Put(1, Token(1)));
    var take: Command<V> := Request(3, Take(1));
    OneMore(full, put);
    PutsAlone(s, 2, Token(1));
    OneMore(full + [put], take);
    TakeMisses(Run(full + [put]), 3);
    cs := full + [put] + [take];
    NoneSent(TOKEN_IDS, v);
    SendableConcat(first, Again(TOKEN_IDS, v));
    SendableConcat(full, [put]);
    SendableConcat(full + [put], [take]);
  }

  lemma FirstTokenAgain<V>(s: State<V>, r: State<V>)
    requires s.stashNextId == 1 && s.stashed == map[] && AfterStashes(s, r, TOKEN_IDS)
    ensures r.mVars == s.mVars && 1 !in r.stashed && 1 in r.unsent
  {
  }

  lemma NoneSent<V>(n: nat, v: V)
    ensures AllSendable(Again(n, v))
  {
    forall c | c in Again(n, v)
      ensures c.Stash?
    {
    }
  }

  lemma SendableConcat<V>(cs: seq<Command<V>>, more: seq<Command<V>>)
    ensures AllSendable(cs + more) <==> AllSendable(cs) && AllSendable(more)
  {
    hide Sendable;
    assert forall c :: c in cs ==> c in cs + more;
    assert forall c :: c in more ==> c in cs + more;
  }

  /** One value is stashed, and its token put and taken twice, as when the task of one put is
      run twice: the second take misses the value. */
  lemma SentTwice<V>(v: V) returns (cs: seq<Command<V>>)
    ensures AllSendable(cs) && Stashes(cs) == 1 && Run(cs).missing
  {
    hide Run, Stashes, Step;
    var first := FirstTaken(v);
    var put: Command<V> := Request(2, Put(1, Token(1)));
    var take: Command<V> := Request(3, Take(1));
    cs := first + [put] + [take];
    RunSnoc(first, put);
    PutsAlone(Run(first), 2, Token(1));
    RunSnoc(first + [put], take);
    TakeMisses(Run(first + [put]), 3);
    StashCount(cs);
  }

  /** A run in which a value is stashed, put into MVar 1 and taken. */
  lemma FirstTaken<V>(v: V) returns (cs: seq<Command<V>>)
    ensures AllSendable(cs)
    ensures ProperRun(cs) && Run(cs).stashNextId == 1 && Run(cs).mVars == map[1 := MVar(None, [])]
            && Run(cs).stashed == map[]
  {
    hide Run;
    cs := [];
    StartRun<V>();
    OneMore(cs, New);
    cs := cs + [New];
    OneMore(cs, Stash(v));
    cs := cs + [Stash(v)];
    var s := Run(cs);
    assert s.mVars == map[1 := MVar(None, [])] && s.unsent == {1} && s.stashed == map[1 := v] && s.stashNextId == 1;
    OneMore(cs, Request(0, Put(1, Token(1))));
    PutsAlone(s, 0, Token(1));
    cs := cs + [Request(0, Put(1, Token(1)))];
    OneMore(cs, Request(1, Take(1)));
    TakesAlone(Run(cs), 1);
    cs := cs + [Request(1, Take(1))];
  }

  lemma StartRun<V>()
    ensures Run<V>([]) == Start() && ProperRun<V>([])
  {
  }

  lemma RespondOne<V>(s: State<V>, e: Event)
    ensures RespondAll(s, [e]) == Respond(s, e)
  {
    hide Respond;
    assert [e][1..] == [];
    assert RespondAll(Respond(s, e), []) == Respond(s, e);
  }

  /** With no waiters a put into an empty slot, and a take of a held value, are answered alone. */
  lemma EffectAlone(rid: nat, b: Body)
    ensures Effect(MVar(None, []), rid, Put(1, b)) == (MVar(Some(b), []), [Answered(rid, Put(1, b), Unit)])
    ensures Effect(MVar(Some(b), []), rid, Take(1)) == (MVar(None, []), [Answered(rid, Take(1), Value(b))])
  {
    var put, take := Answered(rid, Put(1, b), Unit), Answered(rid, Take(1), Value(b));
    assert [put] + [] == [put] && [take] + [] == [take];
  }

  /** A put into the only MVar, which is empty and has no waiters. */
  lemma PutsAlone<V>(s: State<V>, rid: nat, b: Body)
    requires s.mVars == map[1 := MVar(None, [])]
    ensures var r := Step(s, Request(rid, Put(1, b)));
            r.mVars == map[1 := MVar(Some(b), [])] && r.stashed == s.stashed && r.stashNextId == s.stashNextId
  {
    hide Effect, RespondAll;
    EffectAlone(rid, b);
    var m := MVar(Some(b), []);
    RespondOne(Ask(s, rid, Put(1, b)).(mVars := s.mVars[1 := m]), Answered(rid, Put(1, b), Unit));
  }

  lemma TakesAlone<V>(s: State<V>, rid: nat)
    requires s.mVars == map[1 := MVar(Some(Token(1)), [])] && s.stashed.Keys == {1}
    ensures var r := Step(s, Request(rid, Take(1)));
            r.mVars == map[1 := MVar(None, [])] && r.stashed == map[] && r.stashNextId == s.stashNextId
  {
    hide Effect, RespondAll;
    EffectAlone(rid, Token(1));
    var m := MVar(None, []);
    RespondOne(Ask(s, rid, Take(1)).(mVars := s.mVars[1 := m]), Answered(rid, Take(1), Value(Token(1))));
  }

  lemma TakeMisses<V>(s: State<V>, rid: nat)
    requires s.mVars == map[1 := MVar(Some(Token(1)), [])] && 1 !in s.stashed
    ensures var r := Step(s, Request(rid, Take(1))); r.missing && r.stashNextId == s.stashNextId
  {
    hide Effect, RespondAll;
    EffectAlone(rid, Token(1));
    var m := MVar(None, []);
    RespondOne(Ask(s, rid, Take(1)).(mVars := s.mVars[1 := m]), Answered(rid, Take(1), Value(Token(1))));
  }
}
