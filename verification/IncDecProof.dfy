/** Correctness of the reference-count insertion: the instrumented program computes what the
    original does, every count is the number of references that exist, nothing is touched
    after it is freed, and nothing is left over. */
module IncDecProof {
  import opened BorrowSignature
  import opened Options
  import opened RcHeap
  import opened RcIr
  import opened IncDec

  type HEnv = map<Symbol, Value>
  type TEnv = map<Symbol, Tree>

  function TokOf(env: HEnv, s: Symbol): multiset<Loc> {
    if s in env then Tok(env[s]) else multiset{}
  }

  /** The references owned through the symbols of `c`. */
  function Tokens(env: HEnv, c: set<Symbol>): multiset<Loc> {
    if c == {} then multiset{} else TokOf(env, Least(c)) + Tokens(env, c - {Least(c)})
  }

  lemma {:induction false} TokensTake(env: HEnv, c: set<Symbol>, s: Symbol)
    requires s in c
    ensures Tokens(env, c) == TokOf(env, s) + Tokens(env, c - {s})
    decreases c
  {
    var t := Least(c);
    if t != s {
      TokensTake(env, c - {t}, s);
      TokensTake(env, c - {s}, t);
      assert c - {t} - {s} == c - {s} - {t};
    }
  }

  lemma TokensAdd(env: HEnv, c: set<Symbol>, s: Symbol)
    requires s !in c
    ensures Tokens(env, c + {s}) == TokOf(env, s) + Tokens(env, c)
  {
    TokensTake(env, c + {s}, s);
    assert c + {s} - {s} == c;
  }

  lemma {:induction false} TokensSame(env: HEnv, env': HEnv, c: set<Symbol>)
    requires forall s :: s in c ==> TokOf(env, s) == TokOf(env', s)
    ensures Tokens(env, c) == Tokens(env', c)
    decreases c
  {
    if c != {} {
      TokensSame(env, env', c - {Least(c)});
    }
  }

  // ----- the state between two statements -----

  /** The two environments agree on which values are numbers, and on those numbers. */
  ghost predicate Kinds(env: HEnv, trees: TEnv) {
    && env.Keys == trees.Keys
    && forall s :: s in env ==> (trees[s].Num? ==> env[s] == Int(trees[s].n)) && (trees[s].Con? ==> env[s].Ref?)
  }

  ghost predicate IsLent(own: Own, s: Symbol) {
    s in own && own[s] == Borrowed
  }

  /** The symbols still needed stand for the trees of the original program. */
  ghost predicate Standing(h: Heap, env: HEnv, trees: TEnv, own: Own, c: set<Symbol>) {
    forall s :: s in env && s in trees && (s in c || IsLent(own, s)) ==> Rep(h, env[s], trees[s])
  }

  /** Borrowed parameters are kept alive by somebody else. */
  ghost predicate Lent(roots: multiset<Loc>, env: HEnv, own: Own) {
    forall s :: s in env && IsLent(own, s) ==> Tok(env[s]) <= roots
  }

  ghost predicate OwnedOnly(own: Own, c: set<Symbol>) {
    forall s :: s in c ==> s in own && own[s] == Owned
  }

  /** The heap counts the references of `roots` and one for each symbol of `c`, the symbols
      the statement to come consumes. */
  ghost predicate Ready(h: Heap, roots: multiset<Loc>, env: HEnv, trees: TEnv, own: Own, c: set<Symbol>) {
    && own.Keys <= env.Keys
    && Kinds(env, trees)
    && Inv(h, roots + Tokens(env, c))
    && Lent(roots, env, own)
    && Standing(h, env, trees, own, c)
    && OwnedOnly(own, c)
  }

  /** Untracked symbols hold no references. */
  ghost predicate Scoped(env: HEnv, own: Own) {
    forall s :: s in env && s !in own ==> env[s].Int?
  }

  /** `after` differs from `before` only by consumed symbols. */
  ghost predicate Later(before: Own, after: Own) {
    && after.Keys == before.Keys
    && forall s :: s in before && before[s] == Borrowed ==> after[s] == Borrowed
  }

  /** The instrumented result matches the original one. */
  ghost predicate Agrees(p: Result, q: HResult, h: Heap, roots: multiset<Loc>) {
    match p
    case Done(t) => q.HDone? && Inv(q.h, roots + Tok(q.v)) && Rep(q.h, q.v, t) && Shrinks(h, q.h)
    case Stuck => q.HStuck?
    case Timeout => q.HTimeout?
  }

  // ----- heap steps on a ready state -----

  lemma NeededIsLive(h: Heap, roots: multiset<Loc>, env: HEnv, own: Own, c: set<Symbol>, s: Symbol)
    requires Inv(h, roots + Tokens(env, c)) && Lent(roots, env, own)
    requires s in env && (s in c || IsLent(own, s))
    ensures env[s].Ref? ==> IsLive(h, env[s].loc)
  {
    hide Inv;
    var all := roots + Tokens(env, c);
    if s in c {
      TokensTake(env, c, s);
      assert Tok(env[s]) <= all;
    } else {
      assert Tok(env[s]) <= roots <= all;
    }
    if env[s].Ref? {
      RootIsLive(h, all, env[s]);
    }
  }

  /** Steps that free only unreferenced cells keep what is still needed standing. */
  lemma StandingStays(h: Heap, h': Heap, roots: multiset<Loc>, env: HEnv, trees: TEnv, own: Own, c: set<Symbol>,
      c': set<Symbol>)
    requires Standing(h, env, trees, own, c) && Shrinks(h, h') && c' <= c
    requires Inv(h', roots + Tokens(env, c')) && Lent(roots, env, own)
    ensures Standing(h', env, trees, own, c')
  {
    hide Inv, Shrinks, Rep, Lent;
    forall s | s in env && s in trees && (s in c' || IsLent(own, s)) ensures Rep(h', env[s], trees[s]) {
      NeededIsLive(h', roots, env, own, c', s);
      RepStays(h, h', roots + Tokens(env, c'), env[s], trees[s]);
    }
  }

  lemma DecStep(h: Heap, roots: multiset<Loc>, env: HEnv, trees: TEnv, own: Own, c: set<Symbol>, s: Symbol)
    requires Ready(h, roots, env, trees, own, c + {s}) && s !in c
    ensures s in env && Decrement(h, env[s]).Some?
    ensures Ready(Decrement(h, env[s]).value, roots, env, trees, own, c)
    ensures Shrinks(h, Decrement(h, env[s]).value)
  {
    hide Inv, Shrinks, Rep, Decrement, Lent, Standing;
    TokensAdd(env, c, s);
    assert s in c + {s} && s in env;
    assert roots + Tokens(env, c + {s}) == (roots + Tokens(env, c)) + Tok(env[s]);
    DecrementCorrect(h, roots + Tokens(env, c), env[s]);
    StandingStays(h, Decrement(h, env[s]).value, roots, env, trees, own, c + {s}, c);
  }

  lemma LentMore(roots: multiset<Loc>, more: multiset<Loc>, env: HEnv, own: Own)
    requires Lent(roots, env, own) && roots <= more
    ensures Lent(more, env, own)
  {
  }

  lemma IncStep(h: Heap, roots: multiset<Loc>, env: HEnv, trees: TEnv, own: Own, c: set<Symbol>, v: Value, n: nat)
    requires Ready(h, roots, env, trees, own, c) && (v.Ref? ==> IsLive(h, v.loc))
    ensures Increment(h, v, n).Some?
    ensures Ready(Increment(h, v, n).value, roots + Times(v, n), env, trees, own, c)
    ensures Shrinks(h, Increment(h, v, n).value)
  {
    hide Inv, Shrinks, Rep, Increment, Lent, Standing;
    IncrementCorrect(h, roots + Tokens(env, c), v, n);
    var roots' := roots + Times(v, n);
    assert roots' + Tokens(env, c) == (roots + Tokens(env, c)) + Times(v, n);
    LentMore(roots, roots', env, own);
    StandingStays(h, Increment(h, v, n).value, roots', env, trees, own, c, c);
  }

  // ----- running the inserted operations -----

  lemma ConsumedStep(before: Own, own: Own, s: Symbol)
    requires Later(before, own) && s in own && own[s] == Owned
    ensures Later(before, Consume(own, s))
    ensures s !in Consumed(before, own)
    ensures Consumed(before, Consume(own, s)) == Consumed(before, own) + {s}
  {
  }

  /** The inserted `Dec`s run without fault and drop exactly what the rest does not consume. */
  lemma {:induction false} DecsRun(fuel: nat, procs: Procs, counted: set<Symbol>, h: Heap, roots: multiset<Loc>,
      env: HEnv, trees: TEnv, before: Own, own: Own, ss: seq<Symbol>, cont: Stmt) returns (h': Heap)
    requires Later(before, own)
    requires Ready(h, roots, env, trees, before, Consumed(before, DecBorrowed(own, ss, cont).1))
    ensures Ready(h', roots, env, trees, before, Consumed(before, own)) && Shrinks(h, h')
    ensures HEval(fuel, procs, counted, env, h, DecBorrowed(own, ss, cont).0)
            == HEval(fuel, procs, counted, env, h', cont)
    decreases |ss|
  {
    hide Ready, Shrinks, Consumed, Later, Decrement;
    if ss == [] {
      h' := h;
      ShrinksRefl(h);
    } else {
      var s := ss[0];
      if s in own && own[s] == Owned {
        ConsumedStep(before, own, s);
        var h1 := DecsRun(fuel, procs, counted, h, roots, env, trees, before, Consume(own, s), ss[1..], Dec(s, cont));
        DecStep(h1, roots, env, trees, before, Consumed(before, own), s);
        h' := Decrement(h1, env[s]).value;
        ShrinksTrans(h, h1, h');
      } else {
        h' := DecsRun(fuel, procs, counted, h, roots, env, trees, before, own, ss[1..], cont);
      }
    }
  }

  /** What the borrowed uses leave consumed: what was, and every owned symbol they mention. */
  lemma {:induction false} DecsConsume(before: Own, own: Own, ss: seq<Symbol>, cont: Stmt)
    requires Later(before, own)
    ensures Later(before, DecBorrowed(own, ss, cont).1)
    ensures forall s :: s in Consumed(before, DecBorrowed(own, ss, cont).1) <==>
                        s in Consumed(before, own) || (s in ss && s in before && before[s] == Owned)
    decreases |ss|
  {
    if ss != [] {
      var s := ss[0];
      assert forall x :: x in ss <==> x == s || x in ss[1..];
      if s in own && own[s] == Owned {
        ConsumedStep(before, own, s);
        DecsConsume(before, Consume(own, s), ss[1..], Dec(s, cont));
      } else {
        DecsConsume(before, own, ss[1..], cont);
      }
    }
  }

  /** One reference for every occurrence in `ss`. */
  function Uses(env: HEnv, ss: seq<Symbol>): multiset<Loc> {
    if ss == [] then multiset{} else TokOf(env, ss[0]) + Uses(env, ss[1..])
  }

  function TimesOf(env: HEnv, s: Symbol, n: nat): multiset<Loc> {
    if s in env then Times(env[s], n) else multiset{}
  }

  lemma TimesSucc(env: HEnv, s: Symbol, n: nat)
    ensures TimesOf(env, s, n + 1) == TokOf(env, s) + TimesOf(env, s, n)
    ensures TimesOf(env, s, 0) == multiset{}
  {
  }

  lemma {:induction false} UsesRemove(env: HEnv, ss: seq<Symbol>, s: Symbol)
    ensures Uses(env, ss) == TimesOf(env, s, Count(ss, s)) + Uses(env, Remove(ss, s))
  {
    hide TimesOf, TokOf;
    TimesSucc(env, s, 0);
    if ss == [] {
      assert TimesOf(env, s, 0) + multiset{} == multiset{};
    } else {
      var a, r, n := ss[0], Remove(ss[1..], s), Count(ss[1..], s);
      UsesRemove(env, ss[1..], s);
      if a != s {
        assert Remove(ss, s) == [a] + r;
        UsesCons(env, a, r);
      } else {
        assert Remove(ss, s) == r;
        TimesSucc(env, s, n);
      }
      hide Uses, Remove, Count;
      UsesFirst(TokOf(env, a), TimesOf(env, s, n), Uses(env, r));
    }
  }

  lemma UsesFirst(t: multiset<Loc>, m: multiset<Loc>, u: multiset<Loc>)
    ensures t + (m + u) == m + (t + u) == (t + m) + u
  {
  }

  lemma {:induction false} UsesAreRefs(env: HEnv, ss: seq<Symbol>)
    requires forall s :: s in ss ==> s in env
    ensures multiset(RefsOf(Values(env, ss))) == Uses(env, ss)
  {
    if ss != [] {
      UsesAreRefs(env, ss[1..]);
      var vs := Values(env, ss);
      assert vs[1..] == Values(env, ss[1..]);
      RefsOfCons(vs);
    }
  }

  lemma RefsOfCons(vs: seq<Value>)
    requires vs != []
    ensures multiset(RefsOf(vs)) == Tok(vs[0]) + multiset(RefsOf(vs[1..]))
  {
  }

  lemma {:induction false} UsesHas(env: HEnv, ss: seq<Symbol>, s: Symbol)
    requires s in ss
    ensures TokOf(env, s) <= Uses(env, ss)
  {
    hide TokOf;
    if ss[0] != s {
      UsesHas(env, ss[1..], s);
    }
  }

  /** A reference owned through a symbol becomes one owned by somebody else. */
  lemma Detach(h: Heap, roots: multiset<Loc>, env: HEnv, trees: TEnv, own: Own, c: set<Symbol>, s: Symbol)
    requires Ready(h, roots, env, trees, own, c + {s}) && s !in c
    ensures Ready(h, roots + TokOf(env, s), env, trees, own, c)
  {
    hide Inv, Rep;
    TokensAdd(env, c, s);
    assert roots + Tokens(env, c + {s}) == (roots + TokOf(env, s)) + Tokens(env, c);
    LentMore(roots, roots + TokOf(env, s), env, own);
  }

  ghost predicate AllRep(h: Heap, env: HEnv, trees: TEnv, ss: seq<Symbol>) {
    forall s :: s in ss ==> s in env && s in trees && Rep(h, env[s], trees[s])
  }

  lemma AllRepStays(h: Heap, h': Heap, roots: multiset<Loc>, env: HEnv, trees: TEnv, ss: seq<Symbol>)
    requires AllRep(h, env, trees, ss) && Shrinks(h, h') && Inv(h', roots) && Uses(env, ss) <= roots
    ensures AllRep(h', env, trees, ss)
  {
    hide Inv, Shrinks, Rep;
    forall s | s in ss ensures Rep(h', env[s], trees[s]) {
      UsesHas(env, ss, s);
      if env[s].Ref? {
        RootIsLive(h', roots, env[s]);
      }
      RepStays(h, h', roots, env[s], trees[s]);
    }
  }

  /** Paying `k` more references for a needed symbol. */
  lemma IncPay(h: Heap, r1: multiset<Loc>, env: HEnv, trees: TEnv, before: Own, c: set<Symbol>, s: Symbol, k: nat,
      rest: seq<Symbol>)
    returns (h': Heap)
    requires Ready(h, r1, env, trees, before, c) && s in env && (s in c || IsLent(before, s))
    requires AllRep(h, env, trees, rest) && Uses(env, rest) <= r1
    ensures if k == 0 then h' == h else Increment(h, env[s], k) == Some(h')
    ensures Ready(h', r1 + TimesOf(env, s, k), env, trees, before, c)
    ensures Shrinks(h, h') && AllRep(h', env, trees, rest)
    ensures s in trees && Rep(h', env[s], trees[s])
  {
    NeededIsLive(h, r1, env, before, c, s);
    hide Inv, Shrinks, Rep, Increment, Lent, Standing, Uses, AllRep;
    var r2 := r1 + TimesOf(env, s, k);
    if k == 0 {
      h' := h;
      TimesSucc(env, s, 0);
      assert r2 == r1;
      ShrinksRefl(h);
    } else {
      IncStep(h, r1, env, trees, before, c, env[s], k);
      h' := Increment(h, env[s], k).value;
    }
    NeededRep(h', env, trees, before, c, s);
    assert Uses(env, rest) <= r2 + Tokens(env, c);
    AllRepStays(h, h', r2 + Tokens(env, c), env, trees, rest);
  }

  lemma ConsumedOrLent(before: Own, own: Own, s: Symbol)
    requires Later(before, own) && s in own
    ensures s in Consumed(before, Consume(own, s)) || IsLent(before, s)
    ensures own[s] == Borrowed ==> Consume(own, s) == own
  {
  }

  lemma ReadyHas(h: Heap, roots: multiset<Loc>, env: HEnv, trees: TEnv, own: Own, c: set<Symbol>, s: Symbol)
    requires Ready(h, roots, env, trees, own, c) && s in own
    ensures s in env
  {
  }

  /** One symbol's `Inc`: pays for all its uses. */
  lemma IncOne(h: Heap, roots: multiset<Loc>, env: HEnv, trees: TEnv, before: Own, own: Own, s: Symbol, n: nat,
      rest: seq<Symbol>)
    returns (h': Heap)
    requires Later(before, own) && s in own && n > 0
    requires Ready(h, roots + Uses(env, rest), env, trees, before, Consumed(before, Consume(own, s)))
    requires AllRep(h, env, trees, rest)
    ensures s in env
    ensures var k := if own[s] == Owned then n - 1 else n;
            if k == 0 then h' == h else Increment(h, env[s], k) == Some(h')
    ensures Ready(h', roots + (TimesOf(env, s, n) + Uses(env, rest)), env, trees, before, Consumed(before, own))
    ensures Shrinks(h, h') && AllRep(h', env, trees, rest)
    ensures s in trees && Rep(h', env[s], trees[s])
  {
    hide Ready, Shrinks, Rep, Increment, Consumed, Uses, AllRep, TimesOf, TokOf;
    var c' := Consumed(before, Consume(own, s));
    var k := if own[s] == Owned then n - 1 else n;
    var r1 := roots + Uses(env, rest);
    ConsumedOrLent(before, own, s);
    ReadyHas(h, r1, env, trees, before, c', s);
    h' := IncPay(h, r1, env, trees, before, c', s, k, rest);
    var r2 := r1 + TimesOf(env, s, k);
    var r3 := roots + (TimesOf(env, s, n) + Uses(env, rest));
    if own[s] == Owned {
      ConsumedStep(before, own, s);
      TimesSucc(env, s, n - 1);
      Detach(h', r2, env, trees, before, Consumed(before, own), s);
      assert r2 + TokOf(env, s) == r3;
    } else {
      assert r2 == r3;
    }
  }

  lemma NeededRep(h: Heap, env: HEnv, trees: TEnv, own: Own, c: set<Symbol>, s: Symbol)
    requires Standing(h, env, trees, own, c) && s in env && s in trees && (s in c || IsLent(own, s))
    ensures Rep(h, env[s], trees[s])
  {
  }

  lemma CountFirst(ss: seq<Symbol>)
    requires ss != []
    ensures Count(ss, ss[0]) > 0 && Remove(ss, ss[0]) == Remove(ss[1..], ss[0])
    ensures forall x :: x in ss ==> x == ss[0] || x in Remove(ss[1..], ss[0])
  {
    forall x | x in ss ensures x == ss[0] || x in Remove(ss[1..], ss[0]) {
      if x != ss[0] {
        assert x in ss[1..];
        KeptByRemove(ss[1..], ss[0], x);
      }
    }
  }

  lemma {:induction false} KeptByRemove(ss: seq<Symbol>, s: Symbol, x: Symbol)
    requires x in ss && x != s
    ensures x in Remove(ss, s)
  {
    if ss[0] != x {
      KeptByRemove(ss[1..], s, x);
    }
  }

  lemma NumberRep(h: Heap, env: HEnv, trees: TEnv, own: Own, s: Symbol)
    requires Kinds(env, trees) && Scoped(env, own) && s in env && s !in own
    ensures Rep(h, env[s], trees[s]) && TokOf(env, s) == multiset{}
    ensures forall n: nat :: TimesOf(env, s, n) == multiset{}
  {
  }

  /** The inserted `Inc`s run without fault and provide one reference for every use. */
  lemma {:induction false} IncsRun(fuel: nat, procs: Procs, counted: set<Symbol>, h: Heap, roots: multiset<Loc>,
      env: HEnv, trees: TEnv, before: Own, own: Own, ss: seq<Symbol>, cont: Stmt) returns (h': Heap)
    requires Later(before, own) && Scoped(env, before)
    requires forall s :: s in ss ==> s in env
    requires Ready(h, roots, env, trees, before, Consumed(before, IncOwned(own, ss, cont).1))
    ensures Ready(h', roots + Uses(env, ss), env, trees, before, Consumed(before, own)) && Shrinks(h, h')
    ensures AllRep(h', env, trees, ss)
    ensures HEval(fuel, procs, counted, env, h, IncOwned(own, ss, cont).0) == HEval(fuel, procs, counted, env, h', cont)
    decreases |ss|
  {
    hide Ready, Shrinks, Consumed, Increment, Inv, Rep, Uses, TimesOf, Remove, Scoped;
    if ss == [] {
      h' := h;
      ShrinksRefl(h);
      UsesNothing(env);
      assert roots + Uses(env, ss) == roots;
    } else {
      var s := ss[0];
      var rest := Remove(ss[1..], s);
      var n := Count(ss, s);
      CountFirst(ss);
      UsesRemove(env, ss, s);
      if s in own {
        var k := if own[s] == Owned then n - 1 else n;
        LaterConsume(before, own, s);
        var h1 := IncsRun(fuel, procs, counted, h, roots, env, trees, before, Consume(own, s), rest,
            InsertInc(s, k, cont));
        h' := IncOne(h1, roots, env, trees, before, own, s, n, rest);
        ShrinksTrans(h, h1, h');
      } else {
        h' := IncsRun(fuel, procs, counted, h, roots, env, trees, before, own, rest, cont);
        ReadyKinds(h', roots + Uses(env, rest), env, trees, before, Consumed(before, own));
        NumberRep(h', env, trees, before, s);
        assert Uses(env, ss) == Uses(env, rest);
      }
    }
  }

  lemma UsesNothing(env: HEnv)
    ensures Uses(env, []) == multiset{}
  {
  }

  lemma LaterConsume(before: Own, own: Own, s: Symbol)
    requires Later(before, own)
    ensures Later(before, Consume(own, s))
  {
  }

  lemma ReadyKinds(h: Heap, roots: multiset<Loc>, env: HEnv, trees: TEnv, own: Own, c: set<Symbol>)
    requires Ready(h, roots, env, trees, own, c)
    ensures Kinds(env, trees)
  {
  }

  /** What the owned uses leave consumed. */
  lemma {:induction false} IncsConsume(before: Own, own: Own, ss: seq<Symbol>, cont: Stmt)
    requires Later(before, own)
    ensures Later(before, IncOwned(own, ss, cont).1)
    decreases |ss|
  {
    if ss != [] {
      var s := ss[0];
      var rest := Remove(ss[1..], s);
      if s in own {
        LaterConsume(before, own, s);
        var n := Count(ss, s);
        IncsConsume(before, Consume(own, s), rest, InsertInc(s, if own[s] == Owned then n - 1 else n, cont));
      } else {
        IncsConsume(before, own, rest, cont);
      }
    }
  }

  // ----- binding a result -----

  lemma ReadyExtend(h: Heap, roots: multiset<Loc>, env: HEnv, trees: TEnv, own: Own, c: set<Symbol>, x: Symbol,
      v: Value, t: Tree)
    requires Ready(h, roots, env, trees, own, c) && x !in env && Rep(h, v, t)
    ensures Ready(h, roots, env[x := v], trees[x := t], own, c)
  {
    hide Inv;
    TokensSame(env, env[x := v], c);
  }

  /** A fresh value becomes a symbol the rest consumes. */
  lemma BindOwned(h: Heap, roots: multiset<Loc>, env: HEnv, trees: TEnv, own: Own, c: set<Symbol>, x: Symbol)
    requires Ready(h, roots + TokOf(env, x), env, trees, own, c) && Lent(roots, env, own)
    requires x in env && x in trees && x !in own && Rep(h, env[x], trees[x])
    ensures Ready(h, roots, env, trees, own[x := Owned], c + {x}) && x !in c
  {
    hide Inv, Rep, Kinds, Tok;
    assert x !in c;
    TokensAdd(env, c, x);
    hide Tokens, TokOf;
    assert roots + TokOf(env, x) + Tokens(env, c) == roots + Tokens(env, c + {x});
    BindStanding(h, env, trees, own, c, x);
    hide Standing, Lent;
    LentOwned(roots, env, own, x);
  }

  lemma LentOwned(roots: multiset<Loc>, env: HEnv, own: Own, x: Symbol)
    requires Lent(roots, env, own) && x !in own
    ensures Lent(roots, env, own[x := Owned])
  {
  }

  lemma BindStanding(h: Heap, env: HEnv, trees: TEnv, own: Own, c: set<Symbol>, x: Symbol)
    requires Standing(h, env, trees, own, c) && x in env && x in trees && x !in own && Rep(h, env[x], trees[x])
    ensures Standing(h, env, trees, own[x := Owned], c + {x})
  {
    hide Rep;
  }

  lemma ConsumedWithout(before: Own, after: Own, x: Symbol, counted: set<Symbol>)
    requires x !in before && Later(Track(counted, before, x), after)
    ensures Later(before, after - {x})
    ensures x !in Consumed(before, after - {x})
    ensures Consumed(Track(counted, before, x), after)
         == if x in counted && after[x] == Borrowed then Consumed(before, after - {x}) + {x}
            else Consumed(before, after - {x})
  {
  }

  /** An unused binding is dropped at once; a used one is left to the rest. */
  lemma UsedRuns(fuel: nat, procs: Procs, counted: set<Symbol>, h: Heap, roots: multiset<Loc>, env: HEnv, trees: TEnv,
      before: Own, after: Own, x: Symbol, rest: Stmt) returns (h': Heap)
    requires x in env && x in trees && x !in before && Later(Track(counted, before, x), after)
    requires Ready(h, roots + TokOf(env, x), env, trees, before, Consumed(before, after - {x}))
    requires Lent(roots, env, before) && Rep(h, env[x], trees[x])
    requires x in counted || env[x].Int?
    ensures Ready(h', roots, env, trees, Track(counted, before, x), Consumed(Track(counted, before, x), after))
    ensures Shrinks(h, h')
    ensures HEval(fuel, procs, counted, env, h, Used(after, x, rest)) == HEval(fuel, procs, counted, env, h', rest)
  {
    hide Ready, Shrinks, Rep, Consumed, Decrement, Lent;
    ConsumedWithout(before, after, x, counted);
    var c := Consumed(before, after - {x});
    ShrinksRefl(h);
    if x in counted {
      BindOwned(h, roots, env, trees, before, c, x);
      if after[x] == Owned {
        DecStep(h, roots, env, trees, before[x := Owned], c, x);
        h' := Decrement(h, env[x]).value;
      } else {
        h' := h;
      }
    } else {
      h' := h;
      assert roots + TokOf(env, x) == roots;
    }
  }

  lemma ScopedExtend(counted: set<Symbol>, env: HEnv, before: Own, x: Symbol, v: Value)
    requires Scoped(env, before) && x !in env && LayoutOk(counted, x, v.Ref?)
    ensures Scoped(env[x := v], Track(counted, before, x))
  {
  }

  lemma LentExtend(roots: multiset<Loc>, env: HEnv, own: Own, x: Symbol, v: Value)
    requires Lent(roots, env, own) && x !in own
    ensures Lent(roots, env[x := v], own)
  {
  }

  lemma ReadyKeys(h: Heap, roots: multiset<Loc>, env: HEnv, trees: TEnv, own: Own, c: set<Symbol>)
    requires Ready(h, roots, env, trees, own, c)
    ensures own.Keys <= env.Keys && env.Keys == trees.Keys && Inv(h, roots + Tokens(env, c)) && Lent(roots, env, own)
  {
  }

  /** From a computed value to the rest of the statement: the `Dec`s of last borrowed uses,
      and the `Dec` of an unused binding. */
  lemma AfterLet(fuel: nat, procs: Procs, counted: set<Symbol>, h: Heap, roots: multiset<Loc>, env: HEnv, trees: TEnv,
      before: Own, after: Own, x: Symbol, v: Value, t: Tree, ss: seq<Symbol>, rest: Stmt) returns (h': Heap)
    requires x !in env && Later(Track(counted, before, x), after) && Scoped(env, before)
    requires Ready(h, roots + Tok(v), env, trees, before,
             Consumed(before, DecBorrowed(after - {x}, ss, Used(after, x, rest)).1))
    requires Lent(roots, env, before) && Rep(h, v, t) && LayoutOk(counted, x, v.Ref?)
    ensures Ready(h', roots, env[x := v], trees[x := t], Track(counted, before, x),
            Consumed(Track(counted, before, x), after))
    ensures Scoped(env[x := v], Track(counted, before, x)) && Shrinks(h, h')
    ensures HEval(fuel, procs, counted, env[x := v], h, DecBorrowed(after - {x}, ss, Used(after, x, rest)).0)
         == HEval(fuel, procs, counted, env[x := v], h', rest)
  {
    hide Ready, Shrinks, Rep, Consumed, Inv, Lent, Scoped, DecBorrowed, HEval, Tokens, Later, Used, Track;
    var env', trees' := env[x := v], trees[x := t];
    var own := after - {x};
    var c := Consumed(before, DecBorrowed(own, ss, Used(after, x, rest)).1);
    ReadyKeys(h, roots + Tok(v), env, trees, before, c);
    ReadyExtend(h, roots + Tok(v), env, trees, before, c, x, v, t);
    ScopedExtend(counted, env, before, x, v);
    LentExtend(roots, env, before, x, v);
    ConsumedWithout(before, after, x, counted);
    var h1 := DecsRun(fuel, procs, counted, h, roots + Tok(v), env', trees', before, own, ss, Used(after, x, rest));
    var c1 := Consumed(before, own);
    ReadyKeys(h1, roots + Tok(v), env', trees', before, c1);
    var all := roots + Tok(v) + Tokens(env', c1);
    if v.Ref? {
      RootIsLive(h1, all, v);
    }
    RepStays(h, h1, all, v, t);
    h' := UsedRuns(fuel, procs, counted, h1, roots, env', trees', before, after, x, rest);
    ShrinksTrans(h, h1, h');
  }

  // ----- what a program must satisfy -----

  ghost predicate WfExpr(e: Expr, scope: set<Symbol>) {
    match e
    case Literal(_) => true
    case Construct(_, args) => forall a :: a in args ==> a in scope
    case Field(s, _) => s in scope
    case GetTagId(s) => s in scope
    case Call(_, args) => forall a :: a in args ==> a in scope
  }

  /** Every symbol is bound once, before its uses, and no reference counting is there yet. */
  ghost predicate WfStmt(s: Stmt, scope: set<Symbol>)
    decreases s
  {
    match s
    case Return(x) => x in scope
    case Let(x, e, rest) => x !in scope && WfExpr(e, scope) && WfStmt(rest, scope + {x})
    case Switch(cond, bs, d) => cond in scope && WfBranches(bs, scope, s) && WfStmt(d, scope)
    case Inc(_, _, _) => false
    case Dec(_, _) => false
  }

  ghost predicate WfBranches(bs: seq<(int, Stmt)>, scope: set<Symbol>, within: Stmt)
    decreases within, |bs|
  {
    bs == [] || (bs[0].1 < within && WfStmt(bs[0].1, scope) && WfBranches(bs[1..], scope, within))
  }

  /** No symbol of `lent` is returned: what the borrow signatures guarantee. */
  ghost predicate NoReturnOf(s: Stmt, lent: set<Symbol>)
    decreases s
  {
    match s
    case Return(x) => x !in lent
    case Let(_, _, rest) => NoReturnOf(rest, lent)
    case Switch(_, bs, d) => NoReturnInBranches(bs, lent, s) && NoReturnOf(d, lent)
    case Inc(_, _, _) => true
    case Dec(_, _) => true
  }

  ghost predicate NoReturnInBranches(bs: seq<(int, Stmt)>, lent: set<Symbol>, within: Stmt)
    decreases within, |bs|
  {
    bs == [] || (bs[0].1 < within && NoReturnOf(bs[0].1, lent) && NoReturnInBranches(bs[1..], lent, within))
  }

  ghost predicate DistinctArgs(args: seq<Symbol>) {
    forall i, j :: 0 <= i < j < |args| ==> args[i] != args[j]
  }

  /** The parameters the signature lends. */
  ghost function LentParams(args: seq<Symbol>, sig: seq<Ownership>): set<Symbol> {
    set i | 0 <= i < |args| && i < |sig| && sig[i] == Borrowed :: args[i]
  }

  ghost function ArgSet(args: seq<Symbol>): set<Symbol> {
    set a | a in args
  }

  ghost predicate ProcOk(sigs: Sigs, f: ProcName, p: Proc) {
    && f in sigs && |sigs[f]| == |p.args|
    && DistinctArgs(p.args)
    && WfStmt(p.body, ArgSet(p.args))
    && NoReturnOf(p.body, LentParams(p.args, sigs[f]))
  }

  ghost predicate ProgramOk(sigs: Sigs, procs: Procs) {
    forall f :: f in procs ==> ProcOk(sigs, f, procs[f])
  }

  lemma {:induction false} BranchOk(bs: seq<(int, Stmt)>, n: int, scope: set<Symbol>, lent: set<Symbol>, within: Stmt)
    requires WfBranches(bs, scope, within) && NoReturnInBranches(bs, lent, within)
    requires Select(bs, n) < |bs|
    ensures WfStmt(bs[Select(bs, n)].1, scope) && NoReturnOf(bs[Select(bs, n)].1, lent)
    decreases |bs|
  {
    if bs[0].0 != n {
      BranchOk(bs[1..], n, scope, lent, within);
    }
  }

  lemma TakenOk(s: Stmt, n: int, scope: set<Symbol>, lent: set<Symbol>)
    requires s.Switch? && WfStmt(s, scope) && NoReturnOf(s, lent)
    ensures WfStmt(Taken(s, n), scope) && NoReturnOf(Taken(s, n), lent)
  {
    if Select(s.branches, n) < |s.branches| {
      BranchOk(s.branches, n, scope, lent, s);
    }
  }

  /** The reconciled branch a value selects is the instrumented selected branch behind the
      `Dec`s it lacks. */
  lemma {:induction false} BranchReconciled(sigs: Sigs, counted: set<Symbol>, own: Own, bs: seq<(int, Stmt)>,
      within: Stmt, used: set<Symbol>, n: int)
    requires forall b :: b in bs ==> b.1 < within
    ensures var done := InsertBranches(sigs, counted, own, bs, within);
            var k := Select(bs, n);
            && Select(Reconcile(used, done), n) == k
            && (k < |bs| ==>
                  && Reconcile(used, done)[k].1
                     == DecBorrowed(Insert(sigs, counted, own, bs[k].1).1, InOrder(used),
                         Insert(sigs, counted, own, bs[k].1).0).0
                  && Consumed(own, Insert(sigs, counted, own, bs[k].1).1) <= ConsumedInSome(own, done))
    decreases |bs|
  {
    hide Insert, Consumed, DecBorrowed, InOrder, Reconcile, ConsumedInSome, Select;
    if bs != [] {
      BranchReconciled(sigs, counted, own, bs[1..], within, used, n);
      var d := (bs[0].0, Insert(sigs, counted, own, bs[0].1));
      ReconcileCons(own, used, d, InsertBranches(sigs, counted, own, bs[1..], within));
      assert bs == [bs[0]] + bs[1..];
      SelectCons(bs[0], bs[1..], n);
      SelectCons((d.0, DecBorrowed(d.1.1, InOrder(used), d.1.0).0),
        Reconcile(used, InsertBranches(sigs, counted, own, bs[1..], within)), n);
    }
  }

  lemma ReconcileCons(own: Own, used: set<Symbol>, d: (int, (Stmt, Own)), done: seq<(int, (Stmt, Own))>)
    ensures Reconcile(used, [d] + done)
            == [(d.0, DecBorrowed(d.1.1, InOrder(used), d.1.0).0)] + Reconcile(used, done)
    ensures ConsumedInSome(own, [d] + done) == Consumed(own, d.1.1) + ConsumedInSome(own, done)
  {
    hide Consumed, DecBorrowed, InOrder;
    assert ([d] + done)[1..] == done;
  }

  lemma SelectCons(b: (int, Stmt), bs: seq<(int, Stmt)>, n: int)
    ensures Select([b] + bs, n) == if b.0 == n then 0 else 1 + Select(bs, n)
  {
    assert ([b] + bs)[1..] == bs;
  }

  // ----- running each kind of binding -----

  /** The state after `x := v`: the rest is about to run. */
  ghost predicate Bound(h: Heap, h': Heap, roots: multiset<Loc>, env: HEnv, trees: TEnv, counted: set<Symbol>,
      before: Own, after: Own, x: Symbol, v: Value, t: Tree)
  {
    && Ready(h', roots, env[x := v], trees[x := t], Track(counted, before, x),
        Consumed(Track(counted, before, x), after))
    && Scoped(env[x := v], Track(counted, before, x)) && Shrinks(h, h')
  }

  /** What every binding lemma assumes. */
  ghost predicate Binding(counted: set<Symbol>, env: HEnv, roots: multiset<Loc>, before: Own, after: Own, x: Symbol,
      e: Expr) {
    && x !in env && before.Keys <= env.Keys && WfExpr(e, env.Keys)
    && Later(Track(counted, before, x), after) && Scoped(env, before) && Lent(roots, env, before)
  }

  /** The instrumented binding against the original one. */
  ghost predicate BindingAgrees(p: Result, q: HResult, next: HResult, counted: set<Symbol>, x: Symbol, bound: bool) {
    match p
    case Done(t) => if LayoutOk(counted, x, t.Con?) then bound && q == next else q.HStuck?
    case Stuck => q.HStuck?
    case Timeout => q.HTimeout?
  }

  lemma RepKind(h: Heap, v: Value, t: Tree)
    requires Rep(h, v, t)
    ensures t.Con? == v.Ref?
  {
  }

  lemma NoTokens(h: Heap, roots: multiset<Loc>, env: HEnv, trees: TEnv, own: Own, c: set<Symbol>, v: Value)
    requires Ready(h, roots, env, trees, own, c) && v.Int?
    ensures Ready(h, roots + Tok(v), env, trees, own, c)
  {
    assert roots + Tok(v) == roots;
  }

  lemma LiteralRuns(fuel: nat, procs: Procs, counted: set<Symbol>, h: Heap, roots: multiset<Loc>, env: HEnv,
      trees: TEnv, before: Own, after: Own, x: Symbol, n: int, rest: Stmt) returns (h': Heap)
    requires Binding(counted, env, roots, before, after, x, Literal(n))
    requires Ready(h, roots, env, trees, before, Consumed(before, after - {x}))
    ensures Bound(h, h', roots, env, trees, counted, before, after, x, Int(n), Num(n))
    ensures HEval(fuel, procs, counted, env, h, Let(x, Literal(n), Used(after, x, rest)))
         == HEval(fuel, procs, counted, env[x := Int(n)], h', rest)
  {
    hide Ready, Lent, Scoped, Later, Shrinks, Consumed, Track;
    NoTokens(h, roots, env, trees, before, Consumed(before, after - {x}), Int(n));
    h' := AfterLet(fuel, procs, counted, h, roots, env, trees, before, after, x, Int(n), Num(n), [], rest);
  }

  lemma ConstructRuns(fuel: nat, procs: Procs, counted: set<Symbol>, h: Heap, roots: multiset<Loc>, env: HEnv,
      trees: TEnv, before: Own, after: Own, x: Symbol, tag: int, args: seq<Symbol>, rest: Stmt)
    returns (h': Heap, v: Value)
    requires Binding(counted, env, roots, before, after, x, Construct(tag, args))
    requires var (s, own) := IncOwned(after - {x}, args, Let(x, Construct(tag, args), Used(after, x, rest)));
             Ready(h, roots, env, trees, before, Consumed(before, own))
    ensures forall a :: a in args ==> a in trees
    ensures var (s, own) := IncOwned(after - {x}, args, Let(x, Construct(tag, args), Used(after, x, rest)));
            var t := Con(tag, Values(trees, args));
            if LayoutOk(counted, x, true)
            then Bound(h, h', roots, env, trees, counted, before, after, x, v, t)
                 && HEval(fuel, procs, counted, env, h, s) == HEval(fuel, procs, counted, env[x := v], h', rest)
            else HEval(fuel, procs, counted, env, h, s).HStuck?
  {
    hide Ready, Lent, Scoped, Later, Shrinks, Consumed, Track, Allocate, IncOwned, Rep, Inv, Used;
    var own := after - {x};
    var cont := Let(x, Construct(tag, args), Used(after, x, rest));
    ReadyKeys(h, roots, env, trees, before, Consumed(before, IncOwned(own, args, cont).1));
    ConsumedWithout(before, after, x, counted);
    var h1 := IncsRun(fuel, procs, counted, h, roots, env, trees, before, own, args, cont);
    var c := Consumed(before, own);
    var t := Con(tag, Values(trees, args));
    h', v := StoreArgs(h1, roots, env, trees, before, c, tag, args);
    var h2 := h';
    if LayoutOk(counted, x, true) {
      h' := AfterLet(fuel, procs, counted, h2, roots, env, trees, before, after, x, v, t, [], rest);
      ShrinksTrans(h, h1, h2);
      ShrinksTrans(h, h2, h');
    }
  }

  /** Storing counted references into a new cell. */
  lemma StoreArgs(h: Heap, roots: multiset<Loc>, env: HEnv, trees: TEnv, own: Own, c: set<Symbol>, tag: int,
      args: seq<Symbol>)
    returns (h': Heap, v: Value)
    requires forall a :: a in args ==> a in env && a in trees
    requires Ready(h, roots + Uses(env, args), env, trees, own, c) && Lent(roots, env, own)
    requires AllRep(h, env, trees, args)
    ensures NoneFreed(h, Values(env, args)) && Allocate(h, tag, Values(env, args)) == (h', v) && v.Ref?
    ensures Ready(h', roots + Tok(v), env, trees, own, c) && Shrinks(h, h')
    ensures Rep(h', v, Con(tag, Values(trees, args)))
  {
    hide Inv, Rep, Shrinks, Lent, Standing;
    var vs, ts := Values(env, args), Values(trees, args);
    UsesAreRefs(env, args);
    assert roots + Uses(env, args) + Tokens(env, c) == (roots + Tokens(env, c)) + multiset(RefsOf(vs));
    assert Reps(h, vs, ts);
    AllocateCorrect(h, roots + Tokens(env, c), tag, vs, ts);
    var r := Allocate(h, tag, vs);
    h', v := r.0, r.1;
    assert roots + Tok(v) + Tokens(env, c) == (roots + Tokens(env, c)) + Tok(v);
    LentMore(roots, roots + Tok(v), env, own);
    StandingStays(h, h', roots + Tok(v), env, trees, own, c, c);
    forall i | 0 <= i < |vs| ensures NotFreed(h, vs[i]) {
      RepLive(h, vs[i], ts[i]);
    }
  }

  lemma RepLive(h: Heap, v: Value, t: Tree)
    requires Rep(h, v, t)
    ensures NotFreed(h, v) && t.Con? == v.Ref?
    ensures t.Con? ==> h[v.loc].tag == t.tag && |h[v.loc].fields| == |t.fields|
    ensures t.Con? ==> forall i :: 0 <= i < |t.fields| ==> Rep(h, h[v.loc].fields[i], t.fields[i])
  {
  }

  lemma StructureStands(h: Heap, roots: multiset<Loc>, env: HEnv, trees: TEnv, before: Own, own: Own, s: Symbol,
      cont: Stmt)
    requires Later(before, own) && Scoped(env, before) && s in env
    requires Ready(h, roots, env, trees, before, Consumed(before, DecBorrowed(own, [s], cont).1))
    ensures s in trees && Rep(h, env[s], trees[s])
  {
    hide Inv, Rep;
    DecsConsume(before, own, [s], cont);
    if s in before {
    } else {
      NumberRep(h, env, trees, before, s);
    }
  }

  lemma FieldRuns(fuel: nat, procs: Procs, counted: set<Symbol>, h: Heap, roots: multiset<Loc>, env: HEnv, trees: TEnv,
      before: Own, after: Own, x: Symbol, s: Symbol, i: nat, rest: Stmt, c: Stmt, own: Own)
    returns (h': Heap, v: Value)
    requires DecBorrowed(after - {x}, [s], Used(after, x, rest)) == (c, own)
    requires Binding(counted, env, roots, before, after, x, Field(s, i)) && s in env
    requires Ready(h, roots, env, trees, before, Consumed(before, own))
    ensures s in trees
    ensures var q := HEval(fuel, procs, counted, env, h,
            Let(x, Field(s, i), if x in counted then InsertInc(x, 1, c) else c));
            if trees[s].Con? && i < |trees[s].fields| && LayoutOk(counted, x, trees[s].fields[i].Con?)
            then Bound(h, h', roots, env, trees, counted, before, after, x, v, trees[s].fields[i])
                 && q == HEval(fuel, procs, counted, env[x := v], h', rest)
            else q.HStuck?
  {
    h', v := h, Int(0);
    ConsumedWithout(before, after, x, counted);
    hide Ready, Lent, Scoped, Later, Shrinks, Consumed, Track, DecBorrowed, Rep, Inv, Used, Increment, HEval, InsertInc;
    StructureStands(h, roots, env, trees, before, after - {x}, s, Used(after, x, rest));
    RepLive(h, env[s], trees[s]);
    LetFieldStep(fuel, procs, counted, h, env, x, s, i, if x in counted then InsertInc(x, 1, c) else c);
    if trees[s].Con? && i < |trees[s].fields| {
      v := h[env[s].loc].fields[i];
      var t := trees[s].fields[i];
      RepLive(h, v, t);
      if LayoutOk(counted, x, t.Con?) {
        var h1 := TakeField(h, roots, env, trees, before, Consumed(before, own), x in counted, v, t);
        if x in counted {
          IncFieldStep(fuel, procs, counted, h, env[x := v], x, c);
        }
        h' := AfterLet(fuel, procs, counted, h1, roots, env, trees, before, after, x, v, t, [s], rest);
        ShrinksTrans(h, h1, h');
      }
    }
  }

  /** The `Inc` that makes an extracted field an owned value. */
  lemma TakeField(h: Heap, roots: multiset<Loc>, env: HEnv, trees: TEnv, own: Own, c: set<Symbol>, isCounted: bool,
      v: Value, t: Tree)
    returns (h': Heap)
    requires Ready(h, roots, env, trees, own, c) && Rep(h, v, t) && (isCounted || v.Int?)
    ensures if isCounted then Increment(h, v, 1) == Some(h') else h' == h
    ensures Ready(h', roots + Tok(v), env, trees, own, c) && Rep(h', v, t) && Shrinks(h, h')
  {
    RepLive(h, v, t);
    hide Ready, Shrinks, Rep, Inv, Increment;
    if isCounted {
      assert Times(v, 1) == Tok(v);
      IncStep(h, roots, env, trees, own, c, v, 1);
      h' := Increment(h, v, 1).value;
      ReadyKeys(h', roots + Tok(v), env, trees, own, c);
      var all := roots + Tok(v) + Tokens(env, c);
      if v.Ref? {
        RootIsLive(h', all, v);
      }
      RepStays(h, h', all, v, t);
    } else {
      h' := h;
      NoTokens(h, roots, env, trees, own, c, v);
      ShrinksRefl(h);
    }
  }

  lemma LetTagStep(fuel: nat, procs: Procs, counted: set<Symbol>, h: Heap, env: HEnv, x: Symbol, s: Symbol, c: Stmt)
    requires s in env && NotFreed(h, env[s])
    ensures HEval(fuel, procs, counted, env, h, Let(x, GetTagId(s), c))
         == if env[s].Int? then HStuck else HEval(fuel, procs, counted, env[x := Int(h[env[s].loc].tag)], h, c)
  {
  }

  lemma LetFieldStep(fuel: nat, procs: Procs, counted: set<Symbol>, h: Heap, env: HEnv, x: Symbol, s: Symbol, i: nat,
      c: Stmt)
    requires s in env && NotFreed(h, env[s])
    ensures HEval(fuel, procs, counted, env, h, Let(x, Field(s, i), c))
         == if env[s].Int? || i >= |h[env[s].loc].fields| then HStuck
            else var v := h[env[s].loc].fields[i];
                 if LayoutOk(counted, x, v.Ref?) then HEval(fuel, procs, counted, env[x := v], h, c) else HStuck
  {
  }

  lemma IncFieldStep(fuel: nat, procs: Procs, counted: set<Symbol>, h: Heap, env: HEnv, x: Symbol, c: Stmt)
    requires x in env && Increment(h, env[x], 1).Some?
    ensures HEval(fuel, procs, counted, env, h, InsertInc(x, 1, c))
         == HEval(fuel, procs, counted, env, Increment(h, env[x], 1).value, c)
  {
  }

  lemma NumRep(h: Heap, n: int)
    ensures Rep(h, Int(n), Num(n))
  {
  }

  lemma TagRuns(fuel: nat, procs: Procs, counted: set<Symbol>, h: Heap, roots: multiset<Loc>, env: HEnv, trees: TEnv,
      before: Own, after: Own, x: Symbol, s: Symbol, rest: Stmt, c: Stmt, own: Own)
    returns (h': Heap, v: Value)
    requires DecBorrowed(after - {x}, [s], Used(after, x, rest)) == (c, own)
    requires Binding(counted, env, roots, before, after, x, GetTagId(s)) && s in env
    requires Ready(h, roots, env, trees, before, Consumed(before, own))
    ensures s in trees
    ensures trees[s].Con? ==>
              && Bound(h, h', roots, env, trees, counted, before, after, x, v, Num(trees[s].tag))
              && HEval(fuel, procs, counted, env, h, Let(x, GetTagId(s), c))
                  == HEval(fuel, procs, counted, env[x := v], h', rest)
    ensures !trees[s].Con? ==> HEval(fuel, procs, counted, env, h, Let(x, GetTagId(s), c)).HStuck?
  {
    h', v := h, Int(0);
    ConsumedWithout(before, after, x, counted);
    hide Ready, Lent, Scoped, Later, Shrinks, Consumed, Track, DecBorrowed, Rep, Inv, Used, HEval;
    StructureStands(h, roots, env, trees, before, after - {x}, s, Used(after, x, rest));
    RepLive(h, env[s], trees[s]);
    LetTagStep(fuel, procs, counted, h, env, x, s, c);
    if trees[s].Con? {
      v := Int(trees[s].tag);
      NumRep(h, trees[s].tag);
      NoTokens(h, roots, env, trees, before, Consumed(before, own), v);
      h' := AfterLet(fuel, procs, counted, h, roots, env, trees, before, after, x, v, Num(trees[s].tag), [s], rest);
    }
  }

  // ----- calls -----

  lemma {:induction false} ParamsFacts(args: seq<Symbol>, sig: seq<Ownership>, counted: set<Symbol>)
    requires |args| == |sig| && DistinctArgs(args)
    ensures forall s :: s in Params(args, sig, counted) <==> s in args && s in counted
    ensures forall i :: 0 <= i < |args| && args[i] in counted ==> Params(args, sig, counted)[args[i]] == sig[i]
  {
    if args != [] {
      assert args == [args[0]] + args[1..];
      ParamsFacts(args[1..], sig[1..], counted);
      forall i | 0 < i < |args| ensures args[i] == args[1..][i - 1] && args[i] != args[0] {
      }
    }
  }

  lemma {:induction false} BindAt<V>(params: seq<Symbol>, vals: seq<V>)
    requires |params| == |vals| && DistinctArgs(params)
    ensures forall i :: 0 <= i < |params| ==>
              params[i] in Bind(params, vals) && Bind(params, vals)[params[i]] == vals[i]
  {
    if params != [] {
      BindAt(params[1..], vals[1..]);
      forall i | 0 < i < |params| ensures params[i] == params[1..][i - 1] && params[i] != params[0]
          && vals[i] == vals[1..][i - 1] {
      }
    }
  }

  ghost function OwnedSet(own: Own): set<Symbol> {
    set s | s in own && own[s] == Owned
  }

  ghost predicate ArgLayouts(counted: set<Symbol>, params: seq<Symbol>, env: HEnv, args: seq<Symbol>)
    requires |params| == |args|
  {
    forall i :: 0 <= i < |args| ==> args[i] in env && LayoutOk(counted, params[i], env[args[i]].Ref?)
  }

  /** The callee owns, through its owned parameters, exactly the references paid for them. */
  lemma {:induction false} ParamTokens(params: seq<Symbol>, sig: seq<Ownership>, counted: set<Symbol>, env: HEnv,
      args: seq<Symbol>)
    requires |params| == |sig| == |args| && DistinctArgs(params) && ArgLayouts(counted, params, env, args)
    ensures Tokens(Bind(params, Values(env, args)), OwnedSet(Params(params, sig, counted)))
         == Uses(env, ArgsOf(args, sig, Owned))
  {
    hide Tok, TokOf, Tokens, Uses, Bind, Params, ArgsOf, OwnedSet, LayoutOk;
    if params == [] {
      NoParams(sig, counted, env);
      BindAt(params, Values(env, args));
    } else {
      var ps, gs, as' := params[1..], sig[1..], args[1..];
      var p, a := params[0], args[0];
      var inner, outer := Bind(ps, Values(env, as')), Bind(params, Values(env, args));
      assert forall i :: 0 <= i < |as'| ==> as'[i] == args[i + 1] && ps[i] == params[i + 1];
      ParamTokens(ps, gs, counted, env, as');
      var c := OwnedSet(Params(ps, gs, counted));
      OwnedAreParams(ps, gs, counted);
      assert p !in ps;
      BindCons(params, Values(env, args), env, args);
      TokensSame(outer, inner, c) by { SameTokOf(outer, inner, ps); }
      ArgsOfCons(args, sig, Owned);
      OwnedCons(params, sig, counted);
      if sig[0] == Owned {
        UsesCons(env, a, ArgsOf(as', gs, Owned));
        if p in counted {
          TokensAdd(outer, c, p);
          assert TokOf(outer, p) == TokOf(env, a) by { OneTokOf(outer, p, env, a); }
        } else {
          UncountedInt(counted, params, env, args, 0);
          IntNoTok(env, a);
          assert c + {} == c;
        }
      } else {
        assert c + {} == c;
      }
    }
  }

  lemma UncountedInt(counted: set<Symbol>, params: seq<Symbol>, env: HEnv, args: seq<Symbol>, i: nat)
    requires i < |params| == |args| && ArgLayouts(counted, params, env, args) && params[i] !in counted
    ensures args[i] in env && env[args[i]].Int?
  {
  }

  lemma NoParams(sig: seq<Ownership>, counted: set<Symbol>, env: HEnv)
    ensures OwnedSet(Params([], sig, counted)) == {} && forall e: HEnv :: Tokens(e, {}) == multiset{}
    ensures Uses(env, ArgsOf([], sig, Owned)) == multiset{}
  {
  }

  lemma OwnedAreParams(params: seq<Symbol>, sig: seq<Ownership>, counted: set<Symbol>)
    requires |params| == |sig| && DistinctArgs(params)
    ensures forall s :: s in OwnedSet(Params(params, sig, counted)) ==> s in params
  {
    ParamsFacts(params, sig, counted);
  }

  lemma SameTokOf(env: HEnv, env': HEnv, ss: seq<Symbol>)
    requires forall s :: s in ss ==> s in env && s in env' && env[s] == env'[s]
    ensures forall s :: s in ss ==> TokOf(env, s) == TokOf(env', s)
  {
  }

  lemma OneTokOf(env: HEnv, s: Symbol, env': HEnv, s': Symbol)
    requires s in env && s' in env' && env[s] == env'[s']
    ensures TokOf(env, s) == TokOf(env', s')
  {
  }

  lemma BindCons(params: seq<Symbol>, vals: seq<Value>, env: HEnv, args: seq<Symbol>)
    requires |params| == |vals| == |args| && params != [] && DistinctArgs(params)
    requires (forall a :: a in args ==> a in env) && vals == Values(env, args)
    ensures Values(env, args[1..]) == vals[1..]
    ensures params[0] in Bind(params, vals) && Bind(params, vals)[params[0]] == env[args[0]]
    ensures forall s :: s in params[1..] ==>
              s in Bind(params, vals) && s in Bind(params[1..], Values(env, args[1..])) &&
              Bind(params, vals)[s] == Bind(params[1..], Values(env, args[1..]))[s]
  {
    assert Values(env, args[1..]) == vals[1..];
    assert params[0] !in params[1..];
  }

  lemma IntNoTok(env: HEnv, a: Symbol)
    requires a in env && env[a].Int?
    ensures TokOf(env, a) == multiset{}
  {
  }

  lemma ArgsOfCons<V>(args: seq<V>, sig: seq<Ownership>, o: Ownership)
    requires args != [] && sig != []
    ensures ArgsOf(args, sig, o) == if sig[0] == o then [args[0]] + ArgsOf(args[1..], sig[1..], o)
            else ArgsOf(args[1..], sig[1..], o)
  {
  }

  lemma UsesCons(env: HEnv, a: Symbol, ss: seq<Symbol>)
    ensures Uses(env, [a] + ss) == TokOf(env, a) + Uses(env, ss)
  {
    assert ([a] + ss)[1..] == ss;
  }

  lemma OwnedCons(params: seq<Symbol>, sig: seq<Ownership>, counted: set<Symbol>)
    requires |params| == |sig| && params != [] && DistinctArgs(params)
    ensures OwnedSet(Params(params, sig, counted))
         == OwnedSet(Params(params[1..], sig[1..], counted))
             + (if params[0] in counted && sig[0] == Owned then {params[0]} else {})
  {
    ParamsFacts(params[1..], sig[1..], counted);
    assert params[0] !in params[1..];
  }

  lemma {:induction false} ArgsOfHas(args: seq<Symbol>, sig: seq<Ownership>, i: nat)
    requires i < |args| == |sig|
    ensures args[i] in ArgsOf(args, sig, sig[i])
  {
    if i > 0 {
      ArgsOfHas(args[1..], sig[1..], i - 1);
      assert args[i] == args[1..][i - 1] && sig[i] == sig[1..][i - 1];
    }
  }

  ghost predicate ArgsRep(h: Heap, env: HEnv, trees: TEnv, args: seq<Symbol>) {
    forall i :: 0 <= i < |args| ==> args[i] in env && args[i] in trees && Rep(h, env[args[i]], trees[args[i]])
  }

  /** The lent arguments are alive without the call's own references. */
  ghost predicate ArgsLent(roots: multiset<Loc>, env: HEnv, args: seq<Symbol>, sig: seq<Ownership>)
    requires |args| == |sig|
  {
    forall i :: 0 <= i < |args| && sig[i] == Borrowed ==> TokOf(env, args[i]) <= roots
  }

  /** The state in which the callee's body starts. */
  lemma CalleeReady(h: Heap, roots: multiset<Loc>, env: HEnv, trees: TEnv, p: Proc, sig: seq<Ownership>,
      args: seq<Symbol>)
    requires |p.args| == |sig| == |args| && DistinctArgs(p.args) && ArgLayouts(p.counted, p.args, env, args)
    requires Inv(h, roots + Uses(env, ArgsOf(args, sig, Owned)))
    requires ArgsRep(h, env, trees, args) && ArgsLent(roots, env, args, sig)
    ensures var own := Params(p.args, sig, p.counted);
            var inner := Bind(p.args, Values(env, args));
            && Ready(h, roots, inner, Bind(p.args, Values(trees, args)), own, OwnedSet(own))
            && Scoped(inner, own)
  {
    hide Inv, Rep, Uses, Tokens, Tok, Bind, Params, ArgsOf, LayoutOk;
    var inner, innerTrees := Bind(p.args, Values(env, args)), Bind(p.args, Values(trees, args));
    var own := Params(p.args, sig, p.counted);
    ParamTokens(p.args, sig, p.counted, env, args);
    InnerStands(h, env, trees, p, sig, args);
    InnerKinds(h, inner, innerTrees);
    InnerLent(roots, env, p, sig, args);
    hide Lent, Kinds, Scoped;
    ParamsFacts(p.args, sig, p.counted);
  }

  lemma InnerStands(h: Heap, env: HEnv, trees: TEnv, p: Proc, sig: seq<Ownership>, args: seq<Symbol>)
    requires |p.args| == |sig| == |args| && DistinctArgs(p.args) && ArgLayouts(p.counted, p.args, env, args)
    requires ArgsRep(h, env, trees, args)
    ensures var inner, innerTrees := Bind(p.args, Values(env, args)), Bind(p.args, Values(trees, args));
            inner.Keys == innerTrees.Keys && forall s :: s in inner ==> Rep(h, inner[s], innerTrees[s])
  {
    hide Rep, Bind, LayoutOk;
    BindAt(p.args, Values(env, args));
    BindAt(p.args, Values(trees, args));
    var inner, innerTrees := Bind(p.args, Values(env, args)), Bind(p.args, Values(trees, args));
    forall s | s in inner ensures s in innerTrees && Rep(h, inner[s], innerTrees[s]) {
      var i :| 0 <= i < |p.args| && p.args[i] == s;
    }
  }

  lemma InnerLent(roots: multiset<Loc>, env: HEnv, p: Proc, sig: seq<Ownership>, args: seq<Symbol>)
    requires |p.args| == |sig| == |args| && DistinctArgs(p.args) && ArgLayouts(p.counted, p.args, env, args)
    requires ArgsLent(roots, env, args, sig)
    ensures Lent(roots, Bind(p.args, Values(env, args)), Params(p.args, sig, p.counted))
    ensures Scoped(Bind(p.args, Values(env, args)), Params(p.args, sig, p.counted))
  {
    hide Bind, Params, Tok;
    BindAt(p.args, Values(env, args));
    ParamsFacts(p.args, sig, p.counted);
    var inner := Bind(p.args, Values(env, args));
    var own := Params(p.args, sig, p.counted);
    forall s | s in inner ensures IsLent(own, s) ==> Tok(inner[s]) <= roots ensures s !in own ==> inner[s].Int? {
      var i :| 0 <= i < |p.args| && p.args[i] == s;
      assert inner[s] == env[args[i]];
      assert TokOf(env, args[i]) == Tok(inner[s]);
    }
  }

  lemma InnerKinds(h: Heap, env: HEnv, trees: TEnv)
    requires env.Keys == trees.Keys && forall s :: s in env ==> Rep(h, env[s], trees[s])
    ensures Kinds(env, trees)
  {
    forall s | s in env
      ensures (trees[s].Num? ==> env[s] == Int(trees[s].n)) && (trees[s].Con? ==> env[s].Ref?)
    {
      assert Rep(h, env[s], trees[s]);
    }
  }

  /** After the callee returns, what the caller still needs is standing. */
  lemma Returned(h: Heap, h': Heap, roots: multiset<Loc>, env: HEnv, trees: TEnv, own: Own, c: set<Symbol>,
      more: multiset<Loc>, v: Value)
    requires Ready(h, roots + more, env, trees, own, c) && Lent(roots, env, own)
    requires Inv(h', (roots + Tokens(env, c)) + Tok(v)) && Shrinks(h, h')
    ensures Ready(h', roots + Tok(v), env, trees, own, c)
  {
    hide Inv, Shrinks, Rep, Lent, Standing;
    assert roots + Tok(v) + Tokens(env, c) == (roots + Tokens(env, c)) + Tok(v);
    LentMore(roots, roots + Tok(v), env, own);
    StandingStays(h, h', roots + Tok(v), env, trees, own, c, c);
  }

  /** Every argument stands when the call is made, and lent ones are alive by themselves. */
  lemma ArgsStand(h: Heap, roots: multiset<Loc>, env: HEnv, trees: TEnv, before: Own, own: Own, sig: seq<Ownership>,
      args: seq<Symbol>, cont: Stmt, more: multiset<Loc>)
    requires Later(before, own) && Scoped(env, before) && |sig| == |args| && forall a :: a in args ==> a in env
    requires Ready(h, roots + more, env, trees, before,
             Consumed(before, DecBorrowed(own, ArgsOf(args, sig, Borrowed), cont).1))
    requires AllRep(h, env, trees, ArgsOf(args, sig, Owned)) && Lent(roots, env, before)
    ensures ArgsRep(h, env, trees, args)
    ensures ArgsLent(roots + Tokens(env, Consumed(before, DecBorrowed(own, ArgsOf(args, sig, Borrowed), cont).1)),
            env, args, sig)
  {
    hide Inv, Rep, Tok;
    var bs := ArgsOf(args, sig, Borrowed);
    var c := Consumed(before, DecBorrowed(own, bs, cont).1);
    DecsConsume(before, own, bs, cont);
    forall i | 0 <= i < |args|
      ensures args[i] in trees && Rep(h, env[args[i]], trees[args[i]])
      ensures sig[i] == Borrowed ==> TokOf(env, args[i]) <= roots + Tokens(env, c)
    {
      ArgsOfHas(args, sig, i);
      var a := args[i];
      if a !in before {
        NumberRep(h, env, trees, before, a);
      } else if sig[i] == Borrowed {
        if before[a] == Owned {
          assert a in c;
          TokensTake(env, c, a);
        }
      }
    }
  }

  // ----- statements and procedures -----

  lemma InsertBindingLater(sigs: Sigs, counted: set<Symbol>, before: Own, own: Own, x: Symbol, e: Expr, cont: Stmt)
    requires Later(before, own)
    ensures Later(before, InsertBinding(sigs, counted, own, x, e, cont).1)
  {
    match e
    case Literal(_) =>
    case Construct(_, args) => IncsConsume(before, own, args, Let(x, e, cont));
    case Field(s, _) => DecsConsume(before, own, [s], cont);
    case GetTagId(s) => DecsConsume(before, own, [s], cont);
    case Call(f, args) =>
      var bs, os := ArgsOf(args, SigOf(sigs, f), Borrowed), ArgsOf(args, SigOf(sigs, f), Owned);
      DecsConsume(before, own, bs, cont);
      IncsConsume(before, DecBorrowed(own, bs, cont).1, os, Let(x, e, DecBorrowed(own, bs, cont).0));
  }

  lemma {:induction false} InsertLater(sigs: Sigs, counted: set<Symbol>, before: Own, s: Stmt, scope: set<Symbol>)
    requires WfStmt(s, scope) && before.Keys <= scope
    ensures Later(before, Insert(sigs, counted, before, s).1)
    decreases s
  {
    match s
    case Return(_) =>
    case Let(x, e, rest) =>
      hide InsertBinding, Later;
      InsertLater(sigs, counted, Track(counted, before, x), rest, scope + {x});
      var (rest', after) := Insert(sigs, counted, Track(counted, before, x), rest);
      ConsumedWithout(before, after, x, counted);
      InsertBindingLater(sigs, counted, before, after - {x}, x, e, Used(after, x, rest'));
    case Switch(_, _, _) =>
  }

  lemma AgreesAfter(p: Result, q: HResult, h: Heap, h': Heap, roots: multiset<Loc>)
    requires Agrees(p, q, h', roots) && Shrinks(h, h')
    ensures Agrees(p, q, h, roots)
  {
    if q.HDone? {
      ShrinksTrans(h, h', q.h);
    }
  }

  lemma ReturnCorrect(h: Heap, roots: multiset<Loc>, env: HEnv, trees: TEnv, before: Own, x: Symbol)
    requires x in env && !IsLent(before, x) && Scoped(env, before)
    requires Ready(h, roots, env, trees, before, Consumed(before, Consume(before, x)))
    ensures x in trees && Agrees(Done(trees[x]), HDone(h, env[x]), h, roots)
  {
    hide Inv, Rep, Shrinks;
    ShrinksRefl(h);
    var c := Consumed(before, Consume(before, x));
    if x in before {
      assert c == {x};
      TokensTake(env, c, x);
      assert c - {x} == {};
      assert roots + Tokens(env, c) == roots + Tok(env[x]);
    } else {
      assert c == {};
      NumberRep(h, env, trees, before, x);
      assert roots + Tokens(env, c) == roots + Tok(env[x]);
    }
  }

  /** The branches of a switch all start from the same consumed symbols. */
  lemma SwitchUsed(before: Own, own: Own, body: Stmt, used: set<Symbol>)
    requires Later(before, own) && Consumed(before, own) <= used && OwnedOnly(before, used)
    ensures Consumed(before, DecBorrowed(own, InOrder(used), body).1) == used
  {
    DecsConsume(before, own, InOrder(used), body);
  }

  lemma {:induction false} SomeOwned(before: Own, bs: seq<(int, (Stmt, Own))>)
    ensures OwnedOnly(before, ConsumedInSome(before, bs))
  {
    if bs != [] {
      SomeOwned(before, bs[1..]);
    }
  }

  lemma ConsumeAllUsed(before: Own, used: set<Symbol>)
    requires OwnedOnly(before, used)
    ensures Consumed(before, ConsumeAll(before, used)) == used
  {
  }

  /** The instrumented taken branch. */
  lemma TakenInserted(sigs: Sigs, counted: set<Symbol>, before: Own, s: Stmt, n: int, scope: set<Symbol>)
      returns (used: set<Symbol>)
    requires s.Switch? && WfStmt(s, scope) && before.Keys <= scope
    ensures var (s', after) := Insert(sigs, counted, before, s);
            var (body, own) := Insert(sigs, counted, before, Taken(s, n));
            && s'.Switch? && s'.cond == s.cond
            && Taken(s', n) == DecBorrowed(own, InOrder(used), body).0
            && Consumed(before, after) == used
            && Consumed(before, DecBorrowed(own, InOrder(used), body).1) == used
            && Later(before, own)
  {
    var branches, default := s.branches, s.default;
    var done := InsertBranches(sigs, counted, before, branches, s);
    var (d, after) := Insert(sigs, counted, before, default);
    used := Consumed(before, after) + ConsumedInSome(before, done);
    SomeOwned(before, done);
    BranchReconciled(sigs, counted, before, branches, s, used, n);
    WfTaken(s, n, scope);
    InsertLater(sigs, counted, before, Taken(s, n), scope);
    ConsumeAllUsed(before, used);
    var (body, own) := Insert(sigs, counted, before, Taken(s, n));
    hide InsertBranches, Consumed, ConsumedInSome, Reconcile, DecBorrowed, InOrder, Later, OwnedOnly;
    assert Consumed(before, own) <= used;
    SwitchUsed(before, own, body, used);
  }

  lemma WfTaken(s: Stmt, n: int, scope: set<Symbol>)
    requires s.Switch? && WfStmt(s, scope)
    ensures WfStmt(Taken(s, n), scope)
  {
    if Select(s.branches, n) < |s.branches| {
      WfBranchAt(s.branches, n, scope, s);
    }
  }

  lemma {:induction false} WfBranchAt(bs: seq<(int, Stmt)>, n: int, scope: set<Symbol>, within: Stmt)
    requires WfBranches(bs, scope, within) && Select(bs, n) < |bs|
    ensures WfStmt(bs[Select(bs, n)].1, scope)
    decreases |bs|
  {
    if bs[0].0 != n {
      WfBranchAt(bs[1..], n, scope, within);
    }
  }

  /** Running the instrumented statement agrees with running the original one: the same
      value, stuck or out of fuel together, and a heap whose counts are exact. */
  lemma {:induction false} StmtCorrect(fuel: nat, sigs: Sigs, procs: Procs, counted: set<Symbol>, before: Own,
      lent: set<Symbol>, s: Stmt, env: HEnv, trees: TEnv, h: Heap, roots: multiset<Loc>)
    requires ProgramOk(sigs, procs)
    requires WfStmt(s, env.Keys) && NoReturnOf(s, lent) && forall b :: IsLent(before, b) ==> b in lent
    requires Scoped(env, before)
    requires Ready(h, roots, env, trees, before, Consumed(before, Insert(sigs, counted, before, s).1))
    ensures Agrees(Eval(fuel, procs, counted, trees, s),
                   HEval(fuel, InsertAll(sigs, procs), counted, env, h, Insert(sigs, counted, before, s).0), h, roots)
    decreases fuel, s, 3
  {
    hide Ready, Scoped, Consumed, Agrees, Shrinks, Inv, ProgramOk, Kinds, DecBorrowed;
    var c := Consumed(before, Insert(sigs, counted, before, s).1);
    ReadyKinds(h, roots, env, trees, before, c);
    ReadyKeys(h, roots, env, trees, before, c);
    match s
    case Return(x) =>
      ReturnCorrect(h, roots, env, trees, before, x);
    case Let(x, e, rest) =>
      LetCorrect(fuel, sigs, procs, counted, before, lent, s, env, trees, h, roots);
    case Switch(cond, _, _) =>
      SameNumber(env, trees, cond);
      if trees[cond].Num? {
        var n := trees[cond].n;
        var used := TakenInserted(sigs, counted, before, s, n, env.Keys);
        TakenOk(s, n, env.Keys, lent);
        var taken := Taken(s, n);
        var (body, own) := Insert(sigs, counted, before, taken);
        var h' := DecsRun(fuel, InsertAll(sigs, procs), counted, h, roots, env, trees, before, own, InOrder(used),
            body);
        StmtCorrect(fuel, sigs, procs, counted, before, lent, taken, env, trees, h', roots);
        AgreesAfter(Eval(fuel, procs, counted, trees, taken),
            HEval(fuel, InsertAll(sigs, procs), counted, env, h', body), h, h', roots);
      } else {
        StuckAgrees(h, roots);
      }
  }

  lemma SameNumber(env: HEnv, trees: TEnv, s: Symbol)
    requires Kinds(env, trees) && s in env
    ensures trees[s].Num? <==> env[s].Int?
    ensures trees[s].Num? ==> env[s].n == trees[s].n
  {
  }

  lemma StuckAgrees(h: Heap, roots: multiset<Loc>)
    ensures Agrees(Stuck, HStuck, h, roots) && Agrees(Timeout, HTimeout, h, roots)
  {
  }

  lemma {:induction false} LetCorrect(fuel: nat, sigs: Sigs, procs: Procs, counted: set<Symbol>, before: Own,
      lent: set<Symbol>, s: Stmt, env: HEnv, trees: TEnv, h: Heap, roots: multiset<Loc>)
    requires s.Let? && ProgramOk(sigs, procs)
    requires WfStmt(s, env.Keys) && NoReturnOf(s, lent) && forall b :: IsLent(before, b) ==> b in lent
    requires Scoped(env, before)
    requires Ready(h, roots, env, trees, before, Consumed(before, Insert(sigs, counted, before, s).1))
    ensures Agrees(Eval(fuel, procs, counted, trees, s),
                   HEval(fuel, InsertAll(sigs, procs), counted, env, h, Insert(sigs, counted, before, s).0), h, roots)
    decreases fuel, s, 2
  {
    hide Ready, Scoped, Consumed, Agrees, Shrinks, Inv, ProgramOk, Kinds, Lent, Later, InsertBinding, HEval, EvalExpr,
         Rep;
    var x, e, rest := s.x, s.e, s.rest;
    var inner := Track(counted, before, x);
    var (rest', after) := Insert(sigs, counted, inner, rest);
    var b := InsertBinding(sigs, counted, after - {x}, x, e, Used(after, x, rest'));
    assert Insert(sigs, counted, before, s) == b;
    ReadyKeys(h, roots, env, trees, before, Consumed(before, b.1));
    InsertLater(sigs, counted, inner, rest, env.Keys + {x});
    var p := EvalExpr(fuel, procs, trees, e, s);
    var h', v := BindingCorrect(fuel, sigs, procs, counted, before, after, x, e, rest', env, trees, h, roots, s);
    StuckAgrees(h, roots);
    if p.Done? && LayoutOk(counted, x, p.t.Con?) {
      BoundFacts(h, h', roots, env, trees, counted, before, after, x, v, p.t);
      assert env[x := v].Keys == env.Keys + {x};
      StmtCorrect(fuel, sigs, procs, counted, inner, lent, rest, env[x := v], trees[x := p.t], h', roots);
      AgreesAfter(Eval(fuel, procs, counted, trees[x := p.t], rest),
                  HEval(fuel, InsertAll(sigs, procs), counted, env[x := v], h', rest'), h, h', roots);
    }
  }

  lemma BoundFacts(h: Heap, h': Heap, roots: multiset<Loc>, env: HEnv, trees: TEnv, counted: set<Symbol>, before: Own,
      after: Own, x: Symbol, v: Value, t: Tree)
    requires Bound(h, h', roots, env, trees, counted, before, after, x, v, t)
    ensures Ready(h', roots, env[x := v], trees[x := t], Track(counted, before, x),
            Consumed(Track(counted, before, x), after))
    ensures Scoped(env[x := v], Track(counted, before, x)) && Shrinks(h, h')
  {
  }

  lemma {:induction false} BindingCorrect(fuel: nat, sigs: Sigs, procs: Procs, counted: set<Symbol>, before: Own,
      after: Own, x: Symbol, e: Expr, rest: Stmt, env: HEnv, trees: TEnv, h: Heap, roots: multiset<Loc>, within: Stmt)
    returns (h': Heap, v: Value)
    requires ProgramOk(sigs, procs)
    requires Binding(counted, env, roots, before, after, x, e)
    requires Ready(h, roots, env, trees, before,
                   Consumed(before, InsertBinding(sigs, counted, after - {x}, x, e, Used(after, x, rest)).1))
    ensures var p := EvalExpr(fuel, procs, trees, e, within);
            && BindingAgrees(p, HEval(fuel, InsertAll(sigs, procs), counted, env, h,
                                      InsertBinding(sigs, counted, after - {x}, x, e, Used(after, x, rest)).0),
                             HEval(fuel, InsertAll(sigs, procs), counted, env[x := v], h', rest), counted, x,
                             p.Done? && Bound(h, h', roots, env, trees, counted, before, after, x, v, p.t))
    decreases fuel, within, 1
  {
    h', v := h, Int(0);
    hide Ready, Scoped, Consumed, Shrinks, Inv, ProgramOk, Kinds, Lent, Later, HEval, Rep, Bound, Used, DecBorrowed,
         IncOwned;
    var all := InsertAll(sigs, procs);
    ReadyKeys(h, roots, env, trees, before,
              Consumed(before, InsertBinding(sigs, counted, after - {x}, x, e, Used(after, x, rest)).1));
    match e
    case Literal(n) =>
      v := Int(n);
      h' := LiteralRuns(fuel, all, counted, h, roots, env, trees, before, after, x, n, rest);
    case Construct(tag, args) =>
      h', v := ConstructRuns(fuel, all, counted, h, roots, env, trees, before, after, x, tag, args, rest);
    case Field(s, i) =>
      var d := DecBorrowed(after - {x}, [s], Used(after, x, rest));
      h', v := FieldRuns(fuel, all, counted, h, roots, env, trees, before, after, x, s, i, rest, d.0, d.1);
    case GetTagId(s) =>
      var d := DecBorrowed(after - {x}, [s], Used(after, x, rest));
      h', v := TagRuns(fuel, all, counted, h, roots, env, trees, before, after, x, s, rest, d.0, d.1);
    case Call(f, args) =>
      h', v := CallCorrect(fuel, sigs, procs, counted, before, after, x, f, args, rest, env, trees, h, roots, within);
  }

  /** Whether a call can be made at all is the same with and without the heap. */
  lemma CallGuards(fuel: nat, sigs: Sigs, procs: Procs, counted: set<Symbol>, f: ProcName, args: seq<Symbol>, x: Symbol,
      env: HEnv, trees: TEnv, h: Heap, c: Stmt, within: Stmt) returns (ok: bool)
    requires Kinds(env, trees) && forall a :: a in args ==> a in env
    ensures var q := HEval(fuel, InsertAll(sigs, procs), counted, env, h, Let(x, Call(f, args), c));
            if !ok then EvalExpr(fuel, procs, trees, Call(f, args), within) == Stuck && q == HStuck
            else if fuel == 0 then EvalExpr(fuel, procs, trees, Call(f, args), within) == Timeout && q == HTimeout
            else
              && f in procs && |args| == |procs[f].args| && ArgLayouts(procs[f].counted, procs[f].args, env, args)
              && EvalExpr(fuel, procs, trees, Call(f, args), within)
                 == Eval(fuel - 1, procs, procs[f].counted, Bind(procs[f].args, Values(trees, args)), procs[f].body)
              && q == AfterCall(fuel, InsertAll(sigs, procs), counted, env, x, c,
                                HEval(fuel - 1, InsertAll(sigs, procs), procs[f].counted,
                                    Bind(procs[f].args, Values(env, args)), h, InsertAll(sigs, procs)[f].body))
  {
    ok := f in procs && |args| == |procs[f].args| &&
          forall i :: 0 <= i < |args| ==> LayoutOk(procs[f].counted, procs[f].args[i], trees[args[i]].Con?);
    hide Bind, InsertAll, HEval, EvalExpr, LayoutOk;
    if f in procs && |args| == |procs[f].args| {
      SameLayouts(procs, f, args, env, trees);
    }
    SameSignature(sigs, procs);
    PureCall(fuel, procs, f, args, trees, within, ok);
    HeapCall(fuel, InsertAll(sigs, procs), counted, f, args, x, env, h, c, ok);
  }

  lemma SameLayouts(procs: Procs, f: ProcName, args: seq<Symbol>, env: HEnv, trees: TEnv)
    requires Kinds(env, trees) && forall a :: a in args ==> a in env
    requires f in procs && |args| == |procs[f].args|
    ensures (forall i :: 0 <= i < |args| ==> LayoutOk(procs[f].counted, procs[f].args[i], trees[args[i]].Con?))
        <==> ArgLayouts(procs[f].counted, procs[f].args, env, args)
  {
    forall i | 0 <= i < |args| ensures trees[args[i]].Con? == env[args[i]].Ref? {
      assert args[i] in args;
    }
  }

  lemma SameSignature(sigs: Sigs, procs: Procs)
    ensures forall f :: f in procs ==>
              InsertAll(sigs, procs)[f].args == procs[f].args && InsertAll(sigs, procs)[f].counted == procs[f].counted
  {
    hide Insert, DecBorrowed, Params;
  }

  lemma PureCall(fuel: nat, procs: Procs, f: ProcName, args: seq<Symbol>, trees: TEnv, within: Stmt, ok: bool)
    requires forall a :: a in args ==> a in trees
    requires ok <==> f in procs && |args| == |procs[f].args| &&
                     forall i :: 0 <= i < |args| ==> LayoutOk(procs[f].counted, procs[f].args[i], trees[args[i]].Con?)
    ensures EvalExpr(fuel, procs, trees, Call(f, args), within)
         == if !ok then Stuck else if fuel == 0 then Timeout
            else Eval(fuel - 1, procs, procs[f].counted, Bind(procs[f].args, Values(trees, args)), procs[f].body)
  {
    hide Bind, LayoutOk;
  }

  lemma HeapCall(fuel: nat, procs: Procs, counted: set<Symbol>, f: ProcName, args: seq<Symbol>, x: Symbol, env: HEnv,
      h: Heap, c: Stmt, ok: bool)
    requires forall a :: a in args ==> a in env
    requires ok <==> f in procs && |args| == |procs[f].args| && ArgLayouts(procs[f].counted, procs[f].args, env, args)
    ensures HEval(fuel, procs, counted, env, h, Let(x, Call(f, args), c))
         == if !ok then HStuck else if fuel == 0 then HTimeout
            else AfterCall(fuel, procs, counted, env, x, c,
                           HEval(fuel - 1, procs, procs[f].counted, Bind(procs[f].args, Values(env, args)), h,
                               procs[f].body))
  {
    hide Bind, LayoutOk;
    var s := Let(x, Call(f, args), c);
    assert HEvalExpr(fuel, procs, env, h, Call(f, args), s)
        == if !ok then HStuck else if fuel == 0 then HTimeout
           else HEval(fuel - 1, procs, procs[f].counted, Bind(procs[f].args, Values(env, args)), h, procs[f].body);
  }

  /** What a `Let` does with the result of a call. */
  function AfterCall(fuel: nat, procs: Procs, counted: set<Symbol>, env: HEnv, x: Symbol, c: Stmt,
      r: HResult): HResult {
    match r
    case HDone(h, v) => if LayoutOk(counted, x, v.Ref?) then HEval(fuel, procs, counted, env[x := v], h, c) else HStuck
    case other => other
  }

  /** A call: owned arguments are paid for, lent ones are dropped after a last use. */
  lemma {:induction false} CallCorrect(fuel: nat, sigs: Sigs, procs: Procs, counted: set<Symbol>, before: Own,
      after: Own, x: Symbol, f: ProcName, args: seq<Symbol>, rest: Stmt, env: HEnv, trees: TEnv, h: Heap,
      roots: multiset<Loc>, within: Stmt)
    returns (h': Heap, v: Value)
    requires ProgramOk(sigs, procs)
    requires Binding(counted, env, roots, before, after, x, Call(f, args))
    requires Ready(h, roots, env, trees, before,
                   Consumed(before, InsertBinding(sigs, counted, after - {x}, x, Call(f, args),
                       Used(after, x, rest)).1))
    ensures var p := EvalExpr(fuel, procs, trees, Call(f, args), within);
            && BindingAgrees(p, HEval(fuel, InsertAll(sigs, procs), counted, env, h,
                                      InsertBinding(sigs, counted, after - {x}, x, Call(f, args),
                                          Used(after, x, rest)).0),
                             HEval(fuel, InsertAll(sigs, procs), counted, env[x := v], h', rest), counted, x,
                             p.Done? && Bound(h, h', roots, env, trees, counted, before, after, x, v, p.t))
    decreases fuel, within, 0
  {
    h', v := h, Int(0);
    hide Ready, Scoped, Consumed, Shrinks, Inv, ProgramOk, Kinds, Lent, Later, HEval, EvalExpr, Rep, Used, DecBorrowed,
         IncOwned, AllRep, ArgsRep, ArgsLent, ArgLayouts, Bind, Track, InsertAll, Values, ArgsOf, Tokens, Uses;
    var all := InsertAll(sigs, procs);
    var sig := SigOf(sigs, f);
    var bs, os := ArgsOf(args, sig, Borrowed), ArgsOf(args, sig, Owned);
    var own, used := after - {x}, Used(after, x, rest);
    var (c, own') := DecBorrowed(own, bs, used);
    var cont := Let(x, Call(f, args), c);
    var c1 := Consumed(before, own');
    ConsumedWithout(before, after, x, counted);
    DecsConsume(before, own, bs, used);
    var h1 := IncsRun(fuel, all, counted, h, roots, env, trees, before, own', os, cont);
    ReadyKinds(h1, roots + Uses(env, os), env, trees, before, c1);
    ReadyKeys(h1, roots + Uses(env, os), env, trees, before, c1);
    var ok := CallGuards(fuel, sigs, procs, counted, f, args, x, env, trees, h1, c, within);
    if ok && fuel > 0 {
      var roots1 := roots + Tokens(env, c1);
      assert roots1 + Uses(env, os) == roots + Uses(env, os) + Tokens(env, c1);
      ProgramProc(sigs, procs, f);
      ArgsStand(h1, roots, env, trees, before, own, sig, args, used, Uses(env, os));
      CalleeRuns(fuel - 1, sigs, procs, f, args, env, trees, h1, roots1);
      var r := Eval(fuel - 1, procs, procs[f].counted, Bind(procs[f].args, Values(trees, args)), procs[f].body);
      var q := HEval(fuel - 1, all, procs[f].counted, Bind(procs[f].args, Values(env, args)), h1, all[f].body);
      h', v := CallReturns(fuel, all, counted, h, h1, roots, env, trees, before, after, x, bs, rest, Uses(env, os), r,
          q);
    }
  }

  /** The callee, from the state its arguments leave. */
  lemma {:induction false} CalleeRuns(fuel: nat, sigs: Sigs, procs: Procs, f: ProcName, args: seq<Symbol>, env: HEnv,
      trees: TEnv, h: Heap, roots: multiset<Loc>)
    requires f in procs && |args| == |procs[f].args| && |SigOf(sigs, f)| == |args|
    requires forall a :: a in args ==> a in env && a in trees
    requires ProgramOk(sigs, procs)
    requires ArgLayouts(procs[f].counted, procs[f].args, env, args)
    requires Inv(h, roots + Uses(env, ArgsOf(args, SigOf(sigs, f), Owned)))
    requires ArgsRep(h, env, trees, args) && ArgsLent(roots, env, args, SigOf(sigs, f))
    ensures Agrees(Eval(fuel, procs, procs[f].counted, Bind(procs[f].args, Values(trees, args)), procs[f].body),
                   HEval(fuel, InsertAll(sigs, procs), procs[f].counted, Bind(procs[f].args, Values(env, args)), h,
                         InsertAll(sigs, procs)[f].body), h, roots)
    decreases fuel, procs[f].body, 5
  {
    hide Ready, Scoped, ProgramOk, Eval, HEval, Agrees, Inv, ArgsRep, ArgsLent, ArgLayouts, Bind, InsertAll, Values,
         ArgsOf, Uses;
    ProgramProc(sigs, procs, f);
    CalleeReady(h, roots, env, trees, procs[f], SigOf(sigs, f), args);
    BindKeys(procs[f].args, Values(env, args));
    ProcCorrect(fuel, sigs, procs, f, Bind(procs[f].args, Values(env, args)),
        Bind(procs[f].args, Values(trees, args)), h, roots);
  }

  /** What the caller does with the callee's result. */
  lemma CallReturns(fuel: nat, all: Procs, counted: set<Symbol>, h: Heap, h1: Heap, roots: multiset<Loc>, env: HEnv,
      trees: TEnv, before: Own, after: Own, x: Symbol, bs: seq<Symbol>, rest: Stmt, more: multiset<Loc>, r: Result,
      q: HResult)
    returns (h': Heap, v: Value)
    requires x !in env && Later(Track(counted, before, x), after) && Scoped(env, before) && Lent(roots, env, before)
    requires var c1 := Consumed(before, DecBorrowed(after - {x}, bs, Used(after, x, rest)).1);
             Ready(h1, roots + more, env, trees, before, c1) && Agrees(r, q, h1, roots + Tokens(env, c1))
    requires Shrinks(h, h1)
    ensures var d := DecBorrowed(after - {x}, bs, Used(after, x, rest));
            BindingAgrees(r, AfterCall(fuel, all, counted, env, x, d.0, q),
                HEval(fuel, all, counted, env[x := v], h', rest),
                          counted, x, r.Done? && Bound(h, h', roots, env, trees, counted, before, after, x, v, r.t))
  {
    h', v := h, Int(0);
    hide Ready, Scoped, Consumed, Shrinks, Inv, Lent, Later, HEval, Rep, Used, DecBorrowed, Track, Tokens;
    if r.Done? {
      RepKind(q.h, q.v, r.t);
      if LayoutOk(counted, x, r.t.Con?) {
        v := q.v;
        var c1 := Consumed(before, DecBorrowed(after - {x}, bs, Used(after, x, rest)).1);
        Returned(h1, q.h, roots, env, trees, before, c1, more, v);
        h' := AfterLet(fuel, all, counted, q.h, roots, env, trees, before, after, x, v, r.t, bs, rest);
        ShrinksTrans(h, h1, q.h);
        ShrinksTrans(h, q.h, h');
      }
    }
  }

  lemma ProgramProc(sigs: Sigs, procs: Procs, f: ProcName)
    requires ProgramOk(sigs, procs) && f in procs
    ensures ProcOk(sigs, f, procs[f]) && SigOf(sigs, f) == sigs[f]
  {
  }

  lemma BindKeys<V>(params: seq<Symbol>, vals: seq<V>)
    requires |params| == |vals|
    ensures Bind(params, vals).Keys == ArgSet(params)
  {
  }

  /** A procedure's instrumented body, from the state its caller leaves. */
  lemma {:induction false} ProcCorrect(fuel: nat, sigs: Sigs, procs: Procs, f: ProcName, env: HEnv, trees: TEnv,
      h: Heap, roots: multiset<Loc>)
    requires ProgramOk(sigs, procs) && f in procs && f in sigs && |sigs[f]| == |procs[f].args|
             && DistinctArgs(procs[f].args)
    requires env.Keys == ArgSet(procs[f].args)
    requires var own := Params(procs[f].args, sigs[f], procs[f].counted);
             Ready(h, roots, env, trees, own, OwnedSet(own)) && Scoped(env, own)
    ensures Agrees(Eval(fuel, procs, procs[f].counted, trees, procs[f].body),
                   HEval(fuel, InsertAll(sigs, procs), procs[f].counted, env, h, InsertAll(sigs, procs)[f].body), h,
                       roots)
    decreases fuel, procs[f].body, 4
  {
    hide Ready, Scoped, Shrinks, Inv, ProgramOk, Lent, Later, HEval, Eval, Rep, Consumed, Agrees, DecBorrowed, Params,
         OwnedSet, WfStmt, NoReturnOf, Insert;
    var p := procs[f];
    ProgramProc(sigs, procs, f);
    var own := Params(p.args, sigs[f], p.counted);
    var (body, after) := Insert(sigs, p.counted, own, p.body);
    ReadyKeys(h, roots, env, trees, own, OwnedSet(own));
    InsertLater(sigs, p.counted, own, p.body, env.Keys);
    ParamsConsumed(p, sigs[f], own, after, body);
    ParamsLent(p, sigs[f], own);
    var h' := DecsRun(fuel, InsertAll(sigs, procs), p.counted, h, roots, env, trees, own, after, p.args, body);
    StmtCorrect(fuel, sigs, procs, p.counted, own, LentParams(p.args, sigs[f]), p.body, env, trees, h', roots);
    AgreesAfter(Eval(fuel, procs, p.counted, trees, p.body),
        HEval(fuel, InsertAll(sigs, procs), p.counted, env, h', body), h, h', roots);
    assert InsertAll(sigs, procs)[f].body == DecBorrowed(after, p.args, body).0;
  }

  /** Unused owned parameters are dropped on entry, so that all owned ones are consumed. */
  lemma ParamsConsumed(p: Proc, sig: seq<Ownership>, own: Own, after: Own, body: Stmt)
    requires |sig| == |p.args| && DistinctArgs(p.args) && own == Params(p.args, sig, p.counted) && Later(own, after)
    ensures Consumed(own, DecBorrowed(after, p.args, body).1) == OwnedSet(own)
  {
    ParamsFacts(p.args, sig, p.counted);
    DecsConsume(own, after, p.args, body);
  }

  lemma ParamsLent(p: Proc, sig: seq<Ownership>, own: Own)
    requires |sig| == |p.args| && DistinctArgs(p.args) && own == Params(p.args, sig, p.counted)
    ensures forall b :: IsLent(own, b) ==> b in LentParams(p.args, sig)
  {
    ParamsFacts(p.args, sig, p.counted);
    forall b | IsLent(own, b) ensures b in LentParams(p.args, sig) {
      var i :| 0 <= i < |p.args| && p.args[i] == b;
    }
  }

  // ----- main results -----

  /** The instrumented program never touches a freed cell, computes the value of the original
      program, and keeps every count equal to the references that exist: the only reference
      left besides the caller's is the result's. */
  lemma InsertionCorrect(fuel: nat, sigs: Sigs, procs: Procs, f: ProcName)
    requires ProgramOk(sigs, procs) && f in procs && procs[f].args == []
    ensures match Eval(fuel, procs, procs[f].counted, map[], procs[f].body)
            case Done(t) =>
              var q := HEval(fuel, InsertAll(sigs, procs), procs[f].counted, map[], [], InsertAll(sigs, procs)[f].body);
              q.HDone? && Rep(q.h, q.v, t) && Inv(q.h, Tok(q.v))
            case Stuck => HEval(fuel, InsertAll(sigs, procs), procs[f].counted, map[], [],
                InsertAll(sigs, procs)[f].body) == HStuck
            case Timeout => HEval(fuel, InsertAll(sigs, procs), procs[f].counted, map[], [],
                InsertAll(sigs, procs)[f].body) == HTimeout
  {
    hide HEval, Eval, Rep, InsertAll;
    ProgramProc(sigs, procs, f);
    var own := Params([], sigs[f], procs[f].counted);
    assert own == map[] && OwnedSet(own) == {};
    assert multiset{} + Tokens(map[], {}) == multiset{};
    assert Ready([], multiset{}, map[], map[], own, {});
    ProcCorrect(fuel, sigs, procs, f, map[], map[], [], multiset{});
    var q := HEval(fuel, InsertAll(sigs, procs), procs[f].counted, map[], [], InsertAll(sigs, procs)[f].body);
    if q.HDone? {
      assert multiset{} + Tok(q.v) == Tok(q.v);
    }
  }

  /** No leaks: once the result is dropped as well, every cell ever allocated has been freed. */
  lemma NothingLeaks(fuel: nat, sigs: Sigs, procs: Procs, f: ProcName)
    requires ProgramOk(sigs, procs) && f in procs && procs[f].args == []
    requires Eval(fuel, procs, procs[f].counted, map[], procs[f].body).Done?
    ensures var q := HEval(fuel, InsertAll(sigs, procs), procs[f].counted, map[], [], InsertAll(sigs, procs)[f].body);
            q.HDone? && Decrement(q.h, q.v).Some?
            && forall l :: 0 <= l < |Decrement(q.h, q.v).value| ==> Decrement(q.h, q.v).value[l].Freed?
  {
    hide HEval, Eval, Rep, InsertAll, Decrement, Inv;
    InsertionCorrect(fuel, sigs, procs, f);
    var q := HEval(fuel, InsertAll(sigs, procs), procs[f].counted, map[], [], InsertAll(sigs, procs)[f].body);
    assert multiset{} + Tok(q.v) == Tok(q.v);
    DecrementCorrect(q.h, multiset{}, q.v);
    NoOwnersNoCells(Decrement(q.h, q.v).value);
  }
}
