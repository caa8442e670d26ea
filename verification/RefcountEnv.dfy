/** The pass as it runs: one environment that is updated while the statement is rebuilt from
    its end, proved against the functions of `IncDec`. */
module RefcountEnv {
  import opened BorrowSignature
  import opened Options
  import opened RcIr
  import opened IncDec

  class RefcountEnvironment {
    const counted: set<Symbol>
    const sigs: Sigs
    var symbolsOwnership: Own

    constructor (counted: set<Symbol>, sigs: Sigs, own: Own)
      ensures this.counted == counted && this.sigs == sigs && symbolsOwnership == own
    {
      this.counted, this.sigs, symbolsOwnership := counted, sigs, own;
    }

    /** Marks a tracked symbol as consumed and says what it was. */
    method ConsumeSymbol(s: Symbol) returns (was: Option<Ownership>)
      modifies this
      ensures symbolsOwnership == Consume(old(symbolsOwnership), s)
      ensures was == if s in old(symbolsOwnership) then Some(old(symbolsOwnership)[s]) else None
    {
      if s in symbolsOwnership {
        was := Some(symbolsOwnership[s]);
        symbolsOwnership := symbolsOwnership[s := Borrowed];
      } else {
        was := None;
      }
    }

    method AddSymbol(s: Symbol)
      modifies this
      ensures symbolsOwnership == Track(counted, old(symbolsOwnership), s)
    {
      if s in counted {
        symbolsOwnership := symbolsOwnership[s := Owned];
      }
    }

    method RemoveSymbol(s: Symbol)
      modifies this
      ensures symbolsOwnership == old(symbolsOwnership) - {s}
    {
      symbolsOwnership := symbolsOwnership - {s};
    }

    method ConsumeAndInsertDecStmts(ss: seq<Symbol>, cont: Stmt) returns (r: Stmt)
      modifies this
      ensures (r, symbolsOwnership) == DecBorrowed(old(symbolsOwnership), ss, cont)
    {
      r := cont;
      var i := 0;
      while i < |ss|
        invariant i <= |ss|
        invariant DecBorrowed(symbolsOwnership, ss[i..], r) == DecBorrowed(old(symbolsOwnership), ss, cont)
      {
        assert ss[i..][0] == ss[i] && ss[i..][1..] == ss[i + 1..];
        if ss[i] in symbolsOwnership && symbolsOwnership[ss[i]] == Owned {
          var was := ConsumeSymbol(ss[i]);
          r := Dec(ss[i], r);
        }
        i := i + 1;
      }
    }

    method ConsumeAndInsertIncStmts(ss: seq<Symbol>, cont: Stmt) returns (r: Stmt)
      modifies this
      ensures (r, symbolsOwnership) == IncOwned(old(symbolsOwnership), ss, cont)
    {
      r := cont;
      var left := ss;
      while left != []
        invariant IncOwned(symbolsOwnership, left, r) == IncOwned(old(symbolsOwnership), ss, cont)
        decreases |left|
      {
        var s := left[0];
        var was := ConsumeSymbol(s);
        match was {
          case Some(o) => r := InsertInc(s, if o == Owned then Count(left, s) - 1 else Count(left, s), r);
          case None =>
        }
        left := Remove(left[1..], s);
      }
    }

    method InsertBindingStmt(x: Symbol, e: Expr, cont: Stmt) returns (r: Stmt)
      modifies this
      ensures (r, symbolsOwnership) == InsertBinding(sigs, counted, old(symbolsOwnership), x, e, cont)
    {
      match e {
        case Literal(_) => r := Let(x, e, cont);
        case Construct(_, args) => r := ConsumeAndInsertIncStmts(args, Let(x, e, cont));
        case Field(s, _) =>
          var c := ConsumeAndInsertDecStmts([s], cont);
          r := Let(x, e, if x in counted then InsertInc(x, 1, c) else c);
        case GetTagId(s) =>
          var c := ConsumeAndInsertDecStmts([s], cont);
          r := Let(x, e, c);
        case Call(f, args) =>
          var c := ConsumeAndInsertDecStmts(ArgsOf(args, SigOf(sigs, f), Borrowed), cont);
          r := ConsumeAndInsertIncStmts(ArgsOf(args, SigOf(sigs, f), Owned), Let(x, e, c));
      }
    }

    /** The pass over a statement. A run of `let`s is collected first, all its bindings are
        added, the statement behind it is processed, and the bindings are folded back from
        the last to the first. */
    method InsertStmt(s: Stmt) returns (r: Stmt)
      modifies this
      ensures (r, symbolsOwnership) == Insert(sigs, counted, old(symbolsOwnership), s)
      decreases s, 1
    {
      match s {
        case Return(x) =>
          var was := ConsumeSymbol(x);
          r := s;
        case Let(_, _, _) =>
          r := InsertLets(s);
        case Switch(cond, branches, default) =>
          r := InsertSwitch(s);
        case Inc(_, _, _) => r := s;
        case Dec(_, _) => r := s;
      }
    }

    method InsertLets(s: Stmt) returns (r: Stmt)
      requires s.Let?
      modifies this
      ensures (r, symbolsOwnership) == Insert(sigs, counted, old(symbolsOwnership), s)
      decreases s, 0
    {
      ghost var own0 := symbolsOwnership;
      var triples: seq<(Symbol, Expr)> := [];
      var current := s;
      while current.Let?
        invariant symbolsOwnership == TrackAll(counted, own0, triples)
        invariant Insert(sigs, counted, own0, s)
               == FoldBack(sigs, counted, triples, Insert(sigs, counted, symbolsOwnership, current))
        invariant triples == [] ==> current == s
        invariant triples != [] ==> current < s
        decreases current
      {
        FoldBackSnoc(sigs, counted, triples, (current.x, current.e),
                     Insert(sigs, counted, Track(counted, symbolsOwnership, current.x), current.rest));
        TrackAllSnoc(counted, own0, triples, (current.x, current.e));
        triples := triples + [(current.x, current.e)];
        AddSymbol(current.x);
        current := current.rest;
      }
      r := InsertStmt(current);
      while triples != []
        invariant Insert(sigs, counted, own0, s) == FoldBack(sigs, counted, triples, (r, symbolsOwnership))
        decreases |triples|
      {
        var (x, e) := triples[|triples| - 1];
        ghost var all := triples;
        triples := triples[..|triples| - 1];
        assert all == triples + [(x, e)];
        FoldBackSnoc(sigs, counted, triples, (x, e), (r, symbolsOwnership));
        var used := r;
        if x in symbolsOwnership && symbolsOwnership[x] == Owned {
          used := Dec(x, r);
        }
        RemoveSymbol(x);
        r := InsertBindingStmt(x, e, used);
      }
    }

    /** Every branch is processed with a copy of the environment. */
    method InsertSwitch(s: Stmt) returns (r: Stmt)
      requires s.Switch?
      modifies this
      ensures (r, symbolsOwnership) == Insert(sigs, counted, old(symbolsOwnership), s)
      decreases s, 0
    {
      hide Consumed, ConsumedInSome, Reconcile, DecBorrowed, InOrder, ConsumeAll;
      ghost var own := symbolsOwnership;
      var newBranches: seq<(int, (Stmt, Own))> := [];
      var i := 0;
      while i < |s.branches|
        invariant i <= |s.branches| && symbolsOwnership == own
        invariant newBranches + InsertBranches(sigs, counted, own, s.branches[i..], s)
               == InsertBranches(sigs, counted, own, s.branches, s)
      {
        assert s.branches[i] in s.branches;
        assert s.branches[i..][0] == s.branches[i] && s.branches[i..][1..] == s.branches[i + 1..];
        var branchEnv := new RefcountEnvironment(counted, sigs, symbolsOwnership);
        var b := branchEnv.InsertStmt(s.branches[i].1);
        newBranches := newBranches + [(s.branches[i].0, (b, branchEnv.symbolsOwnership))];
        i := i + 1;
      }
      assert s.branches[i..] == [] && newBranches + [] == newBranches;
      assert newBranches == InsertBranches(sigs, counted, own, s.branches, s);
      var branchEnv := new RefcountEnvironment(counted, sigs, symbolsOwnership);
      var d := branchEnv.InsertStmt(s.default);
      var consumed := Consumed(symbolsOwnership, branchEnv.symbolsOwnership)
          + ConsumedInSome(symbolsOwnership, newBranches);
      d := branchEnv.ConsumeAndInsertDecStmts(InOrder(consumed), d);
      symbolsOwnership := ConsumeAll(symbolsOwnership, consumed);
      r := Switch(s.cond, Reconcile(consumed, newBranches), d);
    }
  }

  function TrackAll(counted: set<Symbol>, own: Own, triples: seq<(Symbol, Expr)>): Own
    decreases triples
  {
    if triples == [] then own else TrackAll(counted, Track(counted, own, triples[0].0), triples[1..])
  }

  /** The bindings put back around what follows them, the last one first. */
  function FoldBack(sigs: Sigs, counted: set<Symbol>, triples: seq<(Symbol, Expr)>, acc: (Stmt, Own)): (Stmt, Own) {
    if triples == [] then acc
    else
      var (rest, after) := FoldBack(sigs, counted, triples[1..], acc);
      var (x, e) := triples[0];
      InsertBinding(sigs, counted, after - {x}, x, e, Used(after, x, rest))
  }

  lemma {:induction false} FoldBackSnoc(sigs: Sigs, counted: set<Symbol>, triples: seq<(Symbol, Expr)>,
      t: (Symbol, Expr), acc: (Stmt, Own))
    ensures FoldBack(sigs, counted, triples + [t], acc)
         == FoldBack(sigs, counted, triples, InsertBinding(sigs, counted, acc.1 - {t.0}, t.0, t.1,
             Used(acc.1, t.0, acc.0)))
  {
    hide InsertBinding;
    if triples == [] {
      assert triples + [t] == [t] && [t][1..] == [];
      assert FoldBack(sigs, counted, [t][1..], acc) == acc;
    } else {
      assert (triples + [t])[1..] == triples[1..] + [t];
      FoldBackSnoc(sigs, counted, triples[1..], t, acc);
    }
  }

  lemma {:induction false} TrackAllSnoc(counted: set<Symbol>, own: Own, triples: seq<(Symbol, Expr)>, t: (Symbol, Expr))
    ensures TrackAll(counted, own, triples + [t]) == Track(counted, TrackAll(counted, own, triples), t.0)
    decreases triples
  {
    if triples == [] {
      assert triples + [t] == [t] && [t][1..] == [];
    } else {
      assert (triples + [t])[1..] == triples[1..] + [t];
      TrackAllSnoc(counted, Track(counted, own, triples[0].0), triples[1..], t);
    }
  }
}
