/** The pass that inserts reference-count operations, on the join-free fragment. */
module IncDec {
  import opened BorrowSignature
  import opened RcIr

  // ----- the pass -----

  /** Ownership of the reference-counted symbols in scope. Walking backward, `Borrowed`
      means that the rest of the procedure already uses the symbol. */
  type Own = map<Symbol, Ownership>

  function Consume(own: Own, s: Symbol): Own {
    if s in own then own[s := Borrowed] else own
  }

  function InsertInc(s: Symbol, n: nat, cont: Stmt): Stmt {
    if n == 0 then cont else Inc(s, n, cont)
  }

  function Count(ss: seq<Symbol>, s: Symbol): nat {
    if ss == [] then 0 else (if ss[0] == s then 1 else 0) + Count(ss[1..], s)
  }

  function Remove(ss: seq<Symbol>, s: Symbol): (r: seq<Symbol>)
    ensures |r| <= |ss| && forall x :: x in r ==> x in ss
  {
    if ss == [] then [] else (if ss[0] == s then [] else [ss[0]]) + Remove(ss[1..], s)
  }

  /** Every usage beyond the one the symbol's own reference covers is paid by an `Inc`. */
  function IncOwned(own: Own, ss: seq<Symbol>, cont: Stmt): (Stmt, Own)
    decreases |ss|
  {
    if ss == [] then (cont, own)
    else
      var s := ss[0];
      var rest := Remove(ss[1..], s);
      if s !in own then IncOwned(own, rest, cont)
      else
        var n := Count(ss, s);
        IncOwned(Consume(own, s), rest, InsertInc(s, if own[s] == Owned then n - 1 else n, cont))
  }

  /** A last use that only borrows is followed by a `Dec`. */
  function DecBorrowed(own: Own, ss: seq<Symbol>, cont: Stmt): (Stmt, Own)
    decreases |ss|
  {
    if ss == [] then (cont, own)
    else
      var s := ss[0];
      if s in own && own[s] == Owned then DecBorrowed(Consume(own, s), ss[1..], Dec(s, cont))
      else DecBorrowed(own, ss[1..], cont)
  }

  /** The arguments whose parameter has the given ownership. */
  function ArgsOf<V>(args: seq<V>, sig: seq<Ownership>, o: Ownership): (r: seq<V>)
    ensures forall x :: x in r ==> x in args
  {
    if args == [] || sig == [] then []
    else (if sig[0] == o then [args[0]] else []) + ArgsOf(args[1..], sig[1..], o)
  }

  type Sigs = map<ProcName, seq<Ownership>>

  function SigOf(sigs: Sigs, f: ProcName): seq<Ownership> {
    if f in sigs then sigs[f] else []
  }

  function InsertBinding(sigs: Sigs, counted: set<Symbol>, own: Own, x: Symbol, e: Expr, cont: Stmt): (Stmt, Own) {
    match e
    case Literal(_) => (Let(x, e, cont), own)
    case Construct(_, args) => IncOwned(own, args, Let(x, e, cont))
    case Field(s, _) =>
      var (c, own') := DecBorrowed(own, [s], cont);
      (Let(x, e, if x in counted then InsertInc(x, 1, c) else c), own')
    case GetTagId(s) =>
      var (c, own') := DecBorrowed(own, [s], cont);
      (Let(x, e, c), own')
    case Call(f, args) =>
      var (c, own') := DecBorrowed(own, ArgsOf(args, SigOf(sigs, f), Borrowed), cont);
      IncOwned(own', ArgsOf(args, SigOf(sigs, f), Owned), Let(x, e, c))
  }

  predicate IsLeast(m: Symbol, s: set<Symbol>) {
    m in s && forall y :: y in s ==> m <= y
  }

  function Least(s: set<Symbol>): (m: Symbol)
    requires s != {}
    ensures m in s
  {
    assert exists m :: m in s && IsLeast(m, s) by { var k := HasLeast(s); }
    var m :| m in s && IsLeast(m, s);
    m
  }

  lemma {:induction false} HasLeast(s: set<Symbol>) returns (m: Symbol)
    requires s != {}
    ensures IsLeast(m, s)
    decreases s
  {
    m :| m in s;
    var r := s - {m};
    if r != {} {
      var k := HasLeast(r);
      LeastOfTwo(s, m, k);
      m := if m < k then m else k;
    } else {
      assert s == {m};
    }
  }

  lemma LeastOfTwo(s: set<Symbol>, m: Symbol, k: Symbol)
    requires m in s && IsLeast(k, s - {m})
    ensures IsLeast(if m < k then m else k, s)
  {
    forall y | y in s ensures (if m < k then m else k) <= y {
      assert y == m || y in s - {m};
    }
  }

  function InOrder(s: set<Symbol>): (r: seq<Symbol>)
    ensures forall x :: x in r <==> x in s
  {
    if s == {} then [] else [Least(s)] + InOrder(s - {Least(s)})
  }

  /** The symbols owned on entry that `after` has consumed. */
  function Consumed(before: Own, after: Own): set<Symbol> {
    set s | s in before && before[s] == Owned && s in after && after[s] == Borrowed
  }

  function ConsumeAll(own: Own, ss: set<Symbol>): Own {
    map s | s in own :: if s in ss then Borrowed else own[s]
  }

  /** A new binding starts out owned, if it is counted at all. */
  function Track(counted: set<Symbol>, own: Own, x: Symbol): Own {
    if x in counted then own[x := Owned] else own
  }

  /** The rest of a binding; an unused binding is dropped first. */
  function Used(after: Own, x: Symbol, rest: Stmt): Stmt {
    if x in after && after[x] == Owned then Dec(x, rest) else rest
  }

  /** The pass over a statement: the instrumented statement and the ownership before it. */
  function Insert(sigs: Sigs, counted: set<Symbol>, own: Own, s: Stmt): (Stmt, Own)
    decreases s
  {
    match s
    case Return(x) => (s, Consume(own, x))
    case Let(x, e, rest) =>
      var (rest', after) := Insert(sigs, counted, Track(counted, own, x), rest);
      InsertBinding(sigs, counted, after - {x}, x, e, Used(after, x, rest'))
    case Switch(cond, branches, default) =>
      var done := InsertBranches(sigs, counted, own, branches, s);
      var (default', after) := Insert(sigs, counted, own, default);
      var used := Consumed(own, after) + ConsumedInSome(own, done);
      (Switch(cond, Reconcile(used, done), DecBorrowed(after, InOrder(used), default').0), ConsumeAll(own, used))
    case Inc(_, _, _) => (s, own)
    case Dec(_, _) => (s, own)
  }

  function InsertBranches(sigs: Sigs, counted: set<Symbol>, own: Own, bs: seq<(int, Stmt)>, ghost within: Stmt)
    : (r: seq<(int, (Stmt, Own))>)
    requires forall b :: b in bs ==> b.1 < within
    ensures |r| == |bs|
    decreases within, |bs|
  {
    if bs == [] then []
    else
      [(bs[0].0, Insert(sigs, counted, own, bs[0].1))] + InsertBranches(sigs, counted, own, bs[1..], within)
  }

  /** What any branch consumes. */
  function ConsumedInSome(own: Own, bs: seq<(int, (Stmt, Own))>): set<Symbol> {
    if bs == [] then {} else Consumed(own, bs[0].1.1) + ConsumedInSome(own, bs[1..])
  }

  /** A branch that does not consume a symbol some other branch consumes drops it first. */
  function Reconcile(used: set<Symbol>, bs: seq<(int, (Stmt, Own))>): (r: seq<(int, Stmt)>)
    ensures |r| == |bs|
  {
    if bs == [] then []
    else [(bs[0].0, DecBorrowed(bs[0].1.1, InOrder(used), bs[0].1.0).0)] + Reconcile(used, bs[1..])
  }

  /** The ownership of the parameters on entry. */
  function Params(args: seq<Symbol>, sig: seq<Ownership>, counted: set<Symbol>): Own {
    if args == [] || sig == [] then map[]
    else
      var rest := Params(args[1..], sig[1..], counted);
      if args[0] in counted then rest[args[0] := sig[0]] else rest
  }

  function InsertProc(sigs: Sigs, f: ProcName, p: Proc): Proc {
    var own := Params(p.args, SigOf(sigs, f), p.counted);
    var (body, after) := Insert(sigs, p.counted, own, p.body);
    p.(body := DecBorrowed(after, p.args, body).0)
  }

  function InsertAll(sigs: Sigs, procs: Procs): (r: Procs)
    ensures r.Keys == procs.Keys
  {
    map f | f in procs :: InsertProc(sigs, f, procs[f])
  }
}
