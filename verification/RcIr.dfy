/** The join-free fragment of the intermediate representation the reference-counting
    passes work on, and its meaning without and with a heap. */
module RcIr {
  import opened RcHeap

  type Symbol = nat
  type ProcName = nat

  datatype Layout = Str | ListOf | LambdaSet(representation: Layout) | OtherLayout

  datatype Expr =
    | Literal(n: int)
    | Construct(tag: int, args: seq<Symbol>)
    | Field(structure: Symbol, index: nat)
    | GetTagId(structure: Symbol)
    | Call(name: ProcName, args: seq<Symbol>)

  datatype Stmt =
    | Let(x: Symbol, e: Expr, rest: Stmt)
    | Switch(cond: Symbol, branches: seq<(int, Stmt)>, default: Stmt)
    | Return(s: Symbol)
    | Inc(s: Symbol, n: nat, rest: Stmt)
    | Dec(s: Symbol, rest: Stmt)

  /** `counted` holds the symbols of the procedure whose layout is reference counted. */
  datatype Proc = Proc(args: seq<Symbol>, layouts: seq<Layout>, counted: set<Symbol>, body: Stmt)

  type Procs = map<ProcName, Proc>

  /** The branch a value selects: an index, or `|branches|` for the default. */
  function Select(branches: seq<(int, Stmt)>, n: int): (k: nat)
    ensures k <= |branches|
  {
    if branches == [] then 0 else if branches[0].0 == n then 0 else 1 + Select(branches[1..], n)
  }

  function Taken(s: Stmt, n: int): (r: Stmt)
    requires s.Switch?
    ensures r < s
  {
    var k := Select(s.branches, n);
    if k < |s.branches| then
      assert s.branches[k] in s.branches;
      s.branches[k].1
    else s.default
  }

  /** The branch taken is the first whose label is the value, or the default if there is none. */
  lemma {:induction false} SelectFirst(branches: seq<(int, Stmt)>, n: int)
    ensures var k := Select(branches, n);
            && (forall i :: 0 <= i < k ==> branches[i].0 != n)
            && (k < |branches| ==> branches[k].0 == n)
  {
    if branches != [] && branches[0].0 != n {
      SelectFirst(branches[1..], n);
    }
  }

  ghost predicate FirstLabelled(branches: seq<(int, Stmt)>, n: int, k: nat) {
    k < |branches| && branches[k].0 == n && forall i :: 0 <= i < k ==> branches[i].0 != n
  }

  lemma TakenIs(s: Stmt, n: int)
    requires s.Switch?
    ensures (forall i :: 0 <= i < |s.branches| ==> s.branches[i].0 != n) ==> Taken(s, n) == s.default
    ensures forall k: nat :: FirstLabelled(s.branches, n, k) ==> Taken(s, n) == s.branches[k].1
  {
    SelectFirst(s.branches, n);
  }

  function Values<V>(env: map<Symbol, V>, ss: seq<Symbol>): (r: seq<V>)
    requires forall s :: s in ss ==> s in env
    ensures |r| == |ss| && forall i :: 0 <= i < |ss| ==> r[i] == env[ss[i]]
  {
    seq(|ss|, i requires 0 <= i < |ss| => env[ss[i]])
  }

  function Bind<V>(params: seq<Symbol>, vals: seq<V>): (r: map<Symbol, V>)
    requires |params| == |vals|
    ensures forall s :: s in r <==> s in params
  {
    if params == [] then map[]
    else
      assert params == [params[0]] + params[1..];
      Bind(params[1..], vals[1..])[params[0] := vals[0]]
  }

  // ----- meaning without a heap -----

  datatype Result = Done(t: Tree) | Stuck | Timeout

  /** A symbol that is not reference counted holds no reference. */
  predicate LayoutOk(counted: set<Symbol>, x: Symbol, isRef: bool) {
    x in counted || !isRef
  }

  /** Evaluation with trees for values; `fuel` bounds the depth of calls. */
  function Eval(fuel: nat, procs: Procs, counted: set<Symbol>, env: map<Symbol, Tree>, s: Stmt): Result
    decreases fuel, s
  {
    match s
    case Return(x) => if x in env then Done(env[x]) else Stuck
    case Let(x, e, rest) =>
      (match EvalExpr(fuel, procs, env, e, s)
       case Done(t) =>
         if LayoutOk(counted, x, t.Con?) then Eval(fuel, procs, counted, env[x := t], rest) else Stuck
       case other => other)
    case Switch(cond, _, _) =>
      if cond in env && env[cond].Num? then Eval(fuel, procs, counted, env, Taken(s, env[cond].n)) else Stuck
    case Inc(_, _, _) => Stuck
    case Dec(_, _) => Stuck
  }

  function EvalExpr(fuel: nat, procs: Procs, env: map<Symbol, Tree>, e: Expr, ghost within: Stmt): Result
    decreases fuel, within, 0
  {
    match e
    case Literal(n) => Done(Num(n))
    case Construct(tag, args) =>
      if forall a :: a in args ==> a in env then Done(Con(tag, Values(env, args))) else Stuck
    case Field(x, i) =>
      if x in env && env[x].Con? && i < |env[x].fields| then Done(env[x].fields[i]) else Stuck
    case GetTagId(x) => if x in env && env[x].Con? then Done(Num(env[x].tag)) else Stuck
    case Call(f, args) =>
      if (forall a :: a in args ==> a in env) && f in procs && |args| == |procs[f].args| &&
         forall i :: 0 <= i < |args| ==> LayoutOk(procs[f].counted, procs[f].args[i], env[args[i]].Con?) then
        if fuel == 0 then Timeout
        else Eval(fuel - 1, procs, procs[f].counted, Bind(procs[f].args, Values(env, args)), procs[f].body)
      else Stuck
  }

  // ----- meaning with reference-counted cells -----

  datatype HResult = HDone(h: Heap, v: Value) | HStuck | HTimeout | RcError

  predicate NotFreed(h: Heap, v: Value) {
    v.Ref? ==> v.loc < |h| && h[v.loc].Live?
  }

  predicate NoneFreed(h: Heap, vs: seq<Value>) {
    forall i :: 0 <= i < |vs| ==> NotFreed(h, vs[i])
  }

  /** Evaluation over a heap. Reading, storing, incrementing or decrementing through a
      freed cell is `RcError`. */
  function HEval(fuel: nat, procs: Procs, counted: set<Symbol>, env: map<Symbol, Value>, h: Heap, s: Stmt): HResult
    decreases fuel, s
  {
    match s
    case Return(x) => if x in env then HDone(h, env[x]) else HStuck
    case Let(x, e, rest) =>
      (match HEvalExpr(fuel, procs, env, h, e, s)
       case HDone(h', v) =>
         if LayoutOk(counted, x, v.Ref?) then HEval(fuel, procs, counted, env[x := v], h', rest) else HStuck
       case other => other)
    case Switch(cond, _, _) =>
      if cond in env && env[cond].Int? then HEval(fuel, procs, counted, env, h, Taken(s, env[cond].n)) else HStuck
    case Inc(x, n, rest) =>
      if x !in env then HStuck
      else (match Increment(h, env[x], n)
            case Some(h') => HEval(fuel, procs, counted, env, h', rest)
            case None => RcError)
    case Dec(x, rest) =>
      if x !in env then HStuck
      else (match Decrement(h, env[x])
            case Some(h') => HEval(fuel, procs, counted, env, h', rest)
            case None => RcError)
  }

  function HEvalExpr(fuel: nat, procs: Procs, env: map<Symbol, Value>, h: Heap, e: Expr, ghost within: Stmt): HResult
    decreases fuel, within, 0
  {
    match e
    case Literal(n) => HDone(h, Int(n))
    case Construct(tag, args) =>
      if forall a :: a in args ==> a in env then
        if NoneFreed(h, Values(env, args)) then
          var (h', v) := Allocate(h, tag, Values(env, args));
          HDone(h', v)
        else RcError
      else HStuck
    case Field(x, i) =>
      if x in env && env[x].Ref? then
        if !NotFreed(h, env[x]) then RcError
        else if i < |h[env[x].loc].fields| then HDone(h, h[env[x].loc].fields[i])
        else HStuck
      else HStuck
    case GetTagId(x) =>
      if x in env && env[x].Ref? then
        if !NotFreed(h, env[x]) then RcError else HDone(h, Int(h[env[x].loc].tag))
      else HStuck
    case Call(f, args) =>
      if (forall a :: a in args ==> a in env) && f in procs && |args| == |procs[f].args| &&
         forall i :: 0 <= i < |args| ==> LayoutOk(procs[f].counted, procs[f].args[i], env[args[i]].Ref?) then
        if fuel == 0 then HTimeout
        else HEval(fuel - 1, procs, procs[f].counted, Bind(procs[f].args, Values(env, args)), h, procs[f].body)
      else HStuck
  }

  /** The symbols whose values an expression that is not a call looks into or stores. */
  function Touches(e: Expr): seq<Symbol> {
    match e
    case Construct(_, args) => args
    case Field(x, _) => [x]
    case GetTagId(x) => [x]
    case _ => []
  }

  /** Whoever reads, stores, increments or decrements through a freed cell is caught. */
  lemma FreedIsCaught(fuel: nat, procs: Procs, counted: set<Symbol>, env: map<Symbol, Value>, h: Heap, e: Expr,
      within: Stmt, i: nat, n: nat, rest: Stmt)
    requires i < |Touches(e)| && forall a :: a in Touches(e) ==> a in env
    requires var v := env[Touches(e)[i]]; v.Ref? && (v.loc >= |h| || h[v.loc].Freed?)
    ensures HEvalExpr(fuel, procs, env, h, e, within) == RcError
    ensures HEval(fuel, procs, counted, env, h, Inc(Touches(e)[i], n, rest)) == RcError
    ensures HEval(fuel, procs, counted, env, h, Dec(Touches(e)[i], rest)) == RcError
  {
    var v := env[Touches(e)[i]];
    assert !NotFreed(h, v);
    assert Increment(h, v, n).None?;
    assert Decrement(h, v).None?;
    match e
    case Construct(_, args) => assert Values(env, args)[i] == v;
    case Field(_, _) =>
    case GetTagId(_) =>
  }
}
