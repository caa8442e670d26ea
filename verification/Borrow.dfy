/** Borrow-signature inference: which parameters a procedure may merely read. */
module Borrow {
  import opened BorrowSignature
  import opened Options
  import opened RcIr
  import opened IncDec
  import opened IncDecProof

  // ----- layouts -----

  function LayoutToOwnership(l: Layout): Ownership {
    match l
    case Str => Borrowed
    case ListOf => Borrowed
    case LambdaSet(inner) => LayoutToOwnership(inner)
    case OtherLayout => Owned
  }

  /** What a value of the layout is at run time. */
  function Representation(l: Layout): Layout {
    if l.LambdaSet? then Representation(l.representation) else l
  }

  /** Strings and lists are read by default, and everything else is owned. */
  function FromLayout(ls: seq<Layout>): (r: seq<Ownership>)
    ensures |r| == |ls|
    ensures forall i :: 0 <= i < |ls| ==> (r[i] == Borrowed <==> Representation(ls[i]) in {Str, ListOf})
  {
    DefaultOfAll();
    seq(|ls|, i requires 0 <= i < |ls| => LayoutToOwnership(ls[i]))
  }

  lemma {:induction false} DefaultOf(l: Layout)
    ensures LayoutToOwnership(l) == Borrowed <==> Representation(l) in {Str, ListOf}
  {
    if l.LambdaSet? {
      DefaultOf(l.representation);
    }
  }

  lemma DefaultOfAll()
    ensures forall l :: LayoutToOwnership(l) == Borrowed <==> Representation(l) in {Str, ListOf}
  {
    forall l {
      DefaultOf(l);
    }
  }

  /** The word with the default of each layout. */
  method FromLayouts(ls: seq<Layout>) returns (word: Packed)
    requires |ls| < 56
    ensures Holds(word, |ls|) && Flags(word, |ls|) == FromLayout(ls)
  {
    hide Bit, Len, Put, Get, Mask, And, Index, Set, Flags, LayoutToOwnership;
    var n := |ls|;
    FlagsNew(n);
    word := New(Index(n));
    for i := 0 to n
      invariant Holds(word, n) && forall j :: 0 <= j < i ==> Flags(word, n)[j] == LayoutToOwnership(ls[j])
    {
      FlagsSet(word, n, i, LayoutToOwnership(ls[i]));
      var (next, _) := Set(word, Index(i), LayoutToOwnership(ls[i]));
      word := next;
    }
  }

  // ----- what one inspection of a body marks -----

  /** The symbols that inspecting a statement marks as owned, under the signatures known so far. */
  function Marked(sigs: Sigs, s: Stmt): set<Symbol>
    decreases s
  {
    match s
    case Return(x) => {x}
    case Let(_, e, rest) => MarkedByExpr(sigs, e) + Marked(sigs, rest)
    case Switch(_, bs, d) => MarkedInBranches(sigs, bs, s) + Marked(sigs, d)
    case Inc(_, _, rest) => {}
    case Dec(_, rest) => {}
  }

  function MarkedInBranches(sigs: Sigs, bs: seq<(int, Stmt)>, ghost within: Stmt): set<Symbol>
    requires forall b :: b in bs ==> b.1 < within
    decreases within, |bs|
  {
    if bs == [] then {} else Marked(sigs, bs[0].1) + MarkedInBranches(sigs, bs[1..], within)
  }

  function SymbolsOf(ss: seq<Symbol>): set<Symbol> {
    set s | s in ss
  }

  lemma SymbolsOfCons(s: Symbol, ss: seq<Symbol>)
    ensures SymbolsOf([s] + ss) == {s} + SymbolsOf(ss)
  {
  }

  function MarkedByExpr(sigs: Sigs, e: Expr): set<Symbol> {
    match e
    case Call(f, args) => SymbolsOf(ArgsOf(args, SigOf(sigs, f), Owned))
    case _ => {}
  }

  // ----- the rules -----

  /** The symbols a statement may return. */
  function Returns(s: Stmt): set<Symbol>
    decreases s
  {
    match s
    case Return(x) => {x}
    case Let(_, _, rest) => Returns(rest)
    case Switch(_, bs, d) => (set b, x | b in bs && x in Returns(b.1) :: x) + Returns(d)
    case _ => {}
  }

  /** The expressions a statement binds. */
  function Exprs(s: Stmt): set<Expr>
    decreases s
  {
    match s
    case Let(_, e, rest) => {e} + Exprs(rest)
    case Switch(_, bs, d) => (set b, e | b in bs && e in Exprs(b.1) :: e) + Exprs(d)
    case _ => {}
  }

  /** The call passes `x` for a parameter its callee owns. */
  ghost predicate PassesOwned(sigs: Sigs, e: Expr, x: Symbol) {
    e.Call? && e.name in sigs
    && exists i :: 0 <= i < |e.args| && i < |sigs[e.name]| && e.args[i] == x && sigs[e.name][i] == Owned
  }

  /** What must be owned: what may be returned, and what is passed on as owned. */
  ghost predicate Demanded(sigs: Sigs, s: Stmt, x: Symbol) {
    x in Returns(s) || exists e :: e in Exprs(s) && PassesOwned(sigs, e, x)
  }

  lemma {:induction false} OwnedArgs(args: seq<Symbol>, sig: seq<Ownership>, x: Symbol)
    ensures x in SymbolsOf(ArgsOf(args, sig, Owned)) <==>
            exists i :: 0 <= i < |args| && i < |sig| && args[i] == x && sig[i] == Owned
  {
    if args != [] && sig != [] {
      OwnedArgs(args[1..], sig[1..], x);
      ArgsOfCons(args, sig, Owned);
      SymbolsOfCons(args[0], ArgsOf(args[1..], sig[1..], Owned));
      if exists i :: 0 <= i < |args| && i < |sig| && args[i] == x && sig[i] == Owned {
        var i :| 0 <= i < |args| && i < |sig| && args[i] == x && sig[i] == Owned;
        if i > 0 {
          assert args[1..][i - 1] == x && sig[1..][i - 1] == Owned;
        }
      }
      if exists i :: 0 <= i < |args[1..]| && i < |sig[1..]| && args[1..][i] == x && sig[1..][i] == Owned {
        var i :| 0 <= i < |args[1..]| && i < |sig[1..]| && args[1..][i] == x && sig[1..][i] == Owned;
        assert args[i + 1] == x && sig[i + 1] == Owned;
      }
    }
  }

  /** The inspection marks exactly what the return rule and the call rule demand. */
  lemma {:induction false} MarksDemanded(sigs: Sigs, s: Stmt, x: Symbol)
    ensures x in Marked(sigs, s) <==> Demanded(sigs, s, x)
    decreases s
  {
    match s
    case Return(_) =>
    case Let(_, e, rest) =>
      MarksDemanded(sigs, rest, x);
      if e.Call? {
        OwnedArgs(e.args, SigOf(sigs, e.name), x);
      }
      assert x in MarkedByExpr(sigs, e) <==> PassesOwned(sigs, e, x);
      hide MarkedByExpr, PassesOwned;
    case Switch(_, bs, d) =>
      MarksInBranches(sigs, bs, s, x);
      MarksDemanded(sigs, d, x);
      hide Marked, PassesOwned;
    case Inc(_, _, _) =>
    case Dec(_, _) =>
  }

  lemma AllMarksDemanded(sigs: Sigs, s: Stmt)
    ensures forall x :: x in Marked(sigs, s) <==> Demanded(sigs, s, x)
  {
    hide Marked, Demanded;
    forall x {
      MarksDemanded(sigs, s, x);
    }
  }

  lemma CallMarks(sigs: Sigs, e: Expr)
    ensures forall x :: x in MarkedByExpr(sigs, e) <==> PassesOwned(sigs, e, x)
  {
    if e.Call? {
      forall x {
        OwnedArgs(e.args, SigOf(sigs, e.name), x);
      }
    }
    hide ArgsOf, SymbolsOf;
  }

  ghost predicate SomeDemands(sigs: Sigs, bs: seq<(int, Stmt)>, x: Symbol) {
    exists b :: b in bs && Demanded(sigs, b.1, x)
  }

  lemma {:induction false} MarksInBranches(sigs: Sigs, bs: seq<(int, Stmt)>, within: Stmt, x: Symbol)
    requires forall b :: b in bs ==> b.1 < within
    ensures x in MarkedInBranches(sigs, bs, within) <==> SomeDemands(sigs, bs, x)
    decreases within, |bs|
  {
    if bs != [] {
      MarksDemanded(sigs, bs[0].1, x);
      MarksInBranches(sigs, bs[1..], within, x);
      hide Marked, Demanded;
      assert bs == [bs[0]] + bs[1..];
    }
  }

  /** A signature with the parameters in `m` owned. */
  function Mark(args: seq<Symbol>, sig: seq<Ownership>, m: set<Symbol>): (r: seq<Ownership>)
    requires |sig| == |args|
    ensures |r| == |sig|
    ensures forall i :: 0 <= i < |sig| ==> (r[i] == Owned <==> args[i] in m || sig[i] == Owned)
  {
    seq(|sig|, i requires 0 <= i < |sig| => if args[i] in m then Owned else sig[i])
  }

  /** The signatures as the procedures store them. */
  type Words = map<ProcName, Packed>

  /** Every procedure has a word with a flag for each of its parameters. */
  ghost predicate WordsOk(procs: Procs, words: Words) {
    words.Keys == procs.Keys && forall f :: f in procs ==> Holds(words[f], |procs[f].args|)
  }

  /** The sequences the words stand for. */
  function Signatures(procs: Procs, words: Words): Sigs {
    map f | f in words && f in procs :: Flags(words[f], |procs[f].args|)
  }

  /** The state of the inspection of one procedure. */
  class State {
    const args: seq<Symbol>
    var borrowSignature: Packed
    var modified: bool

    ghost predicate Valid()
      reads this
    {
      Holds(borrowSignature, |args|) && DistinctArgs(args)
    }

    ghost function Signature(): (r: seq<Ownership>)
      reads this
      ensures |r| == |args|
    {
      Flags(borrowSignature, |args|)
    }

    constructor (args: seq<Symbol>, word: Packed)
      requires Holds(word, |args|) && DistinctArgs(args)
      ensures Valid() && this.args == args && Signature() == Flags(word, |args|) && !modified
    {
      this.args, borrowSignature, modified := args, word, false;
    }

    /** The first parameter with this name, if there is one, becomes owned. */
    method MarkOwned(s: Symbol)
      requires Valid()
      modifies this
      ensures Valid() && Signature() == Mark(args, old(Signature()), {s})
      ensures forall i :: 0 <= i < |args| ==>
                Signature()[i] == if args[i] == s then Owned else old(Signature())[i]
      ensures modified <==> old(modified) || Signature() != old(Signature())
    {
      hide Bit, Len, Put, Get, Mask, And, Index, Set, Flags, Holds;
      var i := 0;
      while i < |args| && args[i] != s
        invariant i <= |args| && forall j :: 0 <= j < i ==> args[j] != s
      {
        i := i + 1;
      }
      if i < |args| {
        FlagsSet(borrowSignature, |args|, i, Owned);
        var (word, changed) := Set(borrowSignature, Index(i), Owned);
        borrowSignature, modified := word, modified || changed;
      }
    }

    method InspectCall(words: Words, ghost procs: Procs, f: ProcName, arguments: seq<Symbol>)
      requires Valid() && WordsOk(procs, words)
      modifies this
      ensures Valid()
      ensures Signature() == Mark(args, old(Signature()), MarkedByExpr(Signatures(procs, words), Call(f, arguments)))
      ensures forall i :: 0 <= i < |args| ==>
                (Signature()[i] == Owned <==>
                   PassesOwned(Signatures(procs, words), Call(f, arguments), args[i]) || old(Signature())[i] == Owned)
      ensures modified <==> old(modified) || Signature() != old(Signature())
    {
      hide ArgsOf, SymbolsOf, Mark, MarkedByExpr, PassesOwned, Bit, Len, Put, Get, Mask, And, Index, Set, Flags, Holds;
      CallMarks(Signatures(procs, words), Call(f, arguments));
      MarkedByCall(Signatures(procs, words), f, arguments);
      ghost var sig := SigOf(Signatures(procs, words), f);
      MarkNothing(args, Signature());
      if f !in words {
        NoArgsOf(arguments, sig);
        return;
      }
      var word := words[f];
      ghost var n := |procs[f].args|;
      assert Holds(word, n) && sig == Flags(word, n);
      HoldsFew(word, n);
      ghost var done: set<Symbol> := {};
      assert arguments[0..] == arguments && sig[0..] == sig;
      FlagsGet(word, n, 0);
      var i := 0;
      while i < |arguments| && Get(word, Index(i)).Some?
        invariant i <= |arguments| && i <= n && Valid()
        invariant Get(word, Index(i)) == if i < n then Some(sig[i]) else None
        invariant done + SymbolsOf(ArgsOf(arguments[i..], sig[i..], Owned)) ==
                  MarkedByExpr(Signatures(procs, words), Call(f, arguments))
        invariant Signature() == Mark(args, old(Signature()), done)
        invariant modified <==> old(modified) || Signature() != old(Signature())
        decreases n - i
      {
        assert arguments[i..][1..] == arguments[i + 1..] && sig[i..][1..] == sig[i + 1..];
        ArgsOfCons(arguments[i..], sig[i..], Owned);
        if Get(word, Index(i)) == Some(Owned) {
          SymbolsOfCons(arguments[i], ArgsOf(arguments[i + 1..], sig[i + 1..], Owned));
          MarkTwice(args, old(Signature()), done, {arguments[i]});
          MarkOwned(arguments[i]);
          done := done + {arguments[i]};
        }
        i := i + 1;
        FlagsGet(word, n, i);
      }
      NoArgsOf(arguments[i..], sig[i..]);
    }

    method InspectStmt(words: Words, ghost procs: Procs, s: Stmt)
      requires Valid() && WordsOk(procs, words)
      modifies this
      ensures Valid() && Signature() == Mark(args, old(Signature()), Marked(Signatures(procs, words), s))
      ensures forall i :: 0 <= i < |args| ==>
                (Signature()[i] == Owned <==>
                   Demanded(Signatures(procs, words), s, args[i]) || old(Signature())[i] == Owned)
      ensures modified <==> old(modified) || Signature() != old(Signature())
      decreases s
    {
      hide WordsOk, Signatures, Flags, Holds, Mark, Demanded;
      ghost var sigs := Signatures(procs, words);
      AllMarksDemanded(sigs, s);
      match s {
        case Return(x) => MarkOwned(x);
        case Let(_, e, rest) =>
          ghost var sig := Signature();
          MarkTwice(args, sig, MarkedByExpr(sigs, e), Marked(sigs, rest));
          match e {
            case Call(f, arguments) => InspectCall(words, procs, f, arguments);
            case _ => MarkNothing(args, sig);
          }
          InspectStmt(words, procs, rest);
        case Switch(_, branches, default) =>
          ghost var sig := Signature();
          ghost var done: set<Symbol> := {};
          MarkNothing(args, sig);
          var i := 0;
          while i < |branches|
            invariant i <= |branches| && Valid()
            invariant done + MarkedInBranches(sigs, branches[i..], s) == MarkedInBranches(sigs, branches, s)
            invariant Signature() == Mark(args, sig, done)
            invariant modified <==> old(modified) || Signature() != sig
          {
            assert branches[i] in branches;
            assert branches[i..][0] == branches[i] && branches[i..][1..] == branches[i + 1..];
            MarkTwice(args, sig, done, Marked(sigs, branches[i].1));
            InspectStmt(words, procs, branches[i].1);
            done := done + Marked(sigs, branches[i].1);
            i := i + 1;
          }
          MarkTwice(args, sig, done, Marked(sigs, default));
          InspectStmt(words, procs, default);
          assert Signature() == Mark(args, sig, Marked(sigs, s));
        case Inc(_, _, _) => MarkNothing(args, Signature());
        case Dec(_, _) => MarkNothing(args, Signature());
      }
    }
  }

  lemma MarkedByCall(sigs: Sigs, f: ProcName, args: seq<Symbol>)
    ensures MarkedByExpr(sigs, Call(f, args)) == SymbolsOf(ArgsOf(args, SigOf(sigs, f), Owned))
  {
  }

  lemma HoldsFew(word: Packed, n: nat)
    requires Holds(word, n)
    ensures n < 56
  {
  }

  lemma NoArgsOf(args: seq<Symbol>, sig: seq<Ownership>)
    requires args == [] || sig == []
    ensures SymbolsOf(ArgsOf(args, sig, Owned)) == {}
  {
  }

  lemma MarkTwice(args: seq<Symbol>, sig: seq<Ownership>, m: set<Symbol>, n: set<Symbol>)
    requires |sig| == |args|
    ensures Mark(args, Mark(args, sig, m), n) == Mark(args, sig, m + n)
    ensures Mark(args, sig, m) != sig ==> Mark(args, sig, m + n) != sig
  {
    if Mark(args, sig, m) != sig {
      var i :| 0 <= i < |sig| && Mark(args, sig, m)[i] != sig[i];
      assert Mark(args, sig, m + n)[i] != sig[i];
    }
  }

  lemma MarkNothing(args: seq<Symbol>, sig: seq<Ownership>)
    requires |sig| == |args|
    ensures Mark(args, sig, {}) == sig
  {
  }

  // ----- the fixed point -----

  ghost predicate ProcsOk(procs: Procs) {
    forall f :: f in procs ==>
      |procs[f].layouts| == |procs[f].args| && |procs[f].args| < 56 && DistinctArgs(procs[f].args)
  }

  ghost predicate SigsOk(procs: Procs, sigs: Sigs) {
    sigs.Keys == procs.Keys && forall f :: f in procs ==> |sigs[f]| == |procs[f].args|
  }

  function Defaults(procs: Procs): Sigs {
    map f | f in procs :: FromLayout(procs[f].layouts)
  }

  ghost predicate LeSig(a: seq<Ownership>, b: seq<Ownership>) {
    |a| == |b| && forall i :: 0 <= i < |a| && a[i] == Owned ==> b[i] == Owned
  }

  /** `b` owns whatever `a` owns. */
  ghost predicate Le(a: Sigs, b: Sigs) {
    a.Keys == b.Keys && forall f :: f in a ==> LeSig(a[f], b[f])
  }

  /** `f` owns whichever of its parameters the return rule and the call rule demand. */
  ghost predicate ClosedAt(procs: Procs, sigs: Sigs, f: ProcName) {
    f in procs && f in sigs && |sigs[f]| == |procs[f].args|
    && forall i :: 0 <= i < |sigs[f]| && Demanded(sigs, procs[f].body, procs[f].args[i]) ==> sigs[f][i] == Owned
  }

  /** That is, one more inspection of `f` would change nothing. */
  lemma ClosedIsFixed(procs: Procs, sigs: Sigs, f: ProcName)
    requires f in procs && f in sigs && |sigs[f]| == |procs[f].args|
    ensures ClosedAt(procs, sigs, f) <==> Mark(procs[f].args, sigs[f], Marked(sigs, procs[f].body)) == sigs[f]
  {
    hide Marked, Demanded;
    var args, body := procs[f].args, procs[f].body;
    forall i | 0 <= i < |args|
      ensures args[i] in Marked(sigs, body) <==> Demanded(sigs, body, args[i])
    {
      MarksDemanded(sigs, body, args[i]);
    }
  }

  /** At least the layout defaults, and closed under the return and call rules. */
  ghost predicate Admissible(procs: Procs, sigs: Sigs) {
    SigsOk(procs, sigs) && Le(Defaults(procs), sigs) && forall f :: f in procs ==> ClosedAt(procs, sigs, f)
  }

  /** Nothing is owned that does not have to be. */
  ghost predicate BelowAll(procs: Procs, sigs: Sigs) {
    forall t: Sigs :: Admissible(procs, t) ==> Le(sigs, t)
  }

  lemma {:induction false} ArgsOfMono(args: seq<Symbol>, a: seq<Ownership>, b: seq<Ownership>)
    requires LeSig(a, b)
    ensures SymbolsOf(ArgsOf(args, a, Owned)) <= SymbolsOf(ArgsOf(args, b, Owned))
  {
    if args != [] && a != [] {
      ArgsOfMono(args[1..], a[1..], b[1..]);
      ArgsOfCons(args, a, Owned);
      ArgsOfCons(args, b, Owned);
      SymbolsOfCons(args[0], ArgsOf(args[1..], a[1..], Owned));
      SymbolsOfCons(args[0], ArgsOf(args[1..], b[1..], Owned));
    }
  }

  lemma {:induction false} MarkedMono(a: Sigs, b: Sigs, s: Stmt)
    requires Le(a, b)
    ensures Marked(a, s) <= Marked(b, s)
    decreases s
  {
    match s
    case Return(_) =>
    case Let(_, e, rest) =>
      if e.Call? && e.name in a {
        ArgsOfMono(e.args, a[e.name], b[e.name]);
      }
      MarkedMono(a, b, rest);
    case Switch(_, bs, d) =>
      BranchesMono(a, b, bs, s);
      MarkedMono(a, b, d);
    case Inc(_, _, _) =>
    case Dec(_, _) =>
  }

  lemma {:induction false} BranchesMono(a: Sigs, b: Sigs, bs: seq<(int, Stmt)>, within: Stmt)
    requires Le(a, b) && forall x :: x in bs ==> x.1 < within
    ensures MarkedInBranches(a, bs, within) <= MarkedInBranches(b, bs, within)
    decreases within, |bs|
  {
    if bs != [] {
      MarkedMono(a, b, bs[0].1);
      BranchesMono(a, b, bs[1..], within);
    }
  }

  /** The procedures a statement calls. */
  function Callees(s: Stmt): set<ProcName>
    decreases s
  {
    match s
    case Return(_) => {}
    case Let(_, e, rest) => (if e.Call? then {e.name} else {}) + Callees(rest)
    case Switch(_, bs, d) => CalleesInBranches(bs, s) + Callees(d)
    case Inc(_, _, _) => {}
    case Dec(_, _) => {}
  }

  function CalleesInBranches(bs: seq<(int, Stmt)>, ghost within: Stmt): set<ProcName>
    requires forall b :: b in bs ==> b.1 < within
    decreases within, |bs|
  {
    if bs == [] then {} else Callees(bs[0].1) + CalleesInBranches(bs[1..], within)
  }

  lemma {:induction false} MarkedDepends(a: Sigs, b: Sigs, s: Stmt)
    requires forall f :: f in Callees(s) ==> SigOf(a, f) == SigOf(b, f)
    ensures Marked(a, s) == Marked(b, s)
    decreases s
  {
    match s
    case Return(_) =>
    case Let(_, e, rest) => MarkedDepends(a, b, rest);
    case Switch(_, bs, d) =>
      BranchesDepend(a, b, bs, s);
      MarkedDepends(a, b, d);
    case Inc(_, _, _) =>
    case Dec(_, _) =>
  }

  lemma {:induction false} BranchesDepend(a: Sigs, b: Sigs, bs: seq<(int, Stmt)>, within: Stmt)
    requires forall x :: x in bs ==> x.1 < within
    requires forall f :: f in CalleesInBranches(bs, within) ==> SigOf(a, f) == SigOf(b, f)
    ensures MarkedInBranches(a, bs, within) == MarkedInBranches(b, bs, within)
    decreases within, |bs|
  {
    if bs != [] {
      MarkedDepends(a, b, bs[0].1);
      BranchesDepend(a, b, bs[1..], within);
    }
  }

  /** Marking what the rules demand keeps the signatures below every admissible choice. */
  lemma StepStaysBelow(procs: Procs, sigs: Sigs, f: ProcName, t: Sigs)
    requires f in procs && SigsOk(procs, sigs) && Le(sigs, t) && Admissible(procs, t)
    ensures Le(sigs[f := Mark(procs[f].args, sigs[f], Marked(sigs, procs[f].body))], t)
  {
    hide Marked, Demanded, Mark;
    var body := procs[f].body;
    MarkedMono(sigs, t, body);
    AllMarksDemanded(t, body);
    var sig := Mark(procs[f].args, sigs[f], Marked(sigs, body));
    assert ClosedAt(procs, t, f);
    assert LeSig(sigs[f], t[f]);
    forall i | 0 <= i < |sig| && sig[i] == Owned ensures t[f][i] == Owned {
      if procs[f].args[i] in Marked(sigs, body) {
        assert Demanded(t, body, procs[f].args[i]);
      }
    }
    assert LeSig(sig, t[f]);
  }

  lemma StepKeepsLeast(procs: Procs, sigs: Sigs, f: ProcName)
    requires f in procs && SigsOk(procs, sigs) && BelowAll(procs, sigs) && Le(Defaults(procs), sigs)
    ensures var sigs' := sigs[f := Mark(procs[f].args, sigs[f], Marked(sigs, procs[f].body))];
            SigsOk(procs, sigs') && BelowAll(procs, sigs') && Le(Defaults(procs), sigs')
  {
    var sig := Mark(procs[f].args, sigs[f], Marked(sigs, procs[f].body));
    hide Marked, Admissible, Defaults;
    forall t: Sigs | Admissible(procs, t) ensures Le(sigs[f := sig], t) {
      StepStaysBelow(procs, sigs, f, t);
    }
    assert LeSig(Defaults(procs)[f], sigs[f]);
    assert LeSig(Defaults(procs)[f], sig);
  }

  /** The number of borrowed flags, which every pass that changes something lowers. */
  function BorrowedIn(sig: seq<Ownership>): nat {
    if sig == [] then 0 else (if sig[0] == Borrowed then 1 else 0) + BorrowedIn(sig[1..])
  }

  function BorrowedInAll(group: seq<ProcName>, sigs: Sigs): nat {
    if group == [] then 0 else BorrowedIn(SigOf(sigs, group[0])) + BorrowedInAll(group[1..], sigs)
  }

  lemma {:induction false} MarkLowers(args: seq<Symbol>, sig: seq<Ownership>, m: set<Symbol>)
    requires |sig| == |args|
    ensures BorrowedIn(Mark(args, sig, m)) <= BorrowedIn(sig)
    ensures Mark(args, sig, m) != sig ==> BorrowedIn(Mark(args, sig, m)) < BorrowedIn(sig)
  {
    if sig != [] {
      MarkLowers(args[1..], sig[1..], m);
      assert Mark(args, sig, m)[1..] == Mark(args[1..], sig[1..], m);
      if Mark(args, sig, m)[1..] == sig[1..] && Mark(args, sig, m)[0] == sig[0] {
        assert Mark(args, sig, m) == sig by {
          assert Mark(args, sig, m) == [sig[0]] + sig[1..] && sig == [sig[0]] + sig[1..];
        }
      }
    }
  }

  lemma {:induction false} UpdateLowers(group: seq<ProcName>, sigs: Sigs, f: ProcName, sig: seq<Ownership>)
    requires f in sigs && BorrowedIn(sig) <= BorrowedIn(sigs[f])
    ensures BorrowedInAll(group, sigs[f := sig]) <= BorrowedInAll(group, sigs)
    ensures f in group && BorrowedIn(sig) < BorrowedIn(sigs[f]) ==>
              BorrowedInAll(group, sigs[f := sig]) < BorrowedInAll(group, sigs)
  {
    hide BorrowedIn;
    if group != [] {
      UpdateLowers(group[1..], sigs, f, sig);
    }
  }

  ghost predicate Earlier(groups: seq<seq<ProcName>>, i: nat, f: ProcName) {
    exists j :: 0 <= j < i && j < |groups| && f in groups[j]
  }

  /** The groups are what a component computation over the call graph gives: every procedure
      is in one of them, in only one, and calls only its own and earlier groups. */
  ghost predicate DependencyOrder(procs: Procs, groups: seq<seq<ProcName>>) {
    && (forall i, f :: 0 <= i < |groups| && f in groups[i] ==> f in procs)
    && (forall f :: f in procs ==> Earlier(groups, |groups|, f))
    && (forall i, j, f :: 0 <= i < |groups| && 0 <= j < |groups| && f in groups[i] && f in groups[j] ==> i == j)
    && (forall i, f, g ::
          0 <= i < |groups| && f in groups[i] && g in procs && g in Callees(procs[f].body) ==>
            Earlier(groups, i + 1, g))
  }

  ghost predicate Invariant(procs: Procs, sigs: Sigs) {
    SigsOk(procs, sigs) && BelowAll(procs, sigs) && Le(Defaults(procs), sigs)
  }

  lemma StepKeepsInvariant(procs: Procs, sigs: Sigs, f: ProcName)
    requires f in procs && Invariant(procs, sigs)
    ensures Invariant(procs, sigs[f := Mark(procs[f].args, sigs[f], Marked(sigs, procs[f].body))])
  {
    StepKeepsLeast(procs, sigs, f);
  }

  /** Inspecting a procedure of a group closes it or lowers what is borrowed in the group. */
  lemma StepIn(procs: Procs, group: seq<ProcName>, sigs: Sigs, f: ProcName)
    requires f in group && f in procs && Invariant(procs, sigs)
    ensures f in sigs && |sigs[f]| == |procs[f].args|
    ensures var sigs' := sigs[f := Mark(procs[f].args, sigs[f], Marked(sigs, procs[f].body))];
            && Invariant(procs, sigs')
            && (sigs'[f] != sigs[f] ==> BorrowedInAll(group, sigs') < BorrowedInAll(group, sigs))
            && (sigs'[f] == sigs[f] ==> sigs' == sigs && ClosedAt(procs, sigs, f))
  {
    hide Marked, Demanded, ClosedAt, BelowAll, Defaults, BorrowedInAll, BorrowedIn, Mark;
    var sig := Mark(procs[f].args, sigs[f], Marked(sigs, procs[f].body));
    MarkLowers(procs[f].args, sigs[f], Marked(sigs, procs[f].body));
    UpdateLowers(group, sigs, f, sig);
    StepKeepsInvariant(procs, sigs, f);
    if sig == sigs[f] {
      assert sigs[f := sig] == sigs;
      ClosedIsFixed(procs, sigs, f);
    }
  }

  /** One pass over a group; repeated until it changes nothing. */
  method Pass(procs: Procs, group: seq<ProcName>, words0: Words) returns (words: Words, modified: bool)
    requires ProcsOk(procs) && WordsOk(procs, words0) && Invariant(procs, Signatures(procs, words0))
    requires forall f :: f in group ==> f in procs
    ensures WordsOk(procs, words) && Invariant(procs, Signatures(procs, words))
    ensures var sigs0, sigs := Signatures(procs, words0), Signatures(procs, words);
            && (forall f :: f in sigs0 && f !in group ==> f in sigs && sigs[f] == sigs0[f])
            && (!modified ==> sigs == sigs0 && forall f :: f in group ==> ClosedAt(procs, sigs, f))
            && (modified ==> BorrowedInAll(group, sigs) < BorrowedInAll(group, sigs0))
  {
    hide Marked, Invariant, ClosedAt, BorrowedInAll, BorrowedIn, Mark, Flags, Holds, WordsOk, Signatures;
    words, modified := words0, false;
    ghost var sigs0 := Signatures(procs, words0);
    ghost var sigs := sigs0;
    var k := 0;
    while k < |group|
      invariant k <= |group| && WordsOk(procs, words) && sigs == Signatures(procs, words) && Invariant(procs, sigs)
      invariant forall f :: f in sigs0 && f !in group ==> f in sigs && sigs[f] == sigs0[f]
      invariant !modified ==> sigs == sigs0 && forall j :: 0 <= j < k ==> ClosedAt(procs, sigs, group[j])
      invariant modified ==> BorrowedInAll(group, sigs) < BorrowedInAll(group, sigs0)
    {
      var f := group[k];
      assert f in procs;
      WordAt(procs, words, f);
      if procs[f].args != [] {
        var state := new State(procs[f].args, words[f]);
        state.InspectStmt(words, procs, procs[f].body);
        StepIn(procs, group, sigs, f);
        WordSet(procs, words, f, state.borrowSignature);
        modified := modified || state.modified;
        words, sigs := words[f := state.borrowSignature], sigs[f := state.Signature()];
      } else {
        NoArgsClosed(procs, sigs, f);
      }
      k := k + 1;
    }
  }

  lemma WordAt(procs: Procs, words: Words, f: ProcName)
    requires WordsOk(procs, words) && f in procs
    ensures f in words && Holds(words[f], |procs[f].args|)
    ensures f in Signatures(procs, words) && Signatures(procs, words)[f] == Flags(words[f], |procs[f].args|)
  {
    hide Flags, Holds;
  }

  lemma WordSet(procs: Procs, words: Words, f: ProcName, word: Packed)
    requires WordsOk(procs, words) && f in procs && Holds(word, |procs[f].args|)
    ensures WordsOk(procs, words[f := word])
    ensures Signatures(procs, words[f := word]) == Signatures(procs, words)[f := Flags(word, |procs[f].args|)]
  {
    hide Flags, Holds;
  }

  lemma NoArgsClosed(procs: Procs, sigs: Sigs, f: ProcName)
    requires Invariant(procs, sigs) && f in procs && procs[f].args == []
    ensures ClosedAt(procs, sigs, f)
  {
    hide Marked;
  }

  /** Groups already processed stay closed while a later one changes. */
  lemma EarlierStayClosed(procs: Procs, groups: seq<seq<ProcName>>, i: nat, a: Sigs, b: Sigs, f: ProcName)
    requires DependencyOrder(procs, groups) && i < |groups| && Earlier(groups, i, f)
    requires SigsOk(procs, a) && SigsOk(procs, b) && ClosedAt(procs, a, f)
    requires forall g :: g in a && g !in groups[i] ==> g in b && b[g] == a[g]
    ensures ClosedAt(procs, b, f)
  {
    hide Marked, Callees, Demanded;
    ClosedIsFixed(procs, a, f);
    var j :| 0 <= j < i && f in groups[j];
    forall g | g in Callees(procs[f].body) ensures SigOf(a, g) == SigOf(b, g) {
      if g in procs {
        assert Earlier(groups, j + 1, g);
        var k :| 0 <= k < j + 1 && k < |groups| && g in groups[k];
        assert g !in groups[i];
      }
    }
    MarkedDepends(a, b, procs[f].body);
    assert f !in groups[i];
    ClosedIsFixed(procs, b, f);
  }

  /** The words with the defaults of all procedures. */
  method DefaultWords(procs: Procs) returns (words: Words)
    requires ProcsOk(procs)
    ensures WordsOk(procs, words) && Signatures(procs, words) == Defaults(procs)
  {
    hide Flags, Holds, FromLayout;
    words := map[];
    var left := procs.Keys;
    while left != {}
      invariant left <= procs.Keys && words.Keys == procs.Keys - left
      invariant forall f :: f in words ==>
                  Holds(words[f], |procs[f].args|) && Flags(words[f], |procs[f].args|) == FromLayout(procs[f].layouts)
      decreases left
    {
      var f :| f in left;
      var word := FromLayouts(procs[f].layouts);
      words, left := words[f := word], left - {f};
    }
  }

  /** Signatures for all procedures: the least ones that own what the layouts, the return rule
      and the call rule demand. */
  method InferBorrowSignatures(procs: Procs, groups: seq<seq<ProcName>>) returns (words: Words)
    requires ProcsOk(procs) && DependencyOrder(procs, groups)
    ensures WordsOk(procs, words)
    ensures Admissible(procs, Signatures(procs, words)) && BelowAll(procs, Signatures(procs, words))
  {
    hide BelowAll, BorrowedInAll, ClosedAt, Flags, Holds, WordsOk, Signatures;
    words := DefaultWords(procs);
    DefaultsOk(procs);
    ghost var sigs := Signatures(procs, words);
    var i := 0;
    while i < |groups|
      invariant i <= |groups| && WordsOk(procs, words) && sigs == Signatures(procs, words) && Invariant(procs, sigs)
      invariant forall f :: Earlier(groups, i, f) ==> ClosedAt(procs, sigs, f)
    {
      ghost var before := sigs;
      var modified := true;
      while modified
        invariant WordsOk(procs, words) && sigs == Signatures(procs, words) && Invariant(procs, sigs)
        invariant forall f :: f in before && f !in groups[i] ==> f in sigs && sigs[f] == before[f]
        invariant !modified ==> forall f :: f in groups[i] ==> ClosedAt(procs, sigs, f)
        decreases modified, BorrowedInAll(groups[i], sigs)
      {
        words, modified := Pass(procs, groups[i], words);
        sigs := Signatures(procs, words);
      }
      forall f | Earlier(groups, i + 1, f) ensures ClosedAt(procs, sigs, f) {
        var j :| 0 <= j < i + 1 && j < |groups| && f in groups[j];
        if j < i {
          assert Earlier(groups, i, f);
          EarlierStayClosed(procs, groups, i, before, sigs, f);
        }
      }
      i := i + 1;
    }
  }

  lemma DefaultsOk(procs: Procs)
    requires ProcsOk(procs)
    ensures Invariant(procs, Defaults(procs))
  {
    hide Marked;
  }

  // ----- what the signatures are for -----

  lemma {:induction false} ReturnsAreMarked(sigs: Sigs, s: Stmt, lent: set<Symbol>)
    requires Marked(sigs, s) !! lent
    requires NoRc(s)
    ensures NoReturnOf(s, lent)
    decreases s
  {
    match s
    case Return(_) =>
    case Let(_, _, rest) => ReturnsAreMarked(sigs, rest, lent);
    case Switch(_, bs, d) =>
      ReturnsInBranches(sigs, bs, lent, s);
      ReturnsAreMarked(sigs, d, lent);
  }

  /** No reference counting has been inserted yet. */
  ghost predicate NoRc(s: Stmt)
    decreases s
  {
    match s
    case Return(_) => true
    case Let(_, _, rest) => NoRc(rest)
    case Switch(_, bs, d) => NoRcInBranches(bs, s) && NoRc(d)
    case Inc(_, _, _) => false
    case Dec(_, _) => false
  }

  ghost predicate NoRcInBranches(bs: seq<(int, Stmt)>, within: Stmt)
    decreases within, |bs|
  {
    bs == [] || (bs[0].1 < within && NoRc(bs[0].1) && NoRcInBranches(bs[1..], within))
  }

  lemma {:induction false} ReturnsInBranches(sigs: Sigs, bs: seq<(int, Stmt)>, lent: set<Symbol>, within: Stmt)
    requires forall b :: b in bs ==> b.1 < within
    requires MarkedInBranches(sigs, bs, within) !! lent && NoRcInBranches(bs, within)
    ensures NoReturnInBranches(bs, lent, within)
    decreases within, |bs|
  {
    if bs != [] {
      ReturnsAreMarked(sigs, bs[0].1, lent);
      ReturnsInBranches(sigs, bs[1..], lent, within);
    }
  }

  lemma {:induction false} WfHasNoRc(s: Stmt, scope: set<Symbol>)
    requires WfStmt(s, scope)
    ensures NoRc(s)
    decreases s
  {
    match s
    case Return(_) =>
    case Let(x, _, rest) => WfHasNoRc(rest, scope + {x});
    case Switch(_, bs, d) =>
      WfBranchesHaveNoRc(bs, scope, s);
      WfHasNoRc(d, scope);
  }

  lemma {:induction false} WfBranchesHaveNoRc(bs: seq<(int, Stmt)>, scope: set<Symbol>, within: Stmt)
    requires WfBranches(bs, scope, within)
    ensures NoRcInBranches(bs, within)
    decreases within, |bs|
  {
    if bs != [] {
      WfHasNoRc(bs[0].1, scope);
      WfBranchesHaveNoRc(bs[1..], scope, within);
    }
  }

  /** Admissible signatures, the inferred ones among them, are what the insertion pass relies on. */
  lemma AdmissibleIsProgramOk(procs: Procs, sigs: Sigs)
    requires ProcsOk(procs) && Admissible(procs, sigs)
    requires forall f :: f in procs ==> WfStmt(procs[f].body, ArgSet(procs[f].args))
    ensures ProgramOk(sigs, procs)
  {
    hide Marked, WfStmt, NoReturnOf;
    forall f | f in procs ensures ProcOk(sigs, f, procs[f]) {
      var p := procs[f];
      var lent := LentParams(p.args, sigs[f]);
      WfHasNoRc(p.body, ArgSet(p.args));
      assert ClosedAt(procs, sigs, f);
      AllMarksDemanded(sigs, p.body);
      hide Demanded;
      assert Marked(sigs, p.body) !! lent;
      ReturnsAreMarked(sigs, p.body, lent);
    }
  }
}
