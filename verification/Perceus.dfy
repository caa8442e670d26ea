/** The whole pass: components of the call graph, borrow signatures, then the insertion of
    increments and decrements. */
module Perceus {
  import opened Graphs
  import opened RcHeap
  import opened RcIr
  import opened IncDec
  import opened IncDecProof
  import opened Borrow
  import Tarjan

  /** Which procedures each one calls by name. */
  function CallGraph(procs: Procs): Graph<ProcName> {
    map f | f in procs :: InOrder(Callees(procs[f].body) * procs.Keys)
  }

  lemma CallsSucc(procs: Procs, f: ProcName, g: ProcName)
    requires f in procs
    ensures Edge(CallGraph(procs), f, g) <==> g in procs && g in Callees(procs[f].body)
  {
    hide Callees, InOrder;
  }

  lemma CallsClosed(procs: Procs)
    ensures Closed(CallGraph(procs), Tarjan.Elements(InOrder(procs.Keys)))
  {
    hide Callees, InOrder, CallGraph;
    forall f, g | f in procs && Edge(CallGraph(procs), f, g)
      ensures g in procs
    {
      CallsSucc(procs, f, g);
    }
  }

  /** The components of the call graph, as they are emitted, are in dependency order. */
  lemma ComponentsInOrder(procs: Procs, out: seq<seq<ProcName>>)
    requires Tarjan.OutOk(CallGraph(procs), out) && Tarjan.Done(out) == procs.Keys
    ensures DependencyOrder(procs, out)
  {
    hide CallGraph, Callees, Succ, Tarjan.IsScc;
    var n := |out|;
    assert forall i, f :: 0 <= i < n && f in out[i] ==> f in Tarjan.Done(out);
    forall f | f in procs
      ensures Earlier(out, n, f)
    {
      assert f in Tarjan.Done(out);
      EmittedAt(out, n, f);
    }
    forall i, j, f | 0 <= i < n && 0 <= j < n && f in out[i] && f in out[j]
      ensures i == j
    {
      Tarjan.OnlyOneComponent(out, i, j, f);
    }
    forall i, f, g | 0 <= i < n && f in out[i] && g in procs && g in Callees(procs[f].body)
      ensures Earlier(out, i + 1, g)
    {
      CallsSucc(procs, f, g);
      assert g in Tarjan.Done(out[..i + 1]);
      EmittedAt(out, i + 1, g);
    }
  }

  lemma EmittedAt(out: seq<seq<ProcName>>, i: nat, f: ProcName)
    requires i <= |out| && f in Tarjan.Done(out[..i])
    ensures Earlier(out, i, f)
  {
    var c :| c in out[..i] && f in c;
    var j :| 0 <= j < i && out[..i][j] == c;
    assert out[j] == c;
  }

  /** Run with the counts inserted, the procedure gives the same value, or gets stuck or runs out
      of fuel alike; all counts are exact then, and nothing is left once the value is dropped. */
  ghost predicate Preserved(fuel: nat, procs: Procs, counted: Procs, f: ProcName) {
    f in procs && f in counted &&
    var q := HEval(fuel, counted, procs[f].counted, map[], [], counted[f].body);
    match Eval(fuel, procs, procs[f].counted, map[], procs[f].body)
    case Done(t) =>
      && q.HDone? && Rep(q.h, q.v, t) && Inv(q.h, Tok(q.v))
      && Decrement(q.h, q.v).Some?
      && forall l :: 0 <= l < |Decrement(q.h, q.v).value| ==> Decrement(q.h, q.v).value[l].Freed?
    case Stuck => q == HStuck
    case Timeout => q == HTimeout
  }

  lemma AdmissiblePreserves(fuel: nat, procs: Procs, sigs: Sigs, f: ProcName)
    requires ProcsOk(procs) && Admissible(procs, sigs)
    requires forall g :: g in procs ==> WfStmt(procs[g].body, ArgSet(procs[g].args))
    requires f in procs && procs[f].args == []
    ensures Preserved(fuel, procs, InsertAll(sigs, procs), f)
  {
    hide ProcsOk, Admissible, WfStmt, ProgramOk, Eval, HEval, Rep, Inv, Decrement, InsertAll;
    AdmissibleIsProgramOk(procs, sigs);
    InsertionCorrect(fuel, sigs, procs, f);
    if Eval(fuel, procs, procs[f].counted, map[], procs[f].body).Done? {
      NothingLeaks(fuel, sigs, procs, f);
    }
  }

  /** No condition is left but that the program is well formed. */
  method InsertIncDecOperations(procs: Procs) returns (counted: Procs)
    requires ProcsOk(procs)
    requires forall f :: f in procs ==> WfStmt(procs[f].body, ArgSet(procs[f].args))
    ensures counted.Keys == procs.Keys
    ensures forall fuel: nat, f :: f in procs && procs[f].args == [] ==> Preserved(fuel, procs, counted, f)
  {
    hide ProcsOk, WfStmt, Preserved, BelowAll, Admissible, CallGraph, DependencyOrder, Tarjan.OutOk, Closed;
    var finder := new Tarjan.Finder(CallGraph(procs));
    CallsClosed(procs);
    finder.Run(InOrder(procs.Keys));
    ComponentsInOrder(procs, finder.out);
    var words := InferBorrowSignatures(procs, finder.out);
    counted := InsertAll(Signatures(procs, words), procs);
    forall fuel: nat, f | f in procs && procs[f].args == []
      ensures Preserved(fuel, procs, counted, f)
    {
      AdmissiblePreserves(fuel, procs, Signatures(procs, words), f);
    }
  }
}
