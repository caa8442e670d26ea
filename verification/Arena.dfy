/** The pointer-chase arena of the L3 co-runner: records chained in a shuffled order. */
module Arena {

  /** Each record is in the order, at the place `at` gives. */
  ghost predicate Arranges(perm: seq<nat>, at: seq<nat>) {
    && |at| == |perm|
    && (forall i :: 0 <= i < |perm| ==> perm[i] < |perm| && at[perm[i]] == i)
    && (forall x :: 0 <= x < |at| ==> at[x] < |perm| && perm[at[x]] == x)
  }

  /** The random choices: for each place i from the last down to 1, a place before it. */
  ghost predicate Chosen(n: nat, choices: seq<nat>) {
    |choices| == n && forall i :: 0 < i < n ==> choices[i] < i
  }

  /** For each place from `i` down to 1, what is there changes places with what is in the place
      chosen. */
  function Shuffled(perm: seq<nat>, choices: seq<nat>, i: nat): (r: seq<nat>)
    ensures |r| == |perm|
    decreases i
  {
    if i == 0 || i >= |perm| || i >= |choices| || choices[i] >= i then perm
    else Shuffled(perm[i := perm[choices[i]]][choices[i] := perm[i]], choices, i - 1)
  }

  /** A place that was passed keeps what it then got. */
  lemma {:induction false} PassedStays(perm: seq<nat>, choices: seq<nat>, i: nat, j: nat)
    requires i < j < |perm|
    ensures Shuffled(perm, choices, i)[j] == perm[j]
    decreases i
  {
    if !(i == 0 || i >= |choices| || choices[i] >= i) {
      PassedStays(perm[i := perm[choices[i]]][choices[i] := perm[i]], choices, i - 1, j);
    }
  }

  /** No two sequences of choices give the same order. */
  lemma {:induction false} ChoicesTellApart(perm: seq<nat>, choices: seq<nat>, others: seq<nat>, i: nat, j: nat)
    requires Chosen(|perm|, choices) && Chosen(|perm|, others) && j <= i < |perm|
    requires forall x, y :: 0 <= x < y < |perm| ==> perm[x] != perm[y]
    requires j > 0 && choices[j] != others[j]
    ensures Shuffled(perm, choices, i) != Shuffled(perm, others, i)
    decreases i
  {
    var p := perm[i := perm[choices[i]]][choices[i] := perm[i]];
    var q := perm[i := perm[others[i]]][others[i] := perm[i]];
    PassedStays(p, choices, i - 1, i);
    PassedStays(q, others, i - 1, i);
    if choices[i] == others[i] {
      ChoicesTellApart(p, choices, others, i - 1, j);
    }
  }

  method Shuffle(n: nat, choices: seq<nat>) returns (perm: array<nat>, ghost at: seq<nat>)
    requires n >= 1 && Chosen(n, choices)
    ensures fresh(perm) && perm.Length == n && Arranges(perm[..], at)
    ensures perm[..] == Shuffled(seq(n, i => i), choices, n - 1)
  {
    perm := new nat[n](i => i);
    at := seq(n, i => i);
    assert perm[..] == seq(n, i => i);
    var i := n - 1;
    while i > 0
      invariant 0 <= i < n
      invariant perm.Length == n && Arranges(perm[..], at)
      invariant Shuffled(perm[..], choices, i) == Shuffled(seq(n, i => i), choices, n - 1)
    {
      var d := choices[i];
      ghost var x, y := perm[i], perm[d];
      Swapped(perm[..], at, i, d);
      ghost var was := perm[..];
      perm[i], perm[d] := perm[d], perm[i];
      assert perm[..] == was[i := was[d]][d := was[i]];
      at := at[x := d][y := i];
      i := i - 1;
    }
  }

  lemma Swapped(perm: seq<nat>, at: seq<nat>, i: nat, d: nat)
    requires Arranges(perm, at) && i < |perm| && d < |perm| && i != d
    ensures perm[i] < |at| && perm[d] < |at|
    ensures Arranges(perm[i := perm[d]][d := perm[i]], at[perm[i] := d][perm[d] := i])
  {
  }

  /** Each record's next is the record in the following place, the last one's the first. */
  ghost predicate Chained(perm: seq<nat>, next: seq<nat>) {
    && |next| == |perm|
    && forall i :: 0 <= i < |perm| ==> perm[i] < |next| && next[perm[i]] == perm[Following(i, |perm|)]
  }

  /** Chains the records in the order of `perm`, and numbers them. */
  method Link(perm: array<nat>, ghost at: seq<nat>) returns (next: array<nat>, payload: array<nat>)
    requires perm.Length >= 1 && Arranges(perm[..], at)
    ensures Chained(perm[..], next[..]) && payload[..] == at
  {
    var n := perm.Length;
    next, payload := new nat[n], new nat[n];
    ghost var order := perm[..];
    for i := 0 to n
      invariant fresh(next) && fresh(payload)
      invariant perm[..] == order
      invariant forall j :: 0 <= j < i ==> next[order[j]] == order[Following(j, n)] && payload[order[j]] == j
    {
      FollowingIs(i, n);
      assert forall j :: 0 <= j < i ==> at[order[j]] != at[order[i]];
      next[perm[i]] := perm[(i + 1) % n];
      payload[perm[i]] := i;
    }
    forall x | 0 <= x < n
      ensures payload[x] == at[x]
    {
      assert order[at[x]] == x;
    }
  }

  /** Builds the arena: whatever the choices, following `next` is one cycle through all the
      records, and each record's payload is its place in it. */
  method Build(n: nat, choices: seq<nat>) returns (next: array<nat>, payload: array<nat>)
    requires n >= 1 && Chosen(n, choices)
    ensures next.Length == n && payload.Length == n
    ensures OneCycle(next[..]) && InPlace(next[..], payload[..])
  {
    var perm, at := Shuffle(n, choices);
    next, payload := Link(perm, at);
    ChainIsCycle(perm[..], at, next[..]);
    ChainInPlace(perm[..], at, next[..]);
  }

  /** The places of the records are all different, and a record's next is in the place after. */
  ghost predicate InPlace(next: seq<nat>, payload: seq<nat>) {
    && |payload| == |next|
    && (forall x :: 0 <= x < |next| ==> next[x] < |next| && payload[next[x]] == Following(payload[x], |next|))
    && (forall x, y :: 0 <= x < y < |next| ==> payload[x] != payload[y])
  }

  lemma ChainInPlace(perm: seq<nat>, at: seq<nat>, next: seq<nat>)
    requires Arranges(perm, at) && Chained(perm, next)
    ensures InPlace(next, at)
  {
    forall x | 0 <= x < |next|
      ensures next[x] < |next| && at[next[x]] == Following(at[x], |next|) && perm[at[x]] == x
    {
      assert perm[at[x]] == x;
      assert next[perm[at[x]]] == perm[Following(at[x], |perm|)];
    }
  }

  function Following(i: nat, n: nat): nat {
    if i + 1 < n then i + 1 else 0
  }

  lemma FollowingIs(i: nat, n: nat)
    requires i < n
    ensures (i + 1) % n == Following(i, n)
  {
  }

  function Follow(next: seq<nat>, x: nat, k: nat): nat {
    if k == 0 then x
    else
      var y := Follow(next, x, k - 1);
      if y < |next| then next[y] else y
  }

  ghost predicate Visits(next: seq<nat>, start: nat, x: nat) {
    exists k :: 0 <= k < |next| && Follow(next, start, k) == x
  }

  /** From `start`, following `next` |next| times visits each record exactly once and comes
      back. */
  ghost predicate CycleFrom(next: seq<nat>, start: nat) {
    && (forall x :: 0 <= x < |next| ==> Visits(next, start, x))
    && (forall j, k :: 0 <= j < k < |next| ==> Follow(next, start, j) != Follow(next, start, k))
    && Follow(next, start, |next|) == start
  }

  ghost predicate OneCycle(next: seq<nat>) {
    forall start :: 0 <= start < |next| ==> CycleFrom(next, start)
  }

  /** After k steps from the record in place i, one is in place i + k, around the end. */
  lemma {:induction false} FollowPlace(perm: seq<nat>, next: seq<nat>, i: nat, k: nat)
    requires Chained(perm, next) && i < |perm| && k <= |perm|
    ensures Follow(next, perm[i], k) == perm[if i + k < |perm| then i + k else i + k - |perm|]
  {
    if k > 0 {
      FollowPlace(perm, next, i, k - 1);
    }
  }

  lemma ChainVisits(perm: seq<nat>, at: seq<nat>, next: seq<nat>, start: nat, x: nat)
    requires Arranges(perm, at) && Chained(perm, next) && start < |perm| && x < |perm|
    ensures Visits(next, start, x)
  {
    hide Follow;
    var n, i := |perm|, at[start];
    var k := if at[x] >= i then at[x] - i else at[x] + n - i;
    FollowPlace(perm, next, i, k);
    assert perm[at[x]] == x;
    assert Follow(next, start, k) == x;
  }

  lemma ChainApart(perm: seq<nat>, at: seq<nat>, next: seq<nat>, start: nat, j: nat, k: nat)
    requires Arranges(perm, at) && Chained(perm, next) && start < |perm| && j < k < |perm|
    ensures Follow(next, start, j) != Follow(next, start, k)
  {
    hide Follow;
    var n, i := |perm|, at[start];
    FollowPlace(perm, next, i, j);
    FollowPlace(perm, next, i, k);
    var p, q := if i + j < n then i + j else i + j - n, if i + k < n then i + k else i + k - n;
    assert p != q && at[perm[p]] == p && at[perm[q]] == q;
  }

  lemma ChainIsCycle(perm: seq<nat>, at: seq<nat>, next: seq<nat>)
    requires Arranges(perm, at) && Chained(perm, next)
    ensures OneCycle(next)
  {
    hide Follow, Visits, Arranges;
    forall start | 0 <= start < |next|
      ensures CycleFrom(next, start)
    {
      forall x | 0 <= x < |next|
        ensures Visits(next, start, x)
      {
        ChainVisits(perm, at, next, start, x);
      }
      forall j, k | 0 <= j < k < |next|
        ensures Follow(next, start, j) != Follow(next, start, k)
      {
        ChainApart(perm, at, next, start, j, k);
      }
      ChainReturns(perm, at, next, start);
    }
  }

  lemma ChainReturns(perm: seq<nat>, at: seq<nat>, next: seq<nat>, start: nat)
    requires Arranges(perm, at) && Chained(perm, next) && start < |perm|
    ensures Follow(next, start, |next|) == start
  {
    hide Follow;
    FollowPlace(perm, next, at[start], |perm|);
  }
}
