/** The persistent array of the Elm core library: a 32-way radix trie of full leaves
    and a tail of fewer than 32 elements. */
module RadixArray {
  import opened Options
  import opened Powers

  datatype Node<T> = SubTree(sub: seq<Node<T>>) | Leaf(values: seq<T>)
  datatype Array<T> = Array(len: nat, startShift: nat, tree: seq<Node<T>>, tail: seq<T>)

  const BRANCH: nat := 32
  const SHIFT_STEP: nat := 5
  /** The largest `Int` the language defines arithmetic on. */
  const MAX_INT: nat := 0x7FFF_FFFF

  function Pow32(n: nat): (r: nat)
    ensures r > 0
  {
    if n == 0 then 1 else 32 * Pow32(n - 1)
  }

  // ----- 32-bit operators -----

  /** `x >>> s`: unsigned, the shift count taken modulo 32. */
  function Shr(x: nat, s: int): nat {
    hide Pow2;
    Quot(x % 0x1_0000_0000, Pow2(s % 32))
  }

  function Quot(x: nat, p: nat): nat
    requires p > 0
  {
    x / p
  }

  /** `x << s`: the result is a signed 32-bit number. */
  function Shl(x: nat, s: nat): int {
    var u := (x * Pow2(s % 32)) % 0x1_0000_0000;
    if u < 0x8000_0000 then u else u - 0x1_0000_0000
  }

  /** `bitMask & x`: the low five bits. */
  function Low5(x: nat): nat {
    x % 32
  }

  // ----- kernel arrays -----

  function InitializeFromList<T>(max: nat, list: seq<T>): (seq<T>, seq<T>) {
    var i := if max < |list| then max else |list|;
    (list[..i], list[i..])
  }

  function Initialize<T>(size: nat, offset: nat, fn: nat -> T): seq<T> {
    seq(size, i requires 0 <= i => fn(offset + i))
  }

  function AppendN<T>(n: nat, dest: seq<T>, source: seq<T>): seq<T>
    requires |dest| <= n
  {
    var itemsToCopy := if n - |dest| > |source| then |source| else n - |dest|;
    dest + source[..itemsToCopy]
  }

  /** `slice(from, |s|, s)` for a negative `from`: the last `-from` elements. */
  function LastOf<T>(n: nat, s: seq<T>): seq<T>
    requires n <= |s|
  {
    s[|s| - n..]
  }

  function Reverse<T>(s: seq<T>): seq<T> {
    if s == [] then [] else Reverse(s[1..]) + [s[0]]
  }

  // ----- the operations -----

  function Empty<T>(): Array<T> {
    Array(0, SHIFT_STEP, [], [])
  }

  /** What reading a JavaScript array gives. */
  datatype Slot<T> = Slot(value: T) | Undefined

  function GetHelp<T>(shift: int, index: nat, tree: seq<Node<T>>): Slot<T>
    decreases tree
  {
    var pos := Low5(Shr(index, shift));
    if pos >= |tree| then Undefined  // does not occur: indices below the tail have a leaf
    else
      match tree[pos]
      case SubTree(subTree) => GetHelp(shift - SHIFT_STEP, index, subTree)
      case Leaf(values) => UnsafeGet(Low5(index), values)
  }

  function UnsafeGet<T>(i: nat, s: seq<T>): Slot<T> {
    if i < |s| then Slot(s[i]) else Undefined
  }

  function TailIndex(len: nat): int {
    Shl(Shr(len, 5), 5)
  }

  function Get<T>(index: int, a: Array<T>): Option<Slot<T>> {
    if index < 0 || index >= a.len then None
    else if index >= TailIndex(a.len) then Some(UnsafeGet(Low5(index), a.tail))
    else Some(GetHelp(a.startShift, index, a.tree))
  }

  function InsertTailInTree<T>(shift: nat, index: nat, tail: seq<T>, tree: seq<Node<T>>): seq<Node<T>>
    requires shift >= 5 && shift % 5 == 0
    decreases shift
  {
    hide Shr, Low5;
    assert shift != 5 ==> shift >= 10 && (shift - SHIFT_STEP) % 5 == 0 by { NextShift(shift); }
    var pos := Low5(Shr(index, shift));
    if pos >= |tree| then
      if shift == 5 then tree + [Leaf(tail)]
      else tree + [SubTree(InsertTailInTree(shift - SHIFT_STEP, index, tail, []))]
    else
      match tree[pos]
      case SubTree(subTree) =>
        if shift == 5 then tree  // does not occur: below shift 5 there are only leaves
        else tree[pos := SubTree(InsertTailInTree(shift - SHIFT_STEP, index, tail, subTree))]
      case Leaf(_) =>
        if shift == 5 then tree  // does not occur either: the position past the last leaf is free
        else tree[pos := SubTree(InsertTailInTree(shift - SHIFT_STEP, index, tail, [tree[pos]]))]
  }

  /** What every array the module builds satisfies, whatever its contents. */
  predicate Ready<T>(a: Array<T>) {
    |a.tail| < BRANCH && |a.tail| <= a.len && a.startShift >= 5 && a.startShift % 5 == 0
  }

  lemma NextShift(shift: nat)
    requires shift >= 5 && shift % 5 == 0
    ensures shift != 5 ==> shift >= 10 && (shift - SHIFT_STEP) % 5 == 0
  {
  }

  function UnsafeReplaceTail<T>(newTail: seq<T>, a: Array<T>): (r: Array<T>)
    requires Ready(a) && |newTail| <= BRANCH
    ensures Ready(r)
  {
    hide Shr, Shl, InsertTailInTree;
    var newArrayLen := a.len + (|newTail| - |a.tail|);
    if |newTail| == BRANCH then
      if Shr(newArrayLen, SHIFT_STEP) > Shl(1, a.startShift) then
        var newShift := a.startShift + SHIFT_STEP;
        Array(newArrayLen, newShift, InsertTailInTree(newShift, a.len, newTail, [SubTree(a.tree)]), [])
      else
        Array(newArrayLen, a.startShift, InsertTailInTree(a.startShift, a.len, newTail, a.tree), [])
    else
      Array(newArrayLen, a.startShift, a.tree, newTail)
  }

  function Push<T>(x: T, a: Array<T>): Array<T>
    requires Ready(a)
  {
    UnsafeReplaceTail(a.tail + [x], a)
  }

  /** Builder: full leaves (in the order the caller says), their number, and a tail. */
  datatype Builder<T> = Builder(nodeList: seq<Node<T>>, nodeListSize: nat, tail: seq<T>)

  function CompressNodes<T>(nodes: seq<Node<T>>, acc: seq<Node<T>>): seq<Node<T>>
    decreases |nodes|
  {
    var (node, remainingNodes) := InitializeFromList(BRANCH, nodes);
    var newAcc := [SubTree(node)] + acc;
    if remainingNodes == [] then Reverse(newAcc) else CompressNodes(remainingNodes, newAcc)
  }

  /** `ceil(n / 32)`. */
  function CeilDiv32(n: nat): nat {
    (n + 31) / 32
  }

  function TreeFromBuilder<T>(nodeList: seq<Node<T>>, nodeListSize: nat): seq<Node<T>>
    requires nodeListSize > 0
    decreases nodeListSize
  {
    var newNodeSize := CeilDiv32(nodeListSize);
    if newNodeSize == 1 then InitializeFromList(BRANCH, nodeList).0
    else TreeFromBuilder(CompressNodes(nodeList, []), newNodeSize)
  }

  /** The integer part of the base-32 logarithm. */
  function Log32(n: nat): nat {
    if n < 32 then 0 else 1 + Log32(n / 32)
  }

  function BuilderToArray<T>(reverseNodeList: bool, b: Builder<T>): Array<T> {
    if b.nodeListSize == 0 then
      Array(|b.tail|, SHIFT_STEP, [], b.tail)
    else
      var treeLen := b.nodeListSize * BRANCH;
      var depth := Log32(treeLen - 1);
      var correctNodeList := if reverseNodeList then Reverse(b.nodeList) else b.nodeList;
      var tree := TreeFromBuilder(correctNodeList, b.nodeListSize);
      Array(|b.tail| + treeLen, if 5 > depth * SHIFT_STEP then 5 else depth * SHIFT_STEP, tree, b.tail)
  }

  function InitializeHelp<T>(fn: nat -> T, fromIndex: int, len: nat, nodeList: seq<Node<T>>, tail: seq<T>): Array<T>
    decreases fromIndex + 32
  {
    if fromIndex < 0 then
      BuilderToArray(false, Builder(nodeList, len / BRANCH, tail))
    else
      InitializeHelp(fn, fromIndex - BRANCH, len, [Leaf(Initialize(BRANCH, fromIndex, fn))] + nodeList, tail)
  }

  function InitializeArray<T>(len: int, fn: nat -> T): Array<T> {
    if len <= 0 then Empty()
    else
      var tailLen := len % BRANCH;
      var tail := Initialize(tailLen, len - tailLen, fn);
      InitializeHelp(fn, len - tailLen - BRANCH, len, [], tail)
  }

  function FromListHelp<T>(list: seq<T>, nodeList: seq<Node<T>>, nodeListSize: nat): Array<T>
    decreases |list|
  {
    var (jsArray, remainingItems) := InitializeFromList(BRANCH, list);
    if |jsArray| < BRANCH then
      BuilderToArray(true, Builder(nodeList, nodeListSize, jsArray))
    else
      FromListHelp(remainingItems, [Leaf(jsArray)] + nodeList, nodeListSize + 1)
  }

  function FromList<T>(list: seq<T>): Array<T> {
    if list == [] then Empty() else FromListHelp(list, [], 0)
  }

  function AppendHelpBuilder<T>(tail: seq<T>, b: Builder<T>): (r: Builder<T>)
    requires |tail| <= BRANCH && |b.tail| < BRANCH
    ensures |r.tail| < BRANCH
  {
    var notAppended := BRANCH - |b.tail| - |tail|;
    var appended := AppendN(BRANCH, b.tail, tail);
    if notAppended < 0 then
      Builder([Leaf(appended)] + b.nodeList, b.nodeListSize + 1, LastOf(-notAppended, tail))
    else if notAppended == 0 then
      Builder([Leaf(appended)] + b.nodeList, b.nodeListSize + 1, [])
    else
      Builder(b.nodeList, b.nodeListSize, appended)
  }

  function AppendHelpTree<T>(toAppend: seq<T>, a: Array<T>): (r: Array<T>)
    requires |toAppend| <= BRANCH && Ready(a)
    ensures Ready(r)
  {
    var notAppended := BRANCH - |a.tail| - |toAppend|;
    var appended := AppendN(BRANCH, a.tail, toAppend);
    var newArray := UnsafeReplaceTail(appended, a);
    if notAppended < 0 then
      UnsafeReplaceTail(LastOf(-notAppended, toAppend), newArray)
    else
      newArray
  }

  ghost predicate SmallLeaves<T>(nodes: seq<Node<T>>) {
    nodes != [] ==>
      && (match nodes[0]
          case SubTree(sub) => SmallLeaves(sub)
          case Leaf(values) => |values| <= BRANCH)
      && SmallLeaves(nodes[1..])
  }

  /** Folding `AppendHelpTree` over the leaves of a tree. */
  function FoldIntoTree<T>(a: Array<T>, nodes: seq<Node<T>>): (r: Array<T>)
    requires Ready(a) && SmallLeaves(nodes)
    ensures Ready(r)
    decreases nodes
  {
    if nodes == [] then a
    else
      var first := match nodes[0]
                   case SubTree(sub) => FoldIntoTree(a, sub)
                   case Leaf(values) => AppendHelpTree(values, a);
      FoldIntoTree(first, nodes[1..])
  }

  /** Folding `AppendHelpBuilder` over the leaves of a tree. */
  function FoldIntoBuilder<T>(b: Builder<T>, nodes: seq<Node<T>>): (r: Builder<T>)
    requires |b.tail| < BRANCH && SmallLeaves(nodes)
    ensures |r.tail| < BRANCH
    decreases nodes
  {
    if nodes == [] then b
    else
      var first := match nodes[0]
                   case SubTree(sub) => FoldIntoBuilder(b, sub)
                   case Leaf(values) => AppendHelpBuilder(values, b);
      FoldIntoBuilder(first, nodes[1..])
  }

  /** Consing every leaf of a tree onto a list. */
  function ConsLeaves<T>(acc: seq<Node<T>>, nodes: seq<Node<T>>): seq<Node<T>>
    decreases nodes
  {
    if nodes == [] then acc
    else
      var first := match nodes[0]
                   case SubTree(sub) => ConsLeaves(acc, sub)
                   case Leaf(_) => [nodes[0]] + acc;
      ConsLeaves(first, nodes[1..])
  }

  function BuilderFromArray<T>(a: Array<T>): Builder<T> {
    Builder(ConsLeaves([], a.tree), a.len / BRANCH, a.tail)
  }

  function Append<T>(a: Array<T>, b: Array<T>): Array<T>
    requires Ready(a) && Ready(b) && SmallLeaves(b.tree)
  {
    if b.len <= BRANCH * 4 then
      AppendHelpTree(b.tail, FoldIntoTree(a, b.tree))
    else
      BuilderToArray(true, AppendHelpBuilder(b.tail, FoldIntoBuilder(BuilderFromArray(a), b.tree)))
  }

  // ----- what an array means -----

  /** The leaves of a tree from left to right. */
  function Leaves<T>(nodes: seq<Node<T>>): seq<seq<T>> {
    if nodes == [] then []
    else
      (match nodes[0]
       case SubTree(sub) => Leaves(sub)
       case Leaf(values) => [values]) + Leaves(nodes[1..])
  }

  function Flat<T>(ls: seq<seq<T>>): seq<T> {
    if ls == [] then [] else ls[0] + Flat(ls[1..])
  }

  function ToSeq<T>(a: Array<T>): seq<T> {
    Flat(Leaves(a.tree)) + a.tail
  }

  // ----- the shape -----

  function Min(a: nat, b: nat): nat {
    if a < b then a else b
  }

  /** The one node over `chunk` at level `h`: the chunk's only leaf, or a subtree. */
  function Child<T>(chunk: seq<seq<T>>, h: nat): Node<T>
    requires h >= 1 && chunk != []
    decreases h, 0
  {
    if h == 1 then Leaf(chunk[0]) else SubTree(Top(chunk, h - 1))
  }

  /** The nodes at level `h` (children of a node whose shift is `5 * h`) over the leaves `ls`:
      each covers `32^(h-1)` leaves, the last one what is left. */
  function Top<T>(ls: seq<seq<T>>, h: nat): seq<Node<T>>
    requires h >= 1
    decreases h, |ls|, 1
  {
    if ls == [] then []
    else
      var b := Min(Pow32(h - 1), |ls|);
      [Child(ls[..b], h)] + Top(ls[b..], h)
  }

  ghost predicate FullLeaves<T>(ls: seq<seq<T>>) {
    forall i :: 0 <= i < |ls| ==> |ls[i]| == BRANCH
  }

  /** `h` is the least number of levels that hold `n` leaves. */
  ghost predicate Levels(n: nat, h: nat) {
    h >= 1 && n <= Pow32(h) && (h == 1 || n > Pow32(h - 1))
  }

  /** A well-formed trie: full leaves, packed to the left, as few levels as they need,
      a shift that matches the levels, and a tail that is not full. */
  ghost predicate WF<T>(a: Array<T>) {
    var ls := Leaves(a.tree);
    var h := a.startShift / 5;
    && a.startShift == 5 * h && Levels(|ls|, h)
    && a.tree == Top(ls, h) && FullLeaves(ls)
    && |a.tail| < BRANCH && a.len == BRANCH * |ls| + |a.tail|
  }

  lemma {:induction false} Pow32Mono(m: nat, n: nat)
    requires m <= n
    ensures 0 < Pow32(m) <= Pow32(n)
  {
    if m > 0 {
      Pow32Mono(m - 1, n - 1);
    } else if n > 0 {
      Pow32Mono(0, n - 1);
    }
  }

  // ----- arithmetic -----

  lemma MulAtLeast(d: int, p: int)
    requires d >= 1 && p >= 0
    ensures d * p >= p
  {
    assert d * p == (d - 1) * p + p;
  }

  lemma NoMultipleBetween(d: int, p: int)
    requires -p < d * p < p
    ensures d == 0
  {
    if d >= 1 {
      MulAtLeast(d, p);
    } else if d <= -1 {
      MulAtLeast(-d, p);
    }
  }

  lemma DivMod(x: nat, p: nat)
    requires p > 0
    ensures x == p * (x / p) + x % p && x % p < p
  {
  }

  lemma DivUnique(x: nat, p: nat, q: nat, r: nat)
    requires x == p * q + r && r < p
    ensures x / p == q && x % p == r
  {
    var q', r' := x / p, x % p;
    assert x == p * q' + r';
    assert (q' - q) * p == p * q' - p * q;
    NoMultipleBetween(q' - q, p);
  }

  lemma DigitSplit(x: nat, p: nat, D: nat, q: nat, d: nat, e: nat)
    requires p > 0 && D == 32 * p && x == D * q + (p * d + e) && d < 32 && e < p
    ensures x / p == 32 * q + d && x % p == e
  {
    assert p * (32 * q + d) == D * q + p * d by {
      assert p * (32 * q) == D * q;
    }
    DivUnique(x, p, 32 * q + d, e);
  }

  lemma SmallQuotient(q: nat, e: nat, p: nat)
    requires p > 0 && p * q + e < 32 * p
    ensures q < 32
  {
    assert p * q == (q - 31) * p + 31 * p;
    if q >= 32 {
      MulAtLeast(q - 31, p);
    }
  }

  lemma DigitFrom(x: nat, p: nat, D: nat, q: nat, r: nat)
    requires p > 0 && D == 32 * p && x == D * q + r && r < D
    ensures (x / p) % 32 == r / p < 32 && x % p == r % p
  {
    var d, e := r / p, r % p;
    DivMod(r, p);
    SmallQuotient(d, e, p);
    DigitSplit(x, p, D, q, d, e);
  }

  /** The digit of `x` at place `p`, read off `j`, which is `x` modulo the next place `D`. */
  lemma Digit(x: nat, p: nat, D: nat, j: nat)
    requires p > 0 && D == 32 * p && j == x % D
    ensures (x / p) % 32 == j / p < 32 && x % p == j % p
  {
    var q := Quotient(x, D, j);
    DigitFrom(x, p, D, q, j);
  }

  lemma Quotient(x: nat, D: nat, j: nat) returns (q: nat)
    requires D > 0 && j == x % D
    ensures x == D * q + j && j < D
  {
    q := x / D;
    DivMod(x, D);
  }

  lemma DivDiv32(x: nat, p: nat)
    requires p > 0
    ensures x / (32 * p) == (x / 32) / p
  {
    var q, r := (x / 32) / p, (x / 32) % p;
    assert x / 32 == p * q + r;
    assert x == 32 * (p * q + r) + x % 32;
    assert 32 * (p * q + r) == (32 * p) * q + 32 * r;
    DivUnique(x, 32 * p, q, 32 * r + x % 32);
  }

  lemma ShiftIsPow32(h: nat)
    requires h <= 6
    ensures Pow2(5 * h) == Pow32(h)
  {
    if h > 0 {
      var n := 5 * (h - 1);
      ShiftIsPow32(h - 1);
      assert Pow2(n + 1) == 2 * Pow2(n) && Pow2(n + 2) == 4 * Pow2(n) && Pow2(n + 3) == 8 * Pow2(n);
      assert Pow2(n + 5) == 2 * Pow2(n + 4) && Pow2(n + 4) == 2 * Pow2(n + 3);
    }
  }

  lemma ShrIsDiv(x: nat, h: nat)
    requires x < 0x1_0000_0000 && h <= 6
    ensures Pow32(h) > 0 && Shr(x, 5 * h) == x / Pow32(h)
  {
    ShiftIsPow32(h);
  }

  // ----- levels of nodes -----

  lemma OneLess(n: nat, m: nat, B: nat)
    requires m > 0 && n == m * B
    ensures n >= B && n - B == (m - 1) * B
  {
    assert m * B == B + (m - 1) * B;
    assert (m - 1) * B >= 0;
  }

  lemma TopStep<T>(a: seq<seq<T>>, b: seq<seq<T>>, h: nat, B: nat)
    requires h >= 1 && B == Pow32(h - 1) && 0 < B <= |a|
    ensures Top(a + b, h) == [Child(a[..B], h)] + Top(a[B..] + b, h)
    ensures Top(a, h) == [Child(a[..B], h)] + Top(a[B..], h)
  {
    assert (a + b)[..B] == a[..B];
    assert (a + b)[B..] == a[B..] + b;
  }

  /** Whole groups of leaves at the front make whole nodes at the front. */
  lemma {:induction false} TopAppend<T>(a: seq<seq<T>>, b: seq<seq<T>>, h: nat, m: nat)
    requires h >= 1 && |a| == m * Pow32(h - 1)
    ensures Top(a + b, h) == Top(a, h) + Top(b, h)
    ensures |Top(a, h)| == m
    decreases m
  {
    var B := Pow32(h - 1);
    if m == 0 {
      assert a == [] && a + b == b;
    } else {
      OneLess(|a|, m, B);
      TopAppend(a[B..], b, h, m - 1);
      TopStep(a, b, h, B);
      hide Top;
      assert [Child(a[..B], h)] + (Top(a[B..], h) + Top(b, h)) == [Child(a[..B], h)] + Top(a[B..], h) + Top(b, h);
    }
  }

  lemma OneChild<T>(b: seq<seq<T>>, h: nat)
    requires h >= 1 && 0 < |b| <= Pow32(h - 1)
    ensures Top(b, h) == [Child(b, h)]
  {
    assert b[..|b|] == b && b[|b|..] == [];
  }

  /** Child number `pos`, and how the leaves split around it. */
  lemma ChildAt<T>(ls: seq<seq<T>>, h: nat, pos: nat)
    requires h >= 1 && pos * Pow32(h - 1) < |ls|
    ensures pos * Pow32(h - 1) <= Min((pos + 1) * Pow32(h - 1), |ls|)
    ensures pos < |Top(ls, h)|
    ensures Top(ls, h)[pos] == Child(ls[pos * Pow32(h - 1)..Min((pos + 1) * Pow32(h - 1), |ls|)], h)
  {
    var B := Pow32(h - 1);
    assert (pos + 1) * B == pos * B + B;
    var a, r := ls[..pos * B], ls[pos * B..];
    assert ls == a + r;
    TopAppend(a, r, h, pos);
    var b := Min(B, |r|);
    assert Top(r, h)[0] == Child(r[..b], h);
    assert r[..b] == ls[pos * B..Min((pos + 1) * B, |ls|)];
  }

  /** The number of nodes at a level. */
  lemma CeilSplit(n: nat, B: nat) returns (m: nat)
    requires n > 0 && B > 0
    ensures m * B < n <= (m + 1) * B && n - m * B <= B
  {
    m := (n - 1) / B;
    assert n - 1 == B * m + (n - 1) % B;
    assert B * m == m * B && (m + 1) * B == m * B + B;
  }

  lemma TopSize<T>(ls: seq<seq<T>>, h: nat)
    requires h >= 1 && ls != []
    ensures |Top(ls, h)| >= 1
    ensures (|Top(ls, h)| - 1) * Pow32(h - 1) < |ls| <= |Top(ls, h)| * Pow32(h - 1)
  {
    var B := Pow32(h - 1);
    var m := CeilSplit(|ls|, B);
    var n := m * B;
    assert 0 <= n < |ls|;
    var a, b := ls[..n], ls[n..];
    assert ls == a + b;
    TopAppend(a, b, h, m);
    OneChild(b, h);
    hide Top;
    assert |Top(ls, h)| == m + 1;
  }

  lemma {:induction false} LeavesAppend<T>(a: seq<Node<T>>, b: seq<Node<T>>)
    ensures Leaves(a + b) == Leaves(a) + Leaves(b)
    decreases |a|
  {
    if a == [] {
      assert a + b == b;
    } else {
      assert (a + b)[1..] == a[1..] + b;
      LeavesAppend(a[1..], b);
    }
  }

  lemma LeavesOne<T>(n: Node<T>)
    ensures Leaves([n]) == match n case SubTree(sub) => Leaves(sub) case Leaf(v) => [v]
  {
    assert [n][1..] == [];
  }

  /** A level holds exactly the leaves it is built over. */
  lemma {:induction false} LeavesTop<T>(ls: seq<seq<T>>, h: nat)
    requires h >= 1
    ensures Leaves(Top(ls, h)) == ls
    decreases h, |ls|
  {
    hide Pow32, Leaves, Child;
    if ls == [] {
      EmptyLeaves<T>();
      TopNothing<T>(h);
    } else {
      var b := Min(Pow32(h - 1), |ls|);
      LeavesTop(ls[b..], h);
      LeavesAppend([Child(ls[..b], h)], Top(ls[b..], h));
      LeavesOne(Child(ls[..b], h));
      if h > 1 {
        LeavesTop(ls[..b], h - 1);
        SubTreeChild(ls[..b], h);
      } else {
        Pow32Zero();
        LeafChild(ls[..b]);
        assert ls[..b] == [ls[0]];
      }
      assert ls == ls[..b] + ls[b..];
    }
  }

  // ----- reading -----

  /** Descending from level `h` finds the element whose offset among the elements below is `j`. */
  lemma {:induction false} GetHelpCorrect<T>(h: nat, index: nat, ls: seq<seq<T>>, j: nat)
    requires 1 <= h <= 6 && index < 0x1_0000_0000
    requires FullLeaves(ls) && |ls| <= Pow32(h)
    requires j == index % Pow32(h + 1) && j < 32 * |ls|
    ensures GetHelp(5 * h, index, Top(ls, h)) == Slot(ls[j / 32][j % 32])
    decreases h
  {
    hide Top, Pow32, Shr, Pow2;
    var p, B := Pow32(h), Pow32(h - 1);
    Pow32Step(h + 1);
    Pow32Step(h);
    ShrIsDiv(index, h);
    Digit(index, p, 32 * p, j);
    var pos := j / p;
    assert Low5(Shr(index, 5 * h)) == pos;
    PosInRange(j, p, B, pos, |ls|);
    ChildAt(ls, h, pos);
    var lo, hi := pos * B, Min((pos + 1) * B, |ls|);
    var chunk := ls[lo..hi];
    var j' := j % p;
    assert chunk[j' / 32] == ls[lo + j' / 32];
    if h == 1 {
      Pow32Zero();
      assert j' == index % 32;
    } else {
      GetHelpCorrect(h - 1, index, chunk, j');
    }
  }

  lemma Pow32Zero()
    ensures Pow32(0) == 1
  {
  }

  lemma Pow32Step(n: nat)
    requires n > 0
    ensures Pow32(n) == 32 * Pow32(n - 1) && Pow32(n - 1) > 0
  {
  }

  lemma PosInRange(j: nat, p: nat, B: nat, pos: nat, n: nat)
    requires B > 0 && p == 32 * B && pos == j / p && j < 32 * n
    ensures pos * B < n
    ensures pos * B <= Min((pos + 1) * B, n)
    ensures j % p < 32 * (Min((pos + 1) * B, n) - pos * B)
    ensures pos * B + (j % p) / 32 == j / 32 && j % p % 32 == j % 32
  {
    DivMod(j, p);
    assert p * pos == 32 * (pos * B);
    assert (pos + 1) * B == pos * B + B;
  }

  // ----- adding a full leaf -----

  /** The digit at a level is the child that the leaf goes to, the rest its place in there. */
  lemma TailDigit(h: nat, index: nat, n: nat) returns (pos: nat)
    requires 1 <= h <= 6 && index < 0x1_0000_0000
    requires n < Pow32(h) && (index / 32) % Pow32(h) == n
    ensures Low5(Shr(index, 5 * h)) == pos < 32
    ensures 0 < Pow32(h - 1) && pos * Pow32(h - 1) <= n < pos * Pow32(h - 1) + Pow32(h - 1)
    ensures (index / 32) % Pow32(h - 1) == n - pos * Pow32(h - 1)
  {
    hide Pow32, Shr;
    var B := Pow32(h - 1);
    Pow32Step(h);
    ShrIsDiv(index, h);
    DivDiv32(index, B);
    Digit(index / 32, B, Pow32(h), n);
    pos := n / B;
    DivMod(n, B);
    assert B * pos == pos * B;
  }

  /** `InsertTailInTree` appends one leaf, for an index whose leaf number is the number of
      leaves already below. */
  lemma {:induction false} InsertTailCorrect<T>(h: nat, index: nat, tail: seq<T>, ls: seq<seq<T>>)
    requires 1 <= h <= 6 && index < 0x1_0000_0000
    requires |ls| < Pow32(h) && (index / 32) % Pow32(h) == |ls|
    ensures InsertTailInTree(5 * h, index, tail, Top(ls, h)) == Top(ls + [tail], h)
    decreases h
  {
    hide Top, Pow32, Shr, Pow2, Child, Low5;
    var B := Pow32(h - 1);
    var pos := TailDigit(h, index, |ls|);
    var a, b := ls[..pos * B], ls[pos * B..];
    assert ls == a + b && ls + [tail] == a + (b + [tail]);
    TopAppend(a, b, h, pos);
    TopAppend(a, b + [tail], h, pos);
    OneChild(b + [tail], h);
    if b == [] {
      TopNothing<T>(h);
      if h == 1 {
        LeafChild([tail]);
      } else {
        TopNothing<T>(h - 1);
        InsertTailCorrect(h - 1, index, tail, []);
        SubTreeChild([tail], h);
      }
      assert b + [tail] == [tail];
    } else {
      if h == 1 {
        Pow32Zero();
      }
      OneChild(b, h);
      SubTreeChild(b, h);
      SubTreeChild(b + [tail], h);
      InsertTailCorrect(h - 1, index, tail, b);
    }
  }

  lemma TopNothing<T>(h: nat)
    requires h >= 1
    ensures Top<T>([], h) == []
  {
  }

  lemma LeafChild<T>(c: seq<seq<T>>)
    requires c != []
    ensures Child(c, 1) == Leaf(c[0])
  {
  }

  lemma SubTreeChild<T>(c: seq<seq<T>>, h: nat)
    requires c != [] && h > 1
    ensures Child(c, h) == SubTree(Top(c, h - 1))
  {
  }

  lemma FlatSnoc<T>(ls: seq<seq<T>>, v: seq<T>)
    ensures Flat(ls + [v]) == Flat(ls) + v
  {
    if ls == [] {
      assert ls + [v] == [v] && [v][1..] == [];
      assert Flat([v]) == v + [];
    } else {
      assert (ls + [v])[1..] == ls[1..] + [v];
      FlatSnoc(ls[1..], v);
    }
  }

  /** The least number of levels is below 7 for lengths an `Int` can hold, and the overflow
      test says whether one more leaf still fits. */
  lemma LevelFacts(n: nat, h: nat)
    requires Levels(n, h) && 32 * n <= MAX_INT
    ensures 1 <= h <= 6
    ensures Shl(1, 5 * h) == Pow32(h)
  {
    assert Pow32(6) == 0x4000_0000 by { PowersOf32(); }
    if h >= 7 {
      Pow32Mono(6, h - 1);
    }
    ShiftIsPow32(h);
    Pow32Mono(h, 6);
  }

  lemma PowersOf32()
    ensures Pow32(0) == 1 && Pow32(1) == 32 && Pow32(2) == 1024 && Pow32(3) == 0x8000
    ensures Pow32(4) == 0x10_0000 && Pow32(5) == 0x200_0000 && Pow32(6) == 0x4000_0000
  {
    assert Pow32(3) == 32 * Pow32(2);
    assert Pow32(4) == 32 * Pow32(3);
    assert Pow32(6) == 32 * Pow32(5);
  }

  /** The overflow test is exact: it holds when the root is full. */
  lemma OverflowTest<T>(a: Array<T>, n: nat, h: nat)
    requires Levels(n, h) && |a.tail| < BRANCH && a.len == BRANCH * n + |a.tail|
    requires BRANCH * (n + 1) <= MAX_INT
    ensures Shr(BRANCH * (n + 1), SHIFT_STEP) > Shl(1, 5 * h) <==> n == Pow32(h)
    ensures a.len / 32 == n && 1 <= h <= 6 && a.len < 0x1_0000_0000
  {
    LevelFacts(n, h);
    hide Pow32, Pow2, Shl, Shr;
    Pow32Step(1);
    Pow32Zero();
    ShrIsDiv(BRANCH * (n + 1), 1);
  }

  lemma FullTailCorrect<T>(newTail: seq<T>, a: Array<T>, ls: seq<seq<T>>, h: nat)
    requires WF(a) && |newTail| == BRANCH && ls == Leaves(a.tree) && h == a.startShift / 5
    requires a.len - |a.tail| + |newTail| <= MAX_INT
    ensures WF(UnsafeReplaceTail(newTail, a))
    ensures ToSeq(UnsafeReplaceTail(newTail, a)) == Flat(ls) + newTail
  {
    hide Top, Pow32, Pow2, Shl, Shr, ToSeq, Leaves, InsertTailInTree;
    var r := UnsafeReplaceTail(newTail, a);
    OverflowTest(a, |ls|, h);
    Pow32Step(h + 1);
    if |ls| == Pow32(h) {
      NoSixLevels(|ls|, h);
      RootOver(ls, h);
      SmallMod(|ls|, Pow32(h + 1));
      InsertTailCorrect(h + 1, a.len, newTail, ls);
      AfterInsert(a, r, ls, newTail, h + 1);
    } else {
      SmallMod(|ls|, Pow32(h));
      InsertTailCorrect(h, a.len, newTail, ls);
      AfterInsert(a, r, ls, newTail, h);
    }
  }

  lemma RootOver<T>(ls: seq<seq<T>>, h: nat)
    requires h >= 1 && |ls| == Pow32(h)
    ensures Top(ls, h + 1) == [SubTree(Top(ls, h))]
  {
    OneChild(ls, h + 1);
    SubTreeChild(ls, h + 1);
  }

  /** Replacing the tail keeps the leaves; a full tail becomes the next leaf, with a new
      root level when the old one is full. */
  lemma ReplaceTailCorrect<T>(newTail: seq<T>, a: Array<T>)
    requires WF(a) && |newTail| <= BRANCH
    requires a.len - |a.tail| + |newTail| <= MAX_INT
    ensures WF(UnsafeReplaceTail(newTail, a))
    ensures ToSeq(UnsafeReplaceTail(newTail, a)) == Flat(Leaves(a.tree)) + newTail
  {
    if |newTail| == BRANCH {
      FullTailCorrect(newTail, a, Leaves(a.tree), a.startShift / 5);
    }
  }

  lemma SmallMod(n: nat, p: nat)
    requires n < p
    ensures n % p == n
  {
  }

  /** No `Int`-sized array fills six levels. */
  lemma NoSixLevels(n: nat, h: nat)
    requires 1 <= h <= 6 && n == Pow32(h) && 32 * n <= MAX_INT
    ensures h <= 5
  {
    PowersOf32();
  }

  lemma AfterInsert<T>(a: Array<T>, r: Array<T>, ls: seq<seq<T>>, newTail: seq<T>, h: nat)
    requires WF(a) && ls == Leaves(a.tree) && |newTail| == BRANCH
    requires h >= 1 && Levels(|ls| + 1, h)
    requires r == Array(BRANCH * (|ls| + 1), 5 * h, Top(ls + [newTail], h), [])
    ensures WF(r) && ToSeq(r) == Flat(ls) + newTail
  {
    LeavesTop(ls + [newTail], h);
    FlatSnoc(ls, newTail);
    hide Top;
  }

  // ----- the bulk builder -----

  function Group<T>(nodes: seq<Node<T>>): seq<Node<T>> {
    if nodes == [] then []
    else
      var b := Min(BRANCH, |nodes|);
      [SubTree(nodes[..b])] + Group(nodes[b..])
  }

  lemma ReverseCons<T>(x: T, s: seq<T>)
    ensures Reverse([x] + s) == Reverse(s) + [x]
  {
    assert ([x] + s)[1..] == s;
  }

  lemma {:induction false} CompressIsGroup<T>(nodes: seq<Node<T>>, acc: seq<Node<T>>)
    requires nodes != []
    ensures CompressNodes(nodes, acc) == Reverse(acc) + Group(nodes)
    decreases |nodes|
  {
    hide Reverse;
    var b := Min(BRANCH, |nodes|);
    var node, rest := SubTree(nodes[..b]), nodes[b..];
    ReverseCons(node, acc);
    assert Group(nodes) == [node] + Group(rest);
    if rest == [] {
      assert CompressNodes(nodes, acc) == Reverse([node] + acc);
    } else {
      CompressIsGroup(rest, [node] + acc);
      assert CompressNodes(nodes, acc) == CompressNodes(rest, [node] + acc);
    }
  }

  /** Grouping the nodes of one level by 32 gives the next level. */
  lemma {:induction false} GroupTop<T>(ls: seq<seq<T>>, h: nat)
    requires h >= 1
    ensures Group(Top(ls, h)) == Top(ls, h + 1)
    decreases |ls|
  {
    Pow32Step(h);
    var C := Pow32(h);
    if ls == [] {
    } else if |ls| <= C {
      TopSize(ls, h);
      AtMost32(|Top(ls, h)|, Pow32(h - 1), |ls|);
      OneChild(ls, h + 1);
      hide Top;
      SubTreeChild(ls, h + 1);
      GroupOne(Top(ls, h));
    } else {
      hide Top, Pow32;
      var a, b := ls[..C], ls[C..];
      assert ls == a + b;
      TopAppend(a, b, h, 32);
      GroupTop(b, h);
      GroupFirst(Top(a, h), Top(b, h));
      TopAppend(a, b, h + 1, 1);
      OneChild(a, h + 1);
      SubTreeChild(a, h + 1);
    }
  }

  lemma AtMost32(k: nat, B: nat, n: nat)
    requires B > 0 && k >= 1 && (k - 1) * B < n <= 32 * B
    ensures k <= 32
  {
    assert (k - 1) * B == (k - 32) * B + 31 * B;
    if k > 32 {
      MulAtLeast(k - 32, B);
    }
  }

  lemma GroupOne<T>(nodes: seq<Node<T>>)
    requires 0 < |nodes| <= BRANCH
    ensures Group(nodes) == [SubTree(nodes)]
  {
    assert nodes[..|nodes|] == nodes && nodes[|nodes|..] == [];
  }

  lemma GroupFirst<T>(a: seq<Node<T>>, b: seq<Node<T>>)
    requires |a| == BRANCH
    ensures Group(a + b) == [SubTree(a)] + Group(b)
  {
    assert (a + b)[..BRANCH] == a && (a + b)[BRANCH..] == b;
  }

  /** The builder's tree is the level structure with the least number of levels. */
  lemma {:induction false} TreeFromBuilderCorrect<T>(ls: seq<seq<T>>, h: nat, k: nat)
    requires ls != [] && 1 <= h <= k && Levels(|ls|, k)
    ensures |Top(ls, h)| > 0
    ensures TreeFromBuilder(Top(ls, h), |Top(ls, h)|) == Top(ls, k)
    decreases k - h
  {
    hide Top;
    var nodes := Top(ls, h);
    TopSize(ls, h);
    Pow32Step(h);
    if h == k {
      AtMost32(|nodes|, Pow32(h - 1), |ls|);
      assert nodes[..|nodes|] == nodes;
    } else {
      Pow32Mono(h, k - 1);
      MoreThan32(|nodes|, Pow32(h - 1), |ls|);
      CompressIsGroup(nodes, []);
      GroupTop(ls, h);
      GroupSize(nodes);
      assert [] + Group(nodes) == Group(nodes);
      TreeFromBuilderCorrect(ls, h + 1, k);
    }
  }

  lemma MoreThan32(k: nat, B: nat, n: nat)
    requires B > 0 && 32 * B < n <= k * B
    ensures k > 32
  {
    assert k * B == 32 * B - (32 - k) * B;
    if k <= 31 {
      MulAtLeast(32 - k, B);
    }
  }

  lemma {:induction false} GroupSize<T>(nodes: seq<Node<T>>)
    ensures |Group(nodes)| == CeilDiv32(|nodes|)
    decreases |nodes|
  {
    if nodes != [] {
      GroupSize(nodes[Min(BRANCH, |nodes|)..]);
    }
  }

  lemma {:induction false} Log32Correct(n: nat)
    requires n > 0
    ensures Pow32(Log32(n)) <= n < Pow32(Log32(n) + 1)
  {
    if n >= 32 {
      Log32Correct(n / 32);
      Pow32Step(Log32(n));
      Pow32Step(Log32(n) + 1);
    } else {
      PowersOf32();
    }
  }

  function AsLeaves<T>(ls: seq<seq<T>>): seq<Node<T>> {
    if ls == [] then [] else [Leaf(ls[0])] + AsLeaves(ls[1..])
  }

  lemma {:induction false} AsLeavesIsTop<T>(ls: seq<seq<T>>)
    ensures Top(ls, 1) == AsLeaves(ls) && |AsLeaves(ls)| == |ls|
    decreases |ls|
  {
    if ls != [] {
      Pow32Zero();
      AsLeavesIsTop(ls[1..]);
      assert ls[..1][0] == ls[0];
    }
  }

  /** What the builder makes of full leaves in order and a short tail. */
  lemma BuilderCorrect<T>(reversed: bool, b: Builder<T>, ls: seq<seq<T>>)
    requires b.nodeListSize == |ls| && FullLeaves(ls) && |b.tail| < BRANCH
    requires (if reversed then Reverse(b.nodeList) else b.nodeList) == AsLeaves(ls)
    ensures WF(BuilderToArray(reversed, b))
    ensures ToSeq(BuilderToArray(reversed, b)) == Flat(ls) + b.tail
  {
    hide Top, Pow32, Leaves, Flat, FullLeaves, Log32, TreeFromBuilder, Reverse, AsLeaves;
    AsLeavesIsTop(ls);
    if ls == [] {
      EmptyLeaves<T>();
      PowersOf32();
    } else {
      var k := BuilderLevels(|ls|);
      TreeFromBuilderCorrect(ls, 1, k);
      LeavesTop(ls, k);
    }
  }

  lemma EmptyLeaves<T>()
    ensures Leaves<T>([]) == [] && Top<T>([], 1) == []
  {
  }

  /** The depth computed from the logarithm is the least number of levels. */
  lemma BuilderLevels(n: nat) returns (k: nat)
    requires n > 0
    ensures Levels(n, k) && k == if Log32(32 * n - 1) == 0 then 1 else Log32(32 * n - 1)
  {
    hide Pow32, Log32;
    var m := 32 * n - 1;
    Log32Correct(m);
    var d := Log32(m);
    Pow32Step(d + 1);
    k := if d == 0 then 1 else d;
    if d > 0 {
      Pow32Step(d);
    } else {
      Pow32Zero();
    }
  }

  // ----- main results -----

  lemma FlatSize<T>(ls: seq<seq<T>>)
    requires FullLeaves(ls)
    ensures |Flat(ls)| == 32 * |ls|
  {
    if ls != [] {
      FlatSize(ls[1..]);
    }
  }

  lemma {:induction false} FlatAt<T>(ls: seq<seq<T>>, i: nat)
    requires FullLeaves(ls) && i < 32 * |ls|
    ensures |Flat(ls)| == 32 * |ls| && Flat(ls)[i] == ls[i / 32][i % 32]
  {
    FlatSize(ls);
    if i >= 32 {
      FlatAt(ls[1..], i - 32);
    }
  }

  /** The length field is the number of elements. */
  lemma LengthCorrect<T>(a: Array<T>)
    requires WF(a)
    ensures a.len == |ToSeq(a)|
  {
    FlatSize(Leaves(a.tree));
  }

  lemma TailStart(len: nat)
    requires len <= MAX_INT
    ensures TailIndex(len) == len / 32 * 32
  {
    assert Pow2(5) == 32 by { assert Pow2(5) == 2 * Pow2(4) && Pow2(3) == 8; }
  }

  lemma GetInTree<T>(ls: seq<seq<T>>, h: nat, i: nat)
    requires Levels(|ls|, h) && FullLeaves(ls) && 32 * |ls| <= MAX_INT && i < 32 * |ls|
    ensures |Flat(ls)| == 32 * |ls|
    ensures GetHelp(5 * h, i, Top(ls, h)) == Slot(Flat(ls)[i])
  {
    hide Top, Pow32, Shl, Flat, GetHelp;
    LevelFacts(|ls|, h);
    FlatAt(ls, i);
    Pow32Step(h + 1);
    SmallMod(i, Pow32(h + 1));
    GetHelpCorrect(h, i, ls, i);
  }

  /** `Get i` is the `i`-th element, and nothing outside the array. */
  lemma GetCorrect<T>(a: Array<T>, i: int)
    requires WF(a) && a.len <= MAX_INT
    ensures Get(i, a) == if 0 <= i < |ToSeq(a)| then Some(Slot(ToSeq(a)[i])) else None
  {
    hide Top, Levels, TailIndex, Flat, Leaves, GetHelp;
    var ls, h := Leaves(a.tree), a.startShift / 5;
    LengthCorrect(a);
    FlatSize(ls);
    TailStart(a.len);
    if 0 <= i < 32 * |ls| {
      GetInTree(ls, h, i);
    }
  }

  /** The tail index is a signed 32-bit number, whatever the length. */
  lemma TailIndexInRange(len: nat)
    ensures TailIndex(len) <= MAX_INT
  {
    hide Shr, Pow2;
  }

  /** Reading the array is reading its elements. */
  ghost predicate ReadsRight<T>(a: Array<T>) {
    forall i: int :: Get(i, a) == if 0 <= i < |ToSeq(a)| then Some(Slot(ToSeq(a)[i])) else None
  }

  /** Beyond the largest `Int` the last element of the tree is read as undefined: its index is not below the
      wrapped tail index, and the tail has no 32nd element. */
  lemma GetBeyondInt<T>(a: Array<T>)
    requires WF(a) && a.len > MAX_INT
    ensures var i := 32 * |Leaves(a.tree)| - 1; 0 <= i < |ToSeq(a)| && Get(i, a) == Some(Undefined)
  {
    hide Top, Levels, TailIndex, Flat, Leaves, GetHelp;
    LengthCorrect(a);
    TailIndexInRange(a.len);
    LastOfBlock(|Leaves(a.tree)|);
  }

  lemma LastOfBlock(n: nat)
    requires n >= 1
    ensures Low5(32 * n - 1) == 31
  {
    assert 32 * n - 1 == 32 * (n - 1) + 31;
  }

  /** Reads are right exactly up to the largest `Int`. */
  lemma ReadsRightIffInt<T>(a: Array<T>)
    requires WF(a)
    ensures ReadsRight(a) <==> a.len <= MAX_INT
  {
    hide WF, Get, ToSeq;
    if a.len <= MAX_INT {
      forall i: int
        ensures Get(i, a) == if 0 <= i < |ToSeq(a)| then Some(Slot(ToSeq(a)[i])) else None
      {
        GetCorrect(a, i);
      }
    } else {
      GetBeyondInt(a);
    }
  }

  lemma PushCorrect<T>(x: T, a: Array<T>)
    requires WF(a) && a.len < MAX_INT
    ensures WF(Push(x, a)) && ToSeq(Push(x, a)) == ToSeq(a) + [x]
  {
    hide Top, UnsafeReplaceTail;
    ReplaceTailCorrect(a.tail + [x], a);
  }

  /** Two well-formed arrays with the same elements are the same structure, so the
      structural equality of the language is equality of contents. */
  lemma Canonical<T>(a: Array<T>, b: Array<T>)
    requires WF(a) && WF(b) && ToSeq(a) == ToSeq(b)
    ensures a == b
  {
    hide Top, Pow32;
    LengthCorrect(a);
    LengthCorrect(b);
    var ls, ms := Leaves(a.tree), Leaves(b.tree);
    FlatSize(ls);
    FlatSize(ms);
    assert Flat(ls) == ToSeq(a)[..32 * |ls|] && Flat(ms) == ToSeq(b)[..32 * |ms|];
    assert a.tail == ToSeq(a)[32 * |ls|..] && b.tail == ToSeq(b)[32 * |ms|..];
    FlatInjective(ls, ms);
    SameLevels(|ls|, a.startShift / 5, b.startShift / 5);
  }

  lemma {:induction false} FlatInjective<T>(ls: seq<seq<T>>, ms: seq<seq<T>>)
    requires FullLeaves(ls) && FullLeaves(ms) && |ls| == |ms| && Flat(ls) == Flat(ms)
    ensures ls == ms
  {
    if ls != [] {
      assert ls[0] == Flat(ls)[..32] && ms[0] == Flat(ms)[..32];
      assert Flat(ls[1..]) == Flat(ls)[32..] && Flat(ms[1..]) == Flat(ms)[32..];
      FlatInjective(ls[1..], ms[1..]);
      assert ls == [ls[0]] + ls[1..] && ms == [ms[0]] + ms[1..];
    }
  }

  lemma SameLevels(n: nat, h: nat, k: nat)
    requires Levels(n, h) && Levels(n, k)
    ensures h == k
  {
    if h < k {
      Pow32Mono(h, k - 1);
    } else if k < h {
      Pow32Mono(k, h - 1);
    }
  }

  // ----- fromList and initialize -----

  lemma AsLeavesSnoc<T>(ls: seq<seq<T>>, v: seq<T>)
    ensures AsLeaves(ls + [v]) == AsLeaves(ls) + [Leaf(v)]
  {
    if ls != [] {
      assert (ls + [v])[1..] == ls[1..] + [v];
      AsLeavesSnoc(ls[1..], v);
    }
  }

  lemma {:induction false} FromListHelpCorrect<T>(list: seq<T>, nodeList: seq<Node<T>>, ls: seq<seq<T>>)
    requires FullLeaves(ls) && Reverse(nodeList) == AsLeaves(ls)
    ensures WF(FromListHelp(list, nodeList, |ls|))
    ensures ToSeq(FromListHelp(list, nodeList, |ls|)) == Flat(ls) + list
    decreases |list|
  {
    hide BuilderToArray, WF;
    var (js, rest) := InitializeFromList(BRANCH, list);
    assert js + rest == list;
    if |js| < BRANCH {
      BuilderCorrect(true, Builder(nodeList, |ls|, js), ls);
      assert js == list;
    } else {
      ReverseCons(Leaf(js), nodeList);
      AsLeavesSnoc(ls, js);
      FlatSnoc(ls, js);
      FromListHelpCorrect(rest, [Leaf(js)] + nodeList, ls + [js]);
      assert Flat(ls) + js + rest == Flat(ls) + list;
    }
  }

  lemma EmptyCorrect<T>()
    ensures WF(Empty<T>()) && ToSeq(Empty<T>()) == []
  {
    PowersOf32();
  }

  lemma FromListCorrect<T>(list: seq<T>)
    ensures WF(FromList(list)) && ToSeq(FromList(list)) == list
  {
    hide WF, ToSeq;
    EmptyCorrect<T>();
    if list != [] {
      FromListHelpCorrect(list, [], []);
    }
  }

  /** An array that the code builds and cannot read: of a list one longer than the largest `Int`. */
  lemma ListTooLong()
    ensures var list := seq(MAX_INT + 1, i => i);
            && ToSeq(FromList(list)) == list && !ReadsRight(FromList(list))
            && Get(MAX_INT, FromList(list)) == Some(Undefined)
  {
    hide WF, ToSeq, FromList, Get, ReadsRight;
    var list := seq(MAX_INT + 1, i => i);
    var a := FromList(list);
    FromListCorrect(list);
    LengthCorrect(a);
    ReadsRightIffInt(a);
    GetBeyondInt(a);
    WholeLeaves(a);
  }

  lemma WholeLeaves<T>(a: Array<T>)
    requires WF(a) && a.len == MAX_INT + 1
    ensures 32 * |Leaves(a.tree)| == a.len
  {
    hide Top, Leaves, Levels;
  }

  /** The leaves `initialize` makes: numbers `from` to `n - 1`. */
  function InitLeaves<T>(fn: nat -> T, from: nat, n: nat): seq<seq<T>>
    requires from <= n
    decreases n - from
  {
    if from == n then [] else [Initialize(BRANCH, 32 * from, fn)] + InitLeaves(fn, from + 1, n)
  }

  lemma {:induction false} InitLeavesFlat<T>(fn: nat -> T, from: nat, n: nat)
    requires from <= n
    ensures FullLeaves(InitLeaves(fn, from, n)) && |InitLeaves(fn, from, n)| == n - from
    ensures Flat(InitLeaves(fn, from, n)) == Initialize(32 * (n - from), 32 * from, fn)
    decreases n - from
  {
    if from < n {
      InitLeavesFlat(fn, from + 1, n);
    }
  }

  lemma {:induction false} InitializeHelpCorrect<T>(fn: nat -> T, from: nat, len: nat, nodeList: seq<Node<T>>,
      tail: seq<T>)
    requires from <= len / 32 && |tail| < BRANCH
    requires nodeList == AsLeaves(InitLeaves(fn, from, len / 32))
    ensures WF(InitializeHelp(fn, 32 * from - 32, len, nodeList, tail))
    ensures ToSeq(InitializeHelp(fn, 32 * from - 32, len, nodeList, tail))
         == Flat(InitLeaves(fn, 0, len / 32)) + tail
    decreases from
  {
    hide BuilderToArray, WF, ToSeq;
    if from == 0 {
      InitLeavesFlat(fn, 0, len / 32);
      BuilderCorrect(false, Builder(nodeList, len / 32, tail), InitLeaves(fn, 0, len / 32));
    } else {
      var leaf := Leaf(Initialize(BRANCH, 32 * from - 32, fn));
      var ls := InitLeaves(fn, from - 1, len / 32);
      assert ls[1..] == InitLeaves(fn, from, len / 32);
      assert AsLeaves(ls) == [leaf] + nodeList;
      InitializeHelpCorrect(fn, from - 1, len, [leaf] + nodeList, tail);
    }
  }

  lemma InitializeCorrect<T>(len: int, fn: nat -> T)
    ensures WF(InitializeArray(len, fn))
    ensures ToSeq(InitializeArray(len, fn)) == seq(if len < 0 then 0 else len, i requires 0 <= i => fn(i))
  {
    if len <= 0 {
      EmptyCorrect<T>();
    } else {
      hide WF;
      var n := len / 32;
      var tail := Initialize(len % BRANCH, len - len % BRANCH, fn);
      InitializeHelpCorrect(fn, n, len, [], tail);
      InitLeavesFlat(fn, 0, n);
    }
  }

  // ----- append -----

  lemma {:induction false} FlatAppend<T>(a: seq<seq<T>>, b: seq<seq<T>>)
    ensures Flat(a + b) == Flat(a) + Flat(b)
  {
    if a == [] {
      assert a + b == b;
    } else {
      assert (a + b)[1..] == a[1..] + b;
      FlatAppend(a[1..], b);
    }
  }

  lemma {:induction false} AsLeavesAppend<T>(a: seq<seq<T>>, b: seq<seq<T>>)
    ensures AsLeaves(a + b) == AsLeaves(a) + AsLeaves(b)
  {
    if a == [] {
      assert a + b == b;
    } else {
      assert (a + b)[1..] == a[1..] + b;
      AsLeavesAppend(a[1..], b);
    }
  }

  /** The leaves below the first node. */
  function FirstLeaves<T>(n: Node<T>): seq<seq<T>> {
    match n case SubTree(sub) => Leaves(sub) case Leaf(v) => [v]
  }

  lemma LeavesSplit<T>(nodes: seq<Node<T>>)
    requires nodes != [] && FullLeaves(Leaves(nodes))
    ensures Leaves(nodes) == FirstLeaves(nodes[0]) + Leaves(nodes[1..])
    ensures FullLeaves(FirstLeaves(nodes[0])) && FullLeaves(Leaves(nodes[1..]))
    ensures Flat(Leaves(nodes)) == Flat(FirstLeaves(nodes[0])) + Flat(Leaves(nodes[1..]))
    ensures nodes[0].Leaf? ==> |nodes[0].values| == BRANCH && Flat(FirstLeaves(nodes[0])) == nodes[0].values
  {
    LeavesFirst(nodes);
    hide Leaves, Flat;
    var a, b := FirstLeaves(nodes[0]), Leaves(nodes[1..]);
    FlatAppend(a, b);
    FullParts(a, b);
  }

  lemma LeavesFirst<T>(nodes: seq<Node<T>>)
    requires nodes != []
    ensures Leaves(nodes) == FirstLeaves(nodes[0]) + Leaves(nodes[1..])
    ensures nodes[0].Leaf? ==>
              FirstLeaves(nodes[0]) == [nodes[0].values] && Flat(FirstLeaves(nodes[0])) == nodes[0].values
  {
    if nodes[0].Leaf? {
      assert [nodes[0].values][1..] == [];
      assert Flat([nodes[0].values]) == nodes[0].values + Flat([nodes[0].values][1..]);
    }
  }

  lemma FullParts<T>(a: seq<seq<T>>, b: seq<seq<T>>)
    requires FullLeaves(a + b)
    ensures FullLeaves(a) && FullLeaves(b)
  {
    assert forall i :: 0 <= i < |a| ==> (a + b)[i] == a[i];
    assert forall i :: 0 <= i < |b| ==> (a + b)[|a| + i] == b[i];
  }

  lemma {:induction false} FullIsSmall<T>(nodes: seq<Node<T>>)
    requires FullLeaves(Leaves(nodes))
    ensures SmallLeaves(nodes)
    decreases nodes
  {
    if nodes != [] {
      LeavesSplit(nodes);
      FullIsSmall(nodes[1..]);
      if nodes[0].SubTree? {
        FullIsSmall(nodes[0].sub);
      }
    }
  }

  lemma AppendHelpTreeCorrect<T>(toAppend: seq<T>, a: Array<T>)
    requires WF(a) && |toAppend| <= BRANCH && a.len + |toAppend| <= MAX_INT
    ensures WF(AppendHelpTree(toAppend, a))
    ensures ToSeq(AppendHelpTree(toAppend, a)) == ToSeq(a) + toAppend
  {
    hide Top, UnsafeReplaceTail, Pow32, Leaves;
    var appended := AppendN(BRANCH, a.tail, toAppend);
    var newArray := UnsafeReplaceTail(appended, a);
    ReplaceTailCorrect(appended, a);
    LengthCorrect(a);
    LengthCorrect(newArray);
    var rest := BRANCH - |a.tail| - |toAppend|;
    if rest < 0 {
      var next := LastOf(-rest, toAppend);
      FullTailLeavesNothing(appended, a);
      ReplaceTailCorrect(next, newArray);
      assert appended + next == a.tail + toAppend;
      var f := Flat(Leaves(a.tree));
      assert ToSeq(newArray) == f + appended;
      assert f + appended + next == f + (appended + next) && f + a.tail + toAppend == f + (a.tail + toAppend);
    } else {
      assert appended == a.tail + toAppend;
    }
  }

  lemma FullTailLeavesNothing<T>(newTail: seq<T>, a: Array<T>)
    requires Ready(a) && |newTail| == BRANCH
    ensures UnsafeReplaceTail(newTail, a).tail == []
  {
  }

  lemma FoldIntoTreeStep<T>(a: Array<T>, nodes: seq<Node<T>>)
    requires Ready(a) && SmallLeaves(nodes) && nodes != []
    ensures SmallLeaves(nodes[1..])
    ensures nodes[0].SubTree? ==>
              && SmallLeaves(nodes[0].sub)
              && FoldIntoTree(a, nodes) == FoldIntoTree(FoldIntoTree(a, nodes[0].sub), nodes[1..])
    ensures nodes[0].Leaf? ==>
              && |nodes[0].values| <= BRANCH
              && FoldIntoTree(a, nodes) == FoldIntoTree(AppendHelpTree(nodes[0].values, a), nodes[1..])
  {
    hide AppendHelpTree;
  }

  lemma {:induction false} FoldIntoTreeCorrect<T>(a: Array<T>, nodes: seq<Node<T>>)
    requires Ready(a) && SmallLeaves(nodes)
    requires WF(a) && FullLeaves(Leaves(nodes))
    requires a.len + |Flat(Leaves(nodes))| <= MAX_INT
    ensures WF(FoldIntoTree(a, nodes))
    ensures ToSeq(FoldIntoTree(a, nodes)) == ToSeq(a) + Flat(Leaves(nodes))
    decreases nodes
  {
    if nodes != [] {
      LeavesSplit(nodes);
      FoldIntoTreeStep(a, nodes);
      hide AppendHelpTree, WF, ToSeq, Leaves, Flat, FoldIntoTree, SmallLeaves;
      LengthCorrect(a);
      var first: Array<T>;
      match nodes[0] {
        case SubTree(sub) =>
          first := FoldIntoTree(a, sub);
          FoldIntoTreeCorrect(a, sub);
        case Leaf(values) =>
          first := AppendHelpTree(values, a);
          AppendHelpTreeCorrect(values, a);
      }
      LengthCorrect(first);
      FoldIntoTreeCorrect(first, nodes[1..]);
      AppendThree(ToSeq(a), Flat(FirstLeaves(nodes[0])), Flat(Leaves(nodes[1..])));
    } else {
      assert ToSeq(a) + [] == ToSeq(a);
    }
  }

  lemma AppendThree<T>(x: seq<T>, y: seq<T>, z: seq<T>)
    ensures x + y + z == x + (y + z)
  {
  }

  lemma WFIsReady<T>(a: Array<T>)
    requires WF(a)
    ensures Ready(a)
  {
  }

  /** A builder whose (reversed) node list is the leaves `ls`. */
  ghost predicate Builds<T>(b: Builder<T>, ls: seq<seq<T>>) {
    && b.nodeListSize == |ls| && FullLeaves(ls) && |b.tail| < BRANCH
    && Reverse(b.nodeList) == AsLeaves(ls)
  }

  lemma AppendHelpBuilderCorrect<T>(tail: seq<T>, b: Builder<T>, ls: seq<seq<T>>) returns (ms: seq<seq<T>>)
    requires Builds(b, ls) && |tail| <= BRANCH
    ensures Builds(AppendHelpBuilder(tail, b), ms)
    ensures Flat(ms) + AppendHelpBuilder(tail, b).tail == Flat(ls) + b.tail + tail
  {
    var r := AppendHelpBuilder(tail, b);
    var appended := AppendN(BRANCH, b.tail, tail);
    assert appended + r.tail == b.tail + tail || |b.tail + tail| < BRANCH;
    if |b.tail + tail| < BRANCH {
      ms := ls;
      assert r.tail == b.tail + tail;
    } else {
      ms := ls + [appended];
      ReverseCons(Leaf(appended), b.nodeList);
      AsLeavesSnoc(ls, appended);
      FlatSnoc(ls, appended);
      assert Flat(ls) + appended + r.tail == Flat(ls) + (appended + r.tail);
      assert Flat(ls) + b.tail + tail == Flat(ls) + (b.tail + tail);
    }
  }

  lemma FoldIntoBuilderStep<T>(b: Builder<T>, nodes: seq<Node<T>>)
    requires |b.tail| < BRANCH && SmallLeaves(nodes) && nodes != []
    ensures SmallLeaves(nodes[1..])
    ensures nodes[0].SubTree? ==>
              && SmallLeaves(nodes[0].sub)
              && FoldIntoBuilder(b, nodes) == FoldIntoBuilder(FoldIntoBuilder(b, nodes[0].sub), nodes[1..])
    ensures nodes[0].Leaf? ==>
              && |nodes[0].values| <= BRANCH
              && FoldIntoBuilder(b, nodes) == FoldIntoBuilder(AppendHelpBuilder(nodes[0].values, b), nodes[1..])
  {
    hide AppendHelpBuilder;
  }

  lemma {:induction false} FoldIntoBuilderCorrect<T>(b: Builder<T>, nodes: seq<Node<T>>, ls: seq<seq<T>>)
    returns (ms: seq<seq<T>>)
    requires |b.tail| < BRANCH && SmallLeaves(nodes)
    requires Builds(b, ls) && FullLeaves(Leaves(nodes))
    ensures Builds(FoldIntoBuilder(b, nodes), ms)
    ensures Flat(ms) + FoldIntoBuilder(b, nodes).tail == Flat(ls) + b.tail + Flat(Leaves(nodes))
    decreases nodes
  {
    if nodes == [] {
      ms := ls;
    } else {
      LeavesSplit(nodes);
      FoldIntoBuilderStep(b, nodes);
      hide AppendHelpBuilder, Leaves, Flat, FoldIntoBuilder, SmallLeaves, Builds;
      var ns: seq<seq<T>>;
      match nodes[0] {
        case SubTree(sub) =>
          ns := FoldIntoBuilderCorrect(b, sub, ls);
          ms := FoldIntoBuilderCorrect(FoldIntoBuilder(b, sub), nodes[1..], ns);
        case Leaf(values) =>
          ns := AppendHelpBuilderCorrect(values, b, ls);
          ms := FoldIntoBuilderCorrect(AppendHelpBuilder(values, b), nodes[1..], ns);
      }
      AppendThree(Flat(ls) + b.tail, Flat(FirstLeaves(nodes[0])), Flat(Leaves(nodes[1..])));
    }
  }

  lemma ConsLeavesStep<T>(acc: seq<Node<T>>, nodes: seq<Node<T>>)
    requires nodes != []
    ensures nodes[0].SubTree? ==>
              ConsLeaves(acc, nodes) == ConsLeaves(ConsLeaves(acc, nodes[0].sub), nodes[1..]) &&
              FirstLeaves(nodes[0]) == Leaves(nodes[0].sub)
    ensures nodes[0].Leaf? ==>
              ConsLeaves(acc, nodes) == ConsLeaves([nodes[0]] + acc, nodes[1..]) &&
              FirstLeaves(nodes[0]) == [nodes[0].values]
  {
  }

  lemma ConsNoLeaves<T>(acc: seq<Node<T>>)
    ensures Reverse(ConsLeaves(acc, [])) == Reverse(acc) + AsLeaves(Leaves([]))
  {
  }

  lemma {:induction false} ConsLeavesReversed<T>(acc: seq<Node<T>>, nodes: seq<Node<T>>)
    requires FullLeaves(Leaves(nodes))
    ensures Reverse(ConsLeaves(acc, nodes)) == Reverse(acc) + AsLeaves(Leaves(nodes))
    decreases nodes
  {
    hide Flat, FullLeaves, Reverse, Leaves, AsLeaves, ConsLeaves, FirstLeaves;
    if nodes == [] {
      ConsNoLeaves(acc);
    } else {
      LeavesSplit(nodes);
      ConsLeavesStep(acc, nodes);
      AsLeavesAppend(FirstLeaves(nodes[0]), Leaves(nodes[1..]));
      var first := if nodes[0].SubTree? then ConsLeaves(acc, nodes[0].sub) else [nodes[0]] + acc;
      match nodes[0] {
        case SubTree(sub) =>
          ConsLeavesReversed(acc, sub);
        case Leaf(values) =>
          ReverseCons(nodes[0], acc);
          OneLeaf(values);
      }
      assert Reverse(first) == Reverse(acc) + AsLeaves(FirstLeaves(nodes[0]));
      ConsLeavesReversed(first, nodes[1..]);
      AppendThree(Reverse(acc), AsLeaves(FirstLeaves(nodes[0])), AsLeaves(Leaves(nodes[1..])));
    }
  }

  lemma OneLeaf<T>(values: seq<T>)
    ensures AsLeaves([values]) == [Leaf(values)]
  {
    assert [values][1..] == [];
  }

  /** Appending is concatenation, whichever of the two algorithms runs. */
  lemma AppendCorrect<T>(a: Array<T>, b: Array<T>)
    requires WF(a) && WF(b) && a.len + b.len <= MAX_INT
    ensures Ready(a) && Ready(b) && SmallLeaves(b.tree)
    ensures WF(Append(a, b)) && ToSeq(Append(a, b)) == ToSeq(a) + ToSeq(b)
  {
    WFIsReady(a);
    WFIsReady(b);
    FullIsSmall(b.tree);
    LengthCorrect(a);
    LengthCorrect(b);
    hide Top, Pow32, BuilderToArray, AppendHelpTree, AppendHelpBuilder, Leaves, Flat;
    var x, y, z := ToSeq(a), Flat(Leaves(b.tree)), b.tail;
    assert x + y + z == x + (y + z);
    if b.len <= BRANCH * 4 {
      FoldIntoTreeCorrect(a, b.tree);
      var f := FoldIntoTree(a, b.tree);
      LengthCorrect(f);
      AppendHelpTreeCorrect(b.tail, f);
    } else {
      ConsLeavesReversed([], a.tree);
      var start := BuilderFromArray(a);
      var ls := Leaves(a.tree);
      assert Builds(start, ls);
      var ms := FoldIntoBuilderCorrect(start, b.tree, ls);
      var f := FoldIntoBuilder(start, b.tree);
      var ns := AppendHelpBuilderCorrect(b.tail, f, ms);
      BuilderCorrect(true, AppendHelpBuilder(b.tail, f), ns);
    }
  }

  /** Both append algorithms give the very array that `fromList` builds from the
      concatenation. */
  lemma AppendIsFromList<T>(a: Array<T>, b: Array<T>)
    requires WF(a) && WF(b) && a.len + b.len <= MAX_INT
    ensures Ready(a) && Ready(b) && SmallLeaves(b.tree)
    ensures Append(a, b) == FromList(ToSeq(a) + ToSeq(b))
  {
    hide WF, ToSeq, Append, FromList;
    AppendCorrect(a, b);
    FromListCorrect(ToSeq(a) + ToSeq(b));
    Canonical(Append(a, b), FromList(ToSeq(a) + ToSeq(b)));
  }
}
