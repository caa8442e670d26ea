/** The left-leaning red-black dictionary of the Elm core library.
    Keys are integers: any comparable key type is totally ordered, and no
    operation looks at a key except by comparing it. */
module RedBlackDict {
  import opened Options
  import opened Powers

  datatype Color = Red | Black
  datatype Dict<V> = RBEmpty | RBNode(color: Color, key: int, value: V, left: Dict<V>, right: Dict<V>)

  // ----- the operations -----

  function Balance<V>(color: Color, key: int, value: V, left: Dict<V>, right: Dict<V>): Dict<V> {
    if IsRed(right) then
      if IsRed(left) then
        RBNode(Red, key, value, left.(color := Black), right.(color := Black))
      else
        RBNode(color, right.key, right.value, RBNode(Red, key, value, left, right.left), right.right)
    else if IsRed(left) && IsRed(left.left) then
      RBNode(Red, left.key, left.value, left.left.(color := Black), RBNode(Black, key, value, left.right, right))
    else
      RBNode(color, key, value, left, right)
  }

  predicate IsRed<V>(t: Dict<V>) {
    t.RBNode? && t.color == Red
  }

  function Blacken<V>(t: Dict<V>): Dict<V> {
    if IsRed(t) then t.(color := Black) else t
  }

  function InsertHelp<V>(key: int, value: V, dict: Dict<V>): Dict<V> {
    match dict
    case RBEmpty => RBNode(Red, key, value, RBEmpty, RBEmpty)
    case RBNode(nColor, nKey, nValue, nLeft, nRight) =>
      if key < nKey then
        Balance(nColor, nKey, nValue, InsertHelp(key, value, nLeft), nRight)
      else if key == nKey then
        RBNode(nColor, nKey, value, nLeft, nRight)
      else
        Balance(nColor, nKey, nValue, nLeft, InsertHelp(key, value, nRight))
  }

  function Insert<V>(key: int, value: V, dict: Dict<V>): Dict<V> {
    Blacken(InsertHelp(key, value, dict))
  }

  function Get<V>(targetKey: int, dict: Dict<V>): Option<V> {
    match dict
    case RBEmpty => None
    case RBNode(_, key, value, left, right) =>
      if targetKey < key then Get(targetKey, left)
      else if targetKey == key then Some(value)
      else Get(targetKey, right)
  }

  function GetMin<V>(dict: Dict<V>): Dict<V> {
    if dict.RBNode? && dict.left.RBNode? then GetMin(dict.left) else dict
  }

  function MoveRedLeft<V>(dict: Dict<V>): (r: Dict<V>)
    ensures Size(r) == Size(dict) && (dict.RBNode? ==> r.RBNode?)
  {
    if dict.RBNode? && dict.left.RBNode? && dict.right.RBNode? then
      var l, r := dict.left, dict.right;
      if IsRed(r.left) then
        var rl := r.left;
        var a := RBNode(Black, dict.key, dict.value, l.(color := Red), rl.left);
        var b := RBNode(Black, r.key, r.value, rl.right, r.right);
        assert Size(rl) == Size(rl.left) + 1 + Size(rl.right) && Size(r) == Size(rl) + 1 + Size(r.right);
        assert Size(a) == Size(l) + 1 + Size(rl.left) && Size(b) == Size(rl.right) + 1 + Size(r.right);
        RBNode(Red, rl.key, rl.value, a, b)
      else
        RBNode(Black, dict.key, dict.value, l.(color := Red), r.(color := Red))
    else
      dict
  }

  function MoveRedRight<V>(dict: Dict<V>): (r: Dict<V>)
    ensures Size(r) == Size(dict)
  {
    if dict.RBNode? && dict.left.RBNode? && dict.right.RBNode? then
      var l, r := dict.left, dict.right;
      if IsRed(l.left) then
        var b := RBNode(Black, dict.key, dict.value, l.right, r.(color := Red));
        assert Size(b) == Size(l.right) + 1 + Size(r) && Size(l.left.(color := Black)) == Size(l.left);
        RBNode(Red, l.key, l.value, l.left.(color := Black), b)
      else
        RBNode(Black, dict.key, dict.value, l.(color := Red), r.(color := Red))
    else
      dict
  }

  function RemoveHelpPrepEQGT<V>(dict: Dict<V>): (r: Dict<V>)
    requires dict.RBNode?
    ensures Size(r) == Size(dict)
  {
    var left, right := dict.left, dict.right;
    if IsRed(left) then
      RBNode(dict.color, left.key, left.value, left.left,
             RBNode(Red, dict.key, dict.value, left.right, right))
    else if right.RBNode? && right.color == Black && !IsRed(right.left) then
      MoveRedRight(dict)
    else
      dict
  }

  function RemoveMin<V>(dict: Dict<V>): Dict<V>
    decreases Size(dict)
  {
    if dict.RBNode? && dict.left.RBNode? then
      var left := dict.left;
      if left.color == Black then
        if IsRed(left.left) then
          dict.(left := RemoveMin(left))
        else
          var n := MoveRedLeft(dict);
          assert Size(n) == Size(dict) && n.RBNode?;
          Balance(n.color, n.key, n.value, RemoveMin(n.left), n.right)
      else
        dict.(left := RemoveMin(left))
    else
      RBEmpty
  }

  function RemoveHelp<V>(targetKey: int, dict: Dict<V>): Dict<V>
    decreases Size(dict), 1
  {
    if dict.RBEmpty? then RBEmpty
    else if targetKey < dict.key then
      var left := dict.left;
      if left.RBNode? && left.color == Black then
        if IsRed(left.left) then
          dict.(left := RemoveHelp(targetKey, left))
        else
          var n := MoveRedLeft(dict);
          Balance(n.color, n.key, n.value, RemoveHelp(targetKey, n.left), n.right)
      else
        dict.(left := RemoveHelp(targetKey, left))
    else
      RemoveHelpEQGT(targetKey, RemoveHelpPrepEQGT(dict))
  }

  function RemoveHelpEQGT<V>(targetKey: int, dict: Dict<V>): Dict<V>
    decreases Size(dict), 0
  {
    if dict.RBEmpty? then RBEmpty
    else if targetKey == dict.key then
      var m := GetMin(dict.right);
      if m.RBNode? then
        Balance(dict.color, m.key, m.value, dict.left, RemoveMin(dict.right))
      else
        RBEmpty
    else
      Balance(dict.color, dict.key, dict.value, dict.left, RemoveHelp(targetKey, dict.right))
  }

  function Remove<V>(key: int, dict: Dict<V>): Dict<V> {
    Blacken(RemoveHelp(key, dict))
  }

  function Update<V>(targetKey: int, alter: Option<V> -> Option<V>, dictionary: Dict<V>): Dict<V> {
    match alter(Get(targetKey, dictionary))
    case Some(value) => Insert(targetKey, value, dictionary)
    case None => Remove(targetKey, dictionary)
  }

  function Foldr<V, B>(func: (int, V, B) -> B, acc: B, t: Dict<V>): B
    decreases t
  {
    match t
    case RBEmpty => acc
    case RBNode(_, key, value, left, right) =>
      Foldr(func, func(key, value, Foldr(func, acc, right)), left)
  }

  function ToList<V>(dict: Dict<V>): seq<(int, V)> {
    Foldr(ConsEntry, [], dict)
  }

  function ConsEntry<V>(key: int, value: V, list: seq<(int, V)>): seq<(int, V)> {
    [(key, value)] + list
  }

  // ----- what a dictionary means -----

  function Size<V>(t: Dict<V>): nat {
    if t.RBEmpty? then 0 else Size(t.left) + 1 + Size(t.right)
  }

  /** The entries from left to right. */
  function InOrder<V>(t: Dict<V>): seq<(int, V)> {
    if t.RBEmpty? then [] else InOrder(t.left) + [(t.key, t.value)] + InOrder(t.right)
  }

  ghost predicate Sorted<V>(s: seq<(int, V)>) {
    forall i, j :: 0 <= i < j < |s| ==> s[i].0 < s[j].0
  }

  /** The entries of `s` whose key is not `k`. */
  function Without<V>(s: seq<(int, V)>, k: int): seq<(int, V)> {
    if s == [] then []
    else (if s[0].0 == k then [] else [s[0]]) + Without(s[1..], k)
  }

  function Below<V>(s: seq<(int, V)>, k: int): seq<(int, V)> {
    if s == [] then []
    else (if s[0].0 < k then [s[0]] else []) + Below(s[1..], k)
  }

  function Above<V>(s: seq<(int, V)>, k: int): seq<(int, V)> {
    if s == [] then []
    else (if k < s[0].0 then [s[0]] else []) + Above(s[1..], k)
  }

  function Lookup<V>(s: seq<(int, V)>, k: int): Option<V> {
    if s == [] then None
    else if s[0].0 == k then Some(s[0].1)
    else Lookup(s[1..], k)
  }

  // ----- the shape -----

  function BlackHeight<V>(t: Dict<V>): nat {
    if t.RBEmpty? then 0 else BlackHeight(t.left) + (if t.color == Black then 1 else 0)
  }

  function Height<V>(t: Dict<V>): nat {
    if t.RBEmpty? then 0
    else 1 + (if Height(t.left) < Height(t.right) then Height(t.right) else Height(t.left))
  }

  /** Equal black height, no red right child, no red node with a red left child. */
  ghost predicate Shaped<V>(t: Dict<V>) {
    t.RBNode? ==>
      && Shaped(t.left) && Shaped(t.right) && BlackHeight(t.left) == BlackHeight(t.right)
      && !IsRed(t.right)
      && (t.color == Red ==> !IsRed(t.left))
  }

  /** A legal dictionary. */
  ghost predicate Valid<V>(t: Dict<V>) {
    Shaped(t) && !IsRed(t) && Sorted(InOrder(t))
  }

  // ----- sorted lists -----

  lemma {:induction false} WithoutAppend<V>(a: seq<(int, V)>, b: seq<(int, V)>, k: int)
    ensures Without(a + b, k) == Without(a, k) + Without(b, k)
  {
    if a == [] {
      assert a + b == b;
    } else {
      assert (a + b)[1..] == a[1..] + b;
      WithoutAppend(a[1..], b, k);
    }
  }

  lemma {:induction false} WithoutAbsent<V>(s: seq<(int, V)>, k: int)
    requires forall i :: 0 <= i < |s| ==> s[i].0 != k
    ensures Without(s, k) == s
  {
    if s != [] {
      WithoutAbsent(s[1..], k);
    }
  }

  /** Splitting a sorted list at one of its entries. */
  lemma SortedSplit<V>(a: seq<(int, V)>, e: (int, V), b: seq<(int, V)>)
    ensures Sorted(a + [e] + b) <==>
            && Sorted(a) && Sorted(b)
            && (forall i :: 0 <= i < |a| ==> a[i].0 < e.0)
            && (forall i :: 0 <= i < |b| ==> e.0 < b[i].0)
  {
    var s := a + [e] + b;
    if Sorted(s) {
      forall i | 0 <= i < |a| ensures a[i].0 < e.0 {
        assert s[i] == a[i] && s[|a|] == e;
      }
      forall i | 0 <= i < |b| ensures e.0 < b[i].0 {
        assert s[|a| + 1 + i] == b[i] && s[|a|] == e;
      }
      forall i, j | 0 <= i < j < |a| ensures a[i].0 < a[j].0 {
        assert s[i] == a[i] && s[j] == a[j];
      }
      forall i, j | 0 <= i < j < |b| ensures b[i].0 < b[j].0 {
        assert s[|a| + 1 + i] == b[i] && s[|a| + 1 + j] == b[j];
      }
    }
  }

  lemma WithoutSplit<V>(a: seq<(int, V)>, e: (int, V), b: seq<(int, V)>, k: int)
    requires Sorted(a + [e] + b)
    ensures k < e.0 ==> Without(a + [e] + b, k) == Without(a, k) + [e] + b
    ensures k == e.0 ==> Without(a + [e] + b, k) == a + b
    ensures k > e.0 ==> Without(a + [e] + b, k) == a + [e] + Without(b, k)
  {
    SortedSplit(a, e, b);
    hide Sorted;
    WithoutAppend(a + [e], b, k);
    WithoutAppend(a, [e], k);
    assert Without([e], k) == if e.0 == k then [] else [e] by {
      assert [e][1..] == [];
    }
    hide Without;
    if k <= e.0 {
      WithoutAbsent(b, k);
    }
    if k >= e.0 {
      WithoutAbsent(a, k);
    }
  }

  // ----- rotations keep the entries in order -----

  lemma Node<V>(c: Color, k: int, v: V, l: Dict<V>, r: Dict<V>)
    ensures InOrder(RBNode(c, k, v, l, r)) == InOrder(l) + [(k, v)] + InOrder(r)
  {
  }

  lemma BalanceInOrder<V>(color: Color, key: int, value: V, left: Dict<V>, right: Dict<V>)
    ensures InOrder(Balance(color, key, value, left, right)) == InOrder(left) + [(key, value)] + InOrder(right)
  {
    var t := Balance(color, key, value, left, right);
    if IsRed(right) {
      Node(right.color, right.key, right.value, right.left, right.right);
      if IsRed(left) {
        Node(Black, left.key, left.value, left.left, left.right);
        Node(Black, right.key, right.value, right.left, right.right);
      } else {
        Node(Red, key, value, left, right.left);
      }
    } else if IsRed(left) && IsRed(left.left) {
      var ll := left.left;
      Node(Black, ll.key, ll.value, ll.left, ll.right);
      Node(Black, key, value, left.right, right);
    }
  }

  lemma MoveRedLeftInOrder<V>(t: Dict<V>)
    ensures InOrder(MoveRedLeft(t)) == InOrder(t)
  {
    if t.RBNode? && t.left.RBNode? && t.right.RBNode? {
      var l, r := t.left, t.right;
      Node(Red, l.key, l.value, l.left, l.right);
      if IsRed(r.left) {
        var rl := r.left;
        Node(Black, t.key, t.value, l.(color := Red), rl.left);
        Node(Black, r.key, r.value, rl.right, r.right);
        Node(rl.color, rl.key, rl.value, rl.left, rl.right);
        Node(r.color, r.key, r.value, rl, r.right);
      } else {
        Node(Red, r.key, r.value, r.left, r.right);
      }
    }
  }

  lemma MoveRedRightInOrder<V>(t: Dict<V>)
    ensures InOrder(MoveRedRight(t)) == InOrder(t)
  {
    if t.RBNode? && t.left.RBNode? && t.right.RBNode? {
      var l, r := t.left, t.right;
      assert InOrder(r.(color := Red)) == InOrder(r) && InOrder(l.(color := Red)) == InOrder(l);
      if IsRed(l.left) {
        var ll := l.left;
        Node(Black, ll.key, ll.value, ll.left, ll.right);
        Node(Black, t.key, t.value, l.right, r.(color := Red));
      } else {
        Node(Red, l.key, l.value, l.left, l.right);
      }
    }
  }

  lemma PrepInOrder<V>(t: Dict<V>)
    requires t.RBNode?
    ensures InOrder(RemoveHelpPrepEQGT(t)) == InOrder(t)
  {
    if IsRed(t.left) {
      Node(Red, t.key, t.value, t.left.right, t.right);
    } else {
      MoveRedRightInOrder(t);
    }
  }

  // ----- insertion -----

  /** Well shaped except that a red root may have a red left child. */
  ghost predicate Near<V>(t: Dict<V>) {
    t.RBNode? ==>
      && Shaped(t.left) && Shaped(t.right) && BlackHeight(t.left) == BlackHeight(t.right)
      && !IsRed(t.right)
  }

  /** What `Balance` restores, for a left subtree that may be red-red at its root. */
  lemma BalanceShaped<V>(color: Color, key: int, value: V, left: Dict<V>, right: Dict<V>)
    requires Near(left) && Shaped(right) && BlackHeight(left) == BlackHeight(right)
    requires Shaped(left) || (color == Black && !IsRed(right))
    requires color == Black || !IsRed(left) || !IsRed(right)
    ensures var t := Balance(color, key, value, left, right);
            && t.RBNode? && Near(t)
            && BlackHeight(t) == BlackHeight(left) + (if color == Black then 1 else 0)
            && (color == Black || (!IsRed(left) && !IsRed(right)) ==> Shaped(t))
            && (color == Black && !IsRed(left) ==> !IsRed(t))
  {
  }

  lemma {:induction false} InsertHelpShaped<V>(key: int, value: V, t: Dict<V>)
    requires Shaped(t)
    ensures var r := InsertHelp(key, value, t);
            && Near(r) && BlackHeight(r) == BlackHeight(t)
            && (!IsRed(t) ==> Shaped(r))
  {
    if t.RBNode? {
      if key < t.key {
        InsertHelpShaped(key, value, t.left);
        BalanceShaped(t.color, t.key, t.value, InsertHelp(key, value, t.left), t.right);
      } else if key > t.key {
        InsertHelpShaped(key, value, t.right);
        BalanceShaped(t.color, t.key, t.value, t.left, InsertHelp(key, value, t.right));
      }
    }
  }

  lemma Associative<T>(a: seq<T>, b: seq<T>, c: seq<T>)
    ensures a + (b + c) == a + b + c
  {
  }

  lemma BelowCons<V>(e: (int, V), s: seq<(int, V)>, k: int)
    ensures Below([e] + s, k) == (if e.0 < k then [e] else []) + Below(s, k)
  {
    assert ([e] + s)[1..] == s;
  }

  lemma {:induction false} BelowAppend<V>(a: seq<(int, V)>, b: seq<(int, V)>, k: int)
    ensures Below(a + b, k) == Below(a, k) + Below(b, k)
  {
    if a == [] {
      assert a + b == b;
    } else {
      hide Below;
      var e, t := a[0], a[1..];
      BelowAppend(t, b, k);
      BelowCons(e, t, k);
      BelowCons(e, t + b, k);
      assert a == [e] + t;
      Associative([e], t, b);
      Associative(if e.0 < k then [e] else [], Below(t, k), Below(b, k));
    }
  }

  lemma AboveCons<V>(e: (int, V), s: seq<(int, V)>, k: int)
    ensures Above([e] + s, k) == (if k < e.0 then [e] else []) + Above(s, k)
  {
    assert ([e] + s)[1..] == s;
  }

  lemma {:induction false} AboveAppend<V>(a: seq<(int, V)>, b: seq<(int, V)>, k: int)
    ensures Above(a + b, k) == Above(a, k) + Above(b, k)
  {
    if a == [] {
      assert a + b == b;
    } else {
      hide Above;
      var e, t := a[0], a[1..];
      AboveAppend(t, b, k);
      AboveCons(e, t, k);
      AboveCons(e, t + b, k);
      assert a == [e] + t;
      Associative([e], t, b);
      Associative(if k < e.0 then [e] else [], Above(t, k), Above(b, k));
    }
  }

  lemma BelowAboveAppend<V>(a: seq<(int, V)>, b: seq<(int, V)>, k: int)
    ensures Below(a + b, k) == Below(a, k) + Below(b, k)
    ensures Above(a + b, k) == Above(a, k) + Above(b, k)
  {
    hide *;
    BelowAppend(a, b, k);
    AboveAppend(a, b, k);
  }

  lemma {:induction false} AllBelow<V>(s: seq<(int, V)>, k: int)
    requires forall i :: 0 <= i < |s| ==> s[i].0 < k
    ensures Below(s, k) == s && Above(s, k) == []
  {
    if s != [] {
      AllBelow(s[1..], k);
    }
  }

  lemma {:induction false} AllAbove<V>(s: seq<(int, V)>, k: int)
    requires forall i :: 0 <= i < |s| ==> k < s[i].0
    ensures Below(s, k) == [] && Above(s, k) == s
  {
    if s != [] {
      AllAbove(s[1..], k);
    }
  }

  /** The sorted list `s` with its entry for `k` set to `v`. */
  function With<V>(s: seq<(int, V)>, k: int, v: V): seq<(int, V)> {
    Below(s, k) + [(k, v)] + Above(s, k)
  }

  lemma BelowAboveOne<V>(e: (int, V), k: int)
    ensures Below([e], k) == (if e.0 < k then [e] else [])
    ensures Above([e], k) == (if k < e.0 then [e] else [])
  {
    assert [e][1..] == [];
  }

  lemma WithSplit<V>(a: seq<(int, V)>, e: (int, V), b: seq<(int, V)>, k: int, v: V)
    requires Sorted(a + [e] + b)
    ensures k < e.0 ==> With(a + [e] + b, k, v) == With(a, k, v) + [e] + b
    ensures k == e.0 ==> With(a + [e] + b, k, v) == a + [(k, v)] + b
    ensures k > e.0 ==> With(a + [e] + b, k, v) == a + [e] + With(b, k, v)
  {
    SortedSplit(a, e, b);
    hide Sorted, Below, Above;
    BelowAboveAppend(a + [e], b, k);
    BelowAboveAppend(a, [e], k);
    BelowAboveOne(e, k);
    if k <= e.0 {
      AllAbove(b, k);
    }
    if k >= e.0 {
      AllBelow(a, k);
    }
  }

  lemma {:induction false} InsertHelpInOrder<V>(key: int, value: V, t: Dict<V>)
    requires Sorted(InOrder(t))
    ensures InOrder(InsertHelp(key, value, t)) == With(InOrder(t), key, value)
  {
    hide Sorted, Balance, With;
    if t.RBEmpty? {
      Node(Red, key, value, RBEmpty, RBEmpty);
      assert With<V>([], key, value) == [(key, value)] by { WithNothing(key, value); }
    } else {
      var a, e, b := InOrder(t.left), (t.key, t.value), InOrder(t.right);
      SortedSplit(a, e, b);
      WithSplit(a, e, b, key, value);
      if key < t.key {
        InsertHelpInOrder(key, value, t.left);
        BalanceInOrder(t.color, t.key, t.value, InsertHelp(key, value, t.left), t.right);
      } else if key > t.key {
        InsertHelpInOrder(key, value, t.right);
        BalanceInOrder(t.color, t.key, t.value, t.left, InsertHelp(key, value, t.right));
      } else {
        Node(t.color, t.key, value, t.left, t.right);
      }
    }
  }

  lemma WithNothing<V>(k: int, v: V)
    ensures With([], k, v) == [(k, v)]
  {
  }

  // ----- removal of the least entry -----

  /** The node to descend into, or its left child, is red (or there is no node). */
  ghost predicate Lean<V>(t: Dict<V>) {
    Shaped(t) && (t.RBNode? && t.color == Black ==> IsRed(t.left))
  }

  /** What removal from a lean subtree gives back. */
  ghost predicate Restored<V>(t: Dict<V>, r: Dict<V>) {
    && Shaped(r) && BlackHeight(r) == BlackHeight(t)
    && (t.RBNode? && t.color == Black ==> !IsRed(r))
  }

  /** A node with lean or right-leaning parts that `Balance` puts right. */
  ghost predicate Flipped<V>(t: Dict<V>) {
    && t.RBNode? && t.color == Black && IsRed(t.left) && IsRed(t.right)
    && Shaped(t.left) && Shaped(t.right) && BlackHeight(t.left) == BlackHeight(t.right)
  }

  /** Going left from a node whose left child is black and not followed by a red one. */
  lemma MoveRedLeftShape<V>(t: Dict<V>)
    requires Shaped(t) && t.RBNode? && !IsRed(t.left) && t.left.RBNode? && !IsRed(t.left.left)
    ensures var n := MoveRedLeft(t);
            && n.RBNode? && Lean(n.left) && n.left.RBNode? && Shaped(n.right)
            && BlackHeight(n.left) == BlackHeight(n.right)
            && BlackHeight(n) == BlackHeight(t.left)
            && ((n.color == Red && n.left.color == Black && !IsRed(n.right)) || Flipped(n))
  {
    assert t.right.RBNode?;
    var r := t.right;
    if IsRed(r.left) {
      var rl := r.left;
      var a := RBNode(Black, t.key, t.value, t.left.(color := Red), rl.left);
      var b := RBNode(Black, r.key, r.value, rl.right, r.right);
      assert Shaped(t.left) && Shaped(r) && Shaped(rl);
      assert BlackHeight(r) == BlackHeight(rl) + 1 && BlackHeight(rl) == BlackHeight(rl.left);
      assert BlackHeight(t.left) == BlackHeight(t.left.left) + 1 && BlackHeight(a.left) == BlackHeight(t.left.left);
      assert Shaped(a) && Shaped(b);
    }
  }

  lemma MinIsFirst<V>(t: Dict<V>)
    requires t.RBNode?
    ensures GetMin(t).RBNode? && InOrder(t) != [] && InOrder(t)[0] == (GetMin(t).key, GetMin(t).value)
  {
    if t.left.RBNode? {
      MinIsFirst(t.left);
    }
  }

  lemma TailOfAppend<T>(a: seq<T>, e: T, b: seq<T>)
    requires a != []
    ensures (a + [e] + b)[1..] == a[1..] + [e] + b
  {
  }

  lemma {:induction false} RemoveMinCorrect<V>(t: Dict<V>)
    requires t.RBNode? && Lean(t)
    ensures Restored(t, RemoveMin(t))
    ensures InOrder(t) != [] && InOrder(RemoveMin(t)) == InOrder(t)[1..]
    decreases Size(t)
  {
    hide Balance, MoveRedLeft;
    if t.left.RBEmpty? {
      assert t.right.RBEmpty?;
    } else {
      MinIsFirst(t.left);
      TailOfAppend(InOrder(t.left), (t.key, t.value), InOrder(t.right));
      if t.left.color == Black && !IsRed(t.left.left) {
        var n := MoveRedLeft(t);
        MoveRedLeftShape(t);
        MoveRedLeftInOrder(t);
        MinIsFirst(n.left);
        TailOfAppend(InOrder(n.left), (n.key, n.value), InOrder(n.right));
        RemoveMinCorrect(n.left);
        BalanceShaped(n.color, n.key, n.value, RemoveMin(n.left), n.right);
        BalanceInOrder(n.color, n.key, n.value, RemoveMin(n.left), n.right);
      } else {
        RemoveMinCorrect(t.left);
      }
    }
  }

  // ----- removal of a key -----

  /** A black node whose only red child is the right one: the shape that exists between
      a rotation to the right and the `Balance` that undoes it. */
  ghost predicate RightLean<V>(t: Dict<V>) {
    && t.RBNode? && t.color == Black && !IsRed(t.left) && IsRed(t.right)
    && Shaped(t.left) && Shaped(t.right) && BlackHeight(t.left) == BlackHeight(t.right)
  }

  /** A root without a red left child, the only node removal enters with no red at hand. */
  ghost predicate BlackRoot<V>(t: Dict<V>) {
    Shaped(t) && t.RBNode? && t.color == Black && !IsRed(t.left)
  }

  /** The nodes `RemoveHelpEQGT` is given for key `k`. */
  ghost predicate ReadyForRight<V>(k: int, d: Dict<V>) {
    && d.RBNode? && d.key <= k && Shaped(d.left) && BlackHeight(d.left) == BlackHeight(d.right)
    && (|| (d.color == Black && Shaped(d.right) && IsRed(d.right))
        || (!IsRed(d.left) && d.right.RBNode? && d.right.color == Black && Lean(d.right))
        || (d.color == Red && !IsRed(d.left) && RightLean(d.right) && d.key < k && d.right.key <= k)
        || (d.left.RBEmpty? && d.right.RBEmpty?))
  }

  /** What comes back from `RemoveHelpEQGT`: the black height drops only at a leaf. */
  ghost predicate RightDone<V>(d: Dict<V>, r: Dict<V>) {
    && Shaped(r)
    && (|| BlackHeight(r) == BlackHeight(d)
        || (d.RBNode? && d.color == Black && d.left.RBEmpty? && d.right.RBEmpty? && r.RBEmpty?))
    && (RightLean(d) ==> BlackHeight(r) == BlackHeight(d) && !IsRed(r))
    && (d.RBNode? && d.color == Black && !IsRed(d.right) ==> !IsRed(r))
  }

  ghost predicate Removable<V>(k: int, t: Dict<V>) {
    Lean(t) || (RightLean(t) && t.key <= k) || BlackRoot(t)
  }

  ghost predicate Removed<V>(t: Dict<V>, r: Dict<V>) {
    && Shaped(r)
    && (t.RBEmpty? ==> r.RBEmpty?)
    && (Lean(t) || RightLean(t) ==>
          BlackHeight(r) == BlackHeight(t) && (t.RBNode? && t.color == Black ==> !IsRed(r)))
    && (BlackRoot(t) ==> BlackHeight(r) == BlackHeight(t) || BlackHeight(r) + 1 == BlackHeight(t))
  }

  /** A left child that is red is rotated to the right. */
  lemma PrepOfLeanBlack<V>(k: int, t: Dict<V>)
    requires t.RBNode? && t.color == Black && Lean(t) && t.key <= k
    requires t.left.RBNode? && t.left.key < t.key
    ensures var d := RemoveHelpPrepEQGT(t);
            RightLean(d) && ReadyForRight(k, d) && BlackHeight(d) == BlackHeight(t)
  {
    var l := t.left;
    assert Shaped(l) && Shaped(l.left) && Shaped(l.right);
    var b := RBNode(Red, t.key, t.value, l.right, t.right);
    assert Shaped(b);
  }

  lemma MoveRedRightShape<V>(k: int, t: Dict<V>)
    requires t.RBNode? && Shaped(t) && !IsRed(t.left) && t.key <= k
    requires t.left.RBNode? && t.left.key < t.key
    requires t.right.RBNode? && !IsRed(t.right.left)
    ensures var d := MoveRedRight(t);
            && ReadyForRight(k, d) && BlackHeight(d) == BlackHeight(t.left)
            && d.RBNode? && IsBlackNode(d.left) == IsRed(t.left.left) && (d.color == Red || IsRed(d.right))
  {
    var l, r := t.left, t.right;
    assert Shaped(l) && Shaped(r) && Shaped(l.left) && Shaped(l.right);
    assert Shaped(r.(color := Red)) && BlackHeight(r.(color := Red)) == BlackHeight(r.left);
    assert BlackHeight(l) == BlackHeight(l.left) + 1 && BlackHeight(r) == BlackHeight(r.left) + 1;
    if IsRed(l.left) {
      var b := RBNode(Black, t.key, t.value, l.right, r.(color := Red));
      assert RightLean(b) && Shaped(l.left.(color := Black));
    } else {
      assert Shaped(l.(color := Red)) && BlackHeight(l.(color := Red)) == BlackHeight(l.left);
    }
  }

  predicate IsBlackNode<V>(t: Dict<V>) {
    t.RBNode? && t.color == Black
  }

  /** Every removable node is prepared into one that `RemoveHelpEQGT` can take. */
  lemma PrepShape<V>(k: int, t: Dict<V>)
    requires t.RBNode? && Removable(k, t) && t.key <= k
    requires t.left.RBNode? ==> t.left.key < t.key
    ensures var d := RemoveHelpPrepEQGT(t);
            && ReadyForRight(k, d)
            && (t.color == Black && Lean(t) ==> RightLean(d) && BlackHeight(d) == BlackHeight(t))
            && (RightLean(t) ==> d == t)
            && (t.color == Red ==> BlackHeight(d) == BlackHeight(t) && (d.color == Red || d.left.RBNode?))
            && (BlackRoot(t) ==> d == t || BlackHeight(d) + 1 == BlackHeight(t))
            && (BlackRoot(t) && d != t ==> d.left.RBNode?)
  {
    if t.color == Black && IsRed(t.left) {
      PrepOfLeanBlack(k, t);
    } else if t.right.RBNode? && t.right.color == Black && !IsRed(t.right.left) {
      assert t.left.RBNode?;
      MoveRedRightShape(k, t);
    }
  }

  /** Balancing after the right subtree has lost an entry. */
  lemma BalanceRight<V>(k: int, d: Dict<V>, key: int, value: V, r: Dict<V>)
    requires ReadyForRight(k, d) && d.right.RBNode?
    requires Shaped(r) && BlackHeight(r) == BlackHeight(d.right)
    requires d.right.color == Black ==> !IsRed(r)
    ensures RightDone(d, Balance(d.color, key, value, d.left, r))
  {
    BalanceShaped(d.color, key, value, d.left, r);
  }

  /** Removal behind `RemoveHelpPrepEQGT`. */
  lemma {:induction false} RemoveHelpEQGTCorrect<V>(k: int, d: Dict<V>)
    requires ReadyForRight(k, d) && Sorted(InOrder(d))
    ensures RightDone(d, RemoveHelpEQGT(k, d))
    ensures InOrder(RemoveHelpEQGT(k, d)) == Without(InOrder(d), k)
    decreases Size(d), 0
  {
    hide Balance, MoveRedLeft, Without, RemoveHelp, RemoveMin, Sorted, Shaped, Restored, Removed, RightDone;
    var a, e, b := InOrder(d.left), (d.key, d.value), InOrder(d.right);
    SortedSplit(a, e, b);
    WithoutSplit(a, e, b, k);
    if d.right.RBEmpty? {
      RemoveFromLeaf(k, d);
    } else if k == d.key {
      var m := GetMin(d.right);
      MinIsFirst(d.right);
      RemoveMinCorrect(d.right);
      RestoredFacts(d.right, RemoveMin(d.right));
      BalanceRight(k, d, m.key, m.value, RemoveMin(d.right));
      BalanceInOrder(d.color, m.key, m.value, d.left, RemoveMin(d.right));
      assert [b[0]] + b[1..] == b;
      assert a + [b[0]] + b[1..] == a + b;
    } else {
      RemoveHelpCorrect(k, d.right);
      RemovedFacts(d.right, RemoveHelp(k, d.right));
      BalanceRight(k, d, d.key, d.value, RemoveHelp(k, d.right));
      BalanceInOrder(d.color, d.key, d.value, d.left, RemoveHelp(k, d.right));
    }
  }

  lemma RestoredFacts<V>(t: Dict<V>, r: Dict<V>)
    requires Lean(t) && t.RBNode? && Restored(t, r)
    ensures Shaped(r) && BlackHeight(r) == BlackHeight(t) && (t.color == Black ==> !IsRed(r))
  {
  }

  lemma RemovedFacts<V>(t: Dict<V>, r: Dict<V>)
    requires (Lean(t) || RightLean(t)) && t.RBNode? && Removed(t, r)
    ensures Shaped(r) && BlackHeight(r) == BlackHeight(t) && (t.color == Black ==> !IsRed(r))
  {
  }

  lemma RemoveFromLeaf<V>(k: int, d: Dict<V>)
    requires ReadyForRight(k, d) && d.right.RBEmpty?
    ensures d.left.RBEmpty?
    ensures RightDone(d, RemoveHelpEQGT(k, d))
    ensures RemoveHelpEQGT(k, d) == if k == d.key then RBEmpty else RBNode(d.color, d.key, d.value, d.left, RBEmpty)
    ensures Without<V>([], k) == []
  {
  }

  /** Balancing after the left subtree has lost an entry. */
  lemma BalanceLeft<V>(t: Dict<V>, n: Dict<V>, l: Dict<V>)
    requires t.RBNode? && Removable(t.key + 1, t) && Shaped(t)
    requires !IsRed(t.left) && t.left.RBNode? && !IsRed(t.left.left)
    requires n == MoveRedLeft(t)
    requires n.RBNode? && Lean(n.left) && n.left.RBNode? && Shaped(n.right)
    requires BlackHeight(n.left) == BlackHeight(n.right)
    requires BlackHeight(n) == BlackHeight(t.left)
    requires (n.color == Red && n.left.color == Black && !IsRed(n.right)) || Flipped(n)
    requires Removed(n.left, l)
    ensures Removed(t, Balance(n.color, n.key, n.value, l, n.right))
  {
    hide MoveRedLeft, Balance;
    BalanceShaped(n.color, n.key, n.value, l, n.right);
  }

  lemma ReplaceLeft<V>(t: Dict<V>, l: Dict<V>)
    requires t.RBNode? && Shaped(t) && Lean(t.left) && Removed(t.left, l)
    requires t.color == Red ==> !IsRed(t.left)
    ensures Removed(t, t.(left := l))
  {
  }

  /** Removal keeps the shape as far as a caller can repair it, and drops exactly the key. */
  lemma {:induction false} RemoveHelpCorrect<V>(k: int, t: Dict<V>)
    requires Removable(k, t) && Sorted(InOrder(t))
    ensures Removed(t, RemoveHelp(k, t))
    ensures InOrder(RemoveHelp(k, t)) == Without(InOrder(t), k)
    decreases Size(t), 1
  {
    hide Balance, MoveRedLeft, RemoveHelpPrepEQGT, Without, RemoveHelpEQGT, Sorted, Removed, RightDone, Removable;
    if t.RBEmpty? {
      RemoveFromEmpty<V>(k);
    } else {
      var a, e, b := InOrder(t.left), (t.key, t.value), InOrder(t.right);
      SortedSplit(a, e, b);
      if k < t.key {
        WithoutSplit(a, e, b, k);
        GoingLeft(k, t);
        if IsBlackNode(t.left) && !IsRed(t.left.left) {
          var n := MoveRedLeft(t);
          MoveRedLeftShape(t);
          MoveRedLeftInOrder(t);
          SortedSplit(InOrder(n.left), (n.key, n.value), InOrder(n.right));
          LeanIsRemovable(k, n.left);
          RemoveHelpCorrect(k, n.left);
          BalanceLeft(t, n, RemoveHelp(k, n.left));
          BalanceInOrder(n.color, n.key, n.value, RemoveHelp(k, n.left), n.right);
          RotatedBound(t, n, k);
          WithoutSplit(InOrder(n.left), (n.key, n.value), InOrder(n.right), k);
        } else {
          LeanIsRemovable(k, t.left);
          RemoveHelpCorrect(k, t.left);
          ReplaceLeft(t, RemoveHelp(k, t.left));
          Node(t.color, t.key, t.value, RemoveHelp(k, t.left), t.right);
        }
      } else {
        var d := RemoveHelpPrepEQGT(t);
        if t.left.RBNode? {
          RootInOrder(t.left);
        }
        PrepShape(k, t);
        PrepInOrder(t);
        RemoveHelpEQGTCorrect(k, d);
        RightDoneIsRemoved(k, t, d, RemoveHelpEQGT(k, d));
      }
    }
  }

  lemma RemoveFromEmpty<V>(k: int)
    ensures RemoveHelp<V>(k, RBEmpty) == RBEmpty && Removed<V>(RBEmpty, RBEmpty)
    ensures Without<V>([], k) == []
  {
  }

  lemma LeanIsRemovable<V>(k: int, t: Dict<V>)
    requires Lean(t)
    ensures Removable(k, t)
  {
  }

  lemma RootInOrder<V>(t: Dict<V>)
    requires t.RBNode?
    ensures exists i :: 0 <= i < |InOrder(t)| && InOrder(t)[i].0 == t.key
  {
    assert InOrder(t)[|InOrder(t.left)|].0 == t.key;
  }

  /** A removable node whose key is above the target is well shaped, and its left child lean or red-free. */
  lemma GoingLeft<V>(k: int, t: Dict<V>)
    requires Removable(k, t) && t.RBNode? && k < t.key
    ensures Shaped(t) && Removable(t.key + 1, t)
    ensures !(IsBlackNode(t.left) && !IsRed(t.left.left)) ==> Lean(t.left)
    ensures t.color == Red ==> !IsRed(t.left)
  {
  }

  /** After `MoveRedLeft` the target is still to the left of the new root. */
  lemma RotatedBound<V>(t: Dict<V>, n: Dict<V>, k: int)
    requires t.RBNode? && n == MoveRedLeft(t) && n.RBNode? && k < t.key
    requires Sorted(InOrder(t))
    ensures k < n.key
  {
    if t.left.RBNode? && t.right.RBNode? && IsRed(t.right.left) {
      var rl := t.right.left;
      SortedSplit(InOrder(t.left), (t.key, t.value), InOrder(t.right));
      Node(t.right.color, t.right.key, t.right.value, rl, t.right.right);
      var i := |InOrder(rl.left)|;
      assert InOrder(rl)[i] == (rl.key, rl.value);
      assert InOrder(t.right)[i] == (rl.key, rl.value);
    }
  }

  lemma RightDoneIsRemoved<V>(k: int, t: Dict<V>, d: Dict<V>, r: Dict<V>)
    requires t.RBNode? && Removable(k, t) && t.key <= k
    requires t.left.RBNode? ==> t.left.key < t.key
    requires d == RemoveHelpPrepEQGT(t) && d.RBNode? && RightDone(d, r)
    ensures Removed(t, r)
  {
    PrepShape(k, t);
    hide RemoveHelpPrepEQGT;
  }

  // ----- entries and look-ups -----

  lemma {:induction false} FoldrInOrder<V>(acc: seq<(int, V)>, t: Dict<V>)
    ensures Foldr(ConsEntry, acc, t) == InOrder(t) + acc
    decreases t
  {
    if t.RBNode? {
      var right := Foldr(ConsEntry, acc, t.right);
      FoldrInOrder(acc, t.right);
      var here := ConsEntry(t.key, t.value, right);
      FoldrInOrder(here, t.left);
      assert here == [(t.key, t.value)] + InOrder(t.right) + acc;
    }
  }

  lemma {:induction false} LookupAppend<V>(a: seq<(int, V)>, b: seq<(int, V)>, k: int)
    ensures Lookup(a + b, k) == if Lookup(a, k).Some? then Lookup(a, k) else Lookup(b, k)
  {
    if a == [] {
      assert a + b == b;
    } else {
      assert (a + b)[1..] == a[1..] + b;
      LookupAppend(a[1..], b, k);
    }
  }

  lemma {:induction false} LookupAbsent<V>(s: seq<(int, V)>, k: int)
    requires forall i :: 0 <= i < |s| ==> s[i].0 != k
    ensures Lookup(s, k) == None
  {
    if s != [] {
      LookupAbsent(s[1..], k);
    }
  }

  lemma LookupSplit<V>(a: seq<(int, V)>, e: (int, V), b: seq<(int, V)>, k: int)
    requires Sorted(a + [e] + b)
    ensures Lookup(a + [e] + b, k) ==
            if k < e.0 then Lookup(a, k) else if k == e.0 then Some(e.1) else Lookup(b, k)
  {
    SortedSplit(a, e, b);
    LookupAppend(a + [e], b, k);
    LookupAppend(a, [e], k);
    assert Lookup([e], k) == if e.0 == k then Some(e.1) else None by {
      assert [e][1..] == [];
    }
    if k <= e.0 {
      LookupAbsent(b, k);
    }
    if k >= e.0 {
      LookupAbsent(a, k);
    }
  }

  /** The descent finds what a scan of the entries finds. */
  lemma {:induction false} GetIsLookup<V>(k: int, t: Dict<V>)
    requires Sorted(InOrder(t))
    ensures Get(k, t) == Lookup(InOrder(t), k)
  {
    if t.RBNode? {
      SortedSplit(InOrder(t.left), (t.key, t.value), InOrder(t.right));
      LookupSplit(InOrder(t.left), (t.key, t.value), InOrder(t.right), k);
      GetIsLookup(k, t.left);
      GetIsLookup(k, t.right);
    }
  }

  /** Every key of `s` is above `lo`. */
  ghost predicate KeysAbove<V>(s: seq<(int, V)>, lo: int) {
    forall i :: 0 <= i < |s| ==> lo < s[i].0
  }

  lemma KeysAboveCons<V>(e: (int, V), s: seq<(int, V)>, lo: int)
    ensures KeysAbove([e] + s, lo) <==> lo < e.0 && KeysAbove(s, lo)
  {
    assert ([e] + s)[0] == e;
    assert forall i :: 0 <= i < |s| ==> ([e] + s)[i + 1] == s[i];
  }

  lemma SortedCons<V>(e: (int, V), s: seq<(int, V)>)
    ensures Sorted([e] + s) <==> Sorted(s) && KeysAbove(s, e.0)
  {
    SortedSplit([], e, s);
    assert [] + [e] + s == [e] + s;
  }

  /** Dropping entries keeps a list sorted and its keys above any bound. */
  lemma {:induction false} FilterBounds<V>(s: seq<(int, V)>, k: int, lo: int)
    requires KeysAbove(s, lo)
    ensures KeysAbove(Without(s, k), lo) && KeysAbove(Below(s, k), lo) && KeysAbove(Above(s, k), lo)
    ensures KeysAbove(Above(s, k), k)
    ensures forall i :: 0 <= i < |Below(s, k)| ==> Below(s, k)[i].0 < k
  {
    if s != [] {
      var t := s[1..];
      assert forall i :: 0 <= i < |t| ==> t[i] == s[i + 1];
      assert KeysAbove(t, lo) && lo < s[0].0;
      FilterBounds(t, k, lo);
      KeysAboveCons(s[0], Without(t, k), lo);
      KeysAboveCons(s[0], Below(t, k), lo);
      KeysAboveCons(s[0], Above(t, k), lo);
      KeysAboveCons(s[0], Above(t, k), k);
      hide KeysAbove;
    }
  }

  lemma {:induction false} WithoutFacts<V>(s: seq<(int, V)>, k: int, j: int)
    requires Sorted(s)
    ensures Sorted(Without(s, k))
    ensures Lookup(Without(s, k), j) == if j == k then None else Lookup(s, j)
  {
    hide Sorted;
    if s != [] {
      var r := s[1..];
      assert s == [s[0]] + r;
      SortedCons(s[0], r);
      WithoutFacts(r, k, j);
      FilterBounds(r, k, s[0].0);
      SortedCons(s[0], Without(r, k));
      var f := Without(r, k);
      assert Without(s, k) == if s[0].0 == k then f else [s[0]] + f;
      assert ([s[0]] + f)[1..] == f;
      if s[0].0 == k {
        KeyAbsent(r, k);
      }
    }
  }

  lemma KeyAbsent<V>(s: seq<(int, V)>, k: int)
    requires KeysAbove(s, k)
    ensures Lookup(s, k) == None
  {
    LookupAbsent(s, k);
  }

  /** A key at or below the first one is not among the later ones. */
  lemma BelowAbsent<V>(s: seq<(int, V)>, k: int, j: int, first: int)
    requires KeysAbove(s, first)
    ensures j <= first ==> Lookup(Below(s, k), j) == None && Lookup(Above(s, k), j) == None
    ensures j <= first ==> Lookup(s, j) == None
  {
    FilterBounds(s, k, first);
    if j <= first {
      KeyAbsent(s, j);
      KeyAbsent(Below(s, k), j);
      KeyAbsent(Above(s, k), j);
    }
  }

  lemma {:induction false} BelowAboveFacts<V>(s: seq<(int, V)>, k: int, j: int)
    requires Sorted(s)
    ensures Sorted(Below(s, k)) && Sorted(Above(s, k))
    ensures j < k ==> Lookup(Below(s, k), j) == Lookup(s, j)
    ensures k < j ==> Lookup(Above(s, k), j) == Lookup(s, j)
  {
    if s != [] {
      hide Sorted;
      var r := s[1..];
      assert s == [s[0]] + r;
      SortedCons(s[0], r);
      BelowAboveFacts(r, k, j);
      FilterBounds(r, k, s[0].0);
      SortedCons(s[0], Below(r, k));
      SortedCons(s[0], Above(r, k));
      var b, a := Below(r, k), Above(r, k);
      assert Below(s, k) == if s[0].0 < k then [s[0]] + b else b;
      assert Above(s, k) == if k < s[0].0 then [s[0]] + a else a;
      assert ([s[0]] + b)[1..] == b && ([s[0]] + a)[1..] == a;
      BelowAbsent(r, k, j, s[0].0);
    }
  }

  lemma WithFacts<V>(s: seq<(int, V)>, k: int, v: V, j: int)
    requires Sorted(s)
    ensures Sorted(With(s, k, v))
    ensures Lookup(With(s, k, v), j) == if j == k then Some(v) else Lookup(s, j)
  {
    BelowAboveFacts(s, k, j);
    var lo := if s == [] then k else s[0].0 - 1;
    assert KeysAbove(s, lo);
    FilterBounds(s, k, lo);
    hide Below, Above;
    SortedSplit(Below(s, k), (k, v), Above(s, k));
    LookupSplit(Below(s, k), (k, v), Above(s, k), j);
  }

  // ----- main results -----

  /** In-order `ToList` and `Get` agree, and the list is strictly increasing. */
  lemma ToListAgreesWithGet<V>(t: Dict<V>, k: int)
    requires Valid(t)
    ensures ToList(t) == InOrder(t) && Sorted(ToList(t))
    ensures Get(k, t) == Lookup(ToList(t), k)
  {
    FoldrInOrder([], t);
    assert InOrder(t) + [] == InOrder(t);
    GetIsLookup(k, t);
  }

  lemma BlackenKeeps<V>(t: Dict<V>)
    requires Near(t)
    ensures Shaped(Blacken(t)) && !IsRed(Blacken(t)) && InOrder(Blacken(t)) == InOrder(t)
  {
  }

  /** Removing any key, present or not, from a legal dictionary gives a legal dictionary
      without exactly that key. */
  lemma RemoveCorrect<V>(k: int, t: Dict<V>)
    requires Valid(t)
    ensures Valid(Remove(k, t))
    ensures ToList(Remove(k, t)) == Without(ToList(t), k)
    ensures forall j :: Get(j, Remove(k, t)) == if j == k then None else Get(j, t)
  {
    hide RemoveHelp, Without, Sorted, Blacken, Get, InOrder, Foldr, ConsEntry;
    var r := RemoveHelp(k, t);
    assert Removable(k, t);
    RemoveHelpCorrect(k, t);
    assert Near(r);
    BlackenKeeps(r);
    FoldrInOrder([], t);
    FoldrInOrder([], Blacken(r));
    assert InOrder(t) + [] == InOrder(t) && InOrder(Blacken(r)) + [] == InOrder(Blacken(r));
    WithoutFacts(InOrder(t), k, k);
    forall j ensures Get(j, Remove(k, t)) == if j == k then None else Get(j, t) {
      WithoutFacts(InOrder(t), k, j);
      GetIsLookup(j, t);
      GetIsLookup(j, Blacken(r));
    }
  }

  /** Inserting sets exactly the given key. */
  lemma InsertCorrect<V>(k: int, v: V, t: Dict<V>)
    requires Valid(t)
    ensures Valid(Insert(k, v, t))
    ensures ToList(Insert(k, v, t)) == With(ToList(t), k, v)
    ensures forall j :: Get(j, Insert(k, v, t)) == if j == k then Some(v) else Get(j, t)
  {
    hide InsertHelp, With, Sorted, Blacken, Get, InOrder, Foldr, ConsEntry;
    var r := InsertHelp(k, v, t);
    InsertHelpShaped(k, v, t);
    InsertHelpInOrder(k, v, t);
    BlackenKeeps(r);
    FoldrInOrder([], t);
    FoldrInOrder([], Blacken(r));
    assert InOrder(t) + [] == InOrder(t) && InOrder(Blacken(r)) + [] == InOrder(Blacken(r));
    WithFacts(InOrder(t), k, v, k);
    forall j ensures Get(j, Insert(k, v, t)) == if j == k then Some(v) else Get(j, t) {
      WithFacts(InOrder(t), k, v, j);
      GetIsLookup(j, t);
      GetIsLookup(j, Blacken(r));
    }
  }

  /** Updating applies the function to what the key held and touches no other key. */
  lemma UpdateCorrect<V>(k: int, alter: Option<V> -> Option<V>, t: Dict<V>)
    requires Valid(t)
    ensures Valid(Update(k, alter, t))
    ensures forall j :: Get(j, Update(k, alter, t)) == if j == k then alter(Get(k, t)) else Get(j, t)
  {
    hide Insert, Remove, Get, Valid;
    match alter(Get(k, t))
    case Some(v) => InsertCorrect(k, v, t);
    case None => RemoveCorrect(k, t);
  }

  lemma {:induction false} HeightBound<V>(t: Dict<V>)
    requires Shaped(t)
    ensures Height(t) <= 2 * BlackHeight(t) + (if IsRed(t) then 1 else 0)
    ensures Pow2(BlackHeight(t)) <= Size(t) + 1
  {
    if t.RBNode? {
      HeightBound(t.left);
      HeightBound(t.right);
    }
  }

  /** The height is at most twice the black height, and so logarithmic in the size. */
  lemma LogarithmicHeight<V>(t: Dict<V>)
    requires Valid(t)
    ensures Height(t) <= 2 * BlackHeight(t)
    ensures Pow2(Height(t)) <= (Size(t) + 1) * (Size(t) + 1)
  {
    HeightBound(t);
    hide *;
    var h, p, n := BlackHeight(t), Pow2(BlackHeight(t)), Size(t) + 1;
    Pow2Mono(Height(t), h + h);
    Pow2Sum(h, h);
    SquareMono(p, n);
  }

  lemma SquareMono(p: nat, n: nat)
    requires p <= n
    ensures p * p <= n * n
  {
    assert p * p <= p * n <= n * n;
  }
}
