/** Borrow signatures packed into one 64-bit word. */
module BorrowSignature {
  import opened Options

  datatype Ownership = Owned | Borrowed

  /** Bits 0 to 7 hold the length, bit `8 + i` is set when parameter `i` is owned. */
  type Packed = bv64

  function And(x: bv64, y: bv64): bv64 {
    x & y
  }

  function Or(x: bv64, y: bv64): bv64 {
    x | y
  }

  function AndNot(x: bv64, y: bv64): bv64 {
    x & !y
  }

  function Mask(i: bv64): bv64 {
    if i < 56 then 1 << (i + 8) else 0
  }

  function New(len: bv64): Packed
    requires len < 56
  {
    len
  }

  function Len(s: Packed): bv64 {
    And(s, 0xFF)
  }

  predicate Bit(s: Packed, i: bv64) {
    And(s, Mask(i)) != 0
  }

  predicate Below(i: bv64, n: bv64) {
    i < n
  }

  function Get(s: Packed, i: bv64): Option<Ownership> {
    if Below(i, Len(s)) then Some(if Bit(s, i) then Owned else Borrowed) else None
  }

  /** The new word and whether it differs. */
  function Set(s: Packed, i: bv64, o: Ownership): (Packed, bool)
    requires Len(s) < 56 && i < Len(s)
  {
    (Put(s, i, o), Get(s, i) != Some(o))
  }

  function Put(s: Packed, i: bv64, o: Ownership): Packed {
    if o == Owned then Or(s, Mask(i)) else AndNot(s, Mask(i))
  }

  /** The flag of parameter i is the bit 8 + i, and the length the low byte. */
  lemma Layout(s: Packed, i: bv64)
    requires i < 56
    ensures Bit(s, i) <==> (s >> (i + 8)) & 1 == 1
    ensures Len(s) == s & 0xFF
  {
  }

  lemma ShortLength(len: bv64, i: bv64)
    requires len < 56
    ensures And(len, 0xFF) == len && And(len, Mask(i)) == 0
  {
    hide Mask;
    MaskAbove(i);
    NoCommonBits(len, Mask(i));
  }

  lemma MaskAbove(i: bv64)
    ensures And(Mask(i), 0xFF) == 0
  {
  }

  lemma NoCommonBits(len: bv64, m: bv64)
    requires len < 56 && And(m, 0xFF) == 0
    ensures And(len, 0xFF) == len && And(len, m) == 0
  {
  }

  /** A new signature has the given length and every parameter is borrowed. */
  lemma NewIsBorrowed(len: bv64, i: bv64)
    requires len < 56
    ensures Len(New(len)) == len
    ensures Get(New(len), i) == if i < len then Some(Borrowed) else None
  {
    hide And, Mask;
    ShortLength(len, i);
  }

  lemma MaskIsHigh(i: bv64)
    requires i < 56
    ensures And(Mask(i), 0xFF) == 0 && Mask(i) != 0
  {
  }

  lemma MasksDiffer(i: bv64, j: bv64)
    requires i < 56 && j < 56 && i != j
    ensures And(Mask(i), Mask(j)) == 0
  {
  }

  /** A word has a one-bit mask's bit, or not. */
  lemma OneBit(s: bv64, i: bv64)
    requires i < 56
    ensures And(s, Mask(i)) == 0 || And(s, Mask(i)) == Mask(i)
  {
  }

  lemma OrOther(s: bv64, m: bv64, n: bv64)
    requires And(m, n) == 0
    ensures And(Or(s, m), n) == And(s, n)
  {
  }

  lemma AndNotOther(s: bv64, m: bv64, n: bv64)
    requires And(m, n) == 0
    ensures And(AndNot(s, m), n) == And(s, n)
  {
  }

  /** Setting or clearing one mask leaves a disjoint one alone. */
  lemma OtherMask(s: bv64, m: bv64, n: bv64)
    requires And(m, n) == 0
    ensures And(Or(s, m), n) == And(s, n)
    ensures And(AndNot(s, m), n) == And(s, n)
  {
    hide And, Or, AndNot;
    OrOther(s, m, n);
    AndNotOther(s, m, n);
  }

  lemma SetBit(s: bv64, m: bv64)
    ensures And(Or(s, m), m) == m
  {
  }

  lemma ClearedBit(s: bv64, m: bv64)
    ensures And(AndNot(s, m), m) == 0
  {
  }

  lemma AlreadyClear(s: bv64, m: bv64)
    requires And(s, m) == 0
    ensures AndNot(s, m) == s
  {
  }

  lemma AlreadySet(s: bv64, m: bv64)
    requires And(s, m) == m
    ensures Or(s, m) == s
  {
  }

  /** The word behaves as an array of flags: setting one entry changes that entry and no other,
      and the flag returned says whether anything changed. */
  lemma SetRefinesUpdate(s: Packed, i: bv64, o: Ownership, j: bv64)
    requires Len(s) < 56 && i < Len(s)
    ensures var (t, modified) := Set(s, i, o);
            && Len(t) == Len(s)
            && Get(t, j) == (if j == i then Some(o) else Get(s, j))
            && (modified <==> t != s)
  {
    hide And, Or, AndNot, Mask, Len, Bit, Put, Get;
    SetWord(s, i, o);
    GetAfterPut(s, i, o, j);
  }

  lemma SetWord(s: Packed, i: bv64, o: Ownership)
    requires Len(s) < 56 && i < Len(s)
    ensures Set(s, i, o).0 == Put(s, i, o) && Len(Put(s, i, o)) == Len(s)
    ensures Set(s, i, o).1 <==> Put(s, i, o) != s
  {
    hide And, Or, AndNot, Mask, Len, Bit, Put;
    PutLen(s, i, o);
    PutChanges(s, i, o);
  }

  lemma GetAfterPut(s: Packed, i: bv64, o: Ownership, j: bv64)
    requires Len(s) < 56 && i < Len(s)
    ensures Get(Put(s, i, o), j) == if j == i then Some(o) else Get(s, j)
  {
    hide And, Or, AndNot, Mask, Len, Bit, Put;
    PutLen(s, i, o);
    PutBit(s, i, o);
    if j < 56 && j != i {
      PutOther(s, i, o, j);
    }
  }

  lemma PutLen(s: Packed, i: bv64, o: Ownership)
    requires i < 56
    ensures Len(Put(s, i, o)) == Len(s)
  {
    hide And, Or, AndNot, Mask;
    MaskIsHigh(i);
    OtherMask(s, Mask(i), 0xFF);
  }

  lemma PutBit(s: Packed, i: bv64, o: Ownership)
    requires i < 56
    ensures Bit(Put(s, i, o), i) <==> o == Owned
  {
    hide And, Or, AndNot, Mask;
    MaskIsHigh(i);
    SetBit(s, Mask(i));
    ClearedBit(s, Mask(i));
  }

  lemma PutOther(s: Packed, i: bv64, o: Ownership, j: bv64)
    requires i < 56 && j < 56 && j != i
    ensures Bit(Put(s, i, o), j) <==> Bit(s, j)
  {
    hide And, Or, AndNot, Mask;
    MasksDiffer(i, j);
    OtherMask(s, Mask(i), Mask(j));
  }

  lemma PutChanges(s: Packed, i: bv64, o: Ownership)
    requires i < 56
    ensures Put(s, i, o) == s <==> (Bit(s, i) <==> o == Owned)
  {
    PutBit(s, i, o);
    hide And, Or, AndNot, Mask;
    OneBit(s, i);
    if Bit(s, i) {
      AlreadySet(s, Mask(i));
    } else {
      AlreadyClear(s, Mask(i));
    }
  }

  // ----- words as sequences of flags -----

  /** A parameter's position as a machine word. */
  function Index(i: nat): bv64
    decreases i
  {
    if i == 0 then 0 else Append(Index(i / 2), i % 2 == 1)
  }

  function Append(x: bv64, low: bool): bv64 {
    (x << 1) | (if low then 1 else 0)
  }

  lemma AppendSmall(x: bv64, low: bool)
    ensures x < 1 ==> Append(x, low) < 2
    ensures x < 2 ==> Append(x, low) < 4
    ensures x < 4 ==> Append(x, low) < 8
    ensures x < 8 ==> Append(x, low) < 16
    ensures x < 16 ==> Append(x, low) < 32
    ensures x < 32 ==> Append(x, low) < 64
  {
  }

  lemma AppendOrder(x: bv64, low: bool, y: bv64, low': bool)
    requires Below(x, 32) && Below(y, 32)
    ensures Below(Append(x, low), Append(y, low')) <==> Below(x, y) || (x == y && !low && low')
    ensures Append(x, low) == Append(y, low') <==> x == y && low == low'
  {
  }

  lemma {:induction false} IndexSmall(i: nat)
    ensures i < 1 ==> Index(i) < 1
    ensures i < 2 ==> Index(i) < 2
    ensures i < 4 ==> Index(i) < 4
    ensures i < 8 ==> Index(i) < 8
    ensures i < 16 ==> Index(i) < 16
    ensures i < 32 ==> Index(i) < 32
    ensures i < 64 ==> Index(i) < 64
    decreases i
  {
    hide Append;
    if i > 0 {
      IndexSmall(i / 2);
      AppendSmall(Index(i / 2), i % 2 == 1);
    }
  }

  lemma IndexStep(i: nat)
    requires i < 64
    ensures Index(i) == Append(Index(i / 2), i % 2 == 1) && Below(Index(i / 2), 32)
  {
    IndexSmall(i / 2);
    assert Index(0) == 0 && Append(0, false) == 0;
  }

  lemma Halves(i: nat, j: nat)
    ensures i < j <==> i / 2 < j / 2 || (i / 2 == j / 2 && i % 2 != 1 && j % 2 == 1)
    ensures i == j <==> i / 2 == j / 2 && (i % 2 == 1 <==> j % 2 == 1)
  {
  }

  lemma {:induction false} BelowOrder(i: nat, j: nat)
    requires i < 64 && j < 64
    ensures Below(Index(i), Index(j)) <==> i < j
    ensures Index(i) == Index(j) <==> i == j
    decreases i + j
  {
    hide Append, Index, Below;
    if i == 0 && j == 0 {
      BelowIs(Index(i), Index(j));
    } else {
      BelowOrder(i / 2, j / 2);
      IndexStep(i);
      IndexStep(j);
      AppendOrder(Index(i / 2), i % 2 == 1, Index(j / 2), j % 2 == 1);
      Halves(i, j);
    }
  }

  /** Positions are ordered and told apart as numbers are. */
  lemma IndexOrder(i: nat, j: nat)
    requires i < 64 && j < 64
    ensures Index(i) < Index(j) <==> i < j
    ensures Index(i) == Index(j) <==> i == j
  {
    hide Index;
    BelowOrder(i, j);
    BelowIs(Index(i), Index(j));
  }

  lemma Index56()
    ensures Index(56) == 56
  {
    assert Append(0, true) == 1 && Append(1, true) == 3 && Append(3, true) == 7;
    assert Append(7, false) == 14 && Append(14, false) == 28 && Append(28, false) == 56;
    hide Append;
    assert Index(3) == Append(Index(1), true) && Index(1) == Append(Index(0), true);
    assert Index(7) == Append(Index(3), true) && Index(14) == Append(Index(7), false);
    assert Index(28) == Append(Index(14), false) && Index(56) == Append(Index(28), false);
  }

  lemma IndexFits(i: nat)
    requires i < 56
    ensures Index(i) < 56
  {
    hide Index;
    Index56();
    IndexOrder(i, 56);
  }

  /** The flags of a signature of `n` parameters. */
  function Flags(s: Packed, n: nat): (r: seq<Ownership>)
    ensures |r| == n
  {
    seq(n, i requires 0 <= i => if Bit(s, Index(i)) then Owned else Borrowed)
  }

  /** The word has a flag for each of `n` parameters. */
  predicate Holds(s: Packed, n: nat) {
    n < 56 && Len(s) == Index(n)
  }

  /** Reading by position, and past the end. */
  lemma FlagsGet(s: Packed, n: nat, i: nat)
    requires Holds(s, n) && i < 64
    ensures Get(s, Index(i)) == if i < n then Some(Flags(s, n)[i]) else None
  {
    hide Index, Get;
    FlagAt(s, Index(i), Index(n));
    IndexOrder(i, n);
  }

  lemma FlagAt(s: Packed, i: bv64, n: bv64)
    requires Len(s) == n
    ensures Get(s, i) == if i < n then Some(if Bit(s, i) then Owned else Borrowed) else None
  {
    hide Bit, Len, Below;
    BelowIs(i, n);
  }

  lemma BelowIs(i: bv64, n: bv64)
    ensures Below(i, n) <==> i < n
  {
  }

  /** Setting by position updates the sequence there, and says whether the flag differed. */
  lemma FlagsSet(s: Packed, n: nat, i: nat, o: Ownership)
    requires Holds(s, n) && i < n
    ensures Len(s) < 56 && Index(i) < Len(s)
    ensures var (t, modified) := Set(s, Index(i), o);
            Holds(t, n) && Flags(t, n) == Flags(s, n)[i := o] && (modified <==> Flags(s, n)[i] != o)
  {
    hide Index, Bit, Len, Put, Get, Mask, And;
    IndexFits(n);
    IndexOrder(i, n);
    var t := Set(s, Index(i), o).0;
    SetRefinesUpdate(s, Index(i), o, Index(i));
    FlagsGet(s, n, i);
    forall j | 0 <= j < n
      ensures Flags(t, n)[j] == Flags(s, n)[i := o][j]
    {
      SetRefinesUpdate(s, Index(i), o, Index(j));
      FlagsGet(s, n, j);
      FlagsGet(t, n, j);
      IndexOrder(i, j);
    }
  }

  lemma FlagsNew(n: nat)
    requires n < 56
    ensures Index(n) < 56
    ensures Holds(New(Index(n)), n) && Flags(New(Index(n)), n) == seq(n, _ => Borrowed)
  {
    hide Index, Bit, Len, Get;
    IndexFits(n);
    NewIsBorrowed(Index(n), 0);
    forall i | 0 <= i < n
      ensures Flags(New(Index(n)), n)[i] == Borrowed
    {
      IndexOrder(i, n);
      NewIsBorrowed(Index(n), Index(i));
      FlagsGet(New(Index(n)), n, i);
    }
  }
}
