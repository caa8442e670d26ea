/** The generated Unicode letter classes: code points compressed to ranges, and the search for
    a code point among them. */
module UnicodeClasses {

  datatype Range = Range(lo: int, hi: int)

  const FIRST := 0x80
  const LAST := 0x10FFFF

  predicate InSome(table: seq<Range>, code: int) {
    exists i :: 0 <= i < |table| && table[i].lo <= code <= table[i].hi
  }

  /** Each range has a code point, and between two ranges there is one in neither. */
  ghost predicate Separated(table: seq<Range>) {
    && (forall i :: 0 <= i < |table| ==> table[i].lo <= table[i].hi)
    && (forall i, j :: 0 <= i < j < |table| ==> table[i].hi + 1 < table[j].lo)
  }

  /** The ranges of the code points of a category. */
  method Ranges(ok: int -> bool) returns (out: seq<Range>)
    ensures Separated(out)
    ensures forall code :: InSome(out, code) <==> FIRST <= code <= LAST && ok(code)
  {
    out := [];
    var open, start := false, 0;
    for cp := FIRST to LAST + 1
      invariant Separated(out)
      invariant forall i :: 0 <= i < |out| ==> out[i].hi < (if open then start - 1 else cp - 1) && FIRST <= out[i].lo
      invariant open ==> FIRST <= start < cp
      invariant forall code :: InSome(out, code) || (open && start <= code < cp) <==> FIRST <= code < cp && ok(code)
    {
      var was := out;
      if ok(cp) && !open {
        open, start := true, cp;
      }
      if !ok(cp) && open {
        out := out + [Range(start, cp - 1)];
        InMore(was, Range(start, cp - 1));
        open := false;
      }
    }
    if open {
      InMore(out, Range(start, LAST));
      out := out + [Range(start, LAST)];
    }
  }

  lemma InMore(table: seq<Range>, r: Range)
    ensures forall code :: InSome(table + [r], code) <==> InSome(table, code) || r.lo <= code <= r.hi
  {
    forall code
      ensures InSome(table + [r], code) <==> InSome(table, code) || r.lo <= code <= r.hi
    {
      if InSome(table, code) {
        var i :| 0 <= i < |table| && table[i].lo <= code <= table[i].hi;
        assert (table + [r])[i] == table[i];
      }
      assert (table + [r])[|table|] == r;
    }
  }

  /** Binary search over the ranges at `lo` to `hi`. */
  function Search(table: seq<Range>, code: int, lo: int, hi: int): bool
    decreases hi - lo + 1
  {
    if lo > hi then false
    else
      var mid := (lo + hi) / 2;
      var r := if 0 <= mid < |table| then table[mid] else Range(0, -1);
      if code < r.lo then Search(table, code, lo, mid - 1)
      else if code > r.hi then Search(table, code, mid + 1, hi)
      else true
  }

  function InRanges(table: seq<Range>, code: int): bool {
    Search(table, code, 0, |table| - 1)
  }

  /** The search finds what is in one of the ranges it is given, and nothing else. */
  lemma {:induction false} SearchFinds(table: seq<Range>, code: int, lo: int, hi: int)
    requires Separated(table) && 0 <= lo <= hi + 1 <= |table|
    ensures Search(table, code, lo, hi) <==> exists i :: lo <= i <= hi && table[i].lo <= code <= table[i].hi
    decreases hi - lo + 1
  {
    if lo <= hi {
      var mid := (lo + hi) / 2;
      if code < table[mid].lo {
        SearchFinds(table, code, lo, mid - 1);
      } else if code > table[mid].hi {
        SearchFinds(table, code, mid + 1, hi);
      }
    }
  }

  /** What is generated from a category answers as the category does. */
  method IsInClass(ok: int -> bool, code: int) returns (r: bool)
    ensures r <==> FIRST <= code <= LAST && ok(code)
  {
    var table := Ranges(ok);
    SearchFinds(table, code, 0, |table| - 1);
    assert InSome(table, code) <==> exists i :: 0 <= i <= |table| - 1 && table[i].lo <= code <= table[i].hi;
    r := InRanges(table, code);
  }
}
