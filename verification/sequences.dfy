/** Choosing from a sequence, read from the front. */
module Sequences {

  /** The elements that are to be kept, in order. */
  function Filter<T>(all: seq<T>, keep: T -> bool): seq<T> {
    if all == [] then [] else (if keep(all[0]) then [all[0]] else []) + Filter(all[1..], keep)
  }

  lemma FilterCons<T>(x: T, rest: seq<T>, keep: T -> bool)
    ensures Filter([x] + rest, keep) == (if keep(x) then [x] else []) + Filter(rest, keep)
  {
    assert ([x] + rest)[1..] == rest;
  }

  lemma Associate<T>(a: seq<T>, b: seq<T>, c: seq<T>)
    ensures a + (b + c) == (a + b) + c
  {
  }

  lemma {:induction false} FilterConcat<T>(a: seq<T>, b: seq<T>, keep: T -> bool)
    ensures Filter(a + b, keep) == Filter(a, keep) + Filter(b, keep)
  {
    if a == [] {
      assert a + b == b;
    } else {
      hide Filter;
      var x, rest := a[0], a[1..];
      FilterConcat(rest, b, keep);
      FilterCons(x, rest, keep);
      FilterCons(x, rest + b, keep);
      Associate([x], rest, b);
      Associate(if keep(x) then [x] else [], Filter(rest, keep), Filter(b, keep));
      assert a == [x] + rest;
    }
  }

  lemma FilterOne<T>(x: T, keep: T -> bool)
    ensures Filter([x], keep) == if keep(x) then [x] else []
  {
    assert [x][1..] == [];
  }

  /** The last element is kept or not. */
  lemma FilterSnoc<T>(all: seq<T>, keep: T -> bool)
    requires all != []
    ensures Filter(all, keep) == Filter(all[..|all| - 1], keep) + (if keep(all[|all| - 1]) then [all[|all| - 1]] else [])
  {
    hide Filter;
    var last := all[|all| - 1];
    assert all == all[..|all| - 1] + [last];
    FilterConcat(all[..|all| - 1], [last], keep);
    FilterOne(last, keep);
  }
}
