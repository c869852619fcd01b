/** Small shared vocabulary: optional values and facts about sequences that several components use. */
module Basics {

  datatype Option<+T> = None | Some(value: T)

  /** No element occurs at two positions. */
  ghost predicate Distinct<T>(xs: seq<T>) {
    forall i, j :: 0 <= i < j < |xs| ==> xs[i] != xs[j]
  }

  ghost function Elements<T>(xs: seq<T>): set<T> {
    set x | x in xs
  }

  /** Every finite multiset is the contents of some sequence. */
  lemma {:induction false} SequenceOf<T>(m: multiset<T>) returns (xs: seq<T>)
    ensures multiset(xs) == m
    decreases |m|
  {
    if |m| == 0 {
      xs := [];
    } else {
      var x :| x in m;
      var rest := SequenceOf(m - multiset{x});
      xs := [x] + rest;
    }
  }

  /** Elements `xs` of `ts` can be moved to the end. */
  lemma {:induction false} MoveToEnd<T>(ts: seq<T>, xs: seq<T>) returns (rest: seq<T>)
    requires multiset(xs) <= multiset(ts)
    ensures multiset(rest + xs) == multiset(ts)
  {
    rest := SequenceOf(multiset(ts) - multiset(xs));
    assert multiset(rest + xs) == multiset(rest) + multiset(xs);
  }

  lemma {:induction false} ReorderEnd<T>(rest: seq<T>, xs: seq<T>, ys: seq<T>)
    requires multiset(xs) == multiset(ys)
    ensures multiset(rest + xs) == multiset(rest + ys)
  {
    assert multiset(rest + xs) == multiset(rest) + multiset(xs);
    assert multiset(rest + ys) == multiset(rest) + multiset(ys);
  }

  /** Visiting `x`, one of the elements of `all` still to do, adds it to those already done. */
  lemma {:induction false} Visit<T>(all: set<T>, todo: set<T>, x: T)
    requires todo <= all && x in todo
    ensures todo - {x} <= all && x !in all - todo
    ensures all - (todo - {x}) == (all - todo) + {x}
  {
  }
}
