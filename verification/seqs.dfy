/** Regrouping facts about sequence concatenation that the row and story
    loops use to move one section's output from the pending part to the
    written part, and the slicing of a text made of three separated
    fields. */
module Seqs {

  lemma AppendAssoc<T>(a: seq<T>, b: seq<T>, c: seq<T>)
    ensures a + b + c == a + (b + c)
  {
  }

  lemma TwoThenRest<T>(rows: seq<T>, a: T, b: T, rest: seq<T>)
    ensures rows + [a] + [b] + rest == rows + ([a, b] + rest)
  {
    assert [a] + [b] == [a, b];
  }

  /** The three fields of `a x b y c` and its two separators, sliced back
      out. */
  lemma ThreeFields<T>(a: seq<T>, x: T, b: seq<T>, y: T, c: seq<T>)
    ensures (a + [x] + b + [y] + c)[..|a|] == a
    ensures (a + [x] + b + [y] + c)[|a|] == x
    ensures (a + [x] + b + [y] + c)[|a| + 1..|a| + 1 + |b|] == b
    ensures (a + [x] + b + [y] + c)[|a| + 1 + |b|] == y
    ensures (a + [x] + b + [y] + c)[|a| + 2 + |b|..] == c
  {
    var s := a + [x] + b + [y] + c;
    assert s == a + ([x] + b + [y] + c);
    assert s[|a| + 1..] == b + [y] + c;
    assert s[|a| + 2 + |b|..] == c;
  }

  /** The two fields of `a x b` and the separator, sliced back out. */
  lemma TwoFields<T>(a: seq<T>, x: T, b: seq<T>)
    ensures (a + [x] + b)[..|a|] == a
    ensures (a + [x] + b)[|a|] == x
    ensures (a + [x] + b)[|a| + 1..] == b
  {
  }
}
