/** What every layer that appends piece by piece needs to know. */
module Sequences {

  lemma ConcatAssoc<T>(a: seq<T>, b: seq<T>, c: seq<T>)
    ensures a + b + c == a + (b + c)
  {
  }

  /** `done` is written and `left` remains of `all`. */
  predicate Splits<T(==)>(all: seq<T>, done: seq<T>, left: seq<T>) {
    |done| <= |all| && done == all[..|done|] && left == all[|done|..]
  }

  lemma SplitsNext<T>(all: seq<T>, done: seq<T>, next: seq<T>, left: seq<T>)
    requires Splits(all, done, next + left)
    ensures Splits(all, done + next, left)
  {
    var n := |done| + |next|;
    assert all == all[..|done|] + all[|done|..] == done + (next + left);
    assert all[..n] == done + next && all[n..] == left;
  }
}
