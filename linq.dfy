/** The few `System.Linq` operators the codec uses, with the clamping rules
    of .NET: a count that is zero or negative skips or takes nothing, and a
    count past the end stops at the end instead of failing. */
module Linq {
  import opened Wrappers

  /** `Enumerable.Skip(n)`. */
  function Skip<T>(s: seq<T>, n: int): seq<T> {
    if n <= 0 then s else if n >= |s| then [] else s[n..]
  }

  /** `Enumerable.Take(n)`. */
  function Take<T>(s: seq<T>, n: int): seq<T> {
    if n <= 0 then [] else if n >= |s| then s else s[..n]
  }

  /** `Enumerable.First()`, which throws on an empty sequence. */
  function First<T>(s: seq<T>): (r: Result<T>)
    ensures r.Success? <==> |s| > 0
    ensures r.Success? ==> r.value == s[0]
  {
    if |s| == 0 then Failure(SequenceEmpty) else Success(s[0])
  }

  /** `s.Skip(at).First()`: the element at `at`, or the exception when
      nothing is left after skipping. */
  function FirstFrom<T>(s: seq<T>, at: nat): (r: Result<T>)
    ensures r == First(Skip(s, at))
  {
    if at < |s| then Success(s[at]) else Failure(SequenceEmpty)
  }

  /** `Enumerable.Reverse()`. */
  function Reverse<T>(s: seq<T>): (r: seq<T>)
    ensures |r| == |s|
  {
    seq(|s|, k requires 0 <= k < |s| => s[|s| - 1 - k])
  }

  /** `s.Skip(from).Take(count)`: the window of at most `count` elements
      starting at `from`, cut short by the end of `s`. */
  lemma SkipTake<T>(s: seq<T>, from: int, count: int)
    requires 0 <= from
    ensures count <= 0 ==> Take(Skip(s, from), count) == []
    ensures 0 <= count && from + count <= |s| ==> Take(Skip(s, from), count) == s[from..from + count]
    ensures 0 <= count && from <= |s| < from + count ==> Take(Skip(s, from), count) == s[from..]
    ensures |s| <= from ==> Take(Skip(s, from), count) == []
  {
  }

  /** `s.Skip(from).Take(count)` as a slice: the elements from `from`,
      at most `count` of them, cut short by the end of `s`. */
  function Clipped<T>(s: seq<T>, from: nat, count: int): seq<T> {
    if count <= 0 || |s| <= from then []
    else if from + count <= |s| then s[from..from + count]
    else s[from..]
  }

  lemma ClippedIsSkipTake<T>(s: seq<T>, from: nat, count: int)
    ensures Take(Skip(s, from), count) == Clipped(s, from, count)
  {
    SkipTake(s, from, count);
  }

  /** `x` sits in `s` from position `at` on. */
  ghost predicate At<T>(s: seq<T>, at: nat, x: seq<T>) {
    at + |x| <= |s| && forall k :: 0 <= k < |x| ==> s[at + k] == x[k]
  }

  /** What sits at `at` as `x + y` is `x` there and `y` right after it. */
  lemma AtSplit<T>(s: seq<T>, at: nat, x: seq<T>, y: seq<T>)
    requires At(s, at, x + y)
    ensures At(s, at, x) && At(s, at + |x|, y)
  {
    forall k | 0 <= k < |x| ensures s[at + k] == x[k] {
      assert (x + y)[k] == x[k];
    }
    forall k | 0 <= k < |y| ensures s[at + |x| + k] == y[k] {
      assert (x + y)[|x| + k] == y[k];
    }
  }

  /** What sits at `at` is the slice of its length there. */
  lemma AtSlice<T>(s: seq<T>, at: nat, x: seq<T>)
    requires At(s, at, x)
    ensures s[at..at + |x|] == x
  {
    forall k | 0 <= k < |x| ensures s[at..at + |x|][k] == x[k] {
      assert s[at..at + |x|][k] == s[at + k];
    }
  }

  /** `x` written between any `p` and `q` sits right after `p`. */
  lemma Placed<T>(p: seq<T>, x: seq<T>, q: seq<T>)
    ensures At(p + x + q, |p|, x)
  {
    forall k | 0 <= k < |x| ensures (p + x + q)[|p| + k] == x[k] {
    }
  }

  /** `Select(f)`: `f` of each element, in order. */
  function Select<T, U>(s: seq<T>, f: T -> U): (r: seq<U>)
    ensures |r| == |s| && forall i :: 0 <= i < |s| ==> r[i] == f(s[i])
  {
    seq(|s|, i requires 0 <= i < |s| => f(s[i]))
  }

  /** The sequences of `ss`, one after the other. */
  function Concat<U>(ss: seq<seq<U>>): seq<U> {
    if ss == [] then [] else ss[0] + Concat(ss[1..])
  }

  /** `SelectMany(f)`: the results of `f` on the elements, in order, one
      after the other. */
  function SelectMany<T, U>(s: seq<T>, f: T -> seq<U>): seq<U> {
    Concat(Select(s, f))
  }

  /** One more sequence at the end adds its elements at the end. */
  lemma {:induction false} ConcatSnoc<U>(ss: seq<seq<U>>, t: seq<U>)
    ensures Concat(ss + [t]) == Concat(ss) + t
  {
    if ss == [] {
      assert [t][1..] == [];
      assert Concat([t]) == t + [];
    } else {
      assert (ss + [t])[1..] == ss[1..] + [t];
      ConcatSnoc(ss[1..], t);
    }
  }

  /** One more element adds its results at the end. */
  lemma SelectManySnoc<T, U>(s: seq<T>, x: T, f: T -> seq<U>)
    ensures SelectMany(s + [x], f) == SelectMany(s, f) + f(x)
  {
    assert Select(s + [x], f) == Select(s, f) + [f(x)];
    ConcatSnoc(Select(s, f), f(x));
  }

  /** The results of the first element come first. */
  lemma SelectManyCons<T, U>(s: seq<T>, f: T -> seq<U>)
    requires s != []
    ensures SelectMany(s, f) == f(s[0]) + SelectMany(s[1..], f)
  {
    assert Select(s, f)[1..] == Select(s[1..], f);
  }

  /** The results of a prefix one element longer. */
  lemma SelectManyPrefix<T, U>(s: seq<T>, i: nat, f: T -> seq<U>)
    requires i < |s|
    ensures SelectMany(s[..i + 1], f) == SelectMany(s[..i], f) + f(s[i])
  {
    assert s[..i + 1] == s[..i] + [s[i]];
    SelectManySnoc(s[..i], s[i], f);
  }

  /** Appending the results of the next element extends what was appended
      so far. */
  lemma SelectManyStep<T, U>(start: seq<U>, s: seq<T>, i: nat, f: T -> seq<U>, next: seq<U>)
    requires i < |s| && next == f(s[i])
    ensures (start + SelectMany(s[..i], f)) + next == start + SelectMany(s[..i + 1], f)
  {
    SelectManyPrefix(s, i, f);
    assert (start + SelectMany(s[..i], f)) + next == start + (SelectMany(s[..i], f) + next);
  }

  /** A sequence sits at the start of anything it begins. */
  lemma Prefix<T>(x: seq<T>, rest: seq<T>)
    ensures At(x + rest, 0, x)
  {
  }
}
