/** Reduction of a list by several threads: each reduces a copy of its own chunk, and the main thread reduces
    the results in thread order. */
module ParReduce {

  /** reduce: the left fold from the base case. */
  function Fold<T>(f: (T, T) -> T, base: T, xs: seq<T>): T {
    if xs == [] then base else f(Fold(f, base, xs[..|xs| - 1]), xs[|xs| - 1])
  }

  ghost predicate Associative<T(!new)>(f: (T, T) -> T) {
    forall x, y, z :: f(f(x, y), z) == f(x, f(y, z))
  }

  ghost predicate Neutral<T(!new)>(f: (T, T) -> T, base: T) {
    forall x :: f(base, x) == x && f(x, base) == x
  }

  function Concat<T>(parts: seq<seq<T>>): seq<T> {
    if parts == [] then [] else Concat(parts[..|parts| - 1]) + parts[|parts| - 1]
  }

  function Folds<T>(f: (T, T) -> T, base: T, parts: seq<seq<T>>): (r: seq<T>)
    ensures |r| == |parts| && forall i :: 0 <= i < |parts| ==> r[i] == Fold(f, base, parts[i])
  {
    if parts == [] then [] else Folds(f, base, parts[..|parts| - 1]) + [Fold(f, base, parts[|parts| - 1])]
  }

  lemma {:induction false} FoldJoins<T(!new)>(f: (T, T) -> T, base: T, xs: seq<T>, ys: seq<T>)
    requires Associative(f) && Neutral(f, base)
    ensures Fold(f, base, xs + ys) == f(Fold(f, base, xs), Fold(f, base, ys))
    decreases |ys|
  {
    if ys == [] {
      assert xs + ys == xs;
    } else {
      var front, last := ys[..|ys| - 1], ys[|ys| - 1];
      assert (xs + ys)[..|xs + ys| - 1] == xs + front;
      FoldJoins(f, base, xs, front);
      assert f(f(Fold(f, base, xs), Fold(f, base, front)), last) == f(Fold(f, base, xs), f(Fold(f, base, front), last));
    }
  }

  /** Two levels of reduction over any cut of the list give the plain fold. */
  lemma {:induction false} TwoLevels<T(!new)>(f: (T, T) -> T, base: T, parts: seq<seq<T>>)
    requires Associative(f) && Neutral(f, base)
    ensures Fold(f, base, Folds(f, base, parts)) == Fold(f, base, Concat(parts))
  {
    if parts != [] {
      var front, last := parts[..|parts| - 1], parts[|parts| - 1];
      TwoLevels(f, base, front);
      assert Folds(f, base, parts)[..|parts| - 1] == Folds(f, base, front);
      FoldJoins(f, base, Concat(front), last);
    }
  }

  function Add(x: int, y: int): int {
    x + y
  }

  /** With addition and a base case that is not 0, the base case is counted once more for every thread. */
  lemma {:induction false} BaseCaseCountsAgain(base: int, parts: seq<seq<int>>)
    ensures Fold(Add, base, Folds(Add, base, parts)) == Fold(Add, base, Concat(parts)) + |parts| * base
  {
    if parts != [] {
      var front, last := parts[..|parts| - 1], parts[|parts| - 1];
      BaseCaseCountsAgain(base, front);
      assert Folds(Add, base, parts)[..|parts| - 1] == Folds(Add, base, front);
      SumJoins(base, Concat(front), last);
      OneMore(|front|, base);
    }
  }

  /** So for addition the parallel result is the plain one exactly when the base case is 0. */
  lemma SumsAgreeIff(base: int, parts: seq<seq<int>>)
    requires parts != []
    ensures Fold(Add, base, Folds(Add, base, parts)) == Fold(Add, base, Concat(parts)) <==> base == 0
  {
    BaseCaseCountsAgain(base, parts);
    NoZeroProduct(|parts|, base);
  }

  lemma NoZeroProduct(n: nat, base: int)
    requires n > 0
    ensures n * base == 0 <==> base == 0
  {
  }

  lemma OneMore(n: nat, base: int)
    ensures (n + 1) * base == n * base + base
  {
  }

  lemma {:induction false} SumJoins(base: int, xs: seq<int>, ys: seq<int>)
    ensures Fold(Add, base, xs + ys) + base == Fold(Add, base, xs) + Fold(Add, base, ys)
    decreases |ys|
  {
    if ys == [] {
      assert xs + ys == xs;
    } else {
      assert (xs + ys)[..|xs + ys| - 1] == xs + ys[..|ys| - 1];
      SumJoins(base, xs, ys[..|ys| - 1]);
    }
  }

  /** The lists given to the threads: consecutive, covering the list once, the longer ones first. */
  ghost predicate Even<T>(list: seq<T>, parts: seq<seq<T>>, n: nat) {
    && |parts| == n && Concat(parts) == list
    && (forall i, j :: 0 <= i <= j < n ==> |parts[j]| <= |parts[i]| <= |parts[j]| + 1)
  }

  ghost function Times(n: nat, len: nat): nat {
    if n == 0 then 0 else len + Times(n - 1, len)
  }

  lemma {:induction false} TimesIsProduct(n: nat, len: nat)
    ensures Times(n, len) == len * n
  {
    if n > 0 { TimesIsProduct(n - 1, len); }
  }

  /** The length of the shorter chunks, and how many chunks are longer by one. */
  method Lengths(listLen: nat, numThreads: nat) returns (threadLen: nat, rem: nat)
    requires numThreads > 0
    ensures Times(numThreads, threadLen) + rem == listLen && rem < numThreads
  {
    threadLen := listLen / numThreads;
    rem := listLen - threadLen * numThreads;
    TimesIsProduct(numThreads, threadLen);
  }

  /** The first loop of par_reduce: the copies the threads work on. */
  method Distribute<T>(list: seq<T>, numThreads: nat) returns (parts: seq<seq<T>>)
    requires numThreads > 0
    ensures Even(list, parts, numThreads)
  {
    var threadLen, rem := Lengths(|list|, numThreads);
    ghost var extra := rem;
    parts := [];
    var cur: nat := 0;
    for i := 0 to numThreads
      invariant |parts| == i
      invariant rem == if i < extra then extra - i else 0
      invariant cur + Times(numThreads - i, threadLen) + rem == |list|
      invariant cur <= |list| && Concat(parts) == list[..cur]
      invariant forall j :: 0 <= j < i ==> |parts[j]| == threadLen + (if j < extra then 1 else 0)
    {
      assert Times(numThreads - i, threadLen) == threadLen + Times(numThreads - (i + 1), threadLen);
      var curLen := threadLen;
      if rem > 0 {
        curLen := curLen + 1;
        rem := rem - 1;
      }
      var part := list[cur..cur + curLen];
      assert (parts + [part])[..i] == parts;
      parts := parts + [part];
      cur := cur + curLen;
    }
    assert list[..|list|] == list;
  }

  /** What a thread does with its chunk: the loop of reduce. */
  method Reduce<T>(list: seq<T>, f: (T, T) -> T, base: T) returns (r: T)
    ensures r == Fold(f, base, list)
  {
    r := base;
    for i := 0 to |list|
      invariant r == Fold(f, base, list[..i])
    {
      assert list[..i + 1][..i] == list[..i];
      r := f(r, list[i]);
    }
    assert list[..|list|] == list;
  }

  /** The two levels, for any operator; every thread works on its own copy, so the order in which threads
      run does not show. */
  method TwoLevelReduce<T>(list: seq<T>, f: (T, T) -> T, base: T, numThreads: nat)
    returns (r: T, ghost parts: seq<seq<T>>)
    requires numThreads > 0
    ensures Even(list, parts, numThreads) && r == Fold(f, base, Folds(f, base, parts))
  {
    var lists := Distribute(list, numThreads);
    parts := lists;
    var res: seq<T> := [];
    for j := 0 to numThreads
      invariant res == Folds(f, base, lists[..j])
    {
      var one := Reduce(lists[j], f, base);
      assert lists[..j + 1][..j] == lists[..j];
      res := res + [one];
    }
    assert lists[..numThreads] == lists;
    r := Reduce(res, f, base);
  }

  /** par_reduce: for any operator and base case the fold of the folds of even chunks, and so the plain reduction when
      the operator is associative and the base case is its identity. */
  method ParReduce<T(!new)>(list: seq<T>, f: (T, T) -> T, base: T, numThreads: nat)
    returns (r: T, ghost parts: seq<seq<T>>)
    requires numThreads > 0
    ensures Even(list, parts, numThreads) && r == Fold(f, base, Folds(f, base, parts))
    ensures Associative(f) && Neutral(f, base) ==> r == Fold(f, base, list)
  {
    r, parts := TwoLevelReduce(list, f, base, numThreads);
    if Associative(f) && Neutral(f, base) {
      TwoLevels(f, base, parts);
    }
  }
}
