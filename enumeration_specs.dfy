/** Sequence-level meaning of the async enumerator combinators: what each
    one yields, as a function of what its parent still has to yield. */
module EnumerationSpecs {
  import opened Wrappers

  /** What is left after one more element is consumed. */
  function Tail<T>(s: seq<T>): (t: seq<T>)
    ensures s == [] ==> t == []
    ensures s != [] ==> t == s[1..]
  {
    if s == [] then [] else s[1..]
  }

  function Map<T, R>(f: T -> R, s: seq<T>): (r: seq<R>)
    ensures |r| == |s| && forall i :: 0 <= i < |s| ==> r[i] == f(s[i])
  {
    if s == [] then [] else [f(s[0])] + Map(f, s[1..])
  }

  /** The elements of s that satisfy f, in order. */
  function Filter<T>(f: T -> bool, s: seq<T>): (r: seq<T>)
    ensures |r| <= |s|
  {
    if s == [] then [] else (if f(s[0]) then [s[0]] else []) + Filter(f, s[1..])
  }

  /** The filter holds exactly the elements of s that satisfy f. */
  lemma {:induction false} FilterMembers<T>(f: T -> bool, s: seq<T>)
    ensures forall x :: x in Filter(f, s) <==> x in s && f(x)
  {
    if s != [] {
      FilterMembers(f, s[1..]);
      assert s == [s[0]] + s[1..];
    }
  }

  /** The concatenation of a list of collections. */
  function Flatten<R>(ss: seq<seq<R>>): (r: seq<R>)
  {
    if ss == [] then [] else ss[0] + Flatten(ss[1..])
  }

  /** Leading elements that fail the predicate do not show in the filter. */
  lemma {:induction false} FilterSkipsFailing<T>(f: T -> bool, s: seq<T>, i: nat)
    requires i <= |s| && forall j :: 0 <= j < i ==> !f(s[j])
    ensures Filter(f, s) == Filter(f, s[i..])
  {
    if i > 0 {
      assert s[1..][i - 1..] == s[i..];
      FilterSkipsFailing(f, s[1..], i - 1);
    }
  }

  /** The filter is the passing elements taken in their original order: if
      the first passing element sits at index i, it heads the filter, followed
      by the filter of what comes after it. */
  lemma FilterFirstMatch<T>(f: T -> bool, s: seq<T>, i: nat)
    requires i < |s| && f(s[i]) && forall j :: 0 <= j < i ==> !f(s[j])
    ensures Filter(f, s) == [s[i]] + Filter(f, s[i + 1..])
  {
    FilterSkipsFailing(f, s, i);
    assert s[i..][1..] == s[i + 1..];
  }

  /** Flattening the images of a non-empty sequence starts with the image of
      its head. */
  lemma FlattenMapCons<T, R>(f: T -> seq<R>, s: seq<T>)
    requires s != []
    ensures Flatten(Map(f, s)) == f(s[0]) + Flatten(Map(f, s[1..]))
  {
    assert Map(f, s)[1..] == Map(f, s[1..]);
  }

  /** The predicate given to TakeWhile or SkipWhile. Take(n) and Skip(n) pass a
      closure over a captured counter that each call increments, so a
      predicate may carry state from one call to the next. */
  datatype Predicate<!T> =
    | Stateless(f: T -> bool)
    | Counting(limit: int, counter: int) // `x => ++counter <= limit`

  /** One call of the predicate: its answer and its state afterwards. */
  function Apply<T>(p: Predicate<T>, x: T): (r: (bool, Predicate<T>))
    ensures p.Stateless? ==> r == (p.f(x), p)
    ensures p.Counting? ==> r == (p.counter + 1 <= p.limit, Counting(p.limit, p.counter + 1))
  {
    match p
    case Stateless(f) => (f(x), p)
    case Counting(limit, counter) => (counter + 1 <= limit, Counting(limit, counter + 1))
  }

  /** The elements a TakeWhile yields before its first false, the predicate
      being called once per element until it answers false. */
  function TakeWhileP<T>(p: Predicate<T>, s: seq<T>): seq<T>
    decreases |s|
  {
    if s == [] then []
    else
      var (b, p') := Apply(p, s[0]);
      if b then [s[0]] + TakeWhileP(p', s[1..]) else []
  }

  /** The elements a SkipWhile yields: s without the prefix the predicate
      accepts, the predicate being called once per skipped element and once
      on the first kept one. */
  function SkipWhileP<T>(p: Predicate<T>, s: seq<T>): seq<T>
    decreases |s|
  {
    if s == [] then []
    else
      var (b, p') := Apply(p, s[0]);
      if b then SkipWhileP(p', s[1..]) else s
  }

  /** Predicate state after SkipWhileP(p, s) has run. */
  function SkipWhileState<T>(p: Predicate<T>, s: seq<T>): Predicate<T>
    decreases |s|
  {
    if s == [] then p
    else
      var (b, p') := Apply(p, s[0]);
      if b then SkipWhileState(p', s[1..]) else p'
  }

  /** The count a counter closure still lets through: clamp(limit - counter). */
  function Allowance(limit: int, counter: int, len: nat): (k: nat)
    ensures k <= len
  {
    if limit - counter <= 0 then 0 else if limit - counter >= len then len else limit - counter
  }

  /** A stateless TakeWhile yields the longest prefix whose elements all
      satisfy the predicate. */
  lemma {:induction false} TakeWhileLongestPrefix<T>(f: T -> bool, s: seq<T>)
    ensures var t := TakeWhileP(Stateless(f), s);
      && |t| <= |s| && t == s[..|t|]
      && (forall i :: 0 <= i < |t| ==> f(t[i]))
      && (|t| < |s| ==> !f(s[|t|]))
  {
    if s != [] {
      TakeWhileLongestPrefix(f, s[1..]);
    }
  }

  /** A stateless SkipWhile drops the longest prefix whose elements all
      satisfy the predicate; what is left is empty or starts with an element
      that fails it. */
  lemma {:induction false} SkipWhileDropsLongestPrefix<T>(f: T -> bool, s: seq<T>)
    ensures var r := SkipWhileP(Stateless(f), s);
      && |r| <= |s| && r == s[|s| - |r|..]
      && (forall i :: 0 <= i < |s| - |r| ==> f(s[i]))
      && (r != [] ==> !f(r[0]))
  {
    if s != [] && f(s[0]) {
      SkipWhileDropsLongestPrefix(f, s[1..]);
      var r := SkipWhileP(Stateless(f), s[1..]);
      assert s[1..][|s| - 1 - |r|..] == s[|s| - |r|..];
    }
  }

  /** Take(n): the counter closure lets exactly the first clamp(n - counter)
      elements through. */
  lemma {:induction false} TakeCounting<T>(limit: int, counter: int, s: seq<T>)
    ensures TakeWhileP(Counting(limit, counter), s) == s[..Allowance(limit, counter, |s|)]
    decreases |s|
  {
    if s != [] && counter + 1 <= limit {
      TakeCounting(limit, counter + 1, s[1..]);
      assert s[..Allowance(limit, counter, |s|)] == [s[0]] + s[1..][..Allowance(limit, counter + 1, |s| - 1)];
    }
  }

  /** Skip(n): the counter closure drops exactly the first clamp(n - counter)
      elements. */
  lemma {:induction false} SkipCounting<T>(limit: int, counter: int, s: seq<T>)
    ensures SkipWhileP(Counting(limit, counter), s) == s[Allowance(limit, counter, |s|)..]
    decreases |s|
  {
    if s != [] && counter + 1 <= limit {
      SkipCounting(limit, counter + 1, s[1..]);
      assert s[1..][Allowance(limit, counter + 1, |s| - 1)..] == s[Allowance(limit, counter, |s|)..];
    }
  }

  /** Once a Take counter has reached its limit, nothing more gets through:
      Take stays exhausted although TakeWhile is not sticky. */
  lemma TakeCountingExhausted<T>(limit: int, counter: int, s: seq<T>)
    requires counter >= limit
    ensures TakeWhileP(Counting(limit, counter), s) == []
  {
    TakeCounting(limit, counter, s);
  }

  /** The index of the first element satisfying f, if any. */
  function FindFirst<T>(f: T -> bool, s: seq<T>): (r: Option<nat>)
    ensures r.Some? ==> r.value < |s| && f(s[r.value]) && forall j :: 0 <= j < r.value ==> !f(s[j])
    ensures r.None? ==> forall j :: 0 <= j < |s| ==> !f(s[j])
  {
    if s == [] then None
    else if f(s[0]) then Some(0)
    else match FindFirst(f, s[1..])
      case None => None
      case Some(i) => Some(i + 1)
  }

  /** MoveNext calls a first-match search makes: up to and including the
      match, or every element plus the final false. */
  function SearchCalls<T>(f: T -> bool, s: seq<T>): nat
  {
    match FindFirst(f, s)
    case Some(i) => i + 1
    case None => |s| + 1
  }

  /** What remains of s after a first-match search stopped. */
  function AfterSearch<T>(f: T -> bool, s: seq<T>): seq<T>
  {
    match FindFirst(f, s)
    case Some(i) => s[i + 1..]
    case None => []
  }

  /** A search that meets its first match at index i has made i + 1 calls
      and leaves what follows the match. */
  lemma SearchStopsAt<T>(f: T -> bool, s: seq<T>, i: nat)
    requires i < |s| && f(s[i]) && forall j :: 0 <= j < i ==> !f(s[j])
    ensures FindFirst(f, s) == Some(i)
    ensures SearchCalls(f, s) == i + 1 && AfterSearch(f, s) == s[i + 1..]
  {
  }

  /** A search that finds no match has made |s| + 1 calls and leaves nothing. */
  lemma SearchRunsOut<T>(f: T -> bool, s: seq<T>)
    requires forall j :: 0 <= j < |s| ==> !f(s[j])
    ensures FindFirst(f, s) == None
    ensures SearchCalls(f, s) == |s| + 1 && AfterSearch(f, s) == []
  {
  }
}
