/** Observations that arrive in any order and are kept by evidence time: a register that accepts an
    offer unless it already holds a strictly newer one. The lanes of the pane store refine it. */
module Arrivals {
  import opened Basics

  predicate IsNewest<T(==)>(x: T, xs: seq<T>, at: T -> u64) {
    x in xs && forall y | y in xs :: at(y) <= at(x)
  }

  /** The last of the newest: nothing is newer, and what comes later is older. */
  predicate LastNewest<T>(xs: seq<T>, i: int, at: T -> u64) {
    && 0 <= i < |xs|
    && (forall j | 0 <= j < |xs| :: at(xs[j]) <= at(xs[i]))
    && (forall j | i < j < |xs| :: at(xs[j]) < at(xs[i]))
  }

  predicate AllOlder<T(==)>(xs: seq<T>, at: T -> u64, limit: nat) {
    forall y | y in xs :: at(y) < limit
  }

  /** Those that share the newest time say the same. */
  ghost predicate NewestAgree<T, C>(xs: seq<T>, at: T -> u64, content: T -> C) {
    forall x, y | x in xs && y in xs && IsNewest(x, xs, at) && IsNewest(y, xs, at) :: content(x) == content(y)
  }

  datatype Register<C> = Register(time: nat, content: C) {
    function Offer(at: u64, offered: C): Register<C> {
      if time <= at then Register(at, offered) else this
    }
  }

  function OfferAll<T, C>(r: Register<C>, xs: seq<T>, at: T -> u64, content: T -> C): Register<C>
    decreases |xs|
  {
    if xs == [] then r else OfferAll(r.Offer(at(xs[0]), content(xs[0])), xs[1..], at, content)
  }

  lemma {:induction false} OlderChangeNothing<T, C>(r: Register<C>, xs: seq<T>, at: T -> u64, content: T -> C)
    requires AllOlder(xs, at, r.time)
    ensures OfferAll(r, xs, at, content) == r
    decreases |xs|
  {
    if xs != [] {
      assert xs[0] in xs;
      OlderChangeNothing(r, xs[1..], at, content);
    }
  }

  lemma TailOlder<T>(xs: seq<T>, at: T -> u64)
    requires LastNewest(xs, 0, at)
    ensures AllOlder(xs[1..], at, at(xs[0]))
  {
    forall y | y in xs[1..] ensures at(y) < at(xs[0]) {
      var j :| 0 <= j < |xs[1..]| && xs[1..][j] == y;
      assert xs[j + 1] == y;
    }
  }

  /** Whatever the order of arrival, the last of the newest offers is the one left standing. */
  lemma {:induction false} NewestWins<T, C>(r: Register<C>, xs: seq<T>, at: T -> u64, content: T -> C, i: nat)
    requires LastNewest(xs, i, at) && r.time <= at(xs[i])
    ensures OfferAll(r, xs, at, content) == Register(at(xs[i]), content(xs[i]))
    decreases |xs|
  {
    var next := r.Offer(at(xs[0]), content(xs[0]));
    if i == 0 {
      TailOlder(xs, at);
      OlderChangeNothing(next, xs[1..], at, content);
    } else {
      assert at(xs[0]) <= at(xs[i]) && xs[1..][i - 1] == xs[i];
      NewestWins(next, xs[1..], at, content, i - 1);
    }
  }

  lemma {:induction false} LastNewestExists<T>(xs: seq<T>, at: T -> u64) returns (i: nat)
    requires xs != []
    ensures LastNewest(xs, i, at) && IsNewest(xs[i], xs, at)
    decreases |xs|
  {
    i := 0;
    if |xs| > 1 {
      var k := LastNewestExists(xs[1..], at);
      assert forall j | 0 < j < |xs| :: xs[j] == xs[1..][j - 1];
      if at(xs[0]) <= at(xs[1..][k]) { i := k + 1; }
    }
  }

  /** Two orders of the same offers. */
  lemma SameElements<T>(xs: seq<T>, ys: seq<T>)
    requires multiset(xs) == multiset(ys)
    ensures |xs| == |ys| && forall x :: x in xs <==> x in ys
  {
    assert |multiset(xs)| == |xs| && |multiset(ys)| == |ys|;
    forall x ensures x in xs <==> x in ys {
      assert x in multiset(xs) <==> x in multiset(ys);
    }
  }

  lemma OrdersConverge<T, C>(r: Register<C>, xs: seq<T>, ys: seq<T>, at: T -> u64, content: T -> C)
    requires multiset(xs) == multiset(ys) && (AllOlder(xs, at, r.time) || NewestAgree(xs, at, content))
    ensures OfferAll(r, xs, at, content) == OfferAll(r, ys, at, content)
  {
    SameElements(xs, ys);
    if AllOlder(xs, at, r.time) {
      OlderChangeNothing(r, xs, at, content);
      OlderChangeNothing(r, ys, at, content);
    } else {
      var i := LastNewestExists(xs, at);
      var k := LastNewestExists(ys, at);
      assert IsNewest(ys[k], xs, at);
      assert exists x :: x in xs && r.time <= at(x);
      NewestWins(r, xs, at, content, i);
      NewestWins(r, ys, at, content, k);
    }
  }

  /** `xs` with its `i`-th element moved to the end. */
  lemma MovedLast<T>(xs: seq<T>, i: nat) returns (ys: seq<T>)
    requires i < |xs|
    ensures multiset(ys) == multiset(xs) && |ys| > 0 && ys[|ys| - 1] == xs[i]
  {
    ys := xs[..i] + xs[i + 1..] + [xs[i]];
    assert xs == xs[..i] + [xs[i]] + xs[i + 1..];
  }

  /** A newest offer stands in some order. */
  lemma StandsInSome<T, C>(r: Register<C>, xs: seq<T>, at: T -> u64, content: T -> C, x: T) returns (ys: seq<T>)
    requires IsNewest(x, xs, at) && r.time <= at(x)
    ensures multiset(ys) == multiset(xs) && OfferAll(r, ys, at, content) == Register(at(x), content(x))
  {
    var i :| 0 <= i < |xs| && xs[i] == x;
    ys := MovedLast(xs, i);
    SameElements(xs, ys);
    assert LastNewest(ys, |ys| - 1, at);
    NewestWins(r, ys, at, content, |ys| - 1);
  }

  /** Newest offers that disagree, not older than the register: some other order leaves another one. */
  lemma SomeOrderDiffers<T, C>(r: Register<C>, xs: seq<T>, at: T -> u64, content: T -> C) returns (ys: seq<T>)
    requires !AllOlder(xs, at, r.time) && !NewestAgree(xs, at, content)
    ensures multiset(ys) == multiset(xs) && OfferAll(r, ys, at, content) != OfferAll(r, xs, at, content)
  {
    var x, y :| x in xs && y in xs && IsNewest(x, xs, at) && IsNewest(y, xs, at) && content(x) != content(y);
    ys := StandsInSome(r, xs, at, content, x);
    if OfferAll(r, ys, at, content) == OfferAll(r, xs, at, content) {
      ys := StandsInSome(r, xs, at, content, y);
    }
  }

  // ----- a register over time -------------------------------------------------------------------

  lemma {:induction false} NeverFalls<C>(cs: seq<Register<C>>, j: nat, i: nat)
    requires j <= i < |cs| && forall k | 0 <= k < |cs| - 1 :: cs[k].time <= cs[k + 1].time
    ensures cs[j].time <= cs[i].time
    decreases i
  {
    if j < i { NeverFalls(cs, j, i - 1); }
  }

  lemma {:induction false} Keeps<C>(cs: seq<Register<C>>, i: nat, n: nat)
    requires i <= n < |cs| && forall k | i <= k < n && cs[k] == cs[i] :: cs[k + 1] == cs[i]
    ensures cs[n] == cs[i]
    decreases n
  {
    if i < n { Keeps(cs, i, n - 1); }
  }

  lemma {:induction false} StaysUnder<C>(cs: seq<Register<C>>, n: nat, limit: nat)
    requires n < |cs| && cs[0].time < limit
    requires forall k | 0 <= k < n && cs[k].time < limit :: cs[k + 1].time < limit
    ensures cs[n].time < limit
    decreases n
  {
    if n > 0 { StaysUnder(cs, n - 1, limit); }
  }
}
