/** Replacing every element of a sequence by a sequence: Go's nested append loops, JavaScript's `flatMap`. */
module FlatMaps {

  function FlatMap<A, B>(f: A -> seq<B>, xs: seq<A>): seq<B> {
    if |xs| == 0 then [] else FlatMap(f, xs[..|xs| - 1]) + f(xs[|xs| - 1])
  }

  lemma FlatMapAppend<A, B>(f: A -> seq<B>, xs: seq<A>, x: A)
    ensures FlatMap(f, xs + [x]) == FlatMap(f, xs) + f(x)
  {
  }

  lemma ConcatAssociates<B>(a: seq<B>, b: seq<B>, c: seq<B>)
    ensures a + (b + c) == a + b + c
  {
  }

  lemma {:induction false} FlatMapConcat<A, B>(f: A -> seq<B>, a: seq<A>, b: seq<A>)
    ensures FlatMap(f, a + b) == FlatMap(f, a) + FlatMap(f, b)
  {
    if |b| == 0 {
      assert a + b == a;
    } else {
      var init, last := b[..|b| - 1], b[|b| - 1];
      FlatMapConcat(f, a, init);
      FlatMapAppend(f, a + init, last);
      ConcatAssociates(a, init, [last]);
      ConcatAssociates(FlatMap(f, a), FlatMap(f, init), f(last));
      assert b == init + [last];
    }
  }

  lemma MultisetWithout<A>(a: seq<A>, k: nat)
    requires k < |a|
    ensures multiset(a) == multiset(a[..k] + a[k + 1..]) + multiset{a[k]}
  {
    assert a == a[..k] + [a[k]] + a[k + 1..];
  }

  lemma MultisetCancel<A>(a: multiset<A>, b: multiset<A>, x: A)
    requires a + multiset{x} == b + multiset{x}
    ensures a == b
  {
    assert a == (a + multiset{x}) - multiset{x};
    assert b == (b + multiset{x}) - multiset{x};
  }

  lemma MultisetRemove<A>(a: seq<A>, b: seq<A>, k: nat)
    requires multiset(a) == multiset(b) && |a| > 0 && k < |b| && b[k] == a[|a| - 1]
    ensures multiset(a[..|a| - 1]) == multiset(b[..k] + b[k + 1..])
  {
    var init := a[..|a| - 1];
    assert init + a[|a|..] == init;
    MultisetWithout(a, |a| - 1);
    MultisetWithout(b, k);
    MultisetCancel(multiset(init), multiset(b[..k] + b[k + 1..]), b[k]);
  }

  lemma FlatMapMiddle<A, B>(f: A -> seq<B>, left: seq<A>, m: A, right: seq<A>)
    ensures multiset(FlatMap(f, left + [m] + right)) == multiset(FlatMap(f, left + right)) + multiset(f(m))
  {
    FlatMapConcat(f, left, right);
    FlatMapAppend(f, left, m);
    FlatMapConcat(f, left + [m], right);
  }

  /** The same elements in another order give the same results in another order. */
  lemma {:induction false} FlatMapPermute<A, B>(f: A -> seq<B>, a: seq<A>, b: seq<A>)
    requires multiset(a) == multiset(b)
    ensures multiset(FlatMap(f, a)) == multiset(FlatMap(f, b))
  {
    assert |a| == |multiset(a)| == |multiset(b)| == |b|;
    if |a| > 0 {
      var m := a[|a| - 1];
      assert m in multiset(b);
      var k :| 0 <= k < |b| && b[k] == m;
      MultisetRemove(a, b, k);
      FlatMapPermute(f, a[..|a| - 1], b[..k] + b[k + 1..]);
      FlatMapMiddle(f, b[..k], m, b[k + 1..]);
      assert b == b[..k] + [m] + b[k + 1..];
    }
  }

  lemma {:induction false} FlatMapNothing<A, B>(f: A -> seq<B>, xs: seq<A>)
    requires forall x :: x in xs ==> f(x) == []
    ensures FlatMap(f, xs) == []
  {
    if |xs| > 0 {
      assert forall x :: x in xs[..|xs| - 1] ==> x in xs;
      FlatMapNothing(f, xs[..|xs| - 1]);
    }
  }

  lemma {:induction false} FlatMapSame<A>(f: A -> seq<A>, xs: seq<A>)
    requires forall x :: x in xs ==> f(x) == [x]
    ensures FlatMap(f, xs) == xs
  {
    if |xs| > 0 {
      assert xs == xs[..|xs| - 1] + [xs[|xs| - 1]];
      FlatMapSame(f, xs[..|xs| - 1]);
    }
  }

  function Kept(trim: string -> string): string -> seq<string> {
    (s: string) => if trim(s) == "" then [] else [trim(s)]
  }

  /** The trimmed strings that are not empty. */
  function Present(trim: string -> string, list: seq<string>): seq<string> {
    FlatMap(Kept(trim), list)
  }

  lemma {:induction false} FlatMapMember<A, B>(f: A -> seq<B>, xs: seq<A>, y: B)
    ensures y in FlatMap(f, xs) <==> exists x :: x in xs && y in f(x)
  {
    if |xs| > 0 {
      var init, last := xs[..|xs| - 1], xs[|xs| - 1];
      FlatMapMember(f, init, y);
      assert forall x :: x in xs <==> x in init || x == last;
    }
  }

  function Itself<A>(): seq<A> -> seq<A> {
    (g: seq<A>) => g
  }

  function Flatten<A>(groups: seq<seq<A>>): seq<A> {
    FlatMap(Itself(), groups)
  }

  function Concat(parts: seq<string>): string {
    Flatten(parts)
  }

  lemma ConcatAppend(parts: seq<string>, part: string)
    ensures Concat(parts + [part]) == Concat(parts) + part
  {
  }
}
