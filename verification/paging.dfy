/**
 * `B2BaseIterator`: the page loop shared by every listing. A listing is an
 * iterator state `S` and a `GetNextPage` step that makes one remote call and
 * answers a page of items, a done flag and the next state.
 */
module Paging {
  import opened Remote

  /** `PageSize` before a caller changes it. */
  const DefaultPageSize: int := 1000

  /** `Select(f).ToList()`: the page's entries wrapped one by one, in order. */
  function Select<A, B>(xs: seq<A>, f: A -> B): (r: seq<B>)
    ensures |r| == |xs|
    ensures forall i :: 0 <= i < |xs| ==> r[i] == f(xs[i])
  {
    seq(|xs|, i requires 0 <= i < |xs| => f(xs[i]))
  }

  /** One `GetNextPage`: the call it made and what came back, or the failure it threw. */
  datatype Page<T, S> =
    | Page(call: Call, items: seq<T>, isDone: bool, next: S)
    | Failed(call: Call, error: Error)

  /** A page after which the loop fetches another one. */
  predicate Continues<T, S>(p: Page<T, S>) {
    p.Page? && |p.items| > 0 && !p.isDone
  }

  /**
   * How an enumeration ended: the sequence ran out, a page fetch threw, or the
   * model's page bound was reached while the loop would still fetch more.
   */
  datatype Stop = Exhausted | Threw(error: Error) | Pending

  /** An enumeration: the items yielded, the iterator state left behind, the calls made. */
  datatype Run<T, S> = Run(items: seq<T>, state: S, calls: seq<Call>, stop: Stop)

  /**
   * `GetEnumerator`, fetching at most `fuel` pages. Every page is yielded in full;
   * the loop ends after a page that is empty or flagged done.
   */
  function Enumerate<T, S>(next: S -> Page<T, S>, s: S, fuel: nat): (r: Run<T, S>)
    ensures |r.calls| <= fuel
    ensures r.stop.Pending? ==> |r.calls| == fuel
    ensures !r.stop.Pending? ==> |r.calls| >= 1
    decreases fuel
  {
    if fuel == 0 then Run([], s, [], Pending)
    else
      match next(s)
      case Failed(call, e) => Run([], s, [call], Threw(e))
      case Page(call, items, done, s') =>
        if |items| == 0 || done then Run(items, s', [call], Exhausted)
        else
          var rest := Enumerate(next, s', fuel - 1);
          Run(items + rest.items, rest.state, [call] + rest.calls, rest.stop)
  }

  // Reference definitions: the pages a listing answers when its cursor is followed.

  /** The iterator state before the `i`-th page fetch (a failed fetch leaves the state as it was). */
  function StateAt<T, S>(next: S -> Page<T, S>, s: S, i: nat): S
    decreases i
  {
    if i == 0 then s
    else match next(s)
      case Failed(_, _) => s
      case Page(_, _, _, s') => StateAt(next, s', i - 1)
  }

  /** The `i`-th page fetched. */
  function PageAt<T, S>(next: S -> Page<T, S>, s: S, i: nat): Page<T, S> {
    next(StateAt(next, s, i))
  }

  /** The items of the first `n` pages, in order. */
  function Yielded<T, S>(next: S -> Page<T, S>, s: S, n: nat): seq<T>
    decreases n
  {
    if n == 0 then []
    else match next(s)
      case Failed(_, _) => []
      case Page(_, items, _, s') => items + Yielded(next, s', n - 1)
  }

  /** The state after a successful fetch is the one that fetch answered. */
  lemma {:induction false} StateAtStep<T, S>(next: S -> Page<T, S>, s: S, i: nat)
    requires PageAt(next, s, i).Page?
    ensures StateAt(next, s, i + 1) == PageAt(next, s, i).next
    decreases i
  {
    if i > 0 {
      match next(s)
      case Failed(_, _) =>
      case Page(_, _, _, s') =>
        StateAtStep(next, s', i - 1);
    }
  }

  /** After a first page that succeeded, the listing goes on from the state it answered. */
  lemma StateAfterFirst<T, S>(next: S -> Page<T, S>, s: S, i: nat)
    requires next(s).Page?
    ensures StateAt(next, s, i + 1) == StateAt(next, next(s).next, i)
    ensures PageAt(next, s, i + 1) == PageAt(next, next(s).next, i)
  {
  }

  /** The `i`-th call an enumeration makes is the call of the `i`-th page. */
  lemma {:induction false} EnumerateCalls<T, S>(next: S -> Page<T, S>, s: S, fuel: nat)
    ensures var r := Enumerate(next, s, fuel);
      forall i :: 0 <= i < |r.calls| ==> r.calls[i] == PageAt(next, s, i).call
    decreases fuel
  {
    if fuel > 0 && Continues(next(s)) {
      var rest := Enumerate(next, next(s).next, fuel - 1);
      EnumerateCalls(next, next(s).next, fuel - 1);
      var r := Enumerate(next, s, fuel);
      forall i | 0 <= i < |r.calls| ensures r.calls[i] == PageAt(next, s, i).call {
        if i > 0 {
          StateAfterFirst(next, s, i - 1);
          assert r.calls[i] == rest.calls[i - 1];
        }
      }
    }
  }

  /** Every page before the last continued the loop, and the last one ended it (or the bound was reached). */
  lemma {:induction false} EnumerateEnds<T, S>(next: S -> Page<T, S>, s: S, fuel: nat)
    ensures var r := Enumerate(next, s, fuel);
      && (forall i :: 0 <= i < |r.calls| - 1 ==> Continues(PageAt(next, s, i)))
      && (r.stop.Pending? ==> forall i :: 0 <= i < |r.calls| ==> Continues(PageAt(next, s, i)))
      && (r.stop.Exhausted? ==> PageAt(next, s, |r.calls| - 1).Page? && !Continues(PageAt(next, s, |r.calls| - 1)))
      && (r.stop.Threw? ==> PageAt(next, s, |r.calls| - 1).Failed? && PageAt(next, s, |r.calls| - 1).error == r.stop.error)
    decreases fuel
  {
    if fuel > 0 {
      assert PageAt(next, s, 0) == next(s);
      if Continues(next(s)) {
        var rest := Enumerate(next, next(s).next, fuel - 1);
        EnumerateEnds(next, next(s).next, fuel - 1);
        var r := Enumerate(next, s, fuel);
        assert |r.calls| == |rest.calls| + 1 && r.stop == rest.stop;
        forall i | 0 <= i <= |rest.calls|
          ensures PageAt(next, s, i + 1) == PageAt(next, next(s).next, i)
        {
          StateAfterFirst(next, s, i);
        }
        forall i | 0 < i < |r.calls| - 1 || (r.stop.Pending? && 0 < i < |r.calls|)
          ensures Continues(PageAt(next, s, i))
        {
          assert PageAt(next, s, i) == PageAt(next, next(s).next, i - 1);
        }
      }
    }
  }

  /** The items yielded are those of the pages fetched, and the state is the one the last page left. */
  lemma {:induction false} EnumerateYields<T, S>(next: S -> Page<T, S>, s: S, fuel: nat)
    ensures var r := Enumerate(next, s, fuel);
      r.items == Yielded(next, s, |r.calls|) && r.state == StateAt(next, s, |r.calls|)
    decreases fuel
  {
    if fuel > 0 && Continues(next(s)) {
      var rest := Enumerate(next, next(s).next, fuel - 1);
      EnumerateYields(next, next(s).next, fuel - 1);
      StateAfterFirst(next, s, |rest.calls|);
    }
  }

  /**
   * The enumeration is the in-order concatenation of the pages it fetched, page `i`
   * being requested from the state page `i - 1` answered; every page but the last
   * continued the loop, and the last one ended it (or the bound was reached).
   */
  lemma EnumerateFollowsPages<T, S>(next: S -> Page<T, S>, s: S, fuel: nat)
    ensures var r := Enumerate(next, s, fuel);
      && (forall i :: 0 <= i < |r.calls| ==> r.calls[i] == PageAt(next, s, i).call)
      && (forall i :: 0 <= i < |r.calls| - 1 ==> Continues(PageAt(next, s, i)))
      && (r.stop.Pending? ==> forall i :: 0 <= i < |r.calls| ==> Continues(PageAt(next, s, i)))
      && (r.stop.Exhausted? ==> PageAt(next, s, |r.calls| - 1).Page? && !Continues(PageAt(next, s, |r.calls| - 1)))
      && (r.stop.Threw? ==> PageAt(next, s, |r.calls| - 1).Failed? && PageAt(next, s, |r.calls| - 1).error == r.stop.error)
      && r.items == Yielded(next, s, |r.calls|)
      && r.state == StateAt(next, s, |r.calls|)
  {
    EnumerateCalls(next, s, fuel);
    EnumerateEnds(next, s, fuel);
    EnumerateYields(next, s, fuel);
  }

  /**
   * No page is fetched after the first one that is empty, flagged done or failed:
   * if that is page `k`, exactly `k + 1` pages are fetched.
   */
  lemma {:induction false} EnumerateStopsAtFirstEnd<T, S>(next: S -> Page<T, S>, s: S, fuel: nat, k: nat)
    requires k < fuel
    requires forall i :: 0 <= i < k ==> Continues(PageAt(next, s, i))
    requires !Continues(PageAt(next, s, k))
    ensures |Enumerate(next, s, fuel).calls| == k + 1
    ensures Enumerate(next, s, fuel).stop ==
      if PageAt(next, s, k).Failed? then Threw(PageAt(next, s, k).error) else Exhausted
    ensures Enumerate(next, s, fuel).items == Yielded(next, s, k + 1)
    decreases k
  {
    assert PageAt(next, s, 0) == next(s);
    if k > 0 {
      assert Continues(PageAt(next, s, 0));
      var s' := next(s).next;
      forall i | 0 <= i <= k - 1
        ensures PageAt(next, s', i) == PageAt(next, s, i + 1)
      {
        assert StateAt(next, s, i + 1) == StateAt(next, s', i);
      }
      EnumerateStopsAtFirstEnd(next, s', fuel - 1, k - 1);
    }
  }

  /** The `i`-th call of an enumeration is the call of the `i`-th page. */
  lemma CallAt<T, S>(next: S -> Page<T, S>, s: S, fuel: nat, i: nat)
    requires i < |Enumerate(next, s, fuel).calls|
    ensures Enumerate(next, s, fuel).calls[i] == PageAt(next, s, i).call
  {
    EnumerateFollowsPages(next, s, fuel);
  }

  /**
   * Every page after the first is requested from the state the previous page
   * answered: the iterator's cursor is carried from one fetch to the next.
   */
  lemma ChainAt<T, S>(next: S -> Page<T, S>, s: S, fuel: nat, i: nat)
    requires 1 <= i < |Enumerate(next, s, fuel).calls|
    ensures PageAt(next, s, i - 1).Page?
    ensures StateAt(next, s, i) == PageAt(next, s, i - 1).next
  {
    EnumerateFollowsPages(next, s, fuel);
    assert Continues(PageAt(next, s, i - 1));
    StateAtStep(next, s, i - 1);
  }

  /** Once an enumeration ends within its bound, a larger bound changes nothing. */
  lemma {:induction false} EnumerateBoundIrrelevant<T, S>(next: S -> Page<T, S>, s: S, fuel: nat, more: nat)
    requires fuel <= more
    requires !Enumerate(next, s, fuel).stop.Pending?
    ensures Enumerate(next, s, more) == Enumerate(next, s, fuel)
    decreases fuel
  {
    match next(s)
    case Failed(_, _) =>
    case Page(_, items, done, s') =>
      if |items| > 0 && !done {
        EnumerateBoundIrrelevant(next, s', fuel - 1, more - 1);
      }
  }

  /** Every item of `p` satisfies `ok`, and a successful page leads to a state satisfying `inv`. */
  predicate PageRespects<T, S>(p: Page<T, S>, inv: S -> bool, ok: T -> bool) {
    p.Page? ==> inv(p.next) && forall j :: 0 <= j < |p.items| ==> ok(p.items[j])
  }

  /**
   * An iterator invariant kept by every page fetch holds of every state the
   * enumeration reaches, and an item property that every page guarantees holds
   * of every item yielded.
   */
  lemma {:induction false} YieldedRespects<T, S>(next: S -> Page<T, S>, s: S, n: nat, inv: S -> bool, ok: T -> bool)
    requires inv(s)
    requires forall t :: inv(t) ==> PageRespects(next(t), inv, ok)
    ensures inv(StateAt(next, s, n))
    ensures forall j :: 0 <= j < |Yielded(next, s, n)| ==> ok(Yielded(next, s, n)[j])
    decreases n
  {
    if n > 0 {
      assert PageRespects(next(s), inv, ok);
      match next(s)
      case Failed(_, _) =>
      case Page(_, items, _, s') =>
        YieldedRespects(next, s', n - 1, inv, ok);
        var rest := Yielded(next, s', n - 1);
        assert Yielded(next, s, n) == items + rest;
        forall j | 0 <= j < |items + rest|
          ensures ok((items + rest)[j])
        {
          if j >= |items| {
            assert (items + rest)[j] == rest[j - |items|];
          }
        }
    }
  }

  /** The run-level form of `YieldedRespects`. */
  lemma EnumerateRespects<T, S>(next: S -> Page<T, S>, s: S, fuel: nat, inv: S -> bool, ok: T -> bool)
    requires inv(s)
    requires forall t :: inv(t) ==> PageRespects(next(t), inv, ok)
    ensures inv(Enumerate(next, s, fuel).state)
    ensures forall j :: 0 <= j < |Enumerate(next, s, fuel).items| ==> ok(Enumerate(next, s, fuel).items[j])
  {
    EnumerateFollowsPages(next, s, fuel);
    YieldedRespects(next, s, |Enumerate(next, s, fuel).calls|, inv, ok);
  }

  /** `FirstOrDefault`: the first item yielded, if any. */
  function FirstOrDefault<T, S>(next: S -> Page<T, S>, s: S): (r: Run<T, S>)
    ensures |r.calls| == 1
    ensures |r.items| <= 1
    ensures r.stop.Threw? <==> next(s).Failed?
    ensures next(s).Page? && |next(s).items| > 0 ==> r.items == [next(s).items[0]]
    ensures next(s).Page? && |next(s).items| == 0 ==> r.items == []
  {
    var run := Enumerate(next, s, 1);
    if |run.items| == 0 then run else run.(items := [run.items[0]])
  }

  /**
   * Taking the first item needs only the first page: the first item of an
   * enumeration with any page bound is the one `FirstOrDefault` returns.
   */
  lemma FirstItemNeedsOnePage<T, S>(next: S -> Page<T, S>, s: S, fuel: nat)
    requires fuel >= 1
    requires |Enumerate(next, s, fuel).items| > 0
    ensures FirstOrDefault(next, s).items == [Enumerate(next, s, fuel).items[0]]
  {
  }
}
