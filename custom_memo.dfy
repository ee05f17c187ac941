/** `customMemo(Component)` of src/App.js: a one-slot cache that remembers the last
    props record and the element built from it, and rebuilds only when the next
    props are not shallowly equal to the remembered ones. The element
    `<Component {...props} />` is an opaque function `build` of the props. */
module CustomMemo {
  import opened Values
  import opened ShallowCompare

  /** The two closed-over variables `lastProps` and `lastResult`; `None` is `null`. */
  datatype Cache<R> = Cache(lastProps: Option<Record>, lastResult: Option<R>)

  /** Both variables start out `null`. */
  function Initial<R>(): Cache<R> {
    Cache(None, None)
  }

  /** The cache invariant: both unset, or the remembered result is the element built
      from the remembered props. */
  ghost predicate Consistent<R>(build: Record -> R, c: Cache<R>) {
    match c.lastProps
    case None => c.lastResult.None?
    case Some(p) => c.lastResult == Some(build(p))
  }

  /** The guard `lastProps && shallowEqual(lastProps, props)`: a props object is
      always truthy, so the guard fails only before the first call. */
  predicate IsHit<R>(c: Cache<R>, props: Record): (hit: bool)
    ensures c.lastProps.None? ==> !hit
    ensures hit ==> |c.lastProps.value| == |props|
  {
    c.lastProps.Some? && ShallowlyEqual(c.lastProps.value, props)
  }

  /** One call of the memoized function: the new cache and the returned element. */
  function Step<R>(build: Record -> R, c: Cache<R>, props: Record): (out: (Cache<R>, R))
    requires Consistent(build, c)
    ensures Consistent(build, out.0)
    ensures out.0.lastResult == Some(out.1)
  {
    if IsHit(c, props) then (c, c.lastResult.value)
    else (Cache(Some(props), Some(build(props))), build(props))
  }

  /** The outcome of a series of calls: the final cache, what each call returned,
      and how many calls built a new element. */
  datatype Trace<R> = Trace(final: Cache<R>, outputs: seq<R>, builds: nat)

  /** Successive calls of the same memoized function with `inputs`, starting from `c`. */
  function Run<R>(build: Record -> R, c: Cache<R>, inputs: seq<Record>): (t: Trace<R>)
    requires Consistent(build, c)
    ensures Consistent(build, t.final)
    ensures |t.outputs| == |inputs| && t.builds <= |inputs|
    decreases |inputs|
  {
    if inputs == [] then Trace(c, [], 0)
    else
      var (next, r) := Step(build, c, inputs[0]);
      var rest := Run(build, next, inputs[1..]);
      Trace(rest.final, [r] + rest.outputs, rest.builds + if IsHit(c, inputs[0]) then 0 else 1)
  }

  /** The first call always builds, and remembers its props and its element. */
  lemma FirstCallBuilds<R>(build: Record -> R, props: Record)
    ensures !IsHit(Initial<R>(), props)
    ensures Step(build, Initial(), props) == (Cache(Some(props), Some(build(props))), build(props))
  {
  }

  /** On a hit the remembered element is returned and nothing changes: `lastProps`
      keeps the older record even when `props` is a different, shallowly equal one. */
  lemma HitReturnsRemembered<R>(build: Record -> R, c: Cache<R>, props: Record)
    requires Consistent(build, c) && IsHit(c, props)
    ensures Step(build, c, props) == (c, build(c.lastProps.value))
  {
  }

  /** On a miss both variables are replaced by the new props and the new element. */
  lemma MissReplacesBoth<R>(build: Record -> R, c: Cache<R>, props: Record)
    requires Consistent(build, c) && !IsHit(c, props)
    ensures Step(build, c, props) == (Cache(Some(props), Some(build(props))), build(props))
  {
  }

  /** When the remembered props bind no key to `undefined` (the new props may), a call
      returns exactly the element `props` would build: the cache is invisible. */
  lemma StepBuildsForProps<R>(build: Record -> R, c: Cache<R>, props: Record)
    requires Consistent(build, c)
    requires c.lastProps.Some? ==> NoUndefined(c.lastProps.value)
    ensures Step(build, c, props).1 == build(props)
  {
    if IsHit(c, props) {
      EqualIffSameRecord(c.lastProps.value, props);
    }
  }

  /** Calling twice in a row with the same record builds at most once (exactly once
      on a fresh cache), and both calls return the same element. */
  lemma InvokeTwiceBuildsOnce<R>(build: Record -> R, c: Cache<R>, props: Record)
    requires Consistent(build, c)
    ensures var t := Run(build, c, [props, props]);
            t.builds <= 1 && t.outputs[1] == t.outputs[0] && (c == Initial() ==> t.builds == 1)
  {
  }

  /** Over any series of calls whose records bind no key to `undefined`, the memoized
      function returns what the unmemoized component would: `build` of each input. */
  lemma {:induction false} RunBuildsForEachInput<R>(build: Record -> R, c: Cache<R>, inputs: seq<Record>)
    requires Consistent(build, c)
    requires c.lastProps.Some? ==> NoUndefined(c.lastProps.value)
    requires forall i :: 0 <= i < |inputs| ==> NoUndefined(inputs[i])
    ensures forall i :: 0 <= i < |inputs| ==> Run(build, c, inputs).outputs[i] == build(inputs[i])
    decreases |inputs|
  {
    if inputs != [] {
      var (next, r) := Step(build, c, inputs[0]);
      StepBuildsForProps(build, c, inputs[0]);
      RunBuildsForEachInput(build, next, inputs[1..]);
    }
  }

  /** With `undefined` in play the cache can serve a stale element: after `{x: undefined}`,
      the call with `{y: 1}` is a hit and returns what `{x: undefined}` built. */
  lemma StaleElementWithUndefined()
    ensures var readY := (r: Record) => Get(r, "y");
            var first, second := map["x" := Undefined], map["y" := Prim(Int(1))];
            var t := Run(readY, Initial(), [first, second]);
            t.builds == 1 && t.outputs[1] == Undefined != readY(second)
            && t.final.lastProps == Some(first)
  {
    var readY := (r: Record) => Get(r, "y");
    var first, second := map["x" := Undefined], map["y" := Prim(Int(1))];
    UndefinedMatchesMissingKey();
    var c := Cache(Some(first), Some(readY(first)));
    assert Step(readY, Initial(), first) == (c, Undefined);
    assert IsHit(c, second);
    assert Run(readY, c, [second]) == Trace(c, [Undefined], 0) by {
      assert [second][1..] == [];
    }
    assert [first, second][1..] == [second];
  }

  /** The element the scenario's component builds: twice the `counter` prop. */
  function CounterTimesTwo(props: Record): int {
    match Get(props, "counter")
    case Prim(Int(n)) => 2 * n
    case _ => 0
  }

  /** Inputs `{counter: 1}`, `{counter: 1}`, `{counter: 2}` give the elements 2, 2, 4
      and build twice. */
  lemma CounterScenario()
    ensures var one, two := map["counter" := Prim(Int(1))], map["counter" := Prim(Int(2))];
            var t := Run(CounterTimesTwo, Initial(), [one, one, two]);
            t.outputs == [2, 2, 4] && t.builds == 2
  {
    var one, two := map["counter" := Prim(Int(1))], map["counter" := Prim(Int(2))];
    var c1, c2 := Cache(Some(one), Some(2)), Cache(Some(two), Some(4));
    Reflexive(one);
    ValueMismatchUnequal(one, two, "counter");
    assert Run(CounterTimesTwo, c1, [two]) == Trace(c2, [4], 1) by {
      assert [two][1..] == [];
    }
    assert Run(CounterTimesTwo, c1, [one, two]) == Trace(c2, [2, 4], 1) by {
      assert [one, two][1..] == [two];
    }
    assert [one, one, two][1..] == [one, two];
  }

  /** Adding a key is a change: `{a: 1}` then `{a: 1, b: 2}` builds twice. */
  lemma AddedKeyRebuilds<R>(build: Record -> R)
    ensures var small := map["a" := Prim(Int(1))];
            var large := small["b" := Prim(Int(2))];
            Run(build, Initial(), [small, large]).builds == 2
  {
  }

  /** The memoized function as an object: the closed-over variables become fields,
      and a ghost counter records how many times an element was built. */
  class Memo<R> {
    const build: Record -> R
    var lastProps: Option<Record>
    var lastResult: Option<R>
    ghost var builds: nat

    function State(): Cache<R>
      reads this
    {
      Cache(lastProps, lastResult)
    }

    ghost predicate Valid()
      reads this
    {
      Consistent(build, State()) && (builds == 0 <==> lastProps.None?)
    }

    /** `customMemo(Component)`: both variables start out `null`. */
    constructor (component: Record -> R)
      ensures Valid() && build == component
      ensures State() == Initial() && builds == 0
    {
      build := component;
      lastProps := None;
      lastResult := None;
      builds := 0;
    }

    /** The returned function: return the remembered element on a hit, otherwise
        build, remember and return a new one. */
    method Invoke(props: Record) returns (r: R)
      requires Valid()
      modifies this
      ensures Valid()
      ensures (State(), r) == Step(build, old(State()), props)
      ensures builds == old(builds) + if IsHit(old(State()), props) then 0 else 1
    {
      if lastProps.Some? {
        var same := ShallowEqual(lastProps, Some(props));
        if same {
          return lastResult.value;
        }
      }
      lastProps := Some(props);
      r := build(props);
      lastResult := Some(r);
      builds := builds + 1;
    }
  }
}
