/** `MaybeT` (src/transformer.ts): a wrapper around an "effect" value, an
    array or a promise, that pushes Maybe semantics through the effect's own
    transformation primitive (`then` for a promise, `map` for an array).

    A promise is modelled as already settled: the continuation attached by
    `then` is applied to a resolved value at once, and a rejection is kept.
    The inner Maybe is the two-variant one, so a nil element comes out as
    `null` whichever marker it went in with. */
module Transformer {
  import opened Nil
  import opened Errors
  import V = Variants

  /** A settled promise: resolved with a raw value, or rejected with a reason. */
  datatype Settled<+T, +E> = Resolved(value: Raw<T>) | Rejected(reason: E)

  /** The effects the transformer wraps: an array of raw values, or a promise. */
  datatype Effect<+T, +E> = ArrayOf(items: seq<Raw<T>>) | PromiseOf(settled: Settled<T, E>)

  /** The constructors `asType` can check an effect against. */
  datatype Kind = ArrayKind | PromiseKind

  /** `c.name` of each constructor. */
  function KindName(k: Kind): (r: string)
    ensures r == "Array" <==> k == ArrayKind
    ensures r == "Promise" <==> k == PromiseKind
  {
    match k
    case ArrayKind => "Array"
    case PromiseKind => "Promise"
  }

  /** The constructor an effect value is an instance of. */
  function KindOf<T, E>(x: Effect<T, E>): (k: Kind)
    ensures k == PromiseKind <==> x.PromiseOf?
    ensures k == ArrayKind <==> x.ArrayOf?
  {
    match x
    case ArrayOf(_) => ArrayKind
    case PromiseOf(_) => PromiseKind
  }

  /** `isPromise`: the effect has a `then` function. */
  predicate IsPromise<T, E>(x: Effect<T, E>)
    ensures IsPromise(x) <==> KindOf(x) == PromiseKind
  {
    x.PromiseOf?
  }

  /** `Array.prototype.map` on the raw elements. */
  function ArrayMap<T, U>(items: seq<Raw<T>>, g: Raw<T> -> Raw<U>): (r: seq<Raw<U>>)
    ensures |r| == |items|
    ensures forall i :: 0 <= i < |items| ==> r[i] == g(items[i])
  {
    if items == [] then [] else [g(items[0])] + ArrayMap(items[1..], g)
  }

  /** `then` on a settled promise: a resolved value goes through `g`, a
      rejection passes through untouched. */
  function Then<T, U, E>(p: Settled<T, E>, g: Raw<T> -> Raw<U>): (r: Settled<U, E>)
    ensures p.Rejected? <==> r.Rejected?
    ensures p.Rejected? ==> r.reason == p.reason
    ensures p.Resolved? ==> r.value == g(p.value)
  {
    match p
    case Resolved(value) => Resolved(g(value))
    case Rejected(reason) => Rejected(reason)
  }

  /** `getMap`: the effect's `then` when it has one, otherwise its `map`. */
  function GetMap<T, U, E>(x: Effect<T, E>): (Raw<T> -> Raw<U>) -> Effect<U, E>
  {
    if IsPromise(x) then
      var p := x.settled;
      (g: Raw<T> -> Raw<U>) => PromiseOf(Then(p, g))
    else
      var items := x.items;
      (g: Raw<T> -> Raw<U>) => ArrayOf(ArrayMap(items, g))
  }

  /** `getMap` dispatches on the presence of `then`, and the effect it
      produces is of the same kind as the one it was taken from. */
  lemma GetMapDispatch<T, U, E>(x: Effect<T, E>, g: Raw<T> -> Raw<U>)
    ensures IsPromise(x) ==> GetMap(x)(g) == PromiseOf(Then(x.settled, g))
    ensures !IsPromise(x) ==> GetMap(x)(g) == ArrayOf(ArrayMap(x.items, g))
    ensures KindOf(GetMap(x)(g)) == KindOf(x)
  {
  }

  /** The transformer, holding the wrapped effect. */
  datatype MaybeT<+T, +E> = MaybeT(value: Effect<T, E>)

  // ---------------------------------------------------------------
  // Reference meaning of one element, stated on raw values alone
  // ---------------------------------------------------------------

  /** What `map(f)` does to one element: `f` on a present value (its nil
      result written as `null`), `null` for either marker. */
  function MapElement<T, U>(inner: Raw<T>, f: T -> Raw<U>): Raw<U>
  {
    match inner
    case Val(v) => Normalise(f(v))
    case _ => Null
  }

  /** What `caseOf(matcher)` does to one element: the handler that matches,
      its nil result written as `null`; `null` when that handler is missing. */
  function CaseElement<T, R>(inner: Raw<T>, matcher: V.MatchType<T, R>): Raw<R>
  {
    match inner
    case Val(v) => if matcher.some.Given? then Normalise(matcher.some.call(v)) else Null
    case _ => if matcher.none.Given? then Normalise(matcher.none.call()) else Null
  }

  /** What `orElse(def)` does to one element: a present value is kept, a nil
      one is replaced by the default, called when it is a function. */
  function DefaultElement<T>(inner: Raw<T>, def: V.Fallback<T>): Raw<T>
  {
    if Nil.IsNothing(inner) then Val(V.InvokeFunc(def)) else inner
  }

  /** An effect transformed element-wise by `h`: same kind, same length and
      order for an array, a rejection kept for a promise. */
  ghost predicate Pointwise<T, U, E>(x: Effect<T, E>, y: Effect<U, E>, h: Raw<T> -> Raw<U>)
  {
    match x
    case ArrayOf(items) =>
      y.ArrayOf? && |y.items| == |items| &&
      forall i :: 0 <= i < |items| ==> y.items[i] == h(items[i])
    case PromiseOf(p) =>
      y.PromiseOf? &&
      match p
      case Resolved(value) => y.settled == Resolved(h(value))
      case Rejected(reason) => y.settled == Rejected(reason)
  }

  // ---------------------------------------------------------------
  // The operations
  // ---------------------------------------------------------------

  /** `maybeT`: wraps an effect; `asNullable` gives it back untouched. */
  function MaybeTOf<T, E>(monad: Effect<T, E>): (t: MaybeT<T, E>)
    ensures AsNullable(t) == monad
  {
    MaybeT(monad)
  }

  /** `map`: classifies each inner value, maps it with `f`, and writes it
      back with `asNullable`. */
  function Map<T, U, E>(t: MaybeT<T, E>, f: T -> Raw<U>): (r: MaybeT<U, E>)
    ensures Pointwise(t.value, r.value, (inner: Raw<T>) => MapElement(inner, f))
  {
    var apply := GetMap(t.value);
    MaybeT(apply((inner: Raw<T>) => V.AsNullable(V.Map(V.Classify(inner), f))))
  }

  /** `caseOf`: classifies each inner value, matches it, and writes it back
      with `asNullable`. */
  function CaseOf<T, R, E>(t: MaybeT<T, E>, matcher: V.MatchType<T, R>): (r: MaybeT<R, E>)
    ensures Pointwise(t.value, r.value, (inner: Raw<T>) => CaseElement(inner, matcher))
  {
    var apply := GetMap(t.value);
    MaybeT(apply((inner: Raw<T>) => V.AsNullable(V.CaseOf(V.Classify(inner), matcher))))
  }

  /** `orElse`: defaults each nil inner value and returns the bare effect,
      not a transformer. */
  function OrElse<T, E>(t: MaybeT<T, E>, def: V.Fallback<T>): (r: Effect<T, E>)
    ensures Pointwise(t.value, r, (inner: Raw<T>) => DefaultElement(inner, def))
  {
    var apply := GetMap(t.value);
    apply((inner: Raw<T>) => Val(V.OrElse(V.Classify(inner), def)))
  }

  /** `asNullable`: the wrapped effect itself. */
  function AsNullable<T, E>(t: MaybeT<T, E>): Effect<T, E>
  {
    t.value
  }

  /** `maybeT` and `asNullable` are inverse: unwrapping and rewrapping gives
      the same transformer, and wrapping then unwrapping the same effect. */
  lemma MaybeTRoundTrip<T, E>(t: MaybeT<T, E>, monad: Effect<T, E>)
    ensures MaybeTOf(AsNullable(t)) == t
    ensures AsNullable(MaybeTOf(monad)) == monad
  {
  }

  /** `asType(c)`: the wrapped effect when it is an instance of `c`,
      otherwise an Error naming `c`. */
  function AsType<T, E>(t: MaybeT<T, E>, c: Kind): (r: Result<Effect<T, E>>)
    ensures r.Ok? <==> KindOf(t.value) == c
    ensures r.Ok? ==> r.value == t.value
    ensures r.Throw? ==> r.error.message == "Expected value to be instance of monad " + KindName(c)
  {
    if KindOf(t.value) != c then Throw(JsError("Expected value to be instance of monad " + KindName(c)))
    else Ok(t.value)
  }

  // ---------------------------------------------------------------
  // Properties
  // ---------------------------------------------------------------

  /** Array `map(f)`: same length and order; a nil element becomes `null`,
      a present one `f` of it with a nil result written as `null`. */
  lemma MapArray<T, U, E>(items: seq<Raw<T>>, f: T -> Raw<U>, i: nat)
    requires i < |items|
    ensures AsNullable(Map(MaybeTOf<T, E>(ArrayOf(items)), f)).ArrayOf?
    ensures |AsNullable(Map(MaybeTOf<T, E>(ArrayOf(items)), f)).items| == |items|
    ensures Nil.IsNothing(items[i]) ==> AsNullable(Map(MaybeTOf<T, E>(ArrayOf(items)), f)).items[i] == Null
    ensures items[i].Val? ==>
              AsNullable(Map(MaybeTOf<T, E>(ArrayOf(items)), f)).items[i] == Normalise(f(items[i].v))
  {
    var r := Map(MaybeTOf<T, E>(ArrayOf(items)), f);
    assert r.value.items[i] == MapElement(items[i], f);
  }

  /** `f` is only ever applied to present elements: two functions that agree
      on the present elements give the same mapped array. */
  lemma MapSeesOnlyPresentElements<T, U, E>(items: seq<Raw<T>>, f: T -> Raw<U>, f': T -> Raw<U>)
    requires forall j :: 0 <= j < |items| && items[j].Val? ==> f(items[j].v) == f'(items[j].v)
    ensures Map(MaybeTOf<T, E>(ArrayOf(items)), f) == Map(MaybeTOf<T, E>(ArrayOf(items)), f')
  {
    var r := Map(MaybeTOf<T, E>(ArrayOf(items)), f).value.items;
    var r' := Map(MaybeTOf<T, E>(ArrayOf(items)), f').value.items;
    forall j | 0 <= j < |items|
      ensures r[j] == r'[j]
    {
      assert r[j] == MapElement(items[j], f);
      assert r'[j] == MapElement(items[j], f');
    }
    assert r == r';
  }

  /** Mapping the identity over an array writes both markers as `null` and
      keeps everything else; with no `undefined` in it the array comes back
      unchanged. */
  lemma MapIdentityArray<T, E>(items: seq<Raw<T>>)
    ensures AsNullable(Map(MaybeTOf<T, E>(ArrayOf(items)), (x: T) => Val(x))) ==
            ArrayOf(ArrayMap(items, Normalise))
    ensures (forall j :: 0 <= j < |items| ==> items[j] != Undefined) ==>
            AsNullable(Map(MaybeTOf<T, E>(ArrayOf(items)), (x: T) => Val(x))) == ArrayOf(items)
  {
    var r := AsNullable(Map(MaybeTOf<T, E>(ArrayOf(items)), (x: T) => Val(x))).items;
    var n := ArrayMap(items, Normalise);
    forall j | 0 <= j < |items|
      ensures r[j] == n[j] == Normalise(items[j])
    {
      assert r[j] == MapElement(items[j], (x: T) => Val(x));
    }
    assert r == n;
    if forall j :: 0 <= j < |items| ==> items[j] != Undefined {
      forall j | 0 <= j < |items|
        ensures n[j] == items[j]
      {
        assert Normalise(items[j]) == items[j];
      }
      assert n == items;
    }
  }

  /** Two chained array `map`s apply both functions to present elements; an
      element that is nil before or after the first function ends as `null`. */
  lemma ChainedMapArray<T, U, W, E>(items: seq<Raw<T>>, f: T -> Raw<U>, g: U -> Raw<W>, i: nat)
    requires i < |items|
    ensures |AsNullable(Map(Map(MaybeTOf<T, E>(ArrayOf(items)), f), g)).items| == |items|
    ensures Nil.IsNothing(items[i]) ==> AsNullable(Map(Map(MaybeTOf<T, E>(ArrayOf(items)), f), g)).items[i] == Null
    ensures items[i].Val? && Nil.IsNothing(f(items[i].v)) ==>
              AsNullable(Map(Map(MaybeTOf<T, E>(ArrayOf(items)), f), g)).items[i] == Null
    ensures items[i].Val? && f(items[i].v).Val? ==>
              AsNullable(Map(Map(MaybeTOf<T, E>(ArrayOf(items)), f), g)).items[i] == Normalise(g(f(items[i].v).v))
  {
    var once := Map(MaybeTOf<T, E>(ArrayOf(items)), f);
    MapArray<T, U, E>(items, f, i);
    MapArray<U, W, E>(once.value.items, g, i);
  }

  /** Array `caseOf`: each element is replaced by the result of the handler
      of its variant, re-classified and written back. */
  lemma CaseOfArray<T, R, E>(items: seq<Raw<T>>, matcher: V.MatchType<T, R>, i: nat)
    requires i < |items|
    ensures |AsNullable(CaseOf(MaybeTOf<T, E>(ArrayOf(items)), matcher)).items| == |items|
    ensures items[i].Val? && matcher.some.Given? ==>
              AsNullable(CaseOf(MaybeTOf<T, E>(ArrayOf(items)), matcher)).items[i] ==
              Normalise(matcher.some.call(items[i].v))
    ensures Nil.IsNothing(items[i]) && matcher.none.Given? ==>
              AsNullable(CaseOf(MaybeTOf<T, E>(ArrayOf(items)), matcher)).items[i] ==
              Normalise(matcher.none.call())
  {
    var r := CaseOf(MaybeTOf<T, E>(ArrayOf(items)), matcher);
    assert r.value.items[i] == CaseElement(items[i], matcher);
  }

  /** Array `orElse`: every nil element is defaulted, every present one kept,
      and the result is a bare array. */
  lemma OrElseArray<T, E>(items: seq<Raw<T>>, def: V.Fallback<T>, i: nat)
    requires i < |items|
    ensures OrElse(MaybeTOf<T, E>(ArrayOf(items)), def).ArrayOf?
    ensures |OrElse(MaybeTOf<T, E>(ArrayOf(items)), def).items| == |items|
    ensures Nil.IsNothing(items[i]) ==> OrElse(MaybeTOf<T, E>(ArrayOf(items)), def).items[i] == Val(V.InvokeFunc(def))
    ensures items[i].Val? ==> OrElse(MaybeTOf<T, E>(ArrayOf(items)), def).items[i] == items[i]
  {
    var r := OrElse(MaybeTOf<T, E>(ArrayOf(items)), def);
    assert r.items[i] == DefaultElement(items[i], def);
  }

  /** On a settled promise, `map` maps a resolved present value, resolves a
      nil one to `null` without using `f`, and keeps a rejection as it is;
      `caseOf` and `orElse` keep a rejection too. */
  lemma MapPromise<T, U, R, E>(v: T, marker: Raw<T>, reason: E, f: T -> Raw<U>,
                               matcher: V.MatchType<T, R>, def: V.Fallback<T>)
    requires Nil.IsNothing(marker)
    ensures AsNullable(Map(MaybeTOf<T, E>(PromiseOf(Resolved(Val(v)))), f)) == PromiseOf(Resolved(Normalise(f(v))))
    ensures AsNullable(Map(MaybeTOf<T, E>(PromiseOf(Resolved(marker))), f)) == PromiseOf(Resolved(Null))
    ensures AsNullable(Map(MaybeTOf<T, E>(PromiseOf(Rejected(reason))), f)) == PromiseOf(Rejected(reason))
    ensures AsNullable(CaseOf(MaybeTOf<T, E>(PromiseOf(Rejected(reason))), matcher)) == PromiseOf(Rejected(reason))
    ensures OrElse(MaybeTOf<T, E>(PromiseOf(Rejected(reason))), def) == PromiseOf(Rejected(reason))
  {
    var ok := Map(MaybeTOf<T, E>(PromiseOf(Resolved(Val(v)))), f);
    assert ok.value.settled == Resolved(MapElement(Val(v), f));
    var nil := Map(MaybeTOf<T, E>(PromiseOf(Resolved(marker))), f);
    assert nil.value.settled == Resolved(MapElement(marker, f));
  }

  /** `asType` on an array asserted to be a promise throws, naming `Promise`;
      asserted to be an array it hands the array back. */
  lemma AsTypeOnArray<T, E>(items: seq<Raw<T>>)
    ensures AsType(MaybeTOf<T, E>(ArrayOf(items)), PromiseKind) ==
            Throw(JsError("Expected value to be instance of monad Promise"))
    ensures AsType(MaybeTOf<T, E>(ArrayOf(items)), ArrayKind) == Ok(ArrayOf(items))
  {
  }

  /** `maybeT(raw).asNullable()` is `raw`, both markers in place
      (tests/transformer.test.ts, "array - can generate a maybeT"). */
  lemma ScenarioArrayRoundTrip()
    ensures var raw: seq<Raw<int>> := [Val(1), Val(2), Null, Undefined, Val(5)];
            AsNullable(MaybeTOf<int, string>(ArrayOf(raw))) == ArrayOf(raw)
  {
  }

  /** `maybeT([1, null, 1, undefined, 1]).map(v => 2)` is `[2, null, 2, null, 2]`. */
  lemma ScenarioArrayMap()
    ensures AsNullable(Map(MaybeTOf<int, string>(ArrayOf([Val(1), Null, Val(1), Undefined, Val(1)])), (v: int) => Val(2)))
            == ArrayOf([Val(2), Null, Val(2), Null, Val(2)])
  {
    var items: seq<Raw<int>> := [Val(1), Null, Val(1), Undefined, Val(1)];
    var f := (v: int) => Val(2);
    forall i | 0 <= i < |items| {
      MapArray<int, int, string>(items, f, i);
    }
    assert AsNullable(Map(MaybeTOf<int, string>(ArrayOf(items)), f)).items == [Val(2), Null, Val(2), Null, Val(2)];
  }

  /** Mapping `v => v + 1` over `[1, 2, null, 4]` and asserting an array
      gives `[2, 3, null, 5]` (the test's `parseInt` step, over numbers, is
      left out). */
  lemma ScenarioArrayAsType()
    ensures AsType(Map(MaybeTOf<int, string>(ArrayOf([Val(1), Val(2), Null, Val(4)])), (v: int) => Val(v + 1)), ArrayKind)
            == Ok(ArrayOf([Val(2), Val(3), Null, Val(5)]))
  {
    var items: seq<Raw<int>> := [Val(1), Val(2), Null, Val(4)];
    var f := (v: int) => Val(v + 1);
    forall i | 0 <= i < |items| {
      MapArray<int, int, string>(items, f, i);
    }
    assert AsNullable(Map(MaybeTOf<int, string>(ArrayOf(items)), f)).items == [Val(2), Val(3), Null, Val(5)];
  }

  /** `caseOf({ none: () => 3, some: v => v })` over `[1, 2, null, 4]` is
      `[1, 2, 3, 4]` (the test's strings and `parseInt` are replaced by
      numbers and the identity). */
  lemma ScenarioArrayCaseOf()
    ensures AsNullable(CaseOf(MaybeTOf<int, string>(ArrayOf([Val(1), Val(2), Null, Val(4)])),
                              V.MatchType(V.Given((v: int) => Val(v)), V.Given(() => Val(3)))))
            == ArrayOf([Val(1), Val(2), Val(3), Val(4)])
  {
    var items: seq<Raw<int>> := [Val(1), Val(2), Null, Val(4)];
    var matcher := V.MatchType(V.Given((v: int) => Val(v)), V.Given(() => Val(3)));
    forall i | 0 <= i < |items| {
      CaseOfArray<int, int, string>(items, matcher, i);
    }
    assert AsNullable(CaseOf(MaybeTOf<int, string>(ArrayOf(items)), matcher)).items == [Val(1), Val(2), Val(3), Val(4)];
  }

  /** `orElse(3)` over `[1, 2, null, 4]` is the bare array `[1, 2, 3, 4]`. */
  lemma ScenarioArrayOrElse()
    ensures OrElse(MaybeTOf<int, string>(ArrayOf([Val(1), Val(2), Null, Val(4)])), V.Plain(3))
            == ArrayOf([Val(1), Val(2), Val(3), Val(4)])
  {
    var items: seq<Raw<int>> := [Val(1), Val(2), Null, Val(4)];
    forall i | 0 <= i < |items| {
      OrElseArray<int, string>(items, V.Plain(3), i);
    }
    assert OrElse(MaybeTOf<int, string>(ArrayOf(items)), V.Plain(3)).items == [Val(1), Val(2), Val(3), Val(4)];
  }

  /** The promise scenarios: a resolved or rejected promise comes back from
      `asNullable` as it went in; `'hey'` is mapped to `'hey there'`; a
      promise resolved with `null` resolves to `null` whatever `f` is. */
  lemma ScenarioPromise(f: string -> Raw<string>)
    ensures AsNullable(MaybeTOf<string, string>(PromiseOf(Resolved(Val("hi"))))) == PromiseOf(Resolved(Val("hi")))
    ensures AsNullable(MaybeTOf<string, string>(PromiseOf(Rejected("hey")))) == PromiseOf(Rejected("hey"))
    ensures AsType(Map(MaybeTOf<string, string>(PromiseOf(Resolved(Val("hey")))), (v: string) => Val(v + " there")), PromiseKind)
            == Ok(PromiseOf(Resolved(Val("hey there"))))
    ensures AsNullable(Map(MaybeTOf<string, string>(PromiseOf(Resolved(Null))), f)) == PromiseOf(Resolved(Null))
  {
    var there := (v: string) => Val(v + " there");
    var t := MaybeTOf<string, string>(PromiseOf(Resolved(Val("hey"))));
    assert Map(t, there).value.settled == Resolved(MapElement(Val("hey"), there));
    assert "hey" + " there" == "hey there";
    assert MapElement(Val("hey"), there) == Val("hey there");
    MapPromise<string, string, string, string>("hey", Null, "", f, V.MatchType(V.Omitted, V.Omitted), V.Plain(""));
  }
}
