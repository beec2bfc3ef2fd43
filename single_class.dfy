/** The single-class Maybe of src/index.ts: one class storing the raw value,
    whose every method branches on `isNothing(this.value)`.

    Each operation's contract ties it to the two-variant model through `Abs`,
    which classifies the stored value: the two implementations agree on
    everything except which absence marker `asNullable` returns. */
module SingleClass {
  import opened Nil
  import opened Errors
  import V = Variants

  /** The class, with its private `value` field; it is never reassigned. */
  datatype Maybe<+T> = Wrap(value: Raw<T>)

  /** The two-variant Maybe this one stands for. */
  function Abs<T>(m: Maybe<T>): V.Maybe<T>
  {
    V.Classify(m.value)
  }

  /** A fallback of `or`, with the Maybe inside seen as a two-variant Maybe. */
  function AbsFallback<T>(other: V.Fallback<Maybe<T>>): V.Fallback<V.Maybe<T>>
  {
    match other
    case Plain(value) => V.Plain(Abs(value))
    case Lazy(thunk) => V.Lazy(() => Abs(thunk()))
  }

  /** `Maybe.none()` stores `undefined`. */
  function NoneOf<T>(): (m: Maybe<T>)
    ensures IsNothing(m)
    ensures AsNullable(m) == Undefined
    ensures Abs(m) == V.NoneOf()
  {
    Wrap(Undefined)
  }

  /** `Maybe.some(v)` stores `v` unchecked, so a nil argument is kept as
      the marker it is; for a present `v` it stands for `Some(v)`. */
  function SomeOf<T>(v: Raw<T>): (m: Maybe<T>)
    ensures AsNullable(m) == v
    ensures IsNothing(m) <==> Nil.IsNothing(v)
    ensures v.Val? ==> Abs(m) == V.SomeOf(v.v)
    ensures Nil.IsNothing(v) ==> Abs(m) == V.NoneOf()
  {
    Wrap(v)
  }

  /** `Maybe.maybe(v)` stores `v` as given, marker included. */
  function MaybeOf<T>(v: Raw<T>): (m: Maybe<T>)
    ensures IsNothing(m) <==> Nil.IsNothing(v)
    ensures AsNullable(m) == v
    ensures Abs(m) == V.Classify(v)
  {
    Wrap(v)
  }

  /** `isNothing()`: the shared predicate on the stored value. */
  function IsNothing<T>(m: Maybe<T>): (b: bool)
    ensures b <==> V.IsNothing(Abs(m))
  {
    Nil.IsNothing(m.value)
  }

  /** `expect`: the stored value when present; otherwise throws the supplied
      Error, or `Error(msg || default)`. Same outcome as the two-variant one. */
  function Expect<T>(m: Maybe<T>, msg: V.ExpectArg): (r: Result<T>)
    ensures r == V.Expect(Abs(m), msg)
  {
    if IsNothing(m) then Throw(V.ErrorFor(msg)) else Ok(m.value.v)
  }

  /** `caseOf`: when absent, `maybe(none())` or the receiver itself; when
      present, `maybe(some(v))` or `none()`. */
  function CaseOf<T, R>(m: Maybe<T>, funcs: V.MatchType<T, R>): (r: Maybe<R>)
    ensures Abs(r) == V.CaseOf(Abs(m), funcs)
    ensures IsNothing(m) && funcs.none.Given? ==> r.value == funcs.none.call()
    ensures IsNothing(m) && funcs.none.Omitted? ==> r.value == Retyped(m.value)
    ensures !IsNothing(m) && funcs.some.Given? ==> r.value == funcs.some.call(m.value.v)
    ensures !IsNothing(m) && funcs.some.Omitted? ==> r.value == Undefined
  {
    if IsNothing(m) then
      if funcs.none.Given? then MaybeOf(funcs.none.call()) else Wrap(Retyped(m.value))
    else
      if funcs.some.Given? then MaybeOf(funcs.some.call(m.value.v)) else NoneOf()
  }

  /** `map`: the receiver when absent (stored marker kept, `f` not used),
      `maybe(f(v))` when present. */
  function Map<T, U>(m: Maybe<T>, f: T -> Raw<U>): (r: Maybe<U>)
    ensures Abs(r) == V.Map(Abs(m), f)
    ensures IsNothing(m) ==> r.value == Retyped(m.value)
    ensures !IsNothing(m) ==> r.value == f(m.value.v)
  {
    if IsNothing(m) then Wrap(Retyped(m.value)) else MaybeOf(f(m.value.v))
  }

  /** `flatMap`: the receiver when absent, `f(v)` when present. */
  function FlatMap<T, U>(m: Maybe<T>, f: T -> Maybe<U>): (r: Maybe<U>)
    ensures Abs(r) == V.FlatMap(Abs(m), (x: T) => Abs(f(x)))
    ensures IsNothing(m) ==> r.value == Retyped(m.value)
    ensures !IsNothing(m) ==> r == f(m.value.v)
  {
    if IsNothing(m) then Wrap(Retyped(m.value)) else f(m.value.v)
  }

  /** `orElse`: the stored value when present, else the fallback, called
      when it is a function. */
  function OrElse<T>(m: Maybe<T>, def: V.Fallback<T>): (r: T)
    ensures r == V.OrElse(Abs(m), def)
  {
    if !IsNothing(m) then m.value.v else V.InvokeFunc(def)
  }

  /** `or`: the receiver when present, else the fallback Maybe, called when
      it is a function. */
  function Or<T>(m: Maybe<T>, other: V.Fallback<Maybe<T>>): (r: Maybe<T>)
    ensures Abs(r) == V.Or(Abs(m), AbsFallback(other))
    ensures !IsNothing(m) ==> r == m
    ensures IsNothing(m) ==> r == V.InvokeFunc(other)
  {
    if !IsNothing(m) then m else V.InvokeFunc(other)
  }

  /** `asNullable`: the stored value, marker included. The two-variant
      `asNullable` gives the same answer with `undefined` turned into `null`. */
  function AsNullable<T>(m: Maybe<T>): (r: Raw<T>)
    ensures V.AsNullable(Abs(m)) == Normalise(r)
    ensures V.IsNothing(Abs(m)) <==> Nil.IsNothing(r)
  {
    m.value
  }

  /** The one observable difference between the two implementations:
      `none().asNullable()` is `undefined` here and `null` on the two-variant
      Maybe, although both `none()`s stand for the same value. */
  lemma NoneAsNullableDiffers<T>()
    ensures Abs(NoneOf<T>()) == V.NoneOf<T>()
    ensures AsNullable(NoneOf<T>()) == Undefined
    ensures V.AsNullable(V.NoneOf<T>()) == Null
  {
  }

  /** `maybe(x).asNullable()` here gives `x` back exactly, both markers
      included, while the two-variant round trip collapses `undefined`. */
  lemma MaybeRoundTrip<T>(x: Raw<T>)
    ensures AsNullable(MaybeOf(x)) == x
    ensures V.AsNullable(V.Classify(x)) == Normalise(x)
    ensures x == Undefined ==> AsNullable(MaybeOf(x)) != V.AsNullable(V.Classify(x))
  {
  }

  /** `some` and `maybe` have the same body in this class: neither checks
      its argument, so `some(x)` and `maybe(x)` are the same Maybe for every
      `x`, nil included. */
  lemma SomeIsMaybe<T>(x: Raw<T>)
    ensures SomeOf(x) == MaybeOf(x)
    ensures x.Val? ==> Abs(SomeOf(x)) == V.SomeOf(x.v)
  {
  }
}
