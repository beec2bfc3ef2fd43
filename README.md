# MaybeTyped in Dafny

A model of the MaybeTyped library. MaybeTyped is an optional-value ("Maybe") type for TypeScript, plus `MaybeT`, a transformer that pushes Maybe semantics through an array or a promise.

- `nil.dfy`, module `Nil`: a raw JavaScript value `Raw<T> = Null | Undefined | Val(v)` and the shared absence predicate `isNothing`. Module `Errors`: a JavaScript `Error` reduced to its message, and `Result<T> = Ok | Throw` for calls that may throw.
- `variants.dfy`, module `Variants`: the two-variant Maybe of `src/maybe.ts`, `src/some.ts` and `src/none.ts`. It is a datatype `Maybe<T> = Some(v) | None` with one function per combinator. Lemmas state what each class promises and the laws that relate the combinators. `src/some.ts` and `src/none.ts` both extend the class of `src/maybe.ts`, and `Some.eq` calls `map` and `orElse` on another Maybe that may be a `None`, so the three share one module. The combinators' arguments are small datatypes:
  - `ExpectArg`: no argument, a message, or an Error.
  - `Fallback`: `Plain(value)` or `Lazy(thunk)`, used by `orElse` and `or`.
  - `MatchType`: the `caseOf` matcher, whose two handlers may each be `Omitted`.
- `single_class.dfy`, module `SingleClass`: the single-class Maybe of `src/index.ts`, which stores the raw value. Each operation's contract ties it to the two-variant model through `Abs`, which classifies the stored value. The two models agree everywhere except on the marker `asNullable` returns: `none()` here stores and returns `undefined`.
- `transformer.dfy`, module `Transformer`: `MaybeT` over an `Effect`, which is an array of raw values or a settled promise. `getMap` picks the promise's `then` or the array's `map`. Every combinator is specified element-wise against a reference function on raw values (`MapElement`, `CaseElement`, `DefaultElement`), through the predicate `Pointwise`.
- `some_null.dfy`, module `SomeNull`: `Some.some` as written, which accepts a nil argument (see Findings).

Callbacks are total Dafny functions. "A callback is never invoked" is stated as "the result does not depend on that callback": two results built with different callbacks are equal.

The source files come from revisions that disagree. `src/some.ts:2` imports `maybe` and `none` from `./index`, and `src/none.ts:2` and `src/transformer.ts:4` import `maybe` from it. The single-class `src/index.ts` of this revision exports its own `Maybe.maybe` and `Maybe.none` (`src/index.ts:75-77`), and that `none()` stores `undefined` (`src/index.ts:16`). Read literally, `Some.caseOf` without a `some` handler, `Some.map` to a nil, `None.caseOf`, and the transformer's `map` and `caseOf` could then hand back `undefined`. The transformer tests expect `[1, null, 1, undefined, 1]` to map to `[2, null, 2, null, 2]` (`tests/transformer.test.ts:11-20`), which only the two-variant `maybe`/`none` gives. So the two-variant model, and the transformer built on it, classify through the two-variant `maybe`/`none`: a nil result always reads back as `null`. The single-class Maybe is modelled on its own in `SingleClass`.

## Model

| member | source | states |
|---|---|---|
| Nil.IsNothing | src/maybe.ts:8-10 | `isNothing` is false exactly for a present value |
| Nil.Retyped | src/index.ts:43-44 | the `as any` cast of an absent receiver keeps its marker, `null` or `undefined`, at the new type |
| Nil.NothingIsExactlyTheMarkers | src/maybe.ts:8-10 | `isNothing` is true exactly for `null` and `undefined`; every other value is present |
| Nil.FalsyValuesArePresent | src/maybe.ts:8-10 | `0`, `''` and `false` count as present |
| Variants.Value | src/none.ts:12 | the stored `value` field is never `undefined`, and is nil exactly for `None` |
| Variants.IsNothing | src/maybe.ts:15 | `isNothing()` is the shared predicate on the stored value, and it is true exactly for `None` |
| Variants.Classify | src/maybe.ts:8-10 | `maybe(x)` is nothing exactly when `x` is nil, and a `Some` holds `x` itself |
| Variants.SomeOf | src/some.ts:5 | `some(v)` is not nothing, and `asNullable` gives back `v` |
| Variants.NoneOf | src/none.ts:12-14 | `none()` is nothing, and `asNullable` gives `null` |
| Variants.ErrorFor | src/none.ts:17-18 | the error of `expect`: a supplied Error verbatim; otherwise an Error with the message, or with the default text when the message is missing or empty; never an empty message |
| Variants.Expect | src/maybe.ts:17 | `expect` succeeds exactly on a present Maybe, with the value `asNullable` shows; otherwise it throws `ErrorFor(msg)` |
| Variants.Eq | src/some.ts:31-34 | `eq`, built from `map` and `orElse`, holds exactly when both are `None` or both are `Some` of `==`-equal values |
| Variants.CaseOf | src/some.ts:9-13 | `caseOf` gives a present result only when the handler of the matching variant returned that value, and `None` when that handler returned a nil |
| Variants.Map | src/some.ts:15-17 | `map(f)` is present exactly when the receiver is and `f` of its value is present, and then holds that value; `None.map` gives `None` |
| Variants.FlatMap | src/some.ts:19-21 | `flatMap(f)` is `f(v)` on `Some`, and a present result only comes from a present receiver |
| Variants.OrElse | src/none.ts:38-40 | `orElse` returns the value `asNullable` shows when present, and `invokeFunc(def)` when absent |
| Variants.Or | src/none.ts:42-44 | `or` returns the receiver when present and `invokeFunc(other)` when absent |
| Variants.AsNullable | src/maybe.ts:23 | `asNullable` never yields `undefined`, and it yields a nil exactly for `None` |
| Variants.SomeExpect | src/some.ts:7 | `expect` on `Some` returns the held value, whatever the argument |
| Variants.SomeCaseOf | src/some.ts:9-13 | `caseOf` on `Some` is `maybe(some(v))` with a `some` handler and `None` without one; the `none` handler never matters |
| Variants.SomeMap | src/some.ts:15-17 | `map(f)` on `Some` is `maybe(f(v))`: `None` exactly when `f(v)` is nil, else `Some` of `f(v)` |
| Variants.SomeFlatMap | src/some.ts:19-21 | `flatMap(f)` on `Some` is `f(v)` with no re-wrapping |
| Variants.SomeOrElse | src/some.ts:23-25 | `orElse` on `Some` returns the held value; the fallback never matters |
| Variants.SomeOr | src/some.ts:27-29 | `or` on `Some` returns the receiver |
| Variants.SomeEq | src/some.ts:31-34 | `eq` on `Some` holds exactly when the other is `Some` of the same value |
| Variants.SomeAsNullable | src/some.ts:36-38 | `asNullable` on `Some` is the held value |
| Variants.InvokeFunc | src/none.ts:4-9 | `invokeFunc` calls a function fallback and returns a plain one; its partner is `InvokeFuncLazyIsPlain` |
| Variants.InvokeFuncLazyIsPlain | src/none.ts:4-9 | every lazy fallback is called and its result returned; a thunk returning `x` acts as the plain `x`; forcing a fallback and passing the result as a plain one changes nothing, also for `orElse` |
| Variants.NoneExpect | src/none.ts:16-22 | `expect` on `None` always throws: the supplied Error, `Error(msg)`, or the default message for a missing or empty message |
| Variants.NoneCaseOf | src/none.ts:24-28 | `caseOf` on `None` is `maybe(none())` with a `none` handler and the receiver without one; the `some` handler never matters |
| Variants.NoneMapFlatMap | src/none.ts:30-36 | `map` and `flatMap` on `None` give `None` whatever the function |
| Variants.NoneOrElse | src/none.ts:38-40 | `orElse` on `None` is `invokeFunc(def)` |
| Variants.NoneOr | src/none.ts:42-44 | `or` on `None` is `invokeFunc(other)`; `none().or(some(w)).asNullable()` is `w`, for a plain or a function fallback |
| Variants.NoneEq | src/none.ts:46-48 | `eq` on `None` holds exactly when the other is `None` |
| Variants.NoneAsNullable | src/none.ts:50 | `asNullable` on `None` is `null` |
| Variants.ClassifyRoundTrip | src/maybe.ts:18-23 | `maybe(m.asNullable())` is `m`; `maybe(x).asNullable()` is `x` with `undefined` written as `null` |
| Variants.MapIsFlatMap | src/maybe.ts:19-20 | `map(f)` equals `flatMap(v => maybe(f(v)))` on both variants |
| Variants.MapIdentity | src/some.ts:15-17 | `map` with the identity function returns the receiver |
| Variants.MapCompose | src/some.ts:15-17 | two `map`s equal one `map` whose function lets a nil intermediate result through as nil |
| Variants.MonadLaws | src/some.ts:19-21 | `flatMap` obeys left identity, right identity and associativity, with `some` as unit |
| Variants.CaseOfAgainstMap | src/maybe.ts:18 | `caseOf` with only a `some` handler is `map`; with no handlers it is `None`; with both, the handler that matches the variant decides |
| Variants.ExpectAgreesWithOrElse | src/maybe.ts:17-21 | when `expect` succeeds, `orElse` returns the same value |
| Variants.OrMonoid | src/none.ts:42-44 | `none()` is an identity of `or` on both sides, and `or` with plain fallbacks is associative |
| Variants.OrElseAfterOr | src/maybe.ts:21-22 | `m.or(o).orElse(d)` equals `m.orElse(o.orElse(d))` |
| Variants.EqEquivalence | src/some.ts:31-34 | `eq` is reflexive, symmetric and transitive |
| Variants.IdentityEquality | tests/maybe.test.ts:255-262 | `some(x).eq(some(x))` is true, and `some(x).eq(some({}))` is false for two distinct objects |
| SingleClass.NoneOf | src/index.ts:16 | `none()` stores `undefined`, is nothing, and stands for `None` |
| SingleClass.SomeOf | src/index.ts:17 | `some(v)` stores `v` unchecked, nil included: it is nothing exactly when `v` is nil, stands for `Some(v)` when `v` is present and for `None` otherwise |
| SingleClass.MaybeOf | src/index.ts:18 | `maybe(x)` stores `x` as given, is nothing exactly when `x` is nil, and stands for the two-variant `maybe(x)` |
| SingleClass.IsNothing | src/index.ts:20 | `isNothing()` agrees with the two-variant `isNothing()` |
| SingleClass.Expect | src/index.ts:22-28 | `expect` gives exactly the two-variant outcome: value when present, else the supplied Error or an Error with the message or the default text |
| SingleClass.CaseOf | src/index.ts:30-40 | `caseOf` agrees with the two-variant one; absent, it stores the `none` handler's result, or keeps the receiver's marker with no handler; present, it stores the `some` handler's result, or `undefined` with no handler |
| SingleClass.Map | src/index.ts:42-46 | `map` agrees with the two-variant one; when absent it keeps the stored marker, when present it stores `f(v)` |
| SingleClass.FlatMap | src/index.ts:48-52 | `flatMap` agrees with the two-variant one; it is the receiver when absent and `f(v)` when present |
| SingleClass.OrElse | src/index.ts:54-60 | `orElse` gives the same value as the two-variant one |
| SingleClass.Or | src/index.ts:62-68 | `or` agrees with the two-variant one; it returns the receiver itself when present and `invokeFunc(other)`, the fallback Maybe unchanged, when absent |
| SingleClass.AsNullable | src/index.ts:70-72 | `asNullable` is nil exactly when the two-variant one is, and gives the same value once `undefined` is turned into `null`; that it returns the exact stored marker is pinned by `MaybeRoundTrip` |
| SingleClass.NoneAsNullableDiffers | src/index.ts:16 | both `none()`s stand for `None`, but `asNullable` gives `undefined` here and `null` in the two-variant model |
| SingleClass.SomeIsMaybe | src/index.ts:17-18 | `some(x)` and `maybe(x)` are the same Maybe for every `x`, nil included |
| SingleClass.MaybeRoundTrip | src/index.ts:18 | `maybe(x).asNullable()` is exactly `x` here, and differs from the two-variant round trip on `undefined` |
| Transformer.KindName | src/transformer.ts:60 | `c.name` is `Array` exactly for the array constructor and `Promise` exactly for the promise one |
| Transformer.KindOf | src/transformer.ts:60 | an effect is an instance of the promise constructor exactly when it is a promise, and of the array one exactly when it is an array |
| Transformer.IsPromise | src/transformer.ts:17 | having a `then` function is the same as being an instance of the promise kind |
| Transformer.GetMap | src/transformer.ts:19-23 | `getMap` picks the promise's `then` or the array's `map`; what it gives is stated by `GetMapDispatch` |
| Transformer.ArrayMap | src/transformer.ts:22 | the array `map` keeps the length and applies the function at every index |
| Transformer.Then | src/transformer.ts:20 | `then` on a settled promise maps a resolved value and passes a rejection through unchanged |
| Transformer.GetMapDispatch | src/transformer.ts:19-23 | `getMap` uses `then` when the effect has it and `map` otherwise; the result is an effect of the same kind |
| Transformer.MaybeTOf | src/transformer.ts:28-30 | `maybeT(x).asNullable()` is `x`, both markers in place |
| Transformer.Map | src/transformer.ts:32-39 | `map(f)` transforms the effect element by element through `MapElement`: `f` on present values, `null` for nils, a rejection kept |
| Transformer.CaseOf | src/transformer.ts:41-48 | `caseOf` transforms the effect element by element through `CaseElement`, the matching handler's result re-classified |
| Transformer.OrElse | src/transformer.ts:50-56 | `orElse` returns the bare effect with every nil defaulted and every present value kept |
| Transformer.AsNullable | src/transformer.ts:58 | `asNullable` returns the wrapped effect; its round trip with `maybeT` is `MaybeTRoundTrip` |
| Transformer.MaybeTRoundTrip | src/transformer.ts:28-30 | `maybeT(t.asNullable())` is `t`, and `maybeT(x).asNullable()` is `x` |
| Transformer.AsType | src/transformer.ts:59-63 | `asType(c)` returns the wrapped value exactly when it is of kind `c`, else throws `Expected value to be instance of monad <name>` |
| Transformer.MapArray | src/transformer.ts:32-39 | array `map` keeps length and order, writes nils as `null` and present values as `f` of them |
| Transformer.MapSeesOnlyPresentElements | src/transformer.ts:34-37 | two functions that agree on the present elements give the same mapped array, so `f` only ever sees present elements |
| Transformer.MapIdentityArray | src/transformer.ts:32-39 | mapping the identity normalises both markers to `null`; with no `undefined` the array comes back unchanged |
| Transformer.ChainedMapArray | tests/transformer.test.ts:22-31 | chained array `map`s apply both functions to present elements; a nil before or after the first ends as `null` |
| Transformer.CaseOfArray | src/transformer.ts:41-48 | array `caseOf` replaces a present element by the `some` result and a nil one by the `none` result, both re-classified |
| Transformer.OrElseArray | src/transformer.ts:50-56 | array `orElse` defaults every nil element and keeps every present one |
| Transformer.MapPromise | src/transformer.ts:20 | on a promise, `map` maps a resolved value, resolves a nil to `null` without using `f`, and passes a rejection through; `caseOf` and `orElse` pass it through too |
| Transformer.AsTypeOnArray | tests/transformer.test.ts:33-39 | asserting a promise on an array throws an error naming `Promise`; asserting an array returns it |
| Transformer.ScenarioArrayRoundTrip | tests/transformer.test.ts:3-9 | `maybeT([1, 2, null, undefined, 5]).asNullable()` is that array |
| Transformer.ScenarioArrayMap | tests/transformer.test.ts:11-20 | `[1, null, 1, undefined, 1]` mapped with `v => 2` is `[2, null, 2, null, 2]` |
| Transformer.ScenarioArrayAsType | tests/transformer.test.ts:22-31 | `[1, 2, null, 4]` mapped with `v => v + 1`, asserted an array, is `[2, 3, null, 5]` |
| Transformer.ScenarioArrayCaseOf | tests/transformer.test.ts:41-52 | `caseOf({ none: () => 3, some: v => v })` over `[1, 2, null, 4]` is `[1, 2, 3, 4]`; the test's strings and `parseInt` are replaced by numbers and the identity |
| Transformer.ScenarioArrayOrElse | tests/transformer.test.ts:54-60 | `orElse(3)` over `[1, 2, null, 4]` is `[1, 2, 3, 4]` |
| Transformer.ScenarioPromise | tests/transformer.test.ts:62-102 | resolved and rejected promises come back unchanged; `'hey'` maps to `'hey there'`; a `null` resolution stays `null` for any `f` |
| SomeNull.UncheckedSomeOf | src/some.ts:5 | `Some.some` as written stores any argument, nil included |
| SomeNull.UncheckedIsNothing | src/maybe.ts:15 | `isNothing()` on the unchecked classes is false exactly for a `Some` whose stored value is present |
| SomeNull.UncheckedOrElse | src/some.ts:23-25 | `Some.orElse` returns the stored field whatever it is, nil included, and `None.orElse` the fallback |
| SomeNull.SomeNullIgnoresFallback | src/some.ts:23-25 | `some(null).isNothing()` is true, yet `some(null).orElse(3)` is `null`, while `none().orElse(3)` is `3` |
| SomeNull.CheckedSomeAgrees | src/maybe.ts:15 | with `Some` holding only present values, `isNothing()` true means `orElse` returns the fallback, and false means it returns the held value |

## Left out

- `tap`, `join` and `fantasy-land/map`: the tests use them (tests/maybe.test.ts:57-74, 268-307), but no source file of this revision implements them.
- Asynchronous scheduling: a promise is modelled as already settled (`Resolved` or `Rejected`). `then` continuations and `await` have no event loop here, and a continuation that returns a promise is not flattened.
- Runtime reflection becomes tags. `typeof x.then === 'function'` and `instanceof c` become the `Effect` variant and `Kind`, and `c.name` becomes `KindName`. Only arrays and promises are modelled as effects, not any object with a `map` method.
- `typeof def === 'function'` becomes the `Plain`/`Lazy` tag. In JavaScript any function, whatever its arity, is called as a lazy fallback. So a function can never be the literal fallback value, which the tags would allow.
- `Variants.CaseOf`: assumes the two-variant `maybe`/`none`, so a nil result is always `null`. Against the single-class `src/index.ts` of this revision (`src/index.ts:16`, `75-77`), `src/some.ts:12` and `src/none.ts:26` could keep `undefined`.
- `Variants.Map`: assumes the two-variant `maybe`, so `src/some.ts:16` always reads back a nil as `null`, where the single-class `maybe` would keep `undefined`.
- `Transformer.Map`: assumes the two-variant `maybe`, so `src/transformer.ts:35-37` writes every nil element as `null`, as `tests/transformer.test.ts:11-20` expects; the single-class `maybe` would keep `undefined`.
- `Transformer.CaseOf`: assumes the two-variant `maybe`, so `src/transformer.ts:44-46` writes every nil result as `null`; the single-class `maybe` would keep `undefined`.
- `Variants.SomeOf`: takes a present value only. `Some.some(null)` is modelled separately in `SomeNull` (see Findings).
- `Variants.Eq`: `===` becomes `==` on a type with equality, which is reference identity on a class type. `NaN !== NaN` is not modelled.
- `Transformer.GetMap`: returns a function, so its contract is stated in the lemma `GetMapDispatch` for every function passed to it.
- `Transformer.OrElse`: a default that is itself `null` or `undefined` cannot be written, because a `Plain` fallback holds a present value.
- Callbacks that throw, as in the tests' `raiseError`, are not modelled. That such a callback is never called is stated as "the result does not depend on it".
- That no combinator changes its receiver (src/maybe.ts:13, src/index.ts:13, src/transformer.ts:26) holds by construction: every model is a value type, and every combinator returns a new value.
- The return types of src/maybe.ts:15-23 hold by the Dafny types: `caseOf`, `map`, `flatMap` and `or` always return a Maybe; `expect`, `orElse` and `asNullable` are the ways back to a raw value; `isNothing()` and `eq` return booleans.
- JavaScript `this`-binding (`x.then.bind(x)`, `x.map.bind(x)`), the TypeScript type-level helpers and the `as any` casts carry no behaviour. The casts' re-typing of a stored marker is `Nil.Retyped`.
- Jest helpers (`execEach`, `checkInstance`, `expect.assertions`) belong to the test harness.

## Findings

| source | as written | input that shows it | evidently intended | confidence | as-written member | corrected member |
|---|---|---|---|---|---|---|
| src/some.ts:5 | `Some.some` stores its argument without checking it, so a `Some` may hold `null` | `some(null)`: `isNothing()` is true, yet `orElse(3)` returns `null` instead of `3` | a `Some` holds only a present value, so that `isNothing()` and the variant agree | medium, not executed | SomeNull.SomeNullIgnoresFallback | SomeNull.CheckedSomeAgrees |
