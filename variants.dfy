/** The two-variant Maybe: the shared contract of src/maybe.ts and its two
    implementations, `Some` (src/some.ts) and `None` (src/none.ts).

    `Some` and `None` both extend the class of src/maybe.ts, and `Some.eq`
    calls `map` and `orElse` on another Maybe that may be a `None`, so the
    three share one module here. Each combinator
    is one function matching on the variant; the per-variant lemmas below
    state what each source class promises. */
module Variants {
  import opened Nil
  import opened Errors

  /** A Maybe is either `Some` holding a present value or `None`. */
  datatype Maybe<+T> = Some(v: T) | None

  /** A handler of a `caseOf` matcher, which the caller may leave out. */
  datatype Handler<+F> = Omitted | Given(call: F)

  /** `MatchType`: the optional `some` and `none` handlers of `caseOf`. */
  datatype MatchType<-T, R> = MatchType(some: Handler<T -> Raw<R>>, none: Handler<() -> Raw<R>>)

  /** A fallback of `orElse` or `or`: a plain value, or a zero-argument
      function that the source detects with `typeof x === 'function'`. */
  datatype Fallback<+T> = Plain(value: T) | Lazy(thunk: () -> T)

  /** The optional argument of `expect`: nothing, a message, or an Error. */
  datatype ExpectArg = NoArg | Message(text: string) | SuppliedError(error: JsError)

  const DefaultMessage := "Expected Maybe to contain non-null value"

  /** The protected `value` field as each constructor sets it: the held
      value for `Some`, `null` for `None` (src/none.ts:12). */
  function Value<T>(m: Maybe<T>): (r: Raw<T>)
    ensures r != Undefined
    ensures Nil.IsNothing(r) <==> m.None?
  {
    match m
    case Some(v) => Val(v)
    case None => Null
  }

  /** `isNothing()`: the shared predicate applied to the stored value. */
  function IsNothing<T>(m: Maybe<T>): (b: bool)
    ensures b <==> m.None?
  {
    Nil.IsNothing(Value(m))
  }

  /** `maybe`: the classifying constructor, the single place where a raw
      value becomes a Maybe. */
  function Classify<T>(thing: Raw<T>): (m: Maybe<T>)
    ensures IsNothing(m) <==> Nil.IsNothing(thing)
    ensures m.Some? ==> thing == Val(m.v)
  {
    match thing
    case Val(v) => Some(v)
    case _ => None
  }

  /** `Some.some`: wraps a present value. */
  function SomeOf<T>(thing: T): (m: Maybe<T>)
    ensures !IsNothing(m) && AsNullable(m) == Val(thing)
  {
    Some(thing)
  }

  /** `None.none`. */
  function NoneOf<T>(): (m: Maybe<T>)
    ensures IsNothing(m) && AsNullable(m) == Null
  {
    None
  }

  /** `invokeFunc`: calls a function fallback, returns a plain one as is. */
  function InvokeFunc<T>(funcOrT: Fallback<T>): T
  {
    match funcOrT
    case Lazy(thunk) => thunk()
    case Plain(value) => value
  }

  /** The error `expect` throws on `None`: a supplied Error verbatim, else
      `Error(msg || default)`, where an empty message counts as missing. */
  function ErrorFor(msg: ExpectArg): (e: JsError)
    ensures msg.SuppliedError? ==> e == msg.error
    ensures msg.Message? && msg.text != "" ==> e.message == msg.text
    ensures msg.NoArg? || msg == Message("") ==> e.message == DefaultMessage
    ensures !msg.SuppliedError? ==> e.message != ""
  {
    match msg
    case SuppliedError(error) => error
    case Message(text) => JsError(if text != "" then text else DefaultMessage)
    case NoArg => JsError(DefaultMessage)
  }

  /** `expect`: the held value, or the error of `ErrorFor`. */
  function Expect<T>(m: Maybe<T>, msg: ExpectArg): (r: Result<T>)
    ensures r.Ok? <==> !IsNothing(m)
    ensures r.Ok? ==> AsNullable(m) == Val(r.value)
    ensures r.Throw? ==> r.error == ErrorFor(msg)
  {
    match m
    case Some(v) => Ok(v)
    case None => Throw(ErrorFor(msg))
  }

  /** `caseOf`: runs the handler of the matching variant and classifies its
      result; a missing handler gives `None` on both variants. */
  function CaseOf<T, R>(m: Maybe<T>, funcs: MatchType<T, R>): (r: Maybe<R>)
    ensures r.Some? ==>
              || (m.Some? && funcs.some.Given? && funcs.some.call(m.v) == Val(r.v))
              || (m.None? && funcs.none.Given? && funcs.none.call() == Val(r.v))
    ensures m.Some? && funcs.some.Given? && r.None? ==> Nil.IsNothing(funcs.some.call(m.v))
    ensures m.None? && funcs.none.Given? && r.None? ==> Nil.IsNothing(funcs.none.call())
  {
    match m
    case Some(v) => if funcs.some.Given? then Classify(funcs.some.call(v)) else None
    case None => if funcs.none.Given? then Classify(funcs.none.call()) else None
  }

  /** `map`: applies `f` to a held value and classifies the result. */
  function Map<T, U>(m: Maybe<T>, f: T -> Raw<U>): (r: Maybe<U>)
    ensures r.Some? <==> m.Some? && !Nil.IsNothing(f(m.v))
    ensures r.Some? ==> f(m.v) == Val(r.v)
  {
    match m
    case Some(v) => Classify(f(v))
    case None => None
  }

  /** `flatMap`: applies `f` to a held value and returns its Maybe as is. */
  function FlatMap<T, U>(m: Maybe<T>, f: T -> Maybe<U>): (r: Maybe<U>)
    ensures r.Some? ==> m.Some? && f(m.v) == r
    ensures m.Some? ==> r == f(m.v)
  {
    match m
    case Some(v) => f(v)
    case None => None
  }

  /** `orElse`: the held value, or the fallback. */
  function OrElse<T>(m: Maybe<T>, def: Fallback<T>): (r: T)
    ensures !IsNothing(m) ==> AsNullable(m) == Val(r)
    ensures IsNothing(m) ==> r == InvokeFunc(def)
  {
    match m
    case Some(v) => v
    case None => InvokeFunc(def)
  }

  /** `or`: the receiver when present, or the fallback Maybe. */
  function Or<T>(m: Maybe<T>, other: Fallback<Maybe<T>>): (r: Maybe<T>)
    ensures !IsNothing(m) ==> r == m
    ensures IsNothing(m) ==> r == InvokeFunc(other)
  {
    match m
    case Some(_) => m
    case None => InvokeFunc(other)
  }

  /** `eq`: `Some.eq` maps `v => v === this.value` over `other` and defaults
      to `false`; `None.eq` is `other instanceof None`. The element test is
      `==` of `T`, which is identity when `T` is a class type. */
  function Eq<T(==)>(m: Maybe<T>, other: Maybe<T>): (r: bool)
    ensures r <==> m == other
  {
    match m
    case Some(v) => OrElse(Map(other, (x: T) => Val(x == v)), Plain(false))
    case None => other.None?
  }

  /** `asNullable`: the stored value, which is the held value for `Some`
      and always `null` for `None` (src/some.ts:37, src/none.ts:50). */
  function AsNullable<T>(m: Maybe<T>): (r: Raw<T>)
    ensures r != Undefined
    ensures Nil.IsNothing(r) <==> IsNothing(m)
  {
    Value(m)
  }

  // ---------------------------------------------------------------
  // The `Some` variant (src/some.ts)
  // ---------------------------------------------------------------

  /** `expect()` on `Some` returns the held value, whatever the argument. */
  lemma SomeExpect<T>(v: T, msg: ExpectArg)
    ensures Expect(Some(v), msg) == Ok(v)
  {
  }

  /** `caseOf` on `Some`: the `some` handler's result re-classified, or `None`
      when that handler is missing; the `none` handler plays no part. */
  lemma SomeCaseOf<T, R>(v: T, funcs: MatchType<T, R>)
    ensures funcs.some.Given? ==> CaseOf(Some(v), funcs) == Classify(funcs.some.call(v))
    ensures funcs.some.Omitted? ==> CaseOf(Some(v), funcs) == None
    ensures forall n :: CaseOf(Some(v), MatchType(funcs.some, n)) == CaseOf(Some(v), funcs)
  {
  }

  /** `map` on `Some` is `maybe(f(v))`: `None` exactly when `f(v)` is nil,
      otherwise `Some` of `f(v)`. */
  lemma SomeMap<T, U>(v: T, f: T -> Raw<U>)
    ensures Map(Some(v), f) == Classify(f(v))
    ensures IsNothing(Map(Some(v), f)) <==> Nil.IsNothing(f(v))
    ensures !Nil.IsNothing(f(v)) ==> Val(Map(Some(v), f).v) == f(v)
  {
  }

  /** `flatMap` on `Some` returns `f(v)` with no re-wrapping. */
  lemma SomeFlatMap<T, U>(v: T, f: T -> Maybe<U>)
    ensures FlatMap(Some(v), f) == f(v)
  {
  }

  /** `orElse` on `Some` returns the held value and ignores the fallback. */
  lemma SomeOrElse<T>(v: T, def: Fallback<T>)
    ensures OrElse(Some(v), def) == v
    ensures forall d :: OrElse(Some(v), d) == OrElse(Some(v), def)
  {
  }

  /** `or` on `Some` returns the receiver and ignores the fallback. */
  lemma SomeOr<T>(v: T, other: Fallback<Maybe<T>>)
    ensures Or(Some(v), other) == Some(v)
  {
  }

  /** `eq` on `Some` holds exactly when `other` is `Some` of the same value. */
  lemma SomeEq<T>(v: T, other: Maybe<T>)
    ensures Eq(Some(v), other) <==> other.Some? && other.v == v
  {
  }

  /** `asNullable` on `Some` returns the held value. */
  lemma SomeAsNullable<T>(v: T)
    ensures AsNullable(Some(v)) == Val(v)
  {
  }

  // ---------------------------------------------------------------
  // The `None` variant (src/none.ts)
  // ---------------------------------------------------------------

  /** `invokeFunc` calls every lazy fallback and returns its result, so a
      thunk that returns `x` gives what the plain `x` gives; forcing any
      fallback once, then passing the result as a plain fallback, changes
      nothing. So `orElse` and `or` only ever see the fallback's value. */
  lemma InvokeFuncLazyIsPlain<T>(x: T, def: Fallback<T>)
    ensures forall t: () -> T :: InvokeFunc(Lazy(t)) == t()
    ensures InvokeFunc(Lazy(() => x)) == InvokeFunc(Plain(x)) == x
    ensures InvokeFunc(Plain(InvokeFunc(def))) == InvokeFunc(def)
    ensures forall m: Maybe<T> :: OrElse(m, Plain(InvokeFunc(def))) == OrElse(m, def)
  {
  }

  /** `expect` on `None` always throws: a supplied Error as is, otherwise an
      Error with the message, or with the default text when the message is
      missing or empty. */
  lemma NoneExpect<T>(msg: ExpectArg)
    ensures Expect<T>(None, msg).Throw?
    ensures msg.SuppliedError? ==> Expect<T>(None, msg) == Throw(msg.error)
    ensures msg.Message? && msg.text != "" ==> Expect<T>(None, msg) == Throw(JsError(msg.text))
    ensures msg.NoArg? || msg == Message("") ==> Expect<T>(None, msg) == Throw(JsError(DefaultMessage))
  {
  }

  /** `caseOf` on `None`: the `none` handler's result re-classified, or the
      receiver (`None`) when that handler is missing; the `some` handler
      plays no part. */
  lemma NoneCaseOf<T, R>(funcs: MatchType<T, R>)
    ensures funcs.none.Given? ==> CaseOf(None, funcs) == Classify(funcs.none.call())
    ensures funcs.none.Omitted? ==> CaseOf(None, funcs) == None
    ensures forall s: Handler<T -> Raw<R>> :: CaseOf(None, MatchType(s, funcs.none)) == CaseOf<T, R>(None, funcs)
  {
  }

  /** `map` and `flatMap` on `None` return `None`, whatever the function. */
  lemma NoneMapFlatMap<T, U>(f: T -> Raw<U>, g: T -> Maybe<U>)
    ensures Map(None, f) == None
    ensures FlatMap(None, g) == None
  {
  }

  /** `orElse` on `None` is the fallback, called when it is a function. */
  lemma NoneOrElse<T>(def: Fallback<T>)
    ensures OrElse(None, def) == InvokeFunc(def)
  {
  }

  /** `or` on `None` is the fallback Maybe, called when it is a function:
      `none().or(some(w)).asNullable()` is `w`. */
  lemma NoneOr<T>(other: Fallback<Maybe<T>>, w: T)
    ensures Or(None, other) == InvokeFunc(other)
    ensures AsNullable(Or(None, Plain(SomeOf(w)))) == Val(w)
    ensures AsNullable(Or(None, Lazy(() => SomeOf(w)))) == Val(w)
  {
  }

  /** `eq` on `None` holds exactly when `other` is `None`. */
  lemma NoneEq<T>(other: Maybe<T>)
    ensures Eq(None, other) <==> other.None?
  {
  }

  /** `asNullable` on `None` is `null`. */
  lemma NoneAsNullable<T>()
    ensures AsNullable<T>(None) == Null
  {
  }

  // ---------------------------------------------------------------
  // Laws relating the combinators to one another
  // ---------------------------------------------------------------

  /** `asNullable` undoes `maybe`, up to the collapse of `undefined` to `null`,
      and `maybe` undoes `asNullable` exactly. */
  lemma ClassifyRoundTrip<T>(m: Maybe<T>, thing: Raw<T>)
    ensures Classify(AsNullable(m)) == m
    ensures AsNullable(Classify(thing)) == Normalise(thing)
  {
  }

  /** `map` is `flatMap` followed by classification. */
  lemma MapIsFlatMap<T, U>(m: Maybe<T>, f: T -> Raw<U>)
    ensures Map(m, f) == FlatMap(m, (x: T) => Classify(f(x)))
  {
  }

  /** Mapping the identity gives the receiver back. */
  lemma MapIdentity<T>(m: Maybe<T>)
    ensures Map(m, (x: T) => Val(x)) == m
  {
  }

  /** Two `map`s compose into one whose function passes through a nil
      intermediate result as nil. */
  lemma MapCompose<T, U, W>(m: Maybe<T>, f: T -> Raw<U>, g: U -> Raw<W>)
    ensures Map(Map(m, f), g) == Map(m, (x: T) => AsNullable(Map(Classify(f(x)), g)))
  {
    match m
    case None =>
    case Some(v) =>
      ClassifyRoundTrip(Map(Classify(f(v)), g), Null);
  }

  /** `flatMap` satisfies the monad laws with `some` as unit. */
  lemma MonadLaws<T, U, W>(v: T, m: Maybe<T>, f: T -> Maybe<U>, g: U -> Maybe<W>)
    ensures FlatMap(SomeOf(v), f) == f(v)
    ensures FlatMap(m, (x: T) => SomeOf(x)) == m
    ensures FlatMap(FlatMap(m, f), g) == FlatMap(m, (x: T) => FlatMap(f(x), g))
  {
  }

  /** With only a `some` handler, `caseOf` is `map`; with no handler at all
      it is always `None`; with both, exactly one handler decides. */
  lemma CaseOfAgainstMap<T, R>(m: Maybe<T>, s: T -> Raw<R>, n: () -> Raw<R>)
    ensures CaseOf(m, MatchType(Given(s), Omitted)) == Map(m, s)
    ensures CaseOf<T, R>(m, MatchType(Omitted, Omitted)) == None
    ensures CaseOf(m, MatchType(Given(s), Given(n))) ==
            (if IsNothing(m) then Classify(n()) else Map(m, s))
  {
  }

  /** Whenever `expect` succeeds, `orElse` returns that same value and its
      fallback is irrelevant. */
  lemma ExpectAgreesWithOrElse<T>(m: Maybe<T>, msg: ExpectArg, def: Fallback<T>)
    ensures Expect(m, msg).Ok? ==> OrElse(m, def) == Expect(m, msg).value
  {
  }

  /** `none()` is the identity of `or` on both sides, and `or` with plain
      fallbacks is associative. */
  lemma OrMonoid<T>(a: Maybe<T>, b: Maybe<T>, c: Maybe<T>)
    ensures Or(a, Plain(None)) == a
    ensures Or(None, Plain(a)) == a
    ensures Or(Or(a, Plain(b)), Plain(c)) == Or(a, Plain(Or(b, Plain(c))))
  {
  }

  /** `orElse` after `or` tries the receiver, then the other Maybe, then the
      default. */
  lemma OrElseAfterOr<T>(m: Maybe<T>, other: Maybe<T>, def: Fallback<T>)
    ensures OrElse(Or(m, Plain(other)), def) == OrElse(m, Plain(OrElse(other, def)))
  {
  }

  /** `eq` is an equivalence relation. */
  lemma EqEquivalence<T>(a: Maybe<T>, b: Maybe<T>, c: Maybe<T>)
    ensures Eq(a, a)
    ensures Eq(a, b) <==> Eq(b, a)
    ensures Eq(a, b) && Eq(b, c) ==> Eq(a, c)
  {
  }

  /** An object with no fields, as `{}` in JavaScript; `==` on it is reference identity. */
  class JsObject {
    constructor () {}
  }

  /** `some(x).eq(some(x))` is true, `some(x).eq(some({}))` is false: `eq`
      compares contents by identity, not by shape. */
  method IdentityEquality() returns (same: bool, distinct: bool)
    ensures same && !distinct
  {
    var x := new JsObject();
    var y := new JsObject();
    same := Eq(Some(x), Some(x));
    distinct := Eq(Some(x), Some(y));
  }
}
