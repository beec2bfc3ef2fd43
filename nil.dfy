/** The two JavaScript absence markers and the one predicate that decides
    what counts as "nothing" (src/maybe.ts:1-10). */
module Nil {

  /** A raw JavaScript value: one of the two absence markers, or a present value. */
  datatype Raw<+T> = Null | Undefined | Val(v: T)

  /** `isNothing`: true exactly for `null` and `undefined`. */
  predicate IsNothing<T>(thing: Raw<T>)
    ensures IsNothing(thing) <==> !thing.Val?
  {
    thing.Undefined? || thing.Null?
  }

  /** The absence predicate singles out the two markers and nothing else:
      every `Val`, whatever it carries, is present. */
  lemma NothingIsExactlyTheMarkers<T>(thing: Raw<T>)
    ensures IsNothing(thing) <==> thing == Null || thing == Undefined
    ensures forall v: T :: !IsNothing(Val(v))
  {
  }

  /** JavaScript's falsy values `0`, `''` and `false` are present values. */
  lemma FalsyValuesArePresent()
    ensures !IsNothing(Val(0)) && !IsNothing(Val("")) && !IsNothing(Val(false))
  {
  }

  /** What `maybe(x).asNullable()` gives back on the two-variant Maybe:
      both markers collapse to `null`, present values are kept. */
  function Normalise<T>(thing: Raw<T>): (r: Raw<T>)
    ensures IsNothing(r) <==> IsNothing(thing)
    ensures r != Undefined
    ensures !IsNothing(thing) ==> r == thing
  {
    if IsNothing(thing) then Null else thing
  }

  /** The same absence marker seen at another type, which is what the
      `this as any` casts of the source do with a stored `null` or `undefined`. */
  function Retyped<T, U>(thing: Raw<T>): (r: Raw<U>)
    requires IsNothing(thing)
    ensures IsNothing(r)
    ensures r.Null? <==> thing.Null?
  {
    if thing.Null? then Null else Undefined
  }
}

/** JavaScript errors and the outcome of a call that may throw. */
module Errors {

  /** A JavaScript `Error` object, reduced to its message. */
  datatype JsError = JsError(message: string)

  /** Either the value a call returns or the error it throws. */
  datatype Result<+T> = Ok(value: T) | Throw(error: JsError)
}
