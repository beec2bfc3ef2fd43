/** `Some.some` as written (src/some.ts:5): it stores its argument without
    classifying it, so `some(null)` is a `Some` whose stored value is `null`.
    Such a value answers `isNothing()` with true, yet every `Some` method
    still treats it as present. The rest of the model uses `Variants.SomeOf`,
    which only takes present values. */
module SomeNull {
  import opened Nil
  import V = Variants

  /** The two classes with the `value` field taken as the raw argument. */
  datatype Unchecked<T> = UncheckedSome(value: Raw<T>) | UncheckedNone

  /** `Some.some` as written: any raw argument is stored. */
  function UncheckedSomeOf<T>(thing: Raw<T>): (m: Unchecked<T>)
    ensures m.UncheckedSome? && m.value == thing
  {
    UncheckedSome(thing)
  }

  /** `isNothing()` on the stored field (src/maybe.ts:15). */
  predicate UncheckedIsNothing<T>(m: Unchecked<T>)
    ensures !UncheckedIsNothing(m) <==> m.UncheckedSome? && m.value.Val?
  {
    match m
    case UncheckedSome(value) => Nil.IsNothing(value)
    case UncheckedNone => true
  }

  /** `orElse` as the two classes write it: `Some` returns its field,
      `None` the fallback. */
  function UncheckedOrElse<T>(m: Unchecked<T>, def: V.Fallback<T>): (r: Raw<T>)
    ensures m.UncheckedSome? ==> r == m.value
    ensures m.UncheckedNone? ==> r == Val(V.InvokeFunc(def))
  {
    match m
    case UncheckedSome(value) => value
    case UncheckedNone => Val(V.InvokeFunc(def))
  }

  /** `some(null)` reports that it holds nothing, yet `orElse(3)` on it
      ignores the fallback and returns `null`. */
  lemma SomeNullIgnoresFallback()
    ensures UncheckedIsNothing(UncheckedSomeOf<int>(Null))
    ensures UncheckedOrElse(UncheckedSomeOf<int>(Null), V.Plain(3)) == Null
    ensures UncheckedOrElse(UncheckedNone, V.Plain(3)) == Val(3)
  {
  }

  /** With `Some` holding only present values, `isNothing()` and the variant
      agree, and whenever `isNothing()` is true `orElse` returns the fallback. */
  lemma CheckedSomeAgrees<T>(v: T, m: V.Maybe<T>, def: V.Fallback<T>)
    ensures !V.IsNothing(V.SomeOf(v))
    ensures V.IsNothing(m) ==> V.OrElse(m, def) == V.InvokeFunc(def)
    ensures !V.IsNothing(m) ==> Val(V.OrElse(m, def)) == V.AsNullable(m)
  {
  }
}
