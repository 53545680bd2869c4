/** The two sum types the exercises are written against: Swift's `Optional`
    (a value or nothing) and the `Either` enum declared with the exercises. */
module Sums {

  /** Swift's `Optional<Wrapped>`: `.some(value)` or `.none` (`nil`). */
  datatype Option<+T> = None | Some(value: T)

  /** `enum Either<A, B> { case left(A); case right(B) }`. */
  datatype Either<+A, +B> = Left(left: A) | Right(right: B)

  /** The list view of an optional: no element or exactly one. */
  function AsSeq<T>(o: Option<T>): seq<T>
  {
    match o
    case None => []
    case Some(v) => [v]
  }
}
