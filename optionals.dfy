/**
 The value types shared by the four extension classes, and the generic
 combinators that each class instantiates at its own element types.

 Java's `Optional<T>`, `OptionalInt`, `OptionalLong` and `OptionalDouble` are
 all `Opt<E>` for the matching element type `E`. A reference that Java allows
 to be `null` (a mapper, a supplier, a callback, a mapper's result) is a
 `Nullable`, and a call either returns normally (`Ok`) or throws a
 `NullPointerException` (`NPE`).
 */
module Optionals {

  /** A Java optional: empty, or holding exactly one value. */
  datatype Opt<T> = Empty | Present(value: T)

  /** A Java reference that may be `null`. */
  datatype Nullable<T> = Null | NonNull(get: T)

  /** How a call ends: it throws a NullPointerException, or returns a value. */
  datatype Outcome<T> = NPE | Ok(value: T)

  /** Which caller-supplied callback a statement-like method ran, and with what. */
  datatype Invoked<T> = Neither | RunnableRan | ConsumerAccepted(arg: T)

  /** Java's 32-bit `int`. */
  newtype Int32 = x: int | -0x8000_0000 <= x < 0x8000_0000

  /** Java's 64-bit `long`. */
  newtype Int64 = x: int | -0x8000_0000_0000_0000 <= x < 0x8000_0000_0000_0000

  /** Java's `double`, kept as its IEEE 754 binary64 bit pattern: no arithmetic is done on it. */
  type Double = bv64

  type OptionalInt = Opt<Int32>
  type OptionalLong = Opt<Int64>
  type OptionalDouble = Opt<Double>

  /** A `Runnable` or a `Consumer`: only whether it is null is observable here. */
  type Callback = Nullable<()>

  /** `Optional.ofNullable`: a null value becomes the empty optional. */
  function OfNullable<T>(x: Nullable<T>): (r: Opt<T>)
    ensures r.Present? <==> x.NonNull?
    ensures r.Present? ==> r.value == x.get
  {
    match x
    case Null => Empty
    case NonNull(v) => Present(v)
  }

  /** `Objects.requireNonNull` applied to a value. */
  function RequireNonNull<T>(x: Nullable<T>): (r: Outcome<T>)
    ensures r.NPE? <==> x.Null?
    ensures r.Ok? ==> r.value == x.get
  {
    match x
    case Null => NPE
    case NonNull(v) => Ok(v)
  }

  /**
   The `map` / `mapToX` shape whose mapper returns a primitive (never null):
   the mapper is null-checked first, then applied to the value if there is one.
   */
  function Map<T, U>(opt: Opt<T>, mapper: Nullable<T -> U>): (r: Outcome<Opt<U>>)
    ensures r.NPE? <==> mapper.Null?
    ensures r.Ok? ==> (r.value.Present? <==> opt.Present?)
    ensures r.Ok? && opt.Present? ==> r.value.value == mapper.get(opt.value)
  {
    if mapper.Null? then NPE
    else if opt.Present? then Ok(Present(mapper.get(opt.value)))
    else Ok(Empty)
  }

  /**
   The `mapToObj` shape: like `Map`, but the mapper's (nullable) result goes
   through `Optional.ofNullable`, so a null result gives the empty optional.
   */
  function MapOfNullable<T, U>(opt: Opt<T>, mapper: Nullable<T -> Nullable<U>>): (r: Outcome<Opt<U>>)
    ensures r.NPE? <==> mapper.Null?
    ensures r.Ok? ==> (r.value.Present? <==> opt.Present? && mapper.get(opt.value).NonNull?)
    ensures r.Ok? && r.value.Present? ==> r.value.value == mapper.get(opt.value).get
  {
    if mapper.Null? then NPE
    else if opt.Present? then Ok(OfNullable(mapper.get(opt.value)))
    else Ok(Empty)
  }

  /**
   The `flatMap` / `flatMapToX` shape: the mapper is null-checked first; on a
   present value its result is returned as it is, but a null result throws.
   */
  function FlatMap<T, U>(opt: Opt<T>, mapper: Nullable<T -> Nullable<Opt<U>>>): (r: Outcome<Opt<U>>)
    ensures mapper.Null? ==> r.NPE?
    ensures mapper.NonNull? && opt.Empty? ==> r == Ok(Empty)
    ensures mapper.NonNull? && opt.Present? ==> (r.NPE? <==> mapper.get(opt.value).Null?)
    ensures mapper.NonNull? && opt.Present? && r.Ok? ==> r.value == mapper.get(opt.value).get
  {
    if mapper.Null? then NPE
    else if opt.Present? then RequireNonNull(mapper.get(opt.value))
    else Ok(Empty)
  }

  /**
   The `fold` / `foldToX` shape: mapper and supplier are both null-checked
   first; then the mapper is applied to a present value, or the supplier is
   called on an empty optional.
   */
  function Fold<T, R>(opt: Opt<T>, mapper: Nullable<T -> R>, other: Nullable<() -> R>): (r: Outcome<R>)
    ensures r.NPE? <==> mapper.Null? || other.Null?
    ensures r.Ok? && opt.Present? ==> r.value == mapper.get(opt.value)
    ensures r.Ok? && opt.Empty? ==> r.value == other.get()
  {
    if mapper.Null? || other.Null? then NPE
    else if opt.Present? then Ok(mapper.get(opt.value))
    else Ok(other.get())
  }

  /** `isAbsent`: the negation of `isPresent`. */
  function IsAbsent<T>(opt: Opt<T>): (b: bool)
    ensures b <==> opt == Empty
  {
    !opt.Present?
  }

  /**
   `ifAbsent`: runs the runnable only on an empty optional. The runnable is not
   checked up front, so a null one throws only when it would be run.
   */
  function IfAbsent<T>(opt: Opt<T>, runnable: Callback): (r: Outcome<Invoked<T>>)
    ensures opt.Present? ==> r == Ok(Neither)
    ensures opt.Empty? ==> (r.NPE? <==> runnable.Null?)
    ensures opt.Empty? && r.Ok? ==> r.value == RunnableRan
  {
    if !opt.Present? then
      if runnable.Null? then NPE else Ok(RunnableRan)
    else
      Ok(Neither)
  }

  /**
   `consume`: runs the consumer on a present value, or the runnable on an empty
   optional, never both. Only the callback that is run is dereferenced.
   */
  function Consume<T>(opt: Opt<T>, consumer: Callback, runnable: Callback): (r: Outcome<Invoked<T>>)
    ensures opt.Present? ==> (r.NPE? <==> consumer.Null?)
    ensures opt.Present? && r.Ok? ==> r.value == ConsumerAccepted(opt.value)
    ensures opt.Empty? ==> (r.NPE? <==> runnable.Null?)
    ensures opt.Empty? && r.Ok? ==> r.value == RunnableRan
  {
    if opt.Present? then
      if consumer.Null? then NPE else Ok(ConsumerAccepted(opt.value))
    else
      if runnable.Null? then NPE else Ok(RunnableRan)
  }
}
