/**
 `OptionalExtensions`: combinators on the generic `Optional<T>` that convert to
 the primitive optionals (`mapToX`, `flatMapToX`), fold to a plain value
 (`fold`, `foldToX`), and test or act on absence (`isAbsent`, `ifAbsent`,
 `consume`). Each static method takes the optional as its first argument.
 */
module OptionalExtensions {
  import opened Optionals
  import opened OptionalLaws

  // map

  /** `mapToInt`: Optional<T> to OptionalInt. */
  function MapToInt<T>(opt: Opt<T>, mapper: Nullable<T -> Int32>): (r: Outcome<OptionalInt>)
    ensures mapper.Null? ==> r == NPE
    ensures mapper.NonNull? && opt.Empty? ==> r == Ok(Empty)
    ensures mapper.NonNull? && opt.Present? ==> r == Ok(Present(mapper.get(opt.value)))
  {
    Optionals.Map(opt, mapper)
  }

  /** `mapToLong`: Optional<T> to OptionalLong. */
  function MapToLong<T>(opt: Opt<T>, mapper: Nullable<T -> Int64>): (r: Outcome<OptionalLong>)
    ensures mapper.Null? ==> r == NPE
    ensures mapper.NonNull? && opt.Empty? ==> r == Ok(Empty)
    ensures mapper.NonNull? && opt.Present? ==> r == Ok(Present(mapper.get(opt.value)))
  {
    Optionals.Map(opt, mapper)
  }

  /** `mapToDouble`: Optional<T> to OptionalDouble. */
  function MapToDouble<T>(opt: Opt<T>, mapper: Nullable<T -> Double>): (r: Outcome<OptionalDouble>)
    ensures mapper.Null? ==> r == NPE
    ensures mapper.NonNull? && opt.Empty? ==> r == Ok(Empty)
    ensures mapper.NonNull? && opt.Present? ==> r == Ok(Present(mapper.get(opt.value)))
  {
    Optionals.Map(opt, mapper)
  }

  // flatMap

  /** `flatMapToInt`: Optional<T> to OptionalInt. */
  function FlatMapToInt<T>(opt: Opt<T>, mapper: Nullable<T -> Nullable<OptionalInt>>): (r: Outcome<OptionalInt>)
    ensures mapper.Null? ==> r == NPE
    ensures mapper.NonNull? && opt.Empty? ==> r == Ok(Empty)
    ensures mapper.NonNull? && opt.Present? && mapper.get(opt.value).Null? ==> r == NPE
    ensures mapper.NonNull? && opt.Present? && mapper.get(opt.value).NonNull? ==> r == Ok(mapper.get(opt.value).get)
  {
    Optionals.FlatMap(opt, mapper)
  }

  /** `flatMapToLong`: Optional<T> to OptionalLong. */
  function FlatMapToLong<T>(opt: Opt<T>, mapper: Nullable<T -> Nullable<OptionalLong>>): (r: Outcome<OptionalLong>)
    ensures mapper.Null? ==> r == NPE
    ensures mapper.NonNull? && opt.Empty? ==> r == Ok(Empty)
    ensures mapper.NonNull? && opt.Present? && mapper.get(opt.value).Null? ==> r == NPE
    ensures mapper.NonNull? && opt.Present? && mapper.get(opt.value).NonNull? ==> r == Ok(mapper.get(opt.value).get)
  {
    Optionals.FlatMap(opt, mapper)
  }

  /** `flatMapToDouble`: Optional<T> to OptionalDouble. */
  function FlatMapToDouble<T>(opt: Opt<T>, mapper: Nullable<T -> Nullable<OptionalDouble>>): (r: Outcome<OptionalDouble>)
    ensures mapper.Null? ==> r == NPE
    ensures mapper.NonNull? && opt.Empty? ==> r == Ok(Empty)
    ensures mapper.NonNull? && opt.Present? && mapper.get(opt.value).Null? ==> r == NPE
    ensures mapper.NonNull? && opt.Present? && mapper.get(opt.value).NonNull? ==> r == Ok(mapper.get(opt.value).get)
  {
    Optionals.FlatMap(opt, mapper)
  }

  // fold

  /** `fold`: Optional<T> to R. */
  function Fold<T, R>(opt: Opt<T>, mapper: Nullable<T -> R>, other: Nullable<() -> R>): (r: Outcome<R>)
    ensures mapper.Null? || other.Null? ==> r == NPE
    ensures mapper.NonNull? && other.NonNull? && opt.Present? ==> r == Ok(mapper.get(opt.value))
    ensures mapper.NonNull? && other.NonNull? && opt.Empty? ==> r == Ok(other.get())
  {
    Optionals.Fold(opt, mapper, other)
  }

  /** `foldToInt`: Optional<T> to int. */
  function FoldToInt<T>(opt: Opt<T>, mapper: Nullable<T -> Int32>, other: Nullable<() -> Int32>): (r: Outcome<Int32>)
    ensures mapper.Null? || other.Null? ==> r == NPE
    ensures mapper.NonNull? && other.NonNull? && opt.Present? ==> r == Ok(mapper.get(opt.value))
    ensures mapper.NonNull? && other.NonNull? && opt.Empty? ==> r == Ok(other.get())
  {
    Optionals.Fold(opt, mapper, other)
  }

  /** `foldToLong`: Optional<T> to long. */
  function FoldToLong<T>(opt: Opt<T>, mapper: Nullable<T -> Int64>, other: Nullable<() -> Int64>): (r: Outcome<Int64>)
    ensures mapper.Null? || other.Null? ==> r == NPE
    ensures mapper.NonNull? && other.NonNull? && opt.Present? ==> r == Ok(mapper.get(opt.value))
    ensures mapper.NonNull? && other.NonNull? && opt.Empty? ==> r == Ok(other.get())
  {
    Optionals.Fold(opt, mapper, other)
  }

  /** `foldToDouble`: Optional<T> to double. */
  function FoldToDouble<T>(opt: Opt<T>, mapper: Nullable<T -> Double>, other: Nullable<() -> Double>): (r: Outcome<Double>)
    ensures mapper.Null? || other.Null? ==> r == NPE
    ensures mapper.NonNull? && other.NonNull? && opt.Present? ==> r == Ok(mapper.get(opt.value))
    ensures mapper.NonNull? && other.NonNull? && opt.Empty? ==> r == Ok(other.get())
  {
    Optionals.Fold(opt, mapper, other)
  }

  // absence

  /** `isAbsent`: true exactly when the optional is empty. */
  function IsAbsent<T>(opt: Opt<T>): (b: bool)
    ensures b <==> opt == Empty
  {
    Optionals.IsAbsent(opt)
  }

  /** `ifAbsent`: runs the runnable if and only if the optional is empty. */
  function IfAbsent<T>(opt: Opt<T>, runnable: Callback): (r: Outcome<Invoked<T>>)
    ensures opt.Present? ==> r == Ok(Neither)
    ensures opt.Empty? && runnable.NonNull? ==> r == Ok(RunnableRan)
    ensures opt.Empty? && runnable.Null? ==> r == NPE
  {
    Optionals.IfAbsent(opt, runnable)
  }

  /** `consume`: runs the consumer on the value, or else the runnable; never both. */
  function Consume<T>(opt: Opt<T>, consumer: Callback, runnable: Callback): (r: Outcome<Invoked<T>>)
    ensures opt.Present? && consumer.NonNull? ==> r == Ok(ConsumerAccepted(opt.value))
    ensures opt.Present? && consumer.Null? ==> r == NPE
    ensures opt.Empty? && runnable.NonNull? ==> r == Ok(RunnableRan)
    ensures opt.Empty? && runnable.Null? ==> r == NPE
  {
    Optionals.Consume(opt, consumer, runnable)
  }

  // laws

  /**
   Each mapToX is the flatMapToX whose mapper wraps the result in a present
   optional, for every mapper, null included.
   */
  lemma MapsAreFlatMaps<T>(opt: Opt<T>, toInt: Nullable<T -> Int32>, toLong: Nullable<T -> Int64>, toDouble: Nullable<T -> Double>)
    ensures MapToInt(opt, toInt) == FlatMapToInt(opt, PresentMapper(toInt))
    ensures MapToLong(opt, toLong) == FlatMapToLong(opt, PresentMapper(toLong))
    ensures MapToDouble(opt, toDouble) == FlatMapToDouble(opt, PresentMapper(toDouble))
  {
    MapAsFlatMap(opt, toInt);
    MapAsFlatMap(opt, toLong);
    MapAsFlatMap(opt, toDouble);
  }

  /**
   Each fold method with a non-null supplier is "map, then orElseGet", where
   the map keeps a null mapper result (unlike `mapToObj`, see
   `FoldKeepsNullResult`); unlike orElseGet, fold rejects a null supplier
   even when the optional is present.
   */
  lemma FoldsAreMapThenOrElseGet<T, R>(opt: Opt<T>, toObj: Nullable<T -> R>, elseObj: Nullable<() -> R>, toInt: Nullable<T -> Int32>, elseInt: Nullable<() -> Int32>, toLong: Nullable<T -> Int64>, elseLong: Nullable<() -> Int64>, toDouble: Nullable<T -> Double>, elseDouble: Nullable<() -> Double>)
    ensures elseObj.NonNull? ==> Fold(opt, toObj, elseObj) == MapThenOrElseGet(opt, toObj, elseObj)
    ensures opt.Present? && elseObj.Null? ==> Fold(opt, toObj, elseObj) == NPE
    ensures elseInt.NonNull? ==> FoldToInt(opt, toInt, elseInt) == MapThenOrElseGet(opt, toInt, elseInt)
    ensures opt.Present? && elseInt.Null? ==> FoldToInt(opt, toInt, elseInt) == NPE
    ensures elseLong.NonNull? ==> FoldToLong(opt, toLong, elseLong) == MapThenOrElseGet(opt, toLong, elseLong)
    ensures opt.Present? && elseLong.Null? ==> FoldToLong(opt, toLong, elseLong) == NPE
    ensures elseDouble.NonNull? ==> FoldToDouble(opt, toDouble, elseDouble) == MapThenOrElseGet(opt, toDouble, elseDouble)
    ensures opt.Present? && elseDouble.Null? ==> FoldToDouble(opt, toDouble, elseDouble) == NPE
  {
    FoldAsMapThenOrElseGet(opt, toObj, elseObj);
    FoldAsMapThenOrElseGet(opt, toInt, elseInt);
    FoldAsMapThenOrElseGet(opt, toLong, elseLong);
    FoldAsMapThenOrElseGet(opt, toDouble, elseDouble);
  }

  /**
   With non-null callbacks, `ifAbsent` runs the runnable exactly when
   `isAbsent` holds, and `consume` runs the consumer on the value exactly when
   it does not, else behaves as `ifAbsent`.
   */
  lemma AbsenceMethodsAgree<T>(opt: Opt<T>, consumer: Callback, runnable: Callback)
    requires consumer.NonNull? && runnable.NonNull?
    ensures IsAbsent(opt) <==> IfAbsent(opt, runnable) == Ok(RunnableRan)
    ensures Consume(opt, consumer, runnable) == if IsAbsent(opt) then IfAbsent(opt, runnable) else Ok(ConsumerAccepted(opt.value))
  {
    IfAbsentRunsIffAbsent(opt, runnable);
    CallbacksDereferencedLazily(opt, consumer, runnable);
  }

  /**
   Null versus absent: when the mapper returns null on the value, `fold`
   returns that null, whereas `Optional.map` turns it into the empty optional, so
   following it with orElseGet calls the supplier instead.
   */
  lemma FoldKeepsNullResult<T, U>(v: T, f: T -> Nullable<U>, other: () -> Nullable<U>)
    requires f(v) == Null
    ensures Fold(Present(v), NonNull(f), NonNull(other)) == Ok(Null)
    ensures Optionals.MapOfNullable(Present(v), NonNull(f)) == Ok(Empty)
    ensures MapToObjThenOrElseGet(Present(v), NonNull(f), NonNull(other)) == Ok(other())
  {
    OptionalLaws.FoldKeepsNullResult(Present(v), f, other);
  }
}
