/**
 `OptionalIntExtensions`: combinators on `OptionalInt` that map or flat-map it to any of the
 four optional kinds and fold it to a plain value, and test or act on absence (`isAbsent`, `ifAbsent`, `consume`). Each static method
 takes the optional as its first argument.
 */
module OptionalIntExtensions {
  import opened Optionals
  import opened OptionalLaws

  // map

  /** `map`: OptionalInt to OptionalInt. */
  function Map(opt: OptionalInt, mapper: Nullable<Int32 -> Int32>): (r: Outcome<OptionalInt>)
    ensures mapper.Null? ==> r == NPE
    ensures mapper.NonNull? && opt.Empty? ==> r == Ok(Empty)
    ensures mapper.NonNull? && opt.Present? ==> r == Ok(Present(mapper.get(opt.value)))
  {
    Optionals.Map(opt, mapper)
  }

  /** `mapToLong`: OptionalInt to OptionalLong. */
  function MapToLong(opt: OptionalInt, mapper: Nullable<Int32 -> Int64>): (r: Outcome<OptionalLong>)
    ensures mapper.Null? ==> r == NPE
    ensures mapper.NonNull? && opt.Empty? ==> r == Ok(Empty)
    ensures mapper.NonNull? && opt.Present? ==> r == Ok(Present(mapper.get(opt.value)))
  {
    Optionals.Map(opt, mapper)
  }

  /** `mapToDouble`: OptionalInt to OptionalDouble. */
  function MapToDouble(opt: OptionalInt, mapper: Nullable<Int32 -> Double>): (r: Outcome<OptionalDouble>)
    ensures mapper.Null? ==> r == NPE
    ensures mapper.NonNull? && opt.Empty? ==> r == Ok(Empty)
    ensures mapper.NonNull? && opt.Present? ==> r == Ok(Present(mapper.get(opt.value)))
  {
    Optionals.Map(opt, mapper)
  }

  /**
   `mapToObj`: OptionalInt to Optional<T>. The mapper's result goes through
   `Optional.ofNullable`, so a null result gives the empty optional.
   */
  function MapToObj<T>(opt: OptionalInt, mapper: Nullable<Int32 -> Nullable<T>>): (r: Outcome<Opt<T>>)
    ensures mapper.Null? ==> r == NPE
    ensures mapper.NonNull? && opt.Empty? ==> r == Ok(Empty)
    ensures mapper.NonNull? && opt.Present? && mapper.get(opt.value).Null? ==> r == Ok(Empty)
    ensures mapper.NonNull? && opt.Present? && mapper.get(opt.value).NonNull? ==> r == Ok(Present(mapper.get(opt.value).get))
  {
    Optionals.MapOfNullable(opt, mapper)
  }

  // flatMap

  /** `flatMap`: OptionalInt to OptionalInt. */
  function FlatMap(opt: OptionalInt, mapper: Nullable<Int32 -> Nullable<OptionalInt>>): (r: Outcome<OptionalInt>)
    ensures mapper.Null? ==> r == NPE
    ensures mapper.NonNull? && opt.Empty? ==> r == Ok(Empty)
    ensures mapper.NonNull? && opt.Present? && mapper.get(opt.value).Null? ==> r == NPE
    ensures mapper.NonNull? && opt.Present? && mapper.get(opt.value).NonNull? ==> r == Ok(mapper.get(opt.value).get)
  {
    Optionals.FlatMap(opt, mapper)
  }

  /** `flatMapToLong`: OptionalInt to OptionalLong. */
  function FlatMapToLong(opt: OptionalInt, mapper: Nullable<Int32 -> Nullable<OptionalLong>>): (r: Outcome<OptionalLong>)
    ensures mapper.Null? ==> r == NPE
    ensures mapper.NonNull? && opt.Empty? ==> r == Ok(Empty)
    ensures mapper.NonNull? && opt.Present? && mapper.get(opt.value).Null? ==> r == NPE
    ensures mapper.NonNull? && opt.Present? && mapper.get(opt.value).NonNull? ==> r == Ok(mapper.get(opt.value).get)
  {
    Optionals.FlatMap(opt, mapper)
  }

  /** `flatMapToDouble`: OptionalInt to OptionalDouble. */
  function FlatMapToDouble(opt: OptionalInt, mapper: Nullable<Int32 -> Nullable<OptionalDouble>>): (r: Outcome<OptionalDouble>)
    ensures mapper.Null? ==> r == NPE
    ensures mapper.NonNull? && opt.Empty? ==> r == Ok(Empty)
    ensures mapper.NonNull? && opt.Present? && mapper.get(opt.value).Null? ==> r == NPE
    ensures mapper.NonNull? && opt.Present? && mapper.get(opt.value).NonNull? ==> r == Ok(mapper.get(opt.value).get)
  {
    Optionals.FlatMap(opt, mapper)
  }

  /** `flatMapToObj`: OptionalInt to Optional<T>. */
  function FlatMapToObj<T>(opt: OptionalInt, mapper: Nullable<Int32 -> Nullable<Opt<T>>>): (r: Outcome<Opt<T>>)
    ensures mapper.Null? ==> r == NPE
    ensures mapper.NonNull? && opt.Empty? ==> r == Ok(Empty)
    ensures mapper.NonNull? && opt.Present? && mapper.get(opt.value).Null? ==> r == NPE
    ensures mapper.NonNull? && opt.Present? && mapper.get(opt.value).NonNull? ==> r == Ok(mapper.get(opt.value).get)
  {
    Optionals.FlatMap(opt, mapper)
  }

  // fold

  /** `fold`: OptionalInt to int. */
  function Fold(opt: OptionalInt, mapper: Nullable<Int32 -> Int32>, other: Nullable<() -> Int32>): (r: Outcome<Int32>)
    ensures mapper.Null? || other.Null? ==> r == NPE
    ensures mapper.NonNull? && other.NonNull? && opt.Present? ==> r == Ok(mapper.get(opt.value))
    ensures mapper.NonNull? && other.NonNull? && opt.Empty? ==> r == Ok(other.get())
  {
    Optionals.Fold(opt, mapper, other)
  }

  /** `foldToLong`: OptionalInt to long. */
  function FoldToLong(opt: OptionalInt, mapper: Nullable<Int32 -> Int64>, other: Nullable<() -> Int64>): (r: Outcome<Int64>)
    ensures mapper.Null? || other.Null? ==> r == NPE
    ensures mapper.NonNull? && other.NonNull? && opt.Present? ==> r == Ok(mapper.get(opt.value))
    ensures mapper.NonNull? && other.NonNull? && opt.Empty? ==> r == Ok(other.get())
  {
    Optionals.Fold(opt, mapper, other)
  }

  /** `foldToDouble`: OptionalInt to double. */
  function FoldToDouble(opt: OptionalInt, mapper: Nullable<Int32 -> Double>, other: Nullable<() -> Double>): (r: Outcome<Double>)
    ensures mapper.Null? || other.Null? ==> r == NPE
    ensures mapper.NonNull? && other.NonNull? && opt.Present? ==> r == Ok(mapper.get(opt.value))
    ensures mapper.NonNull? && other.NonNull? && opt.Empty? ==> r == Ok(other.get())
  {
    Optionals.Fold(opt, mapper, other)
  }

  /** `foldToObj`: OptionalInt to T. */
  function FoldToObj<T>(opt: OptionalInt, mapper: Nullable<Int32 -> T>, other: Nullable<() -> T>): (r: Outcome<T>)
    ensures mapper.Null? || other.Null? ==> r == NPE
    ensures mapper.NonNull? && other.NonNull? && opt.Present? ==> r == Ok(mapper.get(opt.value))
    ensures mapper.NonNull? && other.NonNull? && opt.Empty? ==> r == Ok(other.get())
  {
    Optionals.Fold(opt, mapper, other)
  }

  // absence

  /** `isAbsent`: true exactly when the optional is empty. */
  function IsAbsent(opt: OptionalInt): (b: bool)
    ensures b <==> opt == Empty
  {
    Optionals.IsAbsent(opt)
  }

  /** `ifAbsent`: runs the runnable if and only if the optional is empty. */
  function IfAbsent(opt: OptionalInt, runnable: Callback): (r: Outcome<Invoked<Int32>>)
    ensures opt.Present? ==> r == Ok(Neither)
    ensures opt.Empty? && runnable.NonNull? ==> r == Ok(RunnableRan)
    ensures opt.Empty? && runnable.Null? ==> r == NPE
  {
    Optionals.IfAbsent(opt, runnable)
  }

  /** `consume`: runs the consumer on the value, or else the runnable; never both. */
  function Consume(opt: OptionalInt, consumer: Callback, runnable: Callback): (r: Outcome<Invoked<Int32>>)
    ensures opt.Present? && consumer.NonNull? ==> r == Ok(ConsumerAccepted(opt.value))
    ensures opt.Present? && consumer.Null? ==> r == NPE
    ensures opt.Empty? && runnable.NonNull? ==> r == Ok(RunnableRan)
    ensures opt.Empty? && runnable.Null? ==> r == NPE
  {
    Optionals.Consume(opt, consumer, runnable)
  }

  // laws

  /**
   Each map method is the flatMap method of the same target kind whose mapper
   wraps the result in a present optional (through `Optional.ofNullable` for
   `mapToObj`), for every mapper, null included.
   */
  lemma MapsAreFlatMaps<T>(opt: OptionalInt, toInt: Nullable<Int32 -> Int32>, toLong: Nullable<Int32 -> Int64>, toDouble: Nullable<Int32 -> Double>, toObj: Nullable<Int32 -> Nullable<T>>)
    ensures Map(opt, toInt) == FlatMap(opt, PresentMapper(toInt))
    ensures MapToLong(opt, toLong) == FlatMapToLong(opt, PresentMapper(toLong))
    ensures MapToDouble(opt, toDouble) == FlatMapToDouble(opt, PresentMapper(toDouble))
    ensures MapToObj(opt, toObj) == FlatMapToObj(opt, OfNullableMapper(toObj))
  {
    MapAsFlatMap(opt, toInt);
    MapAsFlatMap(opt, toLong);
    MapAsFlatMap(opt, toDouble);
    MapOfNullableAsFlatMap(opt, toObj);
  }

  /**
   Each fold method with a non-null supplier is "map, then orElseGet", where
   the map keeps a null mapper result (unlike `mapToObj`, see
   `FoldToObjKeepsNullResult`); unlike orElseGet, fold rejects a null supplier
   even when the optional is present.
   */
  lemma FoldsAreMapThenOrElseGet<T>(opt: OptionalInt, toInt: Nullable<Int32 -> Int32>, elseInt: Nullable<() -> Int32>, toLong: Nullable<Int32 -> Int64>, elseLong: Nullable<() -> Int64>, toDouble: Nullable<Int32 -> Double>, elseDouble: Nullable<() -> Double>, toObj: Nullable<Int32 -> T>, elseObj: Nullable<() -> T>)
    ensures elseInt.NonNull? ==> Fold(opt, toInt, elseInt) == MapThenOrElseGet(opt, toInt, elseInt)
    ensures opt.Present? && elseInt.Null? ==> Fold(opt, toInt, elseInt) == NPE
    ensures elseLong.NonNull? ==> FoldToLong(opt, toLong, elseLong) == MapThenOrElseGet(opt, toLong, elseLong)
    ensures opt.Present? && elseLong.Null? ==> FoldToLong(opt, toLong, elseLong) == NPE
    ensures elseDouble.NonNull? ==> FoldToDouble(opt, toDouble, elseDouble) == MapThenOrElseGet(opt, toDouble, elseDouble)
    ensures opt.Present? && elseDouble.Null? ==> FoldToDouble(opt, toDouble, elseDouble) == NPE
    ensures elseObj.NonNull? ==> FoldToObj(opt, toObj, elseObj) == MapThenOrElseGet(opt, toObj, elseObj)
    ensures opt.Present? && elseObj.Null? ==> FoldToObj(opt, toObj, elseObj) == NPE
  {
    FoldAsMapThenOrElseGet(opt, toInt, elseInt);
    FoldAsMapThenOrElseGet(opt, toLong, elseLong);
    FoldAsMapThenOrElseGet(opt, toDouble, elseDouble);
    FoldAsMapThenOrElseGet(opt, toObj, elseObj);
  }

  /**
   With non-null callbacks, `ifAbsent` runs the runnable exactly when
   `isAbsent` holds, and `consume` runs the consumer on the value exactly when
   it does not, else behaves as `ifAbsent`.
   */
  lemma AbsenceMethodsAgree(opt: OptionalInt, consumer: Callback, runnable: Callback)
    requires consumer.NonNull? && runnable.NonNull?
    ensures IsAbsent(opt) <==> IfAbsent(opt, runnable) == Ok(RunnableRan)
    ensures Consume(opt, consumer, runnable) == if IsAbsent(opt) then IfAbsent(opt, runnable) else Ok(ConsumerAccepted(opt.value))
  {
    IfAbsentRunsIffAbsent(opt, runnable);
    CallbacksDereferencedLazily(opt, consumer, runnable);
  }

  /**
   Null versus absent: when the mapper returns null on the value, `foldToObj`
   returns that null, whereas `mapToObj` turns it into the empty optional, so
   following it with orElseGet calls the supplier instead.
   */
  lemma FoldToObjKeepsNullResult<U>(v: Int32, f: Int32 -> Nullable<U>, other: () -> Nullable<U>)
    requires f(v) == Null
    ensures FoldToObj(Present(v), NonNull(f), NonNull(other)) == Ok(Null)
    ensures MapToObj(Present(v), NonNull(f)) == Ok(Empty)
    ensures MapToObjThenOrElseGet(Present(v), NonNull(f), NonNull(other)) == Ok(other())
  {
    OptionalLaws.FoldKeepsNullResult(Present(v), f, other);
  }
}
