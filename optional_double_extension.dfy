/**
 `OptionalDoubleExtension`: combinators on `OptionalDouble` that map or flat-map it to any of the
 four optional kinds and fold it to a plain value. Each static method
 takes the optional as its first argument.
 */
module OptionalDoubleExtension {
  import opened Optionals
  import opened OptionalLaws

  // map

  /** `map`: OptionalDouble to OptionalDouble. */
  function Map(opt: OptionalDouble, mapper: Nullable<Double -> Double>): (r: Outcome<OptionalDouble>)
    ensures mapper.Null? ==> r == NPE
    ensures mapper.NonNull? && opt.Empty? ==> r == Ok(Empty)
    ensures mapper.NonNull? && opt.Present? ==> r == Ok(Present(mapper.get(opt.value)))
  {
    Optionals.Map(opt, mapper)
  }

  /** `mapToInt`: OptionalDouble to OptionalInt. */
  function MapToInt(opt: OptionalDouble, mapper: Nullable<Double -> Int32>): (r: Outcome<OptionalInt>)
    ensures mapper.Null? ==> r == NPE
    ensures mapper.NonNull? && opt.Empty? ==> r == Ok(Empty)
    ensures mapper.NonNull? && opt.Present? ==> r == Ok(Present(mapper.get(opt.value)))
  {
    Optionals.Map(opt, mapper)
  }

  /** `mapToLong`: OptionalDouble to OptionalLong. */
  function MapToLong(opt: OptionalDouble, mapper: Nullable<Double -> Int64>): (r: Outcome<OptionalLong>)
    ensures mapper.Null? ==> r == NPE
    ensures mapper.NonNull? && opt.Empty? ==> r == Ok(Empty)
    ensures mapper.NonNull? && opt.Present? ==> r == Ok(Present(mapper.get(opt.value)))
  {
    Optionals.Map(opt, mapper)
  }

  /**
   `mapToObj`: OptionalDouble to Optional<T>. The mapper's result goes through
   `Optional.ofNullable`, so a null result gives the empty optional.
   */
  function MapToObj<T>(opt: OptionalDouble, mapper: Nullable<Double -> Nullable<T>>): (r: Outcome<Opt<T>>)
    ensures mapper.Null? ==> r == NPE
    ensures mapper.NonNull? && opt.Empty? ==> r == Ok(Empty)
    ensures mapper.NonNull? && opt.Present? && mapper.get(opt.value).Null? ==> r == Ok(Empty)
    ensures mapper.NonNull? && opt.Present? && mapper.get(opt.value).NonNull? ==> r == Ok(Present(mapper.get(opt.value).get))
  {
    Optionals.MapOfNullable(opt, mapper)
  }

  // flatMap

  /** `flatMap`: OptionalDouble to OptionalDouble. */
  function FlatMap(opt: OptionalDouble, mapper: Nullable<Double -> Nullable<OptionalDouble>>): (r: Outcome<OptionalDouble>)
    ensures mapper.Null? ==> r == NPE
    ensures mapper.NonNull? && opt.Empty? ==> r == Ok(Empty)
    ensures mapper.NonNull? && opt.Present? && mapper.get(opt.value).Null? ==> r == NPE
    ensures mapper.NonNull? && opt.Present? && mapper.get(opt.value).NonNull? ==> r == Ok(mapper.get(opt.value).get)
  {
    Optionals.FlatMap(opt, mapper)
  }

  /** `flatMapToInt`: OptionalDouble to OptionalInt. */
  function FlatMapToInt(opt: OptionalDouble, mapper: Nullable<Double -> Nullable<OptionalInt>>): (r: Outcome<OptionalInt>)
    ensures mapper.Null? ==> r == NPE
    ensures mapper.NonNull? && opt.Empty? ==> r == Ok(Empty)
    ensures mapper.NonNull? && opt.Present? && mapper.get(opt.value).Null? ==> r == NPE
    ensures mapper.NonNull? && opt.Present? && mapper.get(opt.value).NonNull? ==> r == Ok(mapper.get(opt.value).get)
  {
    Optionals.FlatMap(opt, mapper)
  }

  /** `flatMapToLong`: OptionalDouble to OptionalLong. */
  function FlatMapToLong(opt: OptionalDouble, mapper: Nullable<Double -> Nullable<OptionalLong>>): (r: Outcome<OptionalLong>)
    ensures mapper.Null? ==> r == NPE
    ensures mapper.NonNull? && opt.Empty? ==> r == Ok(Empty)
    ensures mapper.NonNull? && opt.Present? && mapper.get(opt.value).Null? ==> r == NPE
    ensures mapper.NonNull? && opt.Present? && mapper.get(opt.value).NonNull? ==> r == Ok(mapper.get(opt.value).get)
  {
    Optionals.FlatMap(opt, mapper)
  }

  /** `flatMapToObj`: OptionalDouble to Optional<T>. */
  function FlatMapToObj<T>(opt: OptionalDouble, mapper: Nullable<Double -> Nullable<Opt<T>>>): (r: Outcome<Opt<T>>)
    ensures mapper.Null? ==> r == NPE
    ensures mapper.NonNull? && opt.Empty? ==> r == Ok(Empty)
    ensures mapper.NonNull? && opt.Present? && mapper.get(opt.value).Null? ==> r == NPE
    ensures mapper.NonNull? && opt.Present? && mapper.get(opt.value).NonNull? ==> r == Ok(mapper.get(opt.value).get)
  {
    Optionals.FlatMap(opt, mapper)
  }

  // fold

  /** `fold`: OptionalDouble to double. */
  function Fold(opt: OptionalDouble, mapper: Nullable<Double -> Double>, other: Nullable<() -> Double>): (r: Outcome<Double>)
    ensures mapper.Null? || other.Null? ==> r == NPE
    ensures mapper.NonNull? && other.NonNull? && opt.Present? ==> r == Ok(mapper.get(opt.value))
    ensures mapper.NonNull? && other.NonNull? && opt.Empty? ==> r == Ok(other.get())
  {
    Optionals.Fold(opt, mapper, other)
  }

  /** `foldToInt`: OptionalDouble to int. */
  function FoldToInt(opt: OptionalDouble, mapper: Nullable<Double -> Int32>, other: Nullable<() -> Int32>): (r: Outcome<Int32>)
    ensures mapper.Null? || other.Null? ==> r == NPE
    ensures mapper.NonNull? && other.NonNull? && opt.Present? ==> r == Ok(mapper.get(opt.value))
    ensures mapper.NonNull? && other.NonNull? && opt.Empty? ==> r == Ok(other.get())
  {
    Optionals.Fold(opt, mapper, other)
  }

  /** `foldToLong`: OptionalDouble to long. */
  function FoldToLong(opt: OptionalDouble, mapper: Nullable<Double -> Int64>, other: Nullable<() -> Int64>): (r: Outcome<Int64>)
    ensures mapper.Null? || other.Null? ==> r == NPE
    ensures mapper.NonNull? && other.NonNull? && opt.Present? ==> r == Ok(mapper.get(opt.value))
    ensures mapper.NonNull? && other.NonNull? && opt.Empty? ==> r == Ok(other.get())
  {
    Optionals.Fold(opt, mapper, other)
  }

  /** `foldToObj`: OptionalDouble to T. */
  function FoldToObj<T>(opt: OptionalDouble, mapper: Nullable<Double -> T>, other: Nullable<() -> T>): (r: Outcome<T>)
    ensures mapper.Null? || other.Null? ==> r == NPE
    ensures mapper.NonNull? && other.NonNull? && opt.Present? ==> r == Ok(mapper.get(opt.value))
    ensures mapper.NonNull? && other.NonNull? && opt.Empty? ==> r == Ok(other.get())
  {
    Optionals.Fold(opt, mapper, other)
  }

  // laws

  /**
   Each map method is the flatMap method of the same target kind whose mapper
   wraps the result in a present optional (through `Optional.ofNullable` for
   `mapToObj`), for every mapper, null included.
   */
  lemma MapsAreFlatMaps<T>(opt: OptionalDouble, toDouble: Nullable<Double -> Double>, toInt: Nullable<Double -> Int32>, toLong: Nullable<Double -> Int64>, toObj: Nullable<Double -> Nullable<T>>)
    ensures Map(opt, toDouble) == FlatMap(opt, PresentMapper(toDouble))
    ensures MapToInt(opt, toInt) == FlatMapToInt(opt, PresentMapper(toInt))
    ensures MapToLong(opt, toLong) == FlatMapToLong(opt, PresentMapper(toLong))
    ensures MapToObj(opt, toObj) == FlatMapToObj(opt, OfNullableMapper(toObj))
  {
    MapAsFlatMap(opt, toDouble);
    MapAsFlatMap(opt, toInt);
    MapAsFlatMap(opt, toLong);
    MapOfNullableAsFlatMap(opt, toObj);
  }

  /**
   Each fold method with a non-null supplier is "map, then orElseGet", where
   the map keeps a null mapper result (unlike `mapToObj`, see
   `FoldToObjKeepsNullResult`); unlike orElseGet, fold rejects a null supplier
   even when the optional is present.
   */
  lemma FoldsAreMapThenOrElseGet<T>(opt: OptionalDouble, toDouble: Nullable<Double -> Double>, elseDouble: Nullable<() -> Double>, toInt: Nullable<Double -> Int32>, elseInt: Nullable<() -> Int32>, toLong: Nullable<Double -> Int64>, elseLong: Nullable<() -> Int64>, toObj: Nullable<Double -> T>, elseObj: Nullable<() -> T>)
    ensures elseDouble.NonNull? ==> Fold(opt, toDouble, elseDouble) == MapThenOrElseGet(opt, toDouble, elseDouble)
    ensures opt.Present? && elseDouble.Null? ==> Fold(opt, toDouble, elseDouble) == NPE
    ensures elseInt.NonNull? ==> FoldToInt(opt, toInt, elseInt) == MapThenOrElseGet(opt, toInt, elseInt)
    ensures opt.Present? && elseInt.Null? ==> FoldToInt(opt, toInt, elseInt) == NPE
    ensures elseLong.NonNull? ==> FoldToLong(opt, toLong, elseLong) == MapThenOrElseGet(opt, toLong, elseLong)
    ensures opt.Present? && elseLong.Null? ==> FoldToLong(opt, toLong, elseLong) == NPE
    ensures elseObj.NonNull? ==> FoldToObj(opt, toObj, elseObj) == MapThenOrElseGet(opt, toObj, elseObj)
    ensures opt.Present? && elseObj.Null? ==> FoldToObj(opt, toObj, elseObj) == NPE
  {
    FoldAsMapThenOrElseGet(opt, toDouble, elseDouble);
    FoldAsMapThenOrElseGet(opt, toInt, elseInt);
    FoldAsMapThenOrElseGet(opt, toLong, elseLong);
    FoldAsMapThenOrElseGet(opt, toObj, elseObj);
  }

  /**
   Null versus absent: when the mapper returns null on the value, `foldToObj`
   returns that null, whereas `mapToObj` turns it into the empty optional, so
   following it with orElseGet calls the supplier instead.
   */
  lemma FoldToObjKeepsNullResult<U>(v: Double, f: Double -> Nullable<U>, other: () -> Nullable<U>)
    requires f(v) == Null
    ensures FoldToObj(Present(v), NonNull(f), NonNull(other)) == Ok(Null)
    ensures MapToObj(Present(v), NonNull(f)) == Ok(Empty)
    ensures MapToObjThenOrElseGet(Present(v), NonNull(f), NonNull(other)) == Ok(other())
  {
    OptionalLaws.FoldKeepsNullResult(Present(v), f, other);
  }
}
