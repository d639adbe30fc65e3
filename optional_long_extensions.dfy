/**
 `OptionalLongExtensions`: combinators on `OptionalLong` that map or flat-map it to any of the
 four optional kinds and fold it to a plain value. Each static method
 takes the optional as its first argument.
 */
module OptionalLongExtensions {
  import opened Optionals
  import opened OptionalLaws

  // map

  /** `map`: OptionalLong to OptionalLong. */
  function Map(opt: OptionalLong, mapper: Nullable<Int64 -> Int64>): (r: Outcome<OptionalLong>)
    ensures mapper.Null? ==> r == NPE
    ensures mapper.NonNull? && opt.Empty? ==> r == Ok(Empty)
    ensures mapper.NonNull? && opt.Present? ==> r == Ok(Present(mapper.get(opt.value)))
  {
    Optionals.Map(opt, mapper)
  }

  /** `mapToInt`: OptionalLong to OptionalInt. */
  function MapToInt(opt: OptionalLong, mapper: Nullable<Int64 -> Int32>): (r: Outcome<OptionalInt>)
    ensures mapper.Null? ==> r == NPE
    ensures mapper.NonNull? && opt.Empty? ==> r == Ok(Empty)
    ensures mapper.NonNull? && opt.Present? ==> r == Ok(Present(mapper.get(opt.value)))
  {
    Optionals.Map(opt, mapper)
  }

  /** `mapToDouble`: OptionalLong to OptionalDouble. */
  function MapToDouble(opt: OptionalLong, mapper: Nullable<Int64 -> Double>): (r: Outcome<OptionalDouble>)
    ensures mapper.Null? ==> r == NPE
    ensures mapper.NonNull? && opt.Empty? ==> r == Ok(Empty)
    ensures mapper.NonNull? && opt.Present? ==> r == Ok(Present(mapper.get(opt.value)))
  {
    Optionals.Map(opt, mapper)
  }

  /**
   `mapToObj`: OptionalLong to Optional<T>. The mapper's result goes through
   `Optional.ofNullable`, so a null result gives the empty optional.
   */
  function MapToObj<T>(opt: OptionalLong, mapper: Nullable<Int64 -> Nullable<T>>): (r: Outcome<Opt<T>>)
    ensures mapper.Null? ==> r == NPE
    ensures mapper.NonNull? && opt.Empty? ==> r == Ok(Empty)
    ensures mapper.NonNull? && opt.Present? && mapper.get(opt.value).Null? ==> r == Ok(Empty)
    ensures mapper.NonNull? && opt.Present? && mapper.get(opt.value).NonNull? ==> r == Ok(Present(mapper.get(opt.value).get))
  {
    Optionals.MapOfNullable(opt, mapper)
  }

  // flatMap

  /** `flatMap`: OptionalLong to OptionalLong. */
  function FlatMap(opt: OptionalLong, mapper: Nullable<Int64 -> Nullable<OptionalLong>>): (r: Outcome<OptionalLong>)
    ensures mapper.Null? ==> r == NPE
    ensures mapper.NonNull? && opt.Empty? ==> r == Ok(Empty)
    ensures mapper.NonNull? && opt.Present? && mapper.get(opt.value).Null? ==> r == NPE
    ensures mapper.NonNull? && opt.Present? && mapper.get(opt.value).NonNull? ==> r == Ok(mapper.get(opt.value).get)
  {
    Optionals.FlatMap(opt, mapper)
  }

  /** `flatMapToInt`: OptionalLong to OptionalInt. */
  function FlatMapToInt(opt: OptionalLong, mapper: Nullable<Int64 -> Nullable<OptionalInt>>): (r: Outcome<OptionalInt>)
    ensures mapper.Null? ==> r == NPE
    ensures mapper.NonNull? && opt.Empty? ==> r == Ok(Empty)
    ensures mapper.NonNull? && opt.Present? && mapper.get(opt.value).Null? ==> r == NPE
    ensures mapper.NonNull? && opt.Present? && mapper.get(opt.value).NonNull? ==> r == Ok(mapper.get(opt.value).get)
  {
    Optionals.FlatMap(opt, mapper)
  }

  /** `flatMapToDouble`: OptionalLong to OptionalDouble. */
  function FlatMapToDouble(opt: OptionalLong, mapper: Nullable<Int64 -> Nullable<OptionalDouble>>): (r: Outcome<OptionalDouble>)
    ensures mapper.Null? ==> r == NPE
    ensures mapper.NonNull? && opt.Empty? ==> r == Ok(Empty)
    ensures mapper.NonNull? && opt.Present? && mapper.get(opt.value).Null? ==> r == NPE
    ensures mapper.NonNull? && opt.Present? && mapper.get(opt.value).NonNull? ==> r == Ok(mapper.get(opt.value).get)
  {
    Optionals.FlatMap(opt, mapper)
  }

  /** `flatMapToObj`: OptionalLong to Optional<T>. */
  function FlatMapToObj<T>(opt: OptionalLong, mapper: Nullable<Int64 -> Nullable<Opt<T>>>): (r: Outcome<Opt<T>>)
    ensures mapper.Null? ==> r == NPE
    ensures mapper.NonNull? && opt.Empty? ==> r == Ok(Empty)
    ensures mapper.NonNull? && opt.Present? && mapper.get(opt.value).Null? ==> r == NPE
    ensures mapper.NonNull? && opt.Present? && mapper.get(opt.value).NonNull? ==> r == Ok(mapper.get(opt.value).get)
  {
    Optionals.FlatMap(opt, mapper)
  }

  // fold

  /** `fold`: OptionalLong to long. */
  function Fold(opt: OptionalLong, mapper: Nullable<Int64 -> Int64>, other: Nullable<() -> Int64>): (r: Outcome<Int64>)
    ensures mapper.Null? || other.Null? ==> r == NPE
    ensures mapper.NonNull? && other.NonNull? && opt.Present? ==> r == Ok(mapper.get(opt.value))
    ensures mapper.NonNull? && other.NonNull? && opt.Empty? ==> r == Ok(other.get())
  {
    Optionals.Fold(opt, mapper, other)
  }

  /** `foldToInt`: OptionalLong to int. */
  function FoldToInt(opt: OptionalLong, mapper: Nullable<Int64 -> Int32>, other: Nullable<() -> Int32>): (r: Outcome<Int32>)
    ensures mapper.Null? || other.Null? ==> r == NPE
    ensures mapper.NonNull? && other.NonNull? && opt.Present? ==> r == Ok(mapper.get(opt.value))
    ensures mapper.NonNull? && other.NonNull? && opt.Empty? ==> r == Ok(other.get())
  {
    Optionals.Fold(opt, mapper, other)
  }

  /** `foldToDouble`: OptionalLong to double. */
  function FoldToDouble(opt: OptionalLong, mapper: Nullable<Int64 -> Double>, other: Nullable<() -> Double>): (r: Outcome<Double>)
    ensures mapper.Null? || other.Null? ==> r == NPE
    ensures mapper.NonNull? && other.NonNull? && opt.Present? ==> r == Ok(mapper.get(opt.value))
    ensures mapper.NonNull? && other.NonNull? && opt.Empty? ==> r == Ok(other.get())
  {
    Optionals.Fold(opt, mapper, other)
  }

  /** `foldToObj`: OptionalLong to T. */
  function FoldToObj<T>(opt: OptionalLong, mapper: Nullable<Int64 -> T>, other: Nullable<() -> T>): (r: Outcome<T>)
    ensures mapper.Null? || other.Null? ==> r == NPE
    ensures mapper.NonNull? && other.NonNull? && opt.Present? ==> r == Ok(mapper.get(opt.value))
    ensures mapper.NonNull? && other.NonNull? && opt.Empty? ==> r == Ok(other.get())
  {
    Optionals.Fold(opt, mapper, other)
  }

  // laws

  /**
   Each map method is the flatMap method of the same target kind whose mapper
   wraps the result in a present optional (through `Optional.ofNullable` for
   `mapToObj`), for every mapper, null included.
   */
  lemma MapsAreFlatMaps<T>(opt: OptionalLong, toLong: Nullable<Int64 -> Int64>, toInt: Nullable<Int64 -> Int32>, toDouble: Nullable<Int64 -> Double>, toObj: Nullable<Int64 -> Nullable<T>>)
    ensures Map(opt, toLong) == FlatMap(opt, PresentMapper(toLong))
    ensures MapToInt(opt, toInt) == FlatMapToInt(opt, PresentMapper(toInt))
    ensures MapToDouble(opt, toDouble) == FlatMapToDouble(opt, PresentMapper(toDouble))
    ensures MapToObj(opt, toObj) == FlatMapToObj(opt, OfNullableMapper(toObj))
  {
    MapAsFlatMap(opt, toLong);
    MapAsFlatMap(opt, toInt);
    MapAsFlatMap(opt, toDouble);
    MapOfNullableAsFlatMap(opt, toObj);
  }

  /**
   Each fold method with a non-null supplier is "map, then orElseGet", where
   the map keeps a null mapper result (unlike `mapToObj`, see
   `FoldToObjKeepsNullResult`); unlike orElseGet, fold rejects a null supplier
   even when the optional is present.
   */
  lemma FoldsAreMapThenOrElseGet<T>(opt: OptionalLong, toLong: Nullable<Int64 -> Int64>, elseLong: Nullable<() -> Int64>, toInt: Nullable<Int64 -> Int32>, elseInt: Nullable<() -> Int32>, toDouble: Nullable<Int64 -> Double>, elseDouble: Nullable<() -> Double>, toObj: Nullable<Int64 -> T>, elseObj: Nullable<() -> T>)
    ensures elseLong.NonNull? ==> Fold(opt, toLong, elseLong) == MapThenOrElseGet(opt, toLong, elseLong)
    ensures opt.Present? && elseLong.Null? ==> Fold(opt, toLong, elseLong) == NPE
    ensures elseInt.NonNull? ==> FoldToInt(opt, toInt, elseInt) == MapThenOrElseGet(opt, toInt, elseInt)
    ensures opt.Present? && elseInt.Null? ==> FoldToInt(opt, toInt, elseInt) == NPE
    ensures elseDouble.NonNull? ==> FoldToDouble(opt, toDouble, elseDouble) == MapThenOrElseGet(opt, toDouble, elseDouble)
    ensures opt.Present? && elseDouble.Null? ==> FoldToDouble(opt, toDouble, elseDouble) == NPE
    ensures elseObj.NonNull? ==> FoldToObj(opt, toObj, elseObj) == MapThenOrElseGet(opt, toObj, elseObj)
    ensures opt.Present? && elseObj.Null? ==> FoldToObj(opt, toObj, elseObj) == NPE
  {
    FoldAsMapThenOrElseGet(opt, toLong, elseLong);
    FoldAsMapThenOrElseGet(opt, toInt, elseInt);
    FoldAsMapThenOrElseGet(opt, toDouble, elseDouble);
    FoldAsMapThenOrElseGet(opt, toObj, elseObj);
  }

  /**
   Null versus absent: when the mapper returns null on the value, `foldToObj`
   returns that null, whereas `mapToObj` turns it into the empty optional, so
   following it with orElseGet calls the supplier instead.
   */
  lemma FoldToObjKeepsNullResult<U>(v: Int64, f: Int64 -> Nullable<U>, other: () -> Nullable<U>)
    requires f(v) == Null
    ensures FoldToObj(Present(v), NonNull(f), NonNull(other)) == Ok(Null)
    ensures MapToObj(Present(v), NonNull(f)) == Ok(Empty)
    ensures MapToObjThenOrElseGet(Present(v), NonNull(f), NonNull(other)) == Ok(other())
  {
    OptionalLaws.FoldKeepsNullResult(Present(v), f, other);
  }
}
