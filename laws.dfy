/**
 Laws that relate the shared combinators to each other and to reference
 definitions. Each extension class instantiates the combinators at its own
 element types, so every law here holds for each class's methods.
 */
module OptionalLaws {
  import opened Optionals

  /** The flatMap mapper that wraps a plain mapper's result in a present optional. */
  function PresentMapper<T, U>(mapper: Nullable<T -> U>): Nullable<T -> Nullable<Opt<U>>>
  {
    match mapper
    case Null => Null
    case NonNull(f) => NonNull(x => NonNull(Present(f(x))))
  }

  /** The flatMap mapper that passes a nullable mapper's result through `Optional.ofNullable`. */
  function OfNullableMapper<T, U>(mapper: Nullable<T -> Nullable<U>>): Nullable<T -> Nullable<Opt<U>>>
  {
    match mapper
    case Null => Null
    case NonNull(f) => NonNull(x => NonNull(OfNullable(f(x))))
  }

  /** Java's `Optional.orElseGet`: the value, or else the supplier's result; a null supplier throws only when called. */
  function OrElseGet<T>(opt: Opt<T>, other: Nullable<() -> T>): Outcome<T>
  {
    match opt
    case Present(v) => Ok(v)
    case Empty => if other.Null? then NPE else Ok(other.get())
  }

  /**
   Reference for `fold`: map first, then fall back lazily with `orElseGet`.
   The map here keeps a null mapper result as a present value, so it is
   neither `mapToObj` nor `Optional.map`, which both turn a null result into
   the empty optional (see `FoldKeepsNullResult`).
   */
  function MapThenOrElseGet<T, R>(opt: Opt<T>, mapper: Nullable<T -> R>, other: Nullable<() -> R>): Outcome<R>
  {
    match Map(opt, mapper)
    case NPE => NPE
    case Ok(o) => OrElseGet(o, other)
  }

  /**
   Java's `mapToObj(mapper).orElseGet(other)` (and, for `Optional<T>`,
   `map(mapper).orElseGet(other)`), with the result as a possibly null
   reference: a null mapper result becomes the empty optional, so the
   supplier is called.
   */
  function MapToObjThenOrElseGet<T, U>(opt: Opt<T>, mapper: Nullable<T -> Nullable<U>>, other: Nullable<() -> Nullable<U>>): Outcome<Nullable<U>>
  {
    match MapOfNullable(opt, mapper)
    case NPE => NPE
    case Ok(Empty) => OrElseGet(Empty, other)
    case Ok(Present(u)) => Ok(NonNull(u))
  }

  /** Continues a flatMap chain: a thrown NPE propagates, a returned optional is flat-mapped with `g`. */
  function AndThen<U, V>(r: Outcome<Opt<U>>, g: U -> Nullable<Opt<V>>): Outcome<Opt<V>>
  {
    match r
    case NPE => NPE
    case Ok(o) => FlatMap(o, NonNull(g))
  }

  /** One flatMap mapper that does the work of `f` followed by `g`, returning null where the chain would throw. */
  function Composed<T, U, V>(f: T -> Nullable<Opt<U>>, g: U -> Nullable<Opt<V>>): T -> Nullable<Opt<V>>
  {
    x => match f(x)
         case Null => Null
         case NonNull(o) =>
           match FlatMap(o, NonNull(g))
           case NPE => Null
           case Ok(p) => NonNull(p)
  }

  // map

  /** Mapping with the identity function changes nothing. */
  lemma MapIdentity<T>(opt: Opt<T>)
    ensures Map(opt, NonNull(x => x)) == Ok(opt)
  {
  }

  /** Mapping twice is mapping once with the composed function. */
  lemma MapComposition<T, U, V>(opt: Opt<T>, f: T -> U, g: U -> V)
    ensures Map(opt, NonNull(f)).Ok?
    ensures Map(Map(opt, NonNull(f)).value, NonNull(g)) == Map(opt, NonNull(x => g(f(x))))
  {
  }

  /**
   Two mappers give the same result exactly when the optional is empty (the
   mapper is never applied) or they agree on the one value it holds.
   */
  lemma MapDependsOnlyOnValue<T, U>(opt: Opt<T>, f: T -> U, g: T -> U)
    ensures Map(opt, NonNull(f)) == Map(opt, NonNull(g)) <==> opt.Empty? || f(opt.value) == g(opt.value)
  {
  }

  /** Every map is the flatMap whose mapper wraps the result in a present optional. */
  lemma MapAsFlatMap<T, U>(opt: Opt<T>, mapper: Nullable<T -> U>)
    ensures Map(opt, mapper) == FlatMap(opt, PresentMapper(mapper))
  {
  }

  /** `mapToObj` is the flatMap whose mapper applies `Optional.ofNullable` to the result. */
  lemma MapOfNullableAsFlatMap<T, U>(opt: Opt<T>, mapper: Nullable<T -> Nullable<U>>)
    ensures MapOfNullable(opt, mapper) == FlatMap(opt, OfNullableMapper(mapper))
  {
  }

  /** Every map is a fold whose mapper builds a present optional and whose supplier gives the empty one. */
  lemma MapAsFold<T, U>(opt: Opt<T>, mapper: Nullable<T -> U>)
    ensures Map(opt, mapper) == Fold(opt, match mapper case Null => Null case NonNull(f) => NonNull(x => Present(f(x))), NonNull(() => Empty))
  {
  }

  /**
   Only the `mapToObj` shape can turn a present value into an empty optional,
   and only through a null mapper result; a primitive `map` never can.
   */
  lemma OnlyNullResultEmptiesAPresent<T, U>(v: T, f: T -> U, g: T -> Nullable<U>)
    ensures Map(Present(v), NonNull(f)) != Ok(Empty)
    ensures MapOfNullable(Present(v), NonNull(g)) == Ok(Empty) <==> g(v) == Null
    ensures exists h: T -> Nullable<U> :: MapOfNullable(Present(v), NonNull(h)) == Ok(Empty)
  {
    var h: T -> Nullable<U> := _ => Null;
    assert MapOfNullable(Present(v), NonNull(h)) == Ok(Empty);
  }

  // flatMap

  /**
   flatMap returns the mapper's optional unchanged, so from a present value a
   flatMap can reach every optional of the target kind, the empty one included.
   */
  lemma FlatMapReachesEveryOptional<T, U>(v: T, target: Opt<U>)
    ensures exists g: T -> Nullable<Opt<U>> :: FlatMap(Present(v), NonNull(g)) == Ok(target)
  {
    var g: T -> Nullable<Opt<U>> := _ => NonNull(target);
    assert FlatMap(Present(v), NonNull(g)) == Ok(target);
  }

  /** Left identity: flat-mapping a present value is applying the mapper, with a null result throwing. */
  lemma FlatMapLeftIdentity<T, U>(v: T, g: T -> Nullable<Opt<U>>)
    ensures FlatMap(Present(v), NonNull(g)) == RequireNonNull(g(v))
  {
  }

  /** Right identity: flat-mapping with "wrap in a present optional" changes nothing. */
  lemma FlatMapRightIdentity<T>(opt: Opt<T>)
    ensures FlatMap(opt, NonNull(x => NonNull(Present(x)))) == Ok(opt)
  {
  }

  /** Associativity: two flatMaps in a row are one flatMap with the composed mapper, failures included. */
  lemma FlatMapAssociative<T, U, V>(opt: Opt<T>, f: T -> Nullable<Opt<U>>, g: U -> Nullable<Opt<V>>)
    ensures AndThen(FlatMap(opt, NonNull(f)), g) == FlatMap(opt, NonNull(Composed(f, g)))
  {
    if opt.Present? {
      var x := opt.value;
      match f(x)
      case Null =>
      case NonNull(o) =>
        assert AndThen(FlatMap(opt, NonNull(f)), g) == FlatMap(o, NonNull(g));
    }
  }

  // fold

  /**
   With a non-null supplier, fold is "map, then orElseGet": the mapper on a
   present value, the supplier on an empty one. The map is the null-keeping
   `Map`, not `mapToObj`.
   */
  lemma FoldAsMapThenOrElseGet<T, R>(opt: Opt<T>, mapper: Nullable<T -> R>, other: Nullable<() -> R>)
    ensures other.NonNull? ==> Fold(opt, mapper, other) == MapThenOrElseGet(opt, mapper, other)
  {
  }

  /**
   Where the two differ: fold rejects a null supplier even when the optional is
   present and the supplier would never be called; orElseGet does not.
   */
  lemma FoldChecksOtherEagerly<T, R>(v: T, f: T -> R)
    ensures Fold(Present(v), NonNull(f), Null) == NPE
    ensures MapThenOrElseGet(Present(v), NonNull(f), Null) == Ok(f(v))
  {
  }

  /**
   Null versus absent: an object-target fold returns a null mapper result as
   it is, whereas mapToObj-then-orElseGet treats it as absent and calls the
   supplier. The two agree exactly when the optional is empty, the mapper's
   result is non-null, or the supplier itself gives null.
   */
  lemma FoldKeepsNullResult<T, U>(opt: Opt<T>, f: T -> Nullable<U>, other: () -> Nullable<U>)
    ensures opt.Present? && f(opt.value) == Null ==> Fold(opt, NonNull(f), NonNull(other)) == Ok(Null)
    ensures opt.Present? && f(opt.value) == Null ==> MapToObjThenOrElseGet(opt, NonNull(f), NonNull(other)) == Ok(other())
    ensures Fold(opt, NonNull(f), NonNull(other)) == MapToObjThenOrElseGet(opt, NonNull(f), NonNull(other))
            <==> opt.Empty? || f(opt.value).NonNull? || other() == Null
  {
  }

  /** fold never applies the mapper to an empty optional and never calls the supplier on a present one. */
  lemma FoldUsesOneBranch<T, R>(v: T, f: T -> R, g: T -> R, o: () -> R, p: () -> R)
    ensures Fold(Empty, NonNull(f), NonNull(o)) == Fold(Empty, NonNull(g), NonNull(o))
    ensures Fold(Present(v), NonNull(f), NonNull(o)) == Fold(Present(v), NonNull(f), NonNull(p))
  {
  }

  // absence

  /** With a non-null runnable, `ifAbsent` runs it exactly when `isAbsent` holds. */
  lemma IfAbsentRunsIffAbsent<T>(opt: Opt<T>, runnable: Callback)
    requires runnable.NonNull?
    ensures IfAbsent(opt, runnable).Ok?
    ensures IfAbsent(opt, runnable).value == RunnableRan <==> IsAbsent(opt)
    ensures IfAbsent(opt, runnable).value == Neither <==> !IsAbsent(opt)
  {
  }

  /**
   With non-null callbacks, `consume` is the fold that accepts the value or
   runs the runnable: exactly one callback runs.
   */
  lemma ConsumeAsFold<T>(opt: Opt<T>, consumer: Callback, runnable: Callback)
    requires consumer.NonNull? && runnable.NonNull?
    ensures Consume(opt, consumer, runnable) == Fold(opt, NonNull(x => ConsumerAccepted(x)), NonNull(() => RunnableRan))
  {
  }

  /**
   On an empty optional `consume` behaves as `ifAbsent`, whatever the consumer
   (even null); on a present one the runnable is never touched (even if null).
   */
  lemma CallbacksDereferencedLazily<T>(opt: Opt<T>, consumer: Callback, runnable: Callback)
    ensures opt.Empty? ==> Consume(opt, consumer, runnable) == IfAbsent(opt, runnable)
    ensures opt.Present? ==> Consume(opt, consumer, runnable) == Consume(opt, consumer, Null)
    ensures opt.Present? ==> IfAbsent(opt, Null) == Ok(Neither)
  {
  }
}
