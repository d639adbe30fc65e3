# Optional combinators of lombok-java8-extensions, in Dafny

The library adds static "extension" methods to Java 8's optionals: four
classes, one per optional kind (`Optional<T>`, `OptionalInt`,
`OptionalLong`, `OptionalDouble`), each offering `map`/`mapToX`,
`flatMap`/`flatMapToX` and `fold`/`foldToX` across optional kinds, and
(for `Optional<T>` and `OptionalInt`) `isAbsent`, `ifAbsent` and
`consume`. Every map, flatMap and fold method null-checks its mapper (and
supplier) before the case split on "present / empty"; `isAbsent`, `ifAbsent`
and `consume` are a bare case split, so a null callback throws only when it is
run.

The model is pure, like the source:

- `optionals.dfy` (module `Optionals`): the value types and the generic
  combinators. An optional of any kind is `Opt<E>` (`Empty | Present(value)`);
  a reference Java lets be `null` (mapper, supplier, callback, mapper result)
  is `Nullable<X>` (`Null | NonNull(get)`); a call ends in `Outcome<X>`,
  either `NPE` (a `NullPointerException`) or `Ok(value)`. Java `int` and
  `long` are the `Int32`/`Int64` newtypes; a `double` is its 64-bit pattern
  (`bv64`), on which nothing is computed. A `Runnable` or `Consumer` is a
  `Callback` whose only observable property is whether it is null, and
  `ifAbsent`/`consume` return which callback ran, with what argument
  (`Invoked`).
- `optional_extensions.dfy`, `optional_int_extensions.dfy`,
  `optional_long_extensions.dfy`, `optional_double_extension.dfy`: one module
  per Java class, one function per static method (the optional is the first
  argument), each defined as the generic combinator at that method's types
  and each with its own contract. Each module also proves how its own methods
  relate (every map is a flatMap, every fold is map-then-orElseGet with a map
  that keeps a null mapper result, the absence methods agree), and that an
  object-target fold differs from `mapToObj`-then-orElseGet, which treats a
  null result as absent.
- `laws.dfy` (module `OptionalLaws`): laws proved once for the generic
  combinators: functor and monad laws, map as flatMap and as fold, fold
  against a lazy `orElseGet` reference (whose map keeps a null result, so it
  is neither `mapToObj` nor `Optional.map`), fold against
  `mapToObj`-then-orElseGet, and the callback dispatch laws.

`OptionalExtensions` has no `mapToObj` or `flatMapToObj`, because
`Optional.map` and `Optional.flatMap` already do that job, and its `fold` is
generic in its result type `R`, so it needs no `foldToObj`. Only
`OptionalExtensions` and `OptionalIntExtensions` define `isAbsent`, `ifAbsent`
and `consume`; `OptionalLongExtensions` and `OptionalDoubleExtension` do not,
and the model gives them none.

## Model

| member | source | states |
|---|---|---|
| Optionals.OfNullable | src/main/java/com/github/kxbmap/lombok/extension/OptionalIntExtensions.java:69-72 | ofNullable: present exactly when the value is non-null, holding that value |
| Optionals.RequireNonNull | src/main/java/com/github/kxbmap/lombok/extension/OptionalIntExtensions.java:80-83 | requireNonNull: NPE exactly when the value is null, else the value itself |
| Optionals.Map | src/main/java/com/github/kxbmap/lombok/extension/OptionalIntExtensions.java:45-64 | shared map shape: NPE iff the mapper is null (checked before presence); otherwise present iff the input is present, holding mapper(v) |
| Optionals.MapOfNullable | src/main/java/com/github/kxbmap/lombok/extension/OptionalIntExtensions.java:69-72 | shared mapToObj shape: NPE iff the mapper is null; otherwise present iff the input is present and mapper(v) is non-null, holding that result |
| Optionals.FlatMap | src/main/java/com/github/kxbmap/lombok/extension/OptionalIntExtensions.java:80-107 | shared flatMap shape: null mapper is NPE; empty gives empty; on present(v) NPE iff mapper(v) is null, else mapper(v) unchanged |
| Optionals.Fold | src/main/java/com/github/kxbmap/lombok/extension/OptionalIntExtensions.java:115-146 | shared fold shape: NPE iff mapper or supplier is null (either state); else mapper(v) when present, other() when empty |
| Optionals.IsAbsent | src/main/java/com/github/kxbmap/lombok/extension/OptionalIntExtensions.java:152-154 | true exactly when the optional is empty |
| Optionals.IfAbsent | src/main/java/com/github/kxbmap/lombok/extension/OptionalIntExtensions.java:159-163 | present: nothing runs; empty: the runnable runs, NPE iff it is null |
| Optionals.Consume | src/main/java/com/github/kxbmap/lombok/extension/OptionalIntExtensions.java:168-174 | present: NPE iff the consumer is null, else the consumer accepts v; empty: NPE iff the runnable is null, else the runnable runs |
| OptionalLaws.MapIdentity | src/main/java/com/github/kxbmap/lombok/extension/OptionalIntExtensions.java:45-48 | mapping with the identity gives back the same optional |
| OptionalLaws.MapComposition | src/main/java/com/github/kxbmap/lombok/extension/OptionalIntExtensions.java:45-48 | two maps in a row equal one map with the composed function |
| OptionalLaws.MapDependsOnlyOnValue | src/main/java/com/github/kxbmap/lombok/extension/OptionalIntExtensions.java:45-48 | two mappers give equal results iff the optional is empty (the mapper is never applied) or they agree on its value |
| OptionalLaws.MapAsFlatMap | src/main/java/com/github/kxbmap/lombok/extension/OptionalIntExtensions.java:45-99 | for every mapper, null included, map equals flatMap with a mapper that wraps its result in a present optional |
| OptionalLaws.MapOfNullableAsFlatMap | src/main/java/com/github/kxbmap/lombok/extension/OptionalIntExtensions.java:69-107 | mapToObj equals flatMapToObj with a mapper that applies ofNullable to the result |
| OptionalLaws.MapAsFold | src/main/java/com/github/kxbmap/lombok/extension/OptionalIntExtensions.java:45-119 | for every mapper, map equals the fold that builds present(f(v)) or else supplies the empty optional |
| OptionalLaws.OnlyNullResultEmptiesAPresent | src/main/java/com/github/kxbmap/lombok/extension/OptionalIntExtensions.java:45-72 | a primitive map never turns a present value into empty; mapToObj does so iff the mapper returns null, and such a mapper exists |
| OptionalLaws.FlatMapReachesEveryOptional | src/main/java/com/github/kxbmap/lombok/extension/OptionalIntExtensions.java:80-83 | since flatMap returns the mapper's optional without re-wrapping, a present value can be flat-mapped to any optional of the target kind, empty included |
| OptionalLaws.FlatMapLeftIdentity | src/main/java/com/github/kxbmap/lombok/extension/OptionalIntExtensions.java:80-83 | flatMap of present(v) is requireNonNull(mapper(v)) |
| OptionalLaws.FlatMapRightIdentity | src/main/java/com/github/kxbmap/lombok/extension/OptionalIntExtensions.java:80-83 | flatMap with "wrap in present" gives back the same optional |
| OptionalLaws.FlatMapAssociative | src/main/java/com/github/kxbmap/lombok/extension/OptionalIntExtensions.java:80-83 | two flatMaps in a row equal one flatMap with the composed mapper, NPE outcomes included |
| OptionalLaws.FoldAsMapThenOrElseGet | src/main/java/com/github/kxbmap/lombok/extension/OptionalIntExtensions.java:115-119 | with a non-null supplier, fold equals a null-keeping map (not mapToObj) followed by a lazy orElseGet |
| OptionalLaws.FoldKeepsNullResult | src/main/java/com/github/kxbmap/lombok/extension/OptionalIntExtensions.java:142-146 | an object-target fold returns a null mapper result as it is, while mapToObj-then-orElseGet calls the supplier; the two agree iff the optional is empty, the mapper result is non-null, or the supplier gives null |
| OptionalLaws.FoldChecksOtherEagerly | src/main/java/com/github/kxbmap/lombok/extension/OptionalIntExtensions.java:115-119 | fold(present(v), f, null) is NPE, while map-then-orElseGet with a null supplier gives f(v) |
| OptionalLaws.FoldUsesOneBranch | src/main/java/com/github/kxbmap/lombok/extension/OptionalIntExtensions.java:115-119 | on empty the result does not depend on the mapper; on present it does not depend on the supplier |
| OptionalLaws.IfAbsentRunsIffAbsent | src/main/java/com/github/kxbmap/lombok/extension/OptionalIntExtensions.java:152-163 | with a non-null runnable, ifAbsent runs it iff isAbsent holds and otherwise runs nothing |
| OptionalLaws.ConsumeAsFold | src/main/java/com/github/kxbmap/lombok/extension/OptionalIntExtensions.java:168-174 | with non-null callbacks, consume equals the fold that accepts the value or runs the runnable: exactly one callback runs |
| OptionalLaws.CallbacksDereferencedLazily | src/main/java/com/github/kxbmap/lombok/extension/OptionalIntExtensions.java:159-174 | on empty, consume equals ifAbsent whatever the consumer (even null); on present, neither method touches the runnable (even null) |
| OptionalExtensions.MapToInt | src/main/java/com/github/kxbmap/lombok/extension/OptionalExtensions.java:45-48 | null mapper: NPE whether or not present; empty: empty of the target kind, mapper unused; present(v): present(mapper(v)) |
| OptionalExtensions.MapToLong | src/main/java/com/github/kxbmap/lombok/extension/OptionalExtensions.java:53-56 | null mapper: NPE whether or not present; empty: empty of the target kind, mapper unused; present(v): present(mapper(v)) |
| OptionalExtensions.MapToDouble | src/main/java/com/github/kxbmap/lombok/extension/OptionalExtensions.java:61-64 | null mapper: NPE whether or not present; empty: empty of the target kind, mapper unused; present(v): present(mapper(v)) |
| OptionalExtensions.FlatMapToInt | src/main/java/com/github/kxbmap/lombok/extension/OptionalExtensions.java:72-75 | null mapper: NPE whether or not present; empty: empty of the target kind, mapper unused; present(v): exactly mapper(v), not re-wrapped, and NPE when mapper(v) is null |
| OptionalExtensions.FlatMapToLong | src/main/java/com/github/kxbmap/lombok/extension/OptionalExtensions.java:80-83 | null mapper: NPE whether or not present; empty: empty of the target kind, mapper unused; present(v): exactly mapper(v), not re-wrapped, and NPE when mapper(v) is null |
| OptionalExtensions.FlatMapToDouble | src/main/java/com/github/kxbmap/lombok/extension/OptionalExtensions.java:88-91 | null mapper: NPE whether or not present; empty: empty of the target kind, mapper unused; present(v): exactly mapper(v), not re-wrapped, and NPE when mapper(v) is null |
| OptionalExtensions.Fold | src/main/java/com/github/kxbmap/lombok/extension/OptionalExtensions.java:99-103 | null mapper or null supplier: NPE whether or not present; present(v): mapper(v); empty: other() |
| OptionalExtensions.FoldToInt | src/main/java/com/github/kxbmap/lombok/extension/OptionalExtensions.java:108-112 | null mapper or null supplier: NPE whether or not present; present(v): mapper(v); empty: other() |
| OptionalExtensions.FoldToLong | src/main/java/com/github/kxbmap/lombok/extension/OptionalExtensions.java:117-121 | null mapper or null supplier: NPE whether or not present; present(v): mapper(v); empty: other() |
| OptionalExtensions.FoldToDouble | src/main/java/com/github/kxbmap/lombok/extension/OptionalExtensions.java:126-130 | null mapper or null supplier: NPE whether or not present; present(v): mapper(v); empty: other() |
| OptionalExtensions.IsAbsent | src/main/java/com/github/kxbmap/lombok/extension/OptionalExtensions.java:136-138 | true exactly when the optional is empty |
| OptionalExtensions.IfAbsent | src/main/java/com/github/kxbmap/lombok/extension/OptionalExtensions.java:143-147 | present: no callback runs (a null runnable is not touched); empty: the runnable runs, NPE only if it is null |
| OptionalExtensions.Consume | src/main/java/com/github/kxbmap/lombok/extension/OptionalExtensions.java:152-158 | present(v): the consumer accepts v and the runnable never runs; empty: the runnable runs and the consumer never does; only the callback that runs is null-checked |
| OptionalIntExtensions.Map | src/main/java/com/github/kxbmap/lombok/extension/OptionalIntExtensions.java:45-48 | null mapper: NPE whether or not present; empty: empty of the target kind, mapper unused; present(v): present(mapper(v)) |
| OptionalIntExtensions.MapToLong | src/main/java/com/github/kxbmap/lombok/extension/OptionalIntExtensions.java:53-56 | null mapper: NPE whether or not present; empty: empty of the target kind, mapper unused; present(v): present(mapper(v)) |
| OptionalIntExtensions.MapToDouble | src/main/java/com/github/kxbmap/lombok/extension/OptionalIntExtensions.java:61-64 | null mapper: NPE whether or not present; empty: empty of the target kind, mapper unused; present(v): present(mapper(v)) |
| OptionalIntExtensions.MapToObj | src/main/java/com/github/kxbmap/lombok/extension/OptionalIntExtensions.java:69-72 | null mapper: NPE whether or not present; empty: empty, mapper unused; present(v): empty when mapper(v) is null, else present(mapper(v)) (ofNullable) |
| OptionalIntExtensions.FlatMap | src/main/java/com/github/kxbmap/lombok/extension/OptionalIntExtensions.java:80-83 | null mapper: NPE whether or not present; empty: empty of the target kind, mapper unused; present(v): exactly mapper(v), not re-wrapped, and NPE when mapper(v) is null |
| OptionalIntExtensions.FlatMapToLong | src/main/java/com/github/kxbmap/lombok/extension/OptionalIntExtensions.java:88-91 | null mapper: NPE whether or not present; empty: empty of the target kind, mapper unused; present(v): exactly mapper(v), not re-wrapped, and NPE when mapper(v) is null |
| OptionalIntExtensions.FlatMapToDouble | src/main/java/com/github/kxbmap/lombok/extension/OptionalIntExtensions.java:96-99 | null mapper: NPE whether or not present; empty: empty of the target kind, mapper unused; present(v): exactly mapper(v), not re-wrapped, and NPE when mapper(v) is null |
| OptionalIntExtensions.FlatMapToObj | src/main/java/com/github/kxbmap/lombok/extension/OptionalIntExtensions.java:104-107 | null mapper: NPE whether or not present; empty: empty of the target kind, mapper unused; present(v): exactly mapper(v), not re-wrapped, and NPE when mapper(v) is null |
| OptionalIntExtensions.Fold | src/main/java/com/github/kxbmap/lombok/extension/OptionalIntExtensions.java:115-119 | null mapper or null supplier: NPE whether or not present; present(v): mapper(v); empty: other() |
| OptionalIntExtensions.FoldToLong | src/main/java/com/github/kxbmap/lombok/extension/OptionalIntExtensions.java:124-128 | null mapper or null supplier: NPE whether or not present; present(v): mapper(v); empty: other() |
| OptionalIntExtensions.FoldToDouble | src/main/java/com/github/kxbmap/lombok/extension/OptionalIntExtensions.java:133-137 | null mapper or null supplier: NPE whether or not present; present(v): mapper(v); empty: other() |
| OptionalIntExtensions.FoldToObj | src/main/java/com/github/kxbmap/lombok/extension/OptionalIntExtensions.java:142-146 | null mapper or null supplier: NPE whether or not present; present(v): mapper(v); empty: other() |
| OptionalIntExtensions.IsAbsent | src/main/java/com/github/kxbmap/lombok/extension/OptionalIntExtensions.java:152-154 | true exactly when the optional is empty |
| OptionalIntExtensions.IfAbsent | src/main/java/com/github/kxbmap/lombok/extension/OptionalIntExtensions.java:159-163 | present: no callback runs (a null runnable is not touched); empty: the runnable runs, NPE only if it is null |
| OptionalIntExtensions.Consume | src/main/java/com/github/kxbmap/lombok/extension/OptionalIntExtensions.java:168-174 | present(v): the consumer accepts v and the runnable never runs; empty: the runnable runs and the consumer never does; only the callback that runs is null-checked |
| OptionalLongExtensions.Map | src/main/java/com/github/kxbmap/lombok/extension/OptionalLongExtensions.java:44-47 | null mapper: NPE whether or not present; empty: empty of the target kind, mapper unused; present(v): present(mapper(v)) |
| OptionalLongExtensions.MapToInt | src/main/java/com/github/kxbmap/lombok/extension/OptionalLongExtensions.java:52-55 | null mapper: NPE whether or not present; empty: empty of the target kind, mapper unused; present(v): present(mapper(v)) |
| OptionalLongExtensions.MapToDouble | src/main/java/com/github/kxbmap/lombok/extension/OptionalLongExtensions.java:60-63 | null mapper: NPE whether or not present; empty: empty of the target kind, mapper unused; present(v): present(mapper(v)) |
| OptionalLongExtensions.MapToObj | src/main/java/com/github/kxbmap/lombok/extension/OptionalLongExtensions.java:68-71 | null mapper: NPE whether or not present; empty: empty, mapper unused; present(v): empty when mapper(v) is null, else present(mapper(v)) (ofNullable) |
| OptionalLongExtensions.FlatMap | src/main/java/com/github/kxbmap/lombok/extension/OptionalLongExtensions.java:79-82 | null mapper: NPE whether or not present; empty: empty of the target kind, mapper unused; present(v): exactly mapper(v), not re-wrapped, and NPE when mapper(v) is null |
| OptionalLongExtensions.FlatMapToInt | src/main/java/com/github/kxbmap/lombok/extension/OptionalLongExtensions.java:87-90 | null mapper: NPE whether or not present; empty: empty of the target kind, mapper unused; present(v): exactly mapper(v), not re-wrapped, and NPE when mapper(v) is null |
| OptionalLongExtensions.FlatMapToDouble | src/main/java/com/github/kxbmap/lombok/extension/OptionalLongExtensions.java:95-98 | null mapper: NPE whether or not present; empty: empty of the target kind, mapper unused; present(v): exactly mapper(v), not re-wrapped, and NPE when mapper(v) is null |
| OptionalLongExtensions.FlatMapToObj | src/main/java/com/github/kxbmap/lombok/extension/OptionalLongExtensions.java:103-106 | null mapper: NPE whether or not present; empty: empty of the target kind, mapper unused; present(v): exactly mapper(v), not re-wrapped, and NPE when mapper(v) is null |
| OptionalLongExtensions.Fold | src/main/java/com/github/kxbmap/lombok/extension/OptionalLongExtensions.java:114-118 | null mapper or null supplier: NPE whether or not present; present(v): mapper(v); empty: other() |
| OptionalLongExtensions.FoldToInt | src/main/java/com/github/kxbmap/lombok/extension/OptionalLongExtensions.java:123-127 | null mapper or null supplier: NPE whether or not present; present(v): mapper(v); empty: other() |
| OptionalLongExtensions.FoldToDouble | src/main/java/com/github/kxbmap/lombok/extension/OptionalLongExtensions.java:132-136 | null mapper or null supplier: NPE whether or not present; present(v): mapper(v); empty: other() |
| OptionalLongExtensions.FoldToObj | src/main/java/com/github/kxbmap/lombok/extension/OptionalLongExtensions.java:141-145 | null mapper or null supplier: NPE whether or not present; present(v): mapper(v); empty: other() |
| OptionalDoubleExtension.Map | src/main/java/com/github/kxbmap/lombok/extension/OptionalDoubleExtension.java:44-47 | null mapper: NPE whether or not present; empty: empty of the target kind, mapper unused; present(v): present(mapper(v)) |
| OptionalDoubleExtension.MapToInt | src/main/java/com/github/kxbmap/lombok/extension/OptionalDoubleExtension.java:52-55 | null mapper: NPE whether or not present; empty: empty of the target kind, mapper unused; present(v): present(mapper(v)) |
| OptionalDoubleExtension.MapToLong | src/main/java/com/github/kxbmap/lombok/extension/OptionalDoubleExtension.java:60-63 | null mapper: NPE whether or not present; empty: empty of the target kind, mapper unused; present(v): present(mapper(v)) |
| OptionalDoubleExtension.MapToObj | src/main/java/com/github/kxbmap/lombok/extension/OptionalDoubleExtension.java:68-71 | null mapper: NPE whether or not present; empty: empty, mapper unused; present(v): empty when mapper(v) is null, else present(mapper(v)) (ofNullable) |
| OptionalDoubleExtension.FlatMap | src/main/java/com/github/kxbmap/lombok/extension/OptionalDoubleExtension.java:79-82 | null mapper: NPE whether or not present; empty: empty of the target kind, mapper unused; present(v): exactly mapper(v), not re-wrapped, and NPE when mapper(v) is null |
| OptionalDoubleExtension.FlatMapToInt | src/main/java/com/github/kxbmap/lombok/extension/OptionalDoubleExtension.java:87-90 | null mapper: NPE whether or not present; empty: empty of the target kind, mapper unused; present(v): exactly mapper(v), not re-wrapped, and NPE when mapper(v) is null |
| OptionalDoubleExtension.FlatMapToLong | src/main/java/com/github/kxbmap/lombok/extension/OptionalDoubleExtension.java:95-98 | null mapper: NPE whether or not present; empty: empty of the target kind, mapper unused; present(v): exactly mapper(v), not re-wrapped, and NPE when mapper(v) is null |
| OptionalDoubleExtension.FlatMapToObj | src/main/java/com/github/kxbmap/lombok/extension/OptionalDoubleExtension.java:103-106 | null mapper: NPE whether or not present; empty: empty of the target kind, mapper unused; present(v): exactly mapper(v), not re-wrapped, and NPE when mapper(v) is null |
| OptionalDoubleExtension.Fold | src/main/java/com/github/kxbmap/lombok/extension/OptionalDoubleExtension.java:114-118 | null mapper or null supplier: NPE whether or not present; present(v): mapper(v); empty: other() |
| OptionalDoubleExtension.FoldToInt | src/main/java/com/github/kxbmap/lombok/extension/OptionalDoubleExtension.java:123-127 | null mapper or null supplier: NPE whether or not present; present(v): mapper(v); empty: other() |
| OptionalDoubleExtension.FoldToLong | src/main/java/com/github/kxbmap/lombok/extension/OptionalDoubleExtension.java:132-136 | null mapper or null supplier: NPE whether or not present; present(v): mapper(v); empty: other() |
| OptionalDoubleExtension.FoldToObj | src/main/java/com/github/kxbmap/lombok/extension/OptionalDoubleExtension.java:141-145 | null mapper or null supplier: NPE whether or not present; present(v): mapper(v); empty: other() |
| OptionalExtensions.MapsAreFlatMaps | src/main/java/com/github/kxbmap/lombok/extension/OptionalExtensions.java:45-91 | each mapToX equals flatMapToX with a mapper wrapping its result in a present optional, for every mapper |
| OptionalExtensions.FoldsAreMapThenOrElseGet | src/main/java/com/github/kxbmap/lombok/extension/OptionalExtensions.java:99-130 | each fold method with a non-null supplier is a null-keeping map (not mapToObj or Optional.map) then orElseGet; with a null supplier it is NPE even when present |
| OptionalExtensions.AbsenceMethodsAgree | src/main/java/com/github/kxbmap/lombok/extension/OptionalExtensions.java:136-158 | with non-null callbacks: ifAbsent runs the runnable iff isAbsent; consume accepts the value iff not absent, else behaves as ifAbsent |
| OptionalIntExtensions.MapsAreFlatMaps | src/main/java/com/github/kxbmap/lombok/extension/OptionalIntExtensions.java:45-107 | each map method equals the flatMap method of the same target with a wrapping mapper (ofNullable for mapToObj) |
| OptionalIntExtensions.FoldsAreMapThenOrElseGet | src/main/java/com/github/kxbmap/lombok/extension/OptionalIntExtensions.java:115-146 | each fold method with a non-null supplier is a null-keeping map (not mapToObj or Optional.map) then orElseGet; with a null supplier it is NPE even when present |
| OptionalIntExtensions.AbsenceMethodsAgree | src/main/java/com/github/kxbmap/lombok/extension/OptionalIntExtensions.java:152-174 | with non-null callbacks: ifAbsent runs the runnable iff isAbsent; consume accepts the value iff not absent, else behaves as ifAbsent |
| OptionalLongExtensions.MapsAreFlatMaps | src/main/java/com/github/kxbmap/lombok/extension/OptionalLongExtensions.java:44-106 | each map method equals the flatMap method of the same target with a wrapping mapper (ofNullable for mapToObj) |
| OptionalLongExtensions.FoldsAreMapThenOrElseGet | src/main/java/com/github/kxbmap/lombok/extension/OptionalLongExtensions.java:114-145 | each fold method with a non-null supplier is a null-keeping map (not mapToObj or Optional.map) then orElseGet; with a null supplier it is NPE even when present |
| OptionalDoubleExtension.MapsAreFlatMaps | src/main/java/com/github/kxbmap/lombok/extension/OptionalDoubleExtension.java:44-106 | each map method equals the flatMap method of the same target with a wrapping mapper (ofNullable for mapToObj) |
| OptionalDoubleExtension.FoldsAreMapThenOrElseGet | src/main/java/com/github/kxbmap/lombok/extension/OptionalDoubleExtension.java:114-145 | each fold method with a non-null supplier is a null-keeping map (not mapToObj or Optional.map) then orElseGet; with a null supplier it is NPE even when present |
| OptionalExtensions.FoldKeepsNullResult | src/main/java/com/github/kxbmap/lombok/extension/OptionalExtensions.java:99-103 | when the mapper returns null on v, fold(of(v)) returns null, while Optional.map gives empty and orElseGet then calls the supplier |
| OptionalIntExtensions.FoldToObjKeepsNullResult | src/main/java/com/github/kxbmap/lombok/extension/OptionalIntExtensions.java:142-146 | when the mapper returns null on v, foldToObj returns null, while mapToObj gives empty and orElseGet then calls the supplier |
| OptionalLongExtensions.FoldToObjKeepsNullResult | src/main/java/com/github/kxbmap/lombok/extension/OptionalLongExtensions.java:141-145 | when the mapper returns null on v, foldToObj returns null, while mapToObj gives empty and orElseGet then calls the supplier |
| OptionalDoubleExtension.FoldToObjKeepsNullResult | src/main/java/com/github/kxbmap/lombok/extension/OptionalDoubleExtension.java:141-145 | when the mapper returns null on v, foldToObj returns null, while mapToObj gives empty and orElseGet then calls the supplier |

## Left out

- `FutureExtensions` (`exceptionallyFuture`, `whenComplete`, `whenCompleteAsync`): its behaviour is the JDK's asynchronous `CompletableFuture` completion and thread dispatch, which is not part of this model.
- Lombok's `@ExtensionMethod` rewriting of `opt.m(args)` into `C.m(opt, args)`: compile-time syntax only; the model calls the functions directly.
- What the caller's mappers, suppliers and callbacks compute or throw: they are arbitrary total functions here, and a `Runnable`/`Consumer` is reduced to whether it is null; the model records which callback runs and with what argument, not its side effects or its own exceptions.
- Arithmetic on `int`, `long` and `double` values (overflow, casts, floating point): no combinator computes on them, so the element types only fix the value ranges (`double` is an uninterpreted bit pattern).
- A null optional argument: every method throws NullPointerException at `opt.isPresent()`, after the mapper/supplier checks in map, flatMap and fold; optionals in the model are never null, so `IsAbsent` is total.
- Which of two null checks throws first in a fold with both arguments null: both give the same `NullPointerException`, which the model does not tell apart.
