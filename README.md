# Flat-maps and exponents, modelled in Dafny

A model of two sets of functional-programming exercises written in Swift.

- **A Tale of Two Flat-Maps** (`FilterMap`, file `filter_map.dfy`): `filtered` drops the
  `nil`s from an array of optionals; `partitioned` splits an array of `Either` values into
  lefts and rights; `partitionMap` and `filterMap` on arrays do the same after a transform;
  `filterMapValues` and `partitionMapValues` are the keyed versions on dictionaries;
  `filterMap2` and `filter2` rebuild `filterMap` and `filter` from `partitionMap`;
  `partitionMap` on `Optional` and on `Either` are the single-value versions.
  Where the Swift code builds its result in local arrays or dictionaries, the model has a
  method: `Filtered`, `Partitioned`, `ArrayPartitionMap` and `ArrayFilterMap` are loops whose
  invariants and postconditions tie the results to the reference functions `Somes`, `Lefts`
  and `Rights`; `EitherPartitionMap` is a single `match` that appends to one of two local
  sequences, tied to `Lefts` and `Rights` of a one-element sequence. The two dictionary
  methods (`for` loop for `partitionMapValues`, `reduce(into:)` for `filterMapValues`) are
  loops whose postconditions state the key sets and values outright. The single-expression
  members are functions: `FilterMap2` is tied to `Somes`, and `Filter2` to the reference
  `Filter` (Swift's own `filter`). The properties of the reference functions (order, length,
  membership) are lemmas.
- **Algebraic Data Types: Exponents** (`Exponentials`, file `exponentials.dfy`): sets as
  predicates `A -> Bool` with `union`, `intersection` and `unionPlusIntersection`;
  dictionaries as `K -> V?` with a left-biased `union`; and the two isomorphisms
  `(Either<B, C>) -> A ≅ ((B) -> A, (C) -> A)` and `(C) -> (A, B) ≅ ((C) -> A, (C) -> B)`.
  These are pure functions returning closures; their laws are lemmas stated pointwise.
  Predicates are related to Dafny's `iset` and dictionaries to Dafny's `map`.

The shared sum types (`Optional` as `Option`, and `Either`) are in `sums.dfy`.
Swift arrays are sequences, dictionaries are maps, and closures are total arrows.

Exercise 3 (0010-a-tale-of-two-flat-maps/FilterMap.playground/Pages/02-Exercises.xcplaygroundpage/Contents.swift:47-48) asks for `partitionMap` on `Optional`; the code at
0010-a-tale-of-two-flat-maps/FilterMap.playground/Pages/02-Exercises.xcplaygroundpage/Contents.swift:68-75 is the optional's flat-map: `nil` gives `nil`, and `.some(w)` gives `transform(w)`.
The model follows the code.

## Model

| member | source | states |
|---|---|---|
| FilterMap.Filtered | 0010-a-tale-of-two-flat-maps/FilterMap.playground/Pages/02-Exercises.xcplaygroundpage/Contents.swift:7-18 | the result is exactly the `.some` payloads of the input in their original order (`Somes`), and is no longer than the input |
| FilterMap.SomesAppend | 0010-a-tale-of-two-flat-maps/FilterMap.playground/Pages/02-Exercises.xcplaygroundpage/Contents.swift:7-20 | `filtered` distributes over concatenation, so it keeps the relative order of the payloads |
| FilterMap.SomesLength | 0010-a-tale-of-two-flat-maps/FilterMap.playground/Pages/02-Exercises.xcplaygroundpage/Contents.swift:7-20 | `filtered` never lengthens its input, and keeps its length exactly when no element is `nil` |
| FilterMap.SomesMember | 0010-a-tale-of-two-flat-maps/FilterMap.playground/Pages/02-Exercises.xcplaygroundpage/Contents.swift:7-20 | a value is in the result iff it occurs in the input wrapped in `.some` |
| FilterMap.Partitioned | 0010-a-tale-of-two-flat-maps/FilterMap.playground/Pages/02-Exercises.xcplaygroundpage/Contents.swift:31-43 | the two results are exactly the `.left` and the `.right` payloads in input order, and their lengths add up to the input's |
| FilterMap.PartitionLength | 0010-a-tale-of-two-flat-maps/FilterMap.playground/Pages/02-Exercises.xcplaygroundpage/Contents.swift:31-45 | every element lands on exactly one side, so the lengths of the two sides add up to the input's |
| FilterMap.PartitionAppend | 0010-a-tale-of-two-flat-maps/FilterMap.playground/Pages/02-Exercises.xcplaygroundpage/Contents.swift:31-45 | each side distributes over concatenation, so each side keeps the relative input order |
| FilterMap.PartitionMember | 0010-a-tale-of-two-flat-maps/FilterMap.playground/Pages/02-Exercises.xcplaygroundpage/Contents.swift:31-45 | `a` is on the left iff `.left(a)` occurs in the input; `b` is on the right iff `.right(b)` occurs |
| FilterMap.LeftsAreSomes | 0010-a-tale-of-two-flat-maps/FilterMap.playground/Pages/02-Exercises.xcplaygroundpage/Contents.swift:22-43 | what `partitioned` shares with `filtered`: its left side is `filtered` of the input with every `.right` read as `nil` |
| FilterMap.ArrayPartitionMap | 0010-a-tale-of-two-flat-maps/FilterMap.playground/Pages/02-Exercises.xcplaygroundpage/Contents.swift:52-63 | `partitionMap(t)` is `partitioned` of the input mapped through `t`; the two lengths add up to the input's |
| FilterMap.OptionalPartitionMap | 0010-a-tale-of-two-flat-maps/FilterMap.playground/Pages/02-Exercises.xcplaygroundpage/Contents.swift:68-75 | the optional's flat-map; no contract of its own, its behaviour is stated by `OptionalPartitionMapIsFilterMap` |
| FilterMap.OptionalPartitionMapIsFilterMap | 0010-a-tale-of-two-flat-maps/FilterMap.playground/Pages/02-Exercises.xcplaygroundpage/Contents.swift:68-75 | `nil` gives `nil`, `.some(w)` gives `t(w)`; an optional behaves as a zero-or-one-element array under `filterMap` |
| FilterMap.ArrayFilterMap | 0010-a-tale-of-two-flat-maps/FilterMap.playground/Pages/02-Exercises.xcplaygroundpage/Contents.swift:83-94 | `filterMap(t)` is `filtered` of the input mapped through `t`, in order, and no longer than the input |
| FilterMap.DictionaryFilterMapValues | 0010-a-tale-of-two-flat-maps/FilterMap.playground/Pages/02-Exercises.xcplaygroundpage/Contents.swift:99-103 | key `k` is present iff it is in the input and `t(input[k])` is non-nil, and then holds that value; the result has no more keys than the input |
| FilterMap.DictionaryPartitionMapValues | 0010-a-tale-of-two-flat-maps/FilterMap.playground/Pages/02-Exercises.xcplaygroundpage/Contents.swift:115-127 | key `k` is on the left iff `t(input[k])` is `.left` and on the right iff it is `.right`, with that payload; the key sets are disjoint, cover the input's, and the sizes add up |
| FilterMap.Tagged | 0010-a-tale-of-two-flat-maps/FilterMap.playground/Pages/02-Exercises.xcplaygroundpage/Contents.swift:140-147 | the closure passed to `partitionMap` in `filterMap2`; no contract of its own, its effect is stated by `TaggedLeftsAreFilterMap` |
| FilterMap.TaggedLeftsAreFilterMap | 0010-a-tale-of-two-flat-maps/FilterMap.playground/Pages/02-Exercises.xcplaygroundpage/Contents.swift:139-148 | the left side of `partitionMap` with "value to the left, `nil` to the right" is `filterMap` |
| FilterMap.FilterMap2 | 0010-a-tale-of-two-flat-maps/FilterMap.playground/Pages/02-Exercises.xcplaygroundpage/Contents.swift:139-148 | `filterMap2(t)` returns the same sequence as `filterMap(t)` |
| FilterMap.Classified | 0010-a-tale-of-two-flat-maps/FilterMap.playground/Pages/02-Exercises.xcplaygroundpage/Contents.swift:151 | the closure passed to `partitionMap` in `filter2`; no contract of its own, its effect is stated by `ClassifiedLeftsAreFilter` |
| FilterMap.ClassifiedLeftsAreFilter | 0010-a-tale-of-two-flat-maps/FilterMap.playground/Pages/02-Exercises.xcplaygroundpage/Contents.swift:150-152 | the left side of `partitionMap` with "satisfies `p` to the left" is `filter(p)` |
| FilterMap.Filter2 | 0010-a-tale-of-two-flat-maps/FilterMap.playground/Pages/02-Exercises.xcplaygroundpage/Contents.swift:150-152 | `filter2(p)` equals `filter(p)`: every element it returns is in the input and satisfies `p`, and every input element satisfying `p` is returned |
| FilterMap.FilterAppend | 0010-a-tale-of-two-flat-maps/FilterMap.playground/Pages/02-Exercises.xcplaygroundpage/Contents.swift:150-156 | `filter(p)` distributes over concatenation, so `filter2` keeps the relative order of the elements it keeps |
| FilterMap.FilterMember | 0010-a-tale-of-two-flat-maps/FilterMap.playground/Pages/02-Exercises.xcplaygroundpage/Contents.swift:150-156 | a value is kept by `filter(p)` iff it occurs in the input and satisfies `p` |
| FilterMap.FilterMembers | 0010-a-tale-of-two-flat-maps/FilterMap.playground/Pages/02-Exercises.xcplaygroundpage/Contents.swift:150-156 | every element `filter(p)` returns occurs in the input and satisfies `p`, and every input element satisfying `p` is returned |
| FilterMap.EitherPartitionMap | 0010-a-tale-of-two-flat-maps/FilterMap.playground/Pages/02-Exercises.xcplaygroundpage/Contents.swift:164-174 | a single `Either` gives exactly one element in total, on the side `transform` picks; it agrees with the array `partitionMap` on a one-element array |
| Exponentials.SetsArePredicates | 0009-algebraic-data-types-pt-2/Exponentials.playground/Pages/02-Exercises.xcplaygroundpage/Contents.swift:76 | `Set<A> = 2^A`: the characteristic function of a set and the set of a predicate are inverse to each other |
| Exponentials.Union | 0009-algebraic-data-types-pt-2/Exponentials.playground/Pages/02-Exercises.xcplaygroundpage/Contents.swift:78-80 | predicate `union`; no contract of its own, its law is stated by `UnionIsSetUnion` |
| Exponentials.UnionIsSetUnion | 0009-algebraic-data-types-pt-2/Exponentials.playground/Pages/02-Exercises.xcplaygroundpage/Contents.swift:78-80 | `union((f, g))(a)` is `f(a) or g(a)` for every `a`, so it characterises the union of the two sets |
| Exponentials.Intersection | 0009-algebraic-data-types-pt-2/Exponentials.playground/Pages/02-Exercises.xcplaygroundpage/Contents.swift:82-84 | predicate `intersection`; no contract of its own, its law is stated by `IntersectionIsSetIntersection` |
| Exponentials.IntersectionIsSetIntersection | 0009-algebraic-data-types-pt-2/Exponentials.playground/Pages/02-Exercises.xcplaygroundpage/Contents.swift:82-84 | `intersection((f, g))(a) == f(a) && g(a)` for every `a`, so it characterises the intersection of the two sets |
| Exponentials.UnionPlusIntersection | 0009-algebraic-data-types-pt-2/Exponentials.playground/Pages/02-Exercises.xcplaygroundpage/Contents.swift:91-93 | `unionPlusIntersection`; no contract of its own, its law is stated by `UnionPlusIntersectionComponents` |
| Exponentials.UnionPlusIntersectionComponents | 0009-algebraic-data-types-pt-2/Exponentials.playground/Pages/02-Exercises.xcplaygroundpage/Contents.swift:91-93 | the two components of `unionPlusIntersection` agree pointwise with `union` and `intersection` |
| Exponentials.Absorption | 0009-algebraic-data-types-pt-2/Exponentials.playground/Pages/02-Exercises.xcplaygroundpage/Contents.swift:78-84 | `union` and `intersection` absorb each other, as set union and intersection do |
| Exponentials.UnionDictionaries | 0009-algebraic-data-types-pt-2/Exponentials.playground/Pages/02-Exercises.xcplaygroundpage/Contents.swift:105-107 | dictionary `union`; no contract of its own, its laws are stated by the three lemmas below |
| Exponentials.UnionDictionariesLeftBiased | 0009-algebraic-data-types-pt-2/Exponentials.playground/Pages/02-Exercises.xcplaygroundpage/Contents.swift:105-107 | dictionary `union` returns `f(k)` when it is non-nil and `g(k)` otherwise; it is `nil` only where both are |
| Exponentials.UnionDictionariesIsMapUnion | 0009-algebraic-data-types-pt-2/Exponentials.playground/Pages/02-Exercises.xcplaygroundpage/Contents.swift:103-107 | on finite dictionaries `union` is map union in which the first dictionary takes precedence |
| Exponentials.UnionDictionariesMonoid | 0009-algebraic-data-types-pt-2/Exponentials.playground/Pages/02-Exercises.xcplaygroundpage/Contents.swift:105-107 | the empty dictionary is a unit on both sides of `union`, and `union` is associative |
| Exponentials.SplitSumDomain | 0009-algebraic-data-types-pt-2/Exponentials.playground/Pages/02-Exercises.xcplaygroundpage/Contents.swift:118-120 | `to` for `(Either<B, C>) -> A`; no contract of its own, the round trips are stated by the two lemmas below |
| Exponentials.JoinSumDomain | 0009-algebraic-data-types-pt-2/Exponentials.playground/Pages/02-Exercises.xcplaygroundpage/Contents.swift:122-129 | `from` for `(Either<B, C>) -> A`; no contract of its own, the round trips are stated by the two lemmas below |
| Exponentials.SumDomainJoinSplit | 0009-algebraic-data-types-pt-2/Exponentials.playground/Pages/02-Exercises.xcplaygroundpage/Contents.swift:118-129 | `from(to(f))(e) == f(e)` for every `Either` value `e` |
| Exponentials.SumDomainSplitJoin | 0009-algebraic-data-types-pt-2/Exponentials.playground/Pages/02-Exercises.xcplaygroundpage/Contents.swift:118-129 | the components of `to(from((g, h)))` are pointwise equal to `g` and `h` |
| Exponentials.SplitProductCodomain | 0009-algebraic-data-types-pt-2/Exponentials.playground/Pages/02-Exercises.xcplaygroundpage/Contents.swift:135-137 | `to` for `(C) -> (A, B)`; no contract of its own, the round trips are stated by the two lemmas below |
| Exponentials.JoinProductCodomain | 0009-algebraic-data-types-pt-2/Exponentials.playground/Pages/02-Exercises.xcplaygroundpage/Contents.swift:139-141 | `from` for `(C) -> (A, B)`; no contract of its own, the round trips are stated by the two lemmas below |
| Exponentials.ProductCodomainJoinSplit | 0009-algebraic-data-types-pt-2/Exponentials.playground/Pages/02-Exercises.xcplaygroundpage/Contents.swift:135-141 | `from(to(f))(c) == f(c)` for every `c` |
| Exponentials.ProductCodomainSplitJoin | 0009-algebraic-data-types-pt-2/Exponentials.playground/Pages/02-Exercises.xcplaygroundpage/Contents.swift:135-141 | the components of `to(from((g, h)))` are pointwise equal to `g` and `h` |

The client methods at the end of `filter_map.dfy` replay the examples that accompany the
exercises (`[1, 2, 3, nil]`, `[.left(1), .left(2), .right(true)]`, `filter2` on
`[1, 2, 3, 4]`, `partitionMapValues` on `[1: 2, 2: 3, 3: 4]`, and the doubling
`partitionMap` over `[.left(1), .right("x"), .left(2), .right("y")]`) against the
contracts alone.

## Left out

- The `Never`-typed `to`/`from` pairs (0009-algebraic-data-types-pt-2/Exponentials.playground/Pages/02-Exercises.xcplaygroundpage/Contents.swift:33-60) and the dictionary `get` stub (0009-algebraic-data-types-pt-2/Exponentials.playground/Pages/02-Exercises.xcplaygroundpage/Contents.swift:99-101): they only call `fatalError()` or switch over an uninhabited type, so there is no behaviour to state.
- The `Initable` protocol and its `to`/`from` pair (0009-algebraic-data-types-pt-2/Exponentials.playground/Pages/02-Exercises.xcplaygroundpage/Contents.swift:12-22): it rests on a protocol initialiser `A()` and a `Void`-returning closure, with nothing to state.
- The comment-only algebra notes (0009-algebraic-data-types-pt-2/Exponentials.playground/Pages/02-Exercises.xcplaygroundpage/Contents.swift:7-10, 66-70, 86-89, 109-112).
- The `filterMapValues(Int.init)` example (0010-a-tale-of-two-flat-maps/FilterMap.playground/Pages/02-Exercises.xcplaygroundpage/Contents.swift:106-107): Swift's string-to-integer parsing is not modelled.
- Swift dictionary iteration order: the dictionary methods visit the keys in an arbitrary order, and their postconditions show that the result does not depend on it.
- Equality of closures: Dafny has no extensionality for function values, so the isomorphisms and the laws on predicates and dictionaries are stated pointwise, for every argument.
- Side effects in closures: transforms and predicates are modelled as total, pure arrows.
- `Either` as used in 0009-algebraic-data-types-pt-2/Exponentials.playground/Pages/02-Exercises.xcplaygroundpage/Contents.swift:118-141 is not declared in that file; the model uses the declaration at 0010-a-tale-of-two-flat-maps/FilterMap.playground/Pages/02-Exercises.xcplaygroundpage/Contents.swift:26-29.
- The functional setters, getters and key paths of the other exercises in the repository (episodes 0006 to 0008) are not part of this model.
