/** "A Tale of Two Flat-Maps", exercises: `filtered`, `partitioned`, the
    `partitionMap` family on arrays, optionals and `Either`, `filterMap`,
    and the keyed versions on dictionaries.

    Swift arrays are sequences, dictionaries are maps (keys are unique, so the
    results do not depend on the order in which a dictionary is visited), and
    closures are total arrows. The exercises' Swift loops are methods whose
    postconditions tie their results to the specification functions below;
    the single-expression members are functions. */
module FilterMap {
  import opened Sums

  // ---------------------------------------------------------------------------
  // Specification functions. Each one peels off the LAST element, matching the
  // exercises' Swift loops, which append to the end of an accumulator.

  /** Swift's `map`: `t` applied to every element, positions kept. */
  function MapSeq<E, B>(xs: seq<E>, t: E -> B): seq<B>
  {
    seq(|xs|, i requires 0 <= i < |xs| => t(xs[i]))
  }

  /** The `.some` payloads of `xs`, in their original order. */
  function Somes<A>(xs: seq<Option<A>>): seq<A>
    decreases |xs|
  {
    if xs == [] then []
    else
      var init := Somes(xs[..|xs| - 1]);
      var last := xs[|xs| - 1];
      if last.Some? then init + [last.value] else init
  }

  /** The `.left` payloads of `xs`, in their original order. */
  function Lefts<A, B>(xs: seq<Either<A, B>>): seq<A>
    decreases |xs|
  {
    if xs == [] then []
    else
      var init := Lefts(xs[..|xs| - 1]);
      var last := xs[|xs| - 1];
      if last.Left? then init + [last.left] else init
  }

  /** The `.right` payloads of `xs`, in their original order. */
  function Rights<A, B>(xs: seq<Either<A, B>>): seq<B>
    decreases |xs|
  {
    if xs == [] then []
    else
      var init := Rights(xs[..|xs| - 1]);
      var last := xs[|xs| - 1];
      if last.Right? then init + [last.right] else init
  }

  /** Swift's own `Array.filter`: the elements satisfying `p`, in order. It is
      the reference that `Filter2` is measured against. */
  function Filter<E>(xs: seq<E>, p: E -> bool): seq<E>
    decreases |xs|
  {
    if xs == [] then []
    else
      var init := Filter(xs[..|xs| - 1], p);
      var last := xs[|xs| - 1];
      if p(last) then init + [last] else init
  }

  /** The optional seen as an `Either` whose right side carries no information. */
  function LeftOption<A, B>(e: Either<A, B>): Option<A>
  {
    match e
    case Left(a) => Some(a)
    case Right(_) => None
  }

  // ---------------------------------------------------------------------------
  // Facts about the specification functions.

  /** `Somes` is a homomorphism of concatenation: together with
      `Somes([Some(a)]) == [a]` and `Somes([None]) == []` this pins it down as
      "the payloads, in order". */
  lemma {:induction false} SomesAppend<A>(xs: seq<Option<A>>, ys: seq<Option<A>>)
    ensures Somes(xs + ys) == Somes(xs) + Somes(ys)
    decreases |ys|
  {
    if ys == [] {
      assert xs + ys == xs;
    } else {
      var ys' := ys[..|ys| - 1];
      assert (xs + ys)[..|xs + ys| - 1] == xs + ys';
      SomesAppend(xs, ys');
    }
  }

  /** `filtered` never grows its input, and keeps its length exactly when no
      element is `nil`. */
  lemma {:induction false} SomesLength<A>(xs: seq<Option<A>>)
    ensures |Somes(xs)| <= |xs|
    ensures |Somes(xs)| == |xs| <==> forall i :: 0 <= i < |xs| ==> xs[i].Some?
    decreases |xs|
  {
    if xs != [] {
      var init := xs[..|xs| - 1];
      SomesLength(init);
      assert forall i :: 0 <= i < |init| ==> init[i] == xs[i];
    }
  }

  /** A value is kept exactly when it occurs wrapped in `.some`. */
  lemma {:induction false} SomesMember<A>(xs: seq<Option<A>>, a: A)
    ensures a in Somes(xs) <==> Some(a) in xs
    decreases |xs|
  {
    if xs != [] {
      var init := xs[..|xs| - 1];
      SomesMember(init, a);
      assert xs == init + [xs[|xs| - 1]];
    }
  }

  /** Partitioning conserves length: every element lands on exactly one side. */
  lemma {:induction false} PartitionLength<A, B>(xs: seq<Either<A, B>>)
    ensures |Lefts(xs)| + |Rights(xs)| == |xs|
    decreases |xs|
  {
    if xs != [] {
      PartitionLength(xs[..|xs| - 1]);
    }
  }

  /** Both sides of a partition distribute over concatenation, so each side
      keeps the relative order of the input. */
  lemma {:induction false} PartitionAppend<A, B>(xs: seq<Either<A, B>>, ys: seq<Either<A, B>>)
    ensures Lefts(xs + ys) == Lefts(xs) + Lefts(ys)
    ensures Rights(xs + ys) == Rights(xs) + Rights(ys)
    decreases |ys|
  {
    if ys == [] {
      assert xs + ys == xs;
    } else {
      var ys' := ys[..|ys| - 1];
      assert (xs + ys)[..|xs + ys| - 1] == xs + ys';
      PartitionAppend(xs, ys');
    }
  }

  /** The left side holds exactly the `.left` payloads, the right side exactly
      the `.right` payloads. */
  lemma {:induction false} PartitionMember<A, B>(xs: seq<Either<A, B>>, a: A, b: B)
    ensures a in Lefts(xs) <==> Left(a) in xs
    ensures b in Rights(xs) <==> Right(b) in xs
    decreases |xs|
  {
    if xs != [] {
      var init := xs[..|xs| - 1];
      PartitionMember(init, a, b);
      assert xs == init + [xs[|xs| - 1]];
    }
  }

  /** What `partitioned` has in common with `filtered`: its left side is
      `filtered` of the input with every `.right` read as `nil`. */
  lemma {:induction false} LeftsAreSomes<A, B>(xs: seq<Either<A, B>>)
    ensures Lefts(xs) == Somes(MapSeq(xs, LeftOption))
    decreases |xs|
  {
    if xs != [] {
      var init := xs[..|xs| - 1];
      assert MapSeq(xs, LeftOption)[..|xs| - 1] == MapSeq(init, LeftOption);
      LeftsAreSomes(init);
    }
  }

  /** `Filter` distributes over concatenation, so the kept elements stay in
      their input order. */
  lemma {:induction false} FilterAppend<E>(xs: seq<E>, ys: seq<E>, p: E -> bool)
    ensures Filter(xs + ys, p) == Filter(xs, p) + Filter(ys, p)
    decreases |ys|
  {
    if ys == [] {
      assert xs + ys == xs;
    } else {
      var ys' := ys[..|ys| - 1];
      assert (xs + ys)[..|xs + ys| - 1] == xs + ys';
      FilterAppend(xs, ys', p);
    }
  }

  /** A value survives `Filter` exactly when it occurs and satisfies `p`. */
  lemma {:induction false} FilterMember<E>(xs: seq<E>, p: E -> bool, x: E)
    ensures x in Filter(xs, p) <==> x in xs && p(x)
    decreases |xs|
  {
    if xs != [] {
      var init := xs[..|xs| - 1];
      FilterMember(init, p, x);
      assert xs == init + [xs[|xs| - 1]];
    }
  }

  /** Two maps whose disjoint key sets cover a third have, together, its size. */
  lemma DisjointKeysSize<K, V, A, B>(left: map<K, A>, right: map<K, B>, m: map<K, V>)
    requires left.Keys !! right.Keys && left.Keys + right.Keys == m.Keys
    ensures |left| + |right| == |m|
  {
  }

  /** `FilterMember` at every position: each element of `Filter(xs, p)` occurs
      in `xs` and satisfies `p`, and each element of `xs` satisfying `p` is kept. */
  lemma FilterMembers<E>(xs: seq<E>, p: E -> bool)
    ensures forall i :: 0 <= i < |Filter(xs, p)| ==> Filter(xs, p)[i] in xs && p(Filter(xs, p)[i])
    ensures forall i :: 0 <= i < |xs| && p(xs[i]) ==> xs[i] in Filter(xs, p)
  {
    var kept := Filter(xs, p);
    forall i | 0 <= i < |kept| ensures kept[i] in xs && p(kept[i]) {
      FilterMember(xs, p, kept[i]);
    }
    forall i | 0 <= i < |xs| && p(xs[i]) ensures xs[i] in kept {
      FilterMember(xs, p, xs[i]);
    }
  }

  // ---------------------------------------------------------------------------
  // The exercises.

  /** `filtered`: drops the `nil`s, keeping the payloads in order. */
  method Filtered<A>(xs: seq<Option<A>>) returns (result: seq<A>)
    ensures result == Somes(xs)
    ensures |result| <= |xs|
  {
    result := [];
    for i := 0 to |xs|
      invariant result == Somes(xs[..i])
    {
      assert xs[..i + 1][..i] == xs[..i];
      match xs[i] {
        case Some(a) => result := result + [a];
        case None =>
      }
    }
    assert xs[..|xs|] == xs;
    SomesLength(xs);
  }

  /** `partitioned`: splits `xs` into its `.left` and its `.right` payloads. */
  method Partitioned<A, B>(xs: seq<Either<A, B>>) returns (left: seq<A>, right: seq<B>)
    ensures left == Lefts(xs) && right == Rights(xs)
    ensures |left| + |right| == |xs|
  {
    left, right := [], [];
    for i := 0 to |xs|
      invariant left == Lefts(xs[..i]) && right == Rights(xs[..i])
    {
      assert xs[..i + 1][..i] == xs[..i];
      match xs[i] {
        case Left(a) => left := left + [a];
        case Right(b) => right := right + [b];
      }
    }
    assert xs[..|xs|] == xs;
    PartitionLength(xs);
  }

  /** `Array.partitionMap`: `partitioned` of `xs` mapped through `transform`. */
  method ArrayPartitionMap<E, A, B>(xs: seq<E>, transform: E -> Either<A, B>)
    returns (lefts: seq<A>, rights: seq<B>)
    ensures lefts == Lefts(MapSeq(xs, transform)) && rights == Rights(MapSeq(xs, transform))
    ensures |lefts| + |rights| == |xs|
  {
    ghost var mapped := MapSeq(xs, transform);
    lefts, rights := [], [];
    for i := 0 to |xs|
      invariant lefts == Lefts(mapped[..i]) && rights == Rights(mapped[..i])
    {
      assert mapped[..i + 1][..i] == mapped[..i];
      match transform(xs[i]) {
        case Left(a) => lefts := lefts + [a];
        case Right(b) => rights := rights + [b];
      }
    }
    assert mapped[..|xs|] == mapped;
    PartitionLength(mapped);
  }

  /** `Optional.partitionMap`, which is the optional's flat-map: `nil` stays
      `nil`, `.some(w)` becomes `transform(w)`. */
  function OptionalPartitionMap<W, A>(o: Option<W>, transform: W -> Option<A>): Option<A>
  {
    match o
    case Some(w) => transform(w)
    case None => None
  }

  /** An optional behaves as an array of at most one element: its
      `partitionMap` agrees with `Array.filterMap` on that array, and is `nil`
      on `nil`. */
  lemma OptionalPartitionMapIsFilterMap<W, A>(o: Option<W>, transform: W -> Option<A>)
    ensures AsSeq(OptionalPartitionMap(o, transform)) == Somes(MapSeq(AsSeq(o), transform))
    ensures o.None? ==> OptionalPartitionMap(o, transform) == None
    ensures o.Some? ==> OptionalPartitionMap(o, transform) == transform(o.value)
  {
  }

  /** `Array.filterMap`: `filtered` of `xs` mapped through `transform`. */
  method ArrayFilterMap<E, B>(xs: seq<E>, transform: E -> Option<B>) returns (result: seq<B>)
    ensures result == Somes(MapSeq(xs, transform))
    ensures |result| <= |xs|
  {
    ghost var mapped := MapSeq(xs, transform);
    result := [];
    for i := 0 to |xs|
      invariant result == Somes(mapped[..i])
    {
      assert mapped[..i + 1][..i] == mapped[..i];
      match transform(xs[i]) {
        case Some(b) => result := result + [b];
        case None =>
      }
    }
    assert mapped[..|xs|] == mapped;
    SomesLength(mapped);
  }

  /** `Dictionary.filterMapValues`, a `reduce(into:)` that assigns
      `transform(value)` under each key; assigning `nil` leaves the key out. */
  method DictionaryFilterMapValues<K, V, B>(m: map<K, V>, transform: V -> Option<B>)
    returns (result: map<K, B>)
    ensures forall k :: k in result <==> k in m && transform(m[k]).Some?
    ensures forall k :: k in result ==> k in m && Some(result[k]) == transform(m[k])
    ensures |result| <= |m|
  {
    result := map[];
    var pending := m.Keys;
    while pending != {}
      invariant pending <= m.Keys
      invariant forall k :: k in result <==> k in m && k !in pending && transform(m[k]).Some?
      invariant forall k :: k in result ==> k in m && Some(result[k]) == transform(m[k])
      decreases pending
    {
      var key :| key in pending;
      match transform(m[key]) {
        case Some(b) => result := result[key := b];
        case None => result := result - {key};
      }
      pending := pending - {key};
    }
    assert m.Keys == result.Keys + (m.Keys - result.Keys);
  }

  /** `Dictionary.partitionMapValues`: every key goes to exactly one side,
      carrying the payload of `transform` applied to its value. */
  method DictionaryPartitionMapValues<K, V, A, B>(m: map<K, V>, transform: V -> Either<A, B>)
    returns (left: map<K, A>, right: map<K, B>)
    ensures forall k :: k in left <==> k in m && transform(m[k]).Left?
    ensures forall k :: k in right <==> k in m && transform(m[k]).Right?
    ensures forall k :: k in left ==> k in m && transform(m[k]) == Left(left[k])
    ensures forall k :: k in right ==> k in m && transform(m[k]) == Right(right[k])
    ensures left.Keys !! right.Keys
    ensures left.Keys + right.Keys == m.Keys
    ensures |left| + |right| == |m|
  {
    left, right := map[], map[];
    var pending := m.Keys;
    while pending != {}
      invariant pending <= m.Keys
      invariant forall k :: k in left <==> k in m && k !in pending && transform(m[k]).Left?
      invariant forall k :: k in right <==> k in m && k !in pending && transform(m[k]).Right?
      invariant forall k :: k in left ==> k in m && transform(m[k]) == Left(left[k])
      invariant forall k :: k in right ==> k in m && transform(m[k]) == Right(right[k])
      decreases pending
    {
      var key :| key in pending;
      match transform(m[key]) {
        case Left(a) => left := left[key := a];
        case Right(b) => right := right[key := b];
      }
      pending := pending - {key};
    }
    assert left.Keys + right.Keys == m.Keys;
    DisjointKeysSize(left, right, m);
  }

  /** The transform of `filterMap2`, routing a result to the left and `nil`
      to the right. */
  function Tagged<E, B>(transform: E -> Option<B>): E -> Either<B, ()>
  {
    x => match transform(x)
         case Some(l) => Left(l)
         case None => Right(())
  }

  /** The transform of `filter2`, routing the elements that satisfy `p` to the
      left. */
  function Classified<E>(p: E -> bool): E -> Either<E, E>
  {
    x => if p(x) then Left(x) else Right(x)
  }

  /** The left side of the `partitionMap` of `Tagged` is `filterMap`. */
  lemma {:induction false} TaggedLeftsAreFilterMap<E, B>(xs: seq<E>, transform: E -> Option<B>)
    ensures Lefts(MapSeq(xs, Tagged(transform))) == Somes(MapSeq(xs, transform))
    decreases |xs|
  {
    if xs != [] {
      var init := xs[..|xs| - 1];
      assert MapSeq(xs, Tagged(transform))[..|xs| - 1] == MapSeq(init, Tagged(transform));
      assert MapSeq(xs, transform)[..|xs| - 1] == MapSeq(init, transform);
      TaggedLeftsAreFilterMap(init, transform);
    }
  }

  /** The left side of the `partitionMap` of `Classified` is `filter`. */
  lemma {:induction false} ClassifiedLeftsAreFilter<E>(xs: seq<E>, p: E -> bool)
    ensures Lefts(MapSeq(xs, Classified(p))) == Filter(xs, p)
    decreases |xs|
  {
    if xs != [] {
      var init := xs[..|xs| - 1];
      assert MapSeq(xs, Classified(p))[..|xs| - 1] == MapSeq(init, Classified(p));
      ClassifiedLeftsAreFilter(init, p);
    }
  }

  /** `filterMap2`, `filterMap` rewritten through `partitionMap`: returns the
      same sequence as `Array.filterMap`. */
  function FilterMap2<E, B>(xs: seq<E>, transform: E -> Option<B>): (r: seq<B>)
    ensures r == Somes(MapSeq(xs, transform))
  {
    TaggedLeftsAreFilterMap(xs, transform);
    Lefts(MapSeq(xs, Tagged(transform)))
  }

  /** `filter2`, `filter` rewritten through `partitionMap`: the elements that
      satisfy `p`, in order. */
  function Filter2<E>(xs: seq<E>, p: E -> bool): (r: seq<E>)
    ensures r == Filter(xs, p)
    ensures forall i :: 0 <= i < |r| ==> r[i] in xs && p(r[i])
    ensures forall i :: 0 <= i < |xs| && p(xs[i]) ==> xs[i] in r
  {
    ClassifiedLeftsAreFilter(xs, p);
    FilterMembers(xs, p);
    Lefts(MapSeq(xs, Classified(p)))
  }

  /** `Either.partitionMap`: a single value gives exactly one element in
      total, on the side `transform` picks. */
  method EitherPartitionMap<A, B, C, D>(e: Either<A, B>, transform: Either<A, B> -> Either<C, D>)
    returns (lefts: seq<C>, rights: seq<D>)
    ensures lefts == Lefts([transform(e)]) && rights == Rights([transform(e)])
    ensures |lefts| + |rights| == 1
    ensures transform(e).Left? ==> lefts == [transform(e).left]
    ensures transform(e).Right? ==> rights == [transform(e).right]
  {
    lefts, rights := [], [];
    match transform(e) {
      case Left(c) => lefts := lefts + [c];
      case Right(d) => rights := rights + [d];
    }
    assert [transform(e)][..0] == [];
  }

  // ---------------------------------------------------------------------------
  // The examples that accompany the exercises, checked against the contracts
  // above alone.

  method FilteredExample() {
    var r := Filtered([Some(1), Some(2), Some(3), None]);
    assert [Some(1), Some(2), Some(3), None] == [Some(1)] + [Some(2)] + [Some(3)] + [None];
    SomesAppend([Some(1)] + [Some(2)] + [Some(3)], [None]);
    SomesAppend([Some(1)] + [Some(2)], [Some(3)]);
    SomesAppend([Some(1)], [Some(2)]);
    assert r == [1, 2, 3];
  }

  method PartitionedExample() {
    var a: seq<Either<int, bool>> := [Left(1)];
    var b: seq<Either<int, bool>> := [Left(2)];
    var c: seq<Either<int, bool>> := [Right(true)];
    var l, r := Partitioned([Left(1), Left(2), Right(true)]);
    assert [Left(1), Left(2), Right(true)] == a + b + c;
    PartitionAppend(a + b, c);
    PartitionAppend(a, b);
    assert l == [1, 2] && r == [true];
  }

  method Filter2Example() {
    var even := (x: int) => x % 2 == 0;
    var xs := [1, 2, 3, 4];
    var r := Filter2(xs, even);
    assert xs[..3] == [1, 2, 3] && [1, 2, 3][..2] == [1, 2] && [1, 2][..1] == [1] && [1][..0] == [];
    assert Filter([1, 2], even) == [2];
    assert r == [2, 4];
  }

  /** The transform of the `partitionMapValues` example: even values go left. */
  function EvenLeft(v: int): Either<int, int>
  {
    if v % 2 == 0 then Left(v) else Right(v)
  }

  method PartitionMapValuesExample() {
    var m := map[1 := 2, 2 := 3, 3 := 4];
    var l, r := DictionaryPartitionMapValues(m, EvenLeft);
    assert m[1] == 2 && m[2] == 3 && m[3] == 4;
    assert 1 in l && EvenLeft(m[1]) == Left(l[1]);
    assert 3 in l && EvenLeft(m[3]) == Left(l[3]);
    assert 2 in r && EvenLeft(m[2]) == Right(r[2]);
    assert l[1] == 2 && l[3] == 4 && r[2] == 3;
  }

  method ArrayPartitionMapExample() {
    var xs: seq<Either<int, string>> := [Left(1), Right("x"), Left(2), Right("y")];
    var doubled := (e: Either<int, string>) =>
      match e
      case Left(l) => Left(l + l)
      case Right(r) => Right(r + r);
    var lefts, rights := ArrayPartitionMap(xs, doubled);
    var a: seq<Either<int, string>> := [Left(2), Right("xx")];
    var b: seq<Either<int, string>> := [Left(4), Right("yy")];
    assert "x" + "x" == "xx" && "y" + "y" == "yy";
    assert doubled(xs[1]) == Right("xx") && doubled(xs[3]) == Right("yy");
    assert MapSeq(xs, doubled) == a + b;
    PartitionAppend(a, b);
    assert lefts == [2, 4] && rights == ["xx", "yy"];
  }
}
