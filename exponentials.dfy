/** "Algebraic Data Types: Exponents", exercises: sets as `A -> Bool` (2^A),
    dictionaries as `K -> V?` ((V + 1)^K), and the two exponent laws
    A^(B + C) = A^B * A^C and (A * B)^C = A^C * B^C as pairs of functions.

    Everything here is a pure function returning closures; the properties are
    stated pointwise, for every argument of the closures. */
module Exponentials {
  import opened Sums

  // ---------------------------------------------------------------------------
  // Sets as predicates.

  /** `union`: a member of either set. */
  function Union<A>(f: (A -> bool, A -> bool)): A -> bool
  {
    a => f.0(a) || f.1(a)
  }

  /** `intersection`: a member of both sets. */
  function Intersection<A>(f: (A -> bool, A -> bool)): A -> bool
  {
    a => f.0(a) && f.1(a)
  }

  /** `unionPlusIntersection`: both results at once, as a pair. */
  function UnionPlusIntersection<A>(f: (A -> bool, A -> bool)): (A -> bool, A -> bool)
  {
    (a => f.0(a) || f.1(a), a => f.0(a) && f.1(a))
  }

  /** The characteristic function of a set. */
  function Member<A>(s: iset<A>): A -> bool
  {
    a => a in s
  }

  /** The set a predicate characterises. */
  ghost function Extension<A(!new)>(p: A -> bool): iset<A>
  {
    iset a | p(a)
  }

  /** Set<A> = 2^A: `Member` and `Extension` are inverse to each other. */
  lemma SetsArePredicates<A(!new)>(s: iset<A>, p: A -> bool)
    ensures Extension(Member(s)) == s
    ensures forall a :: Member(Extension(p))(a) == p(a)
  {
  }

  /** `union` holds exactly where one of the predicates does, and so is the
      union of the sets they characterise. */
  lemma UnionIsSetUnion<A(!new)>(f: (A -> bool, A -> bool))
    ensures forall a :: Union(f)(a) == (f.0(a) || f.1(a))
    ensures Extension(Union(f)) == Extension(f.0) + Extension(f.1)
  {
  }

  /** `intersection` holds exactly where both predicates do, and so is the
      intersection of the sets they characterise. */
  lemma IntersectionIsSetIntersection<A(!new)>(f: (A -> bool, A -> bool))
    ensures forall a :: Intersection(f)(a) == (f.0(a) && f.1(a))
    ensures Extension(Intersection(f)) == Extension(f.0) * Extension(f.1)
  {
  }

  /** The components of `unionPlusIntersection` agree with `union` and
      `intersection`. */
  lemma UnionPlusIntersectionComponents<A>(f: (A -> bool, A -> bool))
    ensures forall a :: UnionPlusIntersection(f).0(a) == Union(f)(a)
    ensures forall a :: UnionPlusIntersection(f).1(a) == Intersection(f)(a)
  {
  }

  /** The two operations absorb each other, as union and intersection of sets
      do. */
  lemma Absorption<A>(f: A -> bool, g: A -> bool)
    ensures forall a :: Union((f, Intersection((f, g))))(a) == f(a)
    ensures forall a :: Intersection((f, Union((f, g))))(a) == f(a)
  {
  }

  // ---------------------------------------------------------------------------
  // Dictionaries as functions to optionals.

  /** `union` of dictionaries, `f.0(k) ?? f.1(k)`: the first dictionary wins
      where it has a value. */
  function UnionDictionaries<K, V>(f: (K -> Option<V>, K -> Option<V>)): K -> Option<V>
  {
    k => if f.0(k).Some? then f.0(k) else f.1(k)
  }

  /** The lookup function of a finite dictionary. */
  function Lookup<K, V>(m: map<K, V>): K -> Option<V>
  {
    k => if k in m then Some(m[k]) else None
  }

  /** The dictionary with no keys. */
  function EmptyDictionary<K, V>(): K -> Option<V>
  {
    _ => None
  }

  /** `union` is left-biased: it gives the first dictionary's value when there
      is one and otherwise the second's. */
  lemma UnionDictionariesLeftBiased<K, V>(f: (K -> Option<V>, K -> Option<V>), k: K)
    ensures f.0(k).Some? ==> UnionDictionaries(f)(k) == f.0(k)
    ensures f.0(k).None? ==> UnionDictionaries(f)(k) == f.1(k)
    ensures UnionDictionaries(f)(k).None? <==> f.0(k).None? && f.1(k).None?
  {
  }

  /** On finite dictionaries `union` is map union with the first dictionary
      taking precedence (Dafny's `+` lets its right operand win). */
  lemma UnionDictionariesIsMapUnion<K, V>(m0: map<K, V>, m1: map<K, V>, k: K)
    ensures UnionDictionaries((Lookup(m0), Lookup(m1)))(k) == Lookup(m1 + m0)(k)
  {
  }

  /** Dictionaries form a monoid under `union`: the empty dictionary is a unit
      on both sides and the operation is associative. */
  lemma UnionDictionariesMonoid<K, V>(f: K -> Option<V>, g: K -> Option<V>, h: K -> Option<V>, k: K)
    ensures UnionDictionaries((EmptyDictionary(), f))(k) == f(k)
    ensures UnionDictionaries((f, EmptyDictionary()))(k) == f(k)
    ensures UnionDictionaries((UnionDictionaries((f, g)), h))(k)
         == UnionDictionaries((f, UnionDictionaries((g, h))))(k)
  {
  }

  // ---------------------------------------------------------------------------
  // A^(B + C) = A^B * A^C.

  /** `to`: a function out of a sum splits into one function per case. */
  function SplitSumDomain<A, B, C>(f: Either<B, C> -> A): (B -> A, C -> A)
  {
    (b => f(Left(b)), c => f(Right(c)))
  }

  /** `from`: one function per case joins into a function out of the sum. */
  function JoinSumDomain<A, B, C>(f: (B -> A, C -> A)): Either<B, C> -> A
  {
    (bc: Either<B, C>) => match bc
          case Left(b) => f.0(b)
          case Right(c) => f.1(c)
  }

  /** `from(to(f))` is `f` at every argument. */
  lemma SumDomainJoinSplit<A, B, C>(f: Either<B, C> -> A)
    ensures forall e :: JoinSumDomain(SplitSumDomain(f))(e) == f(e)
  {
  }

  /** `to(from((g, h)))` is `(g, h)` at every argument. */
  lemma SumDomainSplitJoin<A, B, C>(g: B -> A, h: C -> A)
    ensures forall b :: SplitSumDomain(JoinSumDomain((g, h))).0(b) == g(b)
    ensures forall c :: SplitSumDomain(JoinSumDomain((g, h))).1(c) == h(c)
  {
  }

  // ---------------------------------------------------------------------------
  // (A * B)^C = A^C * B^C.

  /** `to`: a function into a pair splits into one function per component. */
  function SplitProductCodomain<A, B, C>(f: C -> (A, B)): (C -> A, C -> B)
  {
    (c => f(c).0, c => f(c).1)
  }

  /** `from`: one function per component joins into a function into the pair. */
  function JoinProductCodomain<A, B, C>(f: (C -> A, C -> B)): C -> (A, B)
  {
    c => (f.0(c), f.1(c))
  }

  /** `from(to(f))` is `f` at every argument. */
  lemma ProductCodomainJoinSplit<A, B, C>(f: C -> (A, B))
    ensures forall c :: JoinProductCodomain(SplitProductCodomain(f))(c) == f(c)
  {
  }

  /** `to(from((g, h)))` is `(g, h)` at every argument. */
  lemma ProductCodomainSplitJoin<A, B, C>(g: C -> A, h: C -> B)
    ensures forall c :: SplitProductCodomain(JoinProductCodomain((g, h))).0(c) == g(c)
    ensures forall c :: SplitProductCodomain(JoinProductCodomain((g, h))).1(c) == h(c)
  {
  }
}
