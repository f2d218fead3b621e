/** Finite-set counting facts used by the mesher coverage proofs: images under
    injective maps, and the number of cells in a rectangle. */
module SetCounting {

  /** The image of a set under a function. */
  function Image<A, B>(s: set<A>, f: A -> B): (r: set<B>)
    ensures forall a :: a in s ==> f(a) in r
  {
    set a | a in s :: f(a)
  }

  ghost predicate InjectiveOn<A, B>(s: set<A>, f: A -> B) {
    forall a1, a2 :: a1 in s && a2 in s && f(a1) == f(a2) ==> a1 == a2
  }

  /** Two disjoint sets have as many elements together as apart. */
  lemma DisjointUnionCardinality<A>(a: set<A>, b: set<A>)
    requires a !! b
    ensures |a + b| == |a| + |b|
  {
  }

  /** An injective map preserves cardinality. */
  lemma {:induction false} ImageCardinality<A, B>(s: set<A>, f: A -> B)
    requires InjectiveOn(s, f)
    ensures |Image(s, f)| == |s|
  {
    if s != {} {
      var a :| a in s;
      var rest := s - {a};
      assert InjectiveOn(rest, f);
      ImageCardinality(rest, f);
      assert Image(s, f) == Image(rest, f) + {f(a)};
      assert f(a) !in Image(rest, f);
    }
  }

  /** Images distribute over union. */
  lemma ImageUnion<A, B>(s1: set<A>, s2: set<A>, f: A -> B)
    ensures Image(s1 + s2, f) == Image(s1, f) + Image(s2, f)
  {
  }

  /** The cells (u, v) with u0 <= u < u0 + w in row v. */
  function Row(u0: int, w: nat, v: int): (r: set<(int, int)>)
    ensures forall u, v' :: (u, v') in r <==> v' == v && u0 <= u < u0 + w
  {
    set u | u0 <= u < u0 + w :: (u, v)
  }

  /** The cells of the w-by-h rectangle whose lowest corner is (u0, v0). */
  function Rect(u0: int, v0: int, w: nat, h: nat): (r: set<(int, int)>)
    ensures forall u, v :: (u, v) in r <==> u0 <= u < u0 + w && v0 <= v < v0 + h
  {
    set u, v | u0 <= u < u0 + w && v0 <= v < v0 + h :: (u, v)
  }

  lemma {:induction false} RowCardinality(u0: int, w: nat, v: int)
    ensures |Row(u0, w, v)| == w
  {
    if w > 0 {
      RowCardinality(u0, w - 1, v);
      assert Row(u0, w, v) == Row(u0, w - 1, v) + {(u0 + w - 1, v)};
    }
  }

  /** A w-by-h rectangle holds exactly w*h cells. */
  lemma {:induction false} RectCardinality(u0: int, v0: int, w: nat, h: nat)
    ensures |Rect(u0, v0, w, h)| == w * h
  {
    if h > 0 {
      var lower := Rect(u0, v0, w, h - 1);
      var top := Row(u0, w, v0 + h - 1);
      RectCardinality(u0, v0, w, h - 1);
      RowCardinality(u0, w, v0 + h - 1);
      assert Rect(u0, v0, w, h) == lower + top;
      assert lower !! top;
      assert |lower + top| == |lower| + |top|;
      assert w * h == w * (h - 1) + w;
    }
  }
}
