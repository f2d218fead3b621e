/** Turning greedy quads into a renderable mesh: every quad contributes its
    four corners and two triangles, and corners at the same position are
    welded into one shared vertex. Positions are in voxel units, so the
    engine's rounded position key is the position itself. */
module GreedyConvert {
  import opened VoxelTypes
  import opened GreedyMesher
  import opened GreedyGeometry
  import MeshGenerator

  /** One welded vertex: its position and the normal and tangent of the quad
      that created it. Every greedy vertex has texture coordinate (0,0) and
      colour opaque white, so those are not stored. */
  datatype Vert = Vert(pos: IntVec, normal: IntVec, tangent: IntVec)

  /** The vertices created so far and the position-to-vertex map. */
  datatype Welds = Welds(verts: seq<Vert>, index: map<IntVec, int>)

  /** The map and the vertex list describe each other exactly: every mapped
      position names a vertex at that position, and every vertex is the one
      its position maps to. */
  ghost predicate WeldedParts(w: Welds) {
    (forall p :: p in w.index ==> 0 <= w.index[p] < |w.verts| && w.verts[w.index[p]].pos == p)
    && (forall i :: 0 <= i < |w.verts| ==> w.verts[i].pos in w.index && w.index[w.verts[i].pos] == i)
  }

  /** WeldedParts as a single proof obligation (comparing with true keeps the
      verifier from splitting it into one goal per conjunct at every call). */
  ghost predicate Welded(w: Welds) {
    WeldedParts(w) == true
  }

  /** The vertex quad q gives every corner it creates. */
  function QuadVert(q: GreedyQuad): Vert {
    Vert(Zero, MeshGenerator.FaceNormal(q.face), GreedyTangent(q))
  }

  /** r extends b by welding the positions S with attributes v: b's vertices
      are kept (and so, both being welded, are b's map entries), the map gains
      exactly S, and every new vertex sits at a position of S that b did not
      map and carries v's normal and tangent. */
  ghost predicate AppendsParts(b: Welds, r: Welds, v: Vert, S: set<IntVec>) {
    Welded(r) && b.verts <= r.verts
    && r.index.Keys == b.index.Keys + S
    && (forall i :: |b.verts| <= i < |r.verts| ==>
          r.verts[i].pos in S && r.verts[i].pos !in b.index && r.verts[i] == v.(pos := r.verts[i].pos))
  }

  /** AppendsParts as a single proof obligation (see Welded). */
  ghost predicate Appends(b: Welds, r: Welds, v: Vert, S: set<IntVec>) {
    AppendsParts(b, r, v, S) == true
  }

  lemma AppendsTrans(b: Welds, m: Welds, r: Welds, v: Vert, S1: set<IntVec>, S2: set<IntVec>)
    requires Appends(b, m, v, S1) && Appends(m, r, v, S2)
    ensures Appends(b, r, v, S1 + S2)
  {
    assert b.verts <= r.verts by {
      assert b.verts <= m.verts && m.verts <= r.verts;
    }
    assert forall i :: |b.verts| <= i < |r.verts| ==>
             r.verts[i].pos in S1 + S2 && r.verts[i].pos !in b.index && r.verts[i] == v.(pos := r.verts[i].pos)
    by {
      forall i | |b.verts| <= i < |r.verts|
        ensures r.verts[i].pos in S1 + S2 && r.verts[i].pos !in b.index && r.verts[i] == v.(pos := r.verts[i].pos)
      {
        if i < |m.verts| {
          assert r.verts[i] == m.verts[i];
        }
      }
    }
    assert AppendsParts(b, r, v, S1 + S2);
  }

  /** An extension keeps every earlier vertex in place. */
  lemma AppendsKeeps(b: Welds, r: Welds, v: Vert, S: set<IntVec>, i: int)
    requires Appends(b, r, v, S) && 0 <= i < |b.verts|
    ensures i < |r.verts| && r.verts[i] == b.verts[i]
  {
  }

  /** The vertex at position p: the existing one if p is mapped, otherwise a
      new vertex at p with v's normal and tangent. */
  function WeldVertex(b: Welds, p: IntVec, v: Vert): (res: (Welds, int))
    requires Welded(b)
    ensures Appends(b, res.0, v, {p})
    ensures 0 <= res.1 < |res.0.verts| && res.0.verts[res.1].pos == p
    ensures p in b.index ==> res.0 == b
  {
    if p in b.index then (b, b.index[p])
    else
      var i := |b.verts|;
      var r := Welds(b.verts + [v.(pos := p)], b.index[p := i]);
      assert WeldedParts(r) by {
        forall k | 0 <= k < |r.verts| ensures r.verts[k].pos in r.index && r.index[r.verts[k].pos] == k {
          if k < |b.verts| {
            assert r.verts[k] == b.verts[k];
          }
        }
      }
      assert AppendsParts(b, r, v, {p});
      (r, i)
  }

  /** The positions of a list, as a set. */
  function Positions(ps: seq<IntVec>): (s: set<IntVec>)
    ensures forall j :: 0 <= j < |ps| ==> ps[j] in s
  {
    if ps == [] then {} else Positions(ps[..|ps| - 1]) + {ps[|ps| - 1]}
  }

  /** Welds the positions ps in turn. */
  function WeldAll(b: Welds, ps: seq<IntVec>, v: Vert): (r: Welds)
    requires Welded(b)
    ensures Appends(b, r, v, Positions(ps))
    decreases |ps|
  {
    if ps == [] then
      assert AppendsParts(b, b, v, {});
      b
    else
      var n := |ps| - 1;
      var m := WeldAll(b, ps[..n], v);
      var r := WeldVertex(m, ps[n], v).0;
      AppendsTrans(b, m, r, v, Positions(ps[..n]), {ps[n]});
      r
  }

  /** The set of the four corner positions of quad q. */
  function CornerSet(q: GreedyQuad): set<IntVec> {
    Positions(QuadCorners(q))
  }

  /** The mesh between quads: welded vertices, the index list and the
      material section map. */
  datatype Builder = Builder(welds: Welds, triangles: seq<int>, sections: map<Material, int>)

  ghost predicate BuilderOkParts(b: Builder) {
    Welded(b.welds) && DenseSections(b.sections) && |b.triangles| % 3 == 0
    && (forall k :: 0 <= k < |b.triangles| ==> 0 <= b.triangles[k] < |b.welds.verts|)
  }

  /** The builder invariant as a single proof obligation (see Welded). */
  ghost predicate BuilderOk(b: Builder) {
    BuilderOkParts(b) == true
  }

  /** The positions the index list draws, one per index. */
  function Drawn(b: Builder): (ps: seq<IntVec>)
    requires forall k :: 0 <= k < |b.triangles| ==> 0 <= b.triangles[k] < |b.welds.verts|
    ensures |ps| == |b.triangles|
  {
    seq(|b.triangles|, k requires 0 <= k < |b.triangles| => b.welds.verts[b.triangles[k]].pos)
  }

  /** The corners vs picked in the order o. */
  function Pick(vs: seq<IntVec>, o: seq<nat>): (ps: seq<IntVec>)
    requires |o| == 6 && forall j :: 0 <= j < 6 ==> o[j] < |vs|
    ensures |ps| == 6 && forall j :: 0 <= j < 6 ==> ps[j] == vs[o[j]]
  {
    [vs[o[0]], vs[o[1]], vs[o[2]], vs[o[3]], vs[o[4]], vs[o[5]]]
  }

  /** The six corner positions the two triangles of quad q draw under the
      winding rule. */
  function QuadTriangles(q: GreedyQuad, rule: WindingRule): (ps: seq<IntVec>)
    ensures |ps| == 6
  {
    Pick(QuadCorners(q), Winding(rule, q.face))
  }

  /** A mapped position names a vertex at that position. */
  lemma IndexLookup(w: Welds, p: IntVec)
    requires Welded(w) && p in w.index
    ensures 0 <= w.index[p] < |w.verts| && w.verts[w.index[p]].pos == p
  {
  }

  /** Appending indices that draw the positions t extends what is drawn by t. */
  lemma DrawnStep(b: Builder, r: Builder, ids: seq<int>, t: seq<IntVec>)
    requires BuilderOk(b) && Welded(r.welds) && DenseSections(r.sections)
    requires b.welds.verts <= r.welds.verts && r.triangles == b.triangles + ids && |ids| == |t| == 6
    requires forall j :: 0 <= j < |ids| ==> 0 <= ids[j] < |r.welds.verts| && r.welds.verts[ids[j]].pos == t[j]
    ensures BuilderOk(r) && Drawn(r) == Drawn(b) + t
  {
    assert BuilderOkParts(r);
    forall k | 0 <= k < |r.triangles| ensures Drawn(r)[k] == (Drawn(b) + t)[k] {
      if k < |b.triangles| {
        assert r.triangles[k] == b.triangles[k];
        assert r.welds.verts[b.triangles[k]] == b.welds.verts[b.triangles[k]];
      } else {
        assert r.triangles[k] == ids[k - |b.triangles|];
      }
    }
  }

  /** Adds one quad given by its corners vs, its corner order o, the
      attributes v of its new vertices and its material: welds the corners,
      appends the triangles, and registers the material's section. */
  function AddCorners(b: Builder, vs: seq<IntVec>, o: seq<nat>, v: Vert, mat: Material): (r: Builder)
    requires BuilderOk(b) && |o| == 6 && forall j :: 0 <= j < 6 ==> o[j] < |vs|
    ensures BuilderOk(r)
    ensures Appends(b.welds, r.welds, v, Positions(vs))
    ensures b.triangles <= r.triangles && |r.triangles| == |b.triangles| + 6
    ensures r.sections.Keys == b.sections.Keys + {mat}
    ensures forall k :: k in b.sections ==> r.sections[k] == b.sections[k]
    ensures Drawn(r) == Drawn(b) + Pick(vs, o)
  {
    var w := WeldAll(b.welds, vs, v);
    var ids := seq(6, j requires 0 <= j < 6 => w.index[vs[o[j]]]);
    var s := MeshGenerator.AllocateSection(b.sections, mat).0;
    var r := Builder(w, b.triangles + ids, s);
    var t := Pick(vs, o);
    forall j | 0 <= j < 6 ensures 0 <= ids[j] < |w.verts| && w.verts[ids[j]].pos == t[j] {
      IndexLookup(w, vs[o[j]]);
    }
    DrawnStep(b, r, ids, t);
    r
  }

  /** Adds one quad: welds its four corners, appends its two triangles with
      the rule's corner order, and registers its material's section. */
  function AddGreedyQuad(b: Builder, q: GreedyQuad, rule: WindingRule): (r: Builder)
    requires BuilderOk(b)
    ensures BuilderOk(r)
    ensures Appends(b.welds, r.welds, QuadVert(q), CornerSet(q))
    ensures b.triangles <= r.triangles && |r.triangles| == |b.triangles| + 6
    ensures r.sections.Keys == b.sections.Keys + {q.material}
    ensures forall k :: k in b.sections ==> r.sections[k] == b.sections[k]
    ensures Drawn(r) == Drawn(b) + QuadTriangles(q, rule)
  {
    AddCorners(b, QuadCorners(q), Winding(rule, q.face), QuadVert(q), q.material)
  }

  /** Every corner position of the quads. */
  function AllCorners(qs: seq<GreedyQuad>): set<IntVec> {
    if qs == [] then {} else AllCorners(qs[..|qs| - 1]) + CornerSet(qs[|qs| - 1])
  }

  /** Every material of the quads. */
  function Materials(qs: seq<GreedyQuad>): set<Material> {
    if qs == [] then {} else Materials(qs[..|qs| - 1]) + {qs[|qs| - 1].material}
  }

  /** QuadTriangles under one winding rule, as a function value. */
  function QuadTrianglesOf(rule: WindingRule): (f: GreedyQuad -> seq<IntVec>)
    ensures forall q :: f(q) == QuadTriangles(q, rule)
  {
    q => QuadTriangles(q, rule)
  }

  /** The lists f(q) of the quads q, concatenated in quad order. */
  function ConcatMap(qs: seq<GreedyQuad>, f: GreedyQuad -> seq<IntVec>): seq<IntVec> {
    if qs == [] then [] else ConcatMap(qs[..|qs| - 1], f) + f(qs[|qs| - 1])
  }

  /** Lists of six positions each concatenate to six per quad. */
  lemma {:induction false} ConcatMapLength(qs: seq<GreedyQuad>, f: GreedyQuad -> seq<IntVec>)
    requires forall q :: |f(q)| == 6
    ensures |ConcatMap(qs, f)| == 6 * |qs|
  {
    if qs != [] {
      ConcatMapLength(qs[..|qs| - 1], f);
    }
  }

  /** The reference mesh without welding: every quad's two triangles, as
      corner positions, in quad order. */
  function TriangleSoup(qs: seq<GreedyQuad>, rule: WindingRule): (ps: seq<IntVec>)
    ensures |ps| == 6 * |qs|
  {
    ConcatMapLength(qs, QuadTrianglesOf(rule));
    ConcatMap(qs, QuadTrianglesOf(rule))
  }

  /** The soup of all quads is the soup of all but the last, followed by the
      last quad's two triangles. */
  lemma SoupSnoc(qs: seq<GreedyQuad>, rule: WindingRule)
    requires qs != []
    ensures TriangleSoup(qs, rule) == TriangleSoup(qs[..|qs| - 1], rule) + QuadTriangles(qs[|qs| - 1], rule)
  {
  }

  /** The first quad, in order, with a corner at p. */
  function Owner(qs: seq<GreedyQuad>, p: IntVec): (o: Option<GreedyQuad>)
    ensures o.Some? <==> p in AllCorners(qs)
    ensures o.Some? ==> o.value in qs && p in CornerSet(o.value)
  {
    if qs == [] then None
    else
      var o := Owner(qs[..|qs| - 1], p);
      if o.Some? then o
      else if p in CornerSet(qs[|qs| - 1]) then Some(qs[|qs| - 1])
      else None
  }

  /** Every vertex carries the normal and tangent of the first quad with a
      corner at its position. */
  ghost predicate OwnedParts(qs: seq<GreedyQuad>, w: Welds) {
    forall i :: 0 <= i < |w.verts| ==>
      Owner(qs, w.verts[i].pos).Some? && w.verts[i] == QuadVert(Owner(qs, w.verts[i].pos).value).(pos := w.verts[i].pos)
  }

  /** OwnedParts as a single proof obligation (see Welded). */
  ghost predicate Owned(qs: seq<GreedyQuad>, w: Welds) {
    OwnedParts(qs, w) == true
  }

  lemma AppendsNew(b: Welds, r: Welds, v: Vert, S: set<IntVec>, i: int)
    requires Appends(b, r, v, S) && |b.verts| <= i < |r.verts|
    ensures r.verts[i].pos in S && r.verts[i].pos !in b.index && r.verts[i] == v.(pos := r.verts[i].pos)
  {
  }

  lemma OwnedAt(qs: seq<GreedyQuad>, w: Welds, i: int)
    requires Owned(qs, w) && 0 <= i < |w.verts|
    ensures Owner(qs, w.verts[i].pos).Some?
    ensures w.verts[i] == QuadVert(Owner(qs, w.verts[i].pos).value).(pos := w.verts[i].pos)
  {
  }

  /** Adding the last quad of qs keeps every vertex owned. */
  lemma OwnedStep(qs: seq<GreedyQuad>, b: Welds, r: Welds)
    requires |qs| > 0
    requires Owned(qs[..|qs| - 1], b) && b.index.Keys == AllCorners(qs[..|qs| - 1])
    requires Appends(b, r, QuadVert(qs[|qs| - 1]), CornerSet(qs[|qs| - 1]))
    ensures Owned(qs, r)
  {
    var n := |qs| - 1;
    var q := qs[n];
    forall i | 0 <= i < |r.verts|
      ensures Owner(qs, r.verts[i].pos).Some?
              && r.verts[i] == QuadVert(Owner(qs, r.verts[i].pos).value).(pos := r.verts[i].pos)
    {
      if i < |b.verts| {
        AppendsKeeps(b, r, QuadVert(q), CornerSet(q), i);
        OwnedAt(qs[..n], b, i);
      } else {
        AppendsNew(b, r, QuadVert(q), CornerSet(q), i);
      }
    }
    assert OwnedParts(qs, r);
  }

  /** Everything the builder promises after the quads qs. */
  ghost predicate BuiltParts(qs: seq<GreedyQuad>, rule: WindingRule, r: Builder) {
    BuilderOk(r) && |r.triangles| == 6 * |qs| && Drawn(r) == TriangleSoup(qs, rule)
    && r.welds.index.Keys == AllCorners(qs) && r.sections.Keys == Materials(qs) && Owned(qs, r.welds)
  }

  /** BuiltParts as a single proof obligation (see Welded). */
  ghost predicate Built(qs: seq<GreedyQuad>, rule: WindingRule, r: Builder) {
    BuiltParts(qs, rule, r) == true
  }

  /** Adds the quads in order, starting from an empty mesh. */
  function Build(qs: seq<GreedyQuad>, rule: WindingRule): (r: Builder)
    ensures Built(qs, rule, r)
  {
    if qs == [] then
      var r := Builder(Welds([], map[]), [], map[]);
      assert WeldedParts(r.welds) && BuilderOkParts(r) && OwnedParts(qs, r.welds);
      assert BuiltParts(qs, rule, r);
      r
    else
      var n := |qs| - 1;
      var b := Build(qs[..n], rule);
      var r := AddGreedyQuad(b, qs[n], rule);
      OwnedStep(qs, b.welds, r.welds);
      SoupSnoc(qs, rule);
      assert |r.triangles| == 6 * |qs|;
      assert Drawn(r) == TriangleSoup(qs, rule);
      assert r.welds.index.Keys == AllCorners(qs);
      assert b.sections.Keys == Materials(qs[..n]);
      assert r.sections.Keys == Materials(qs);
      assert BuiltParts(qs, rule, r);
      r
  }

  /** The engine's parallel mesh arrays of a finished builder: one entry per
      welded vertex, texture coordinate (0,0), opaque white, and the triangle
      count recomputed from the index list. */
  function ToMesh(b: Builder): (m: MeshData)
    requires BuilderOk(b)
    ensures m.Wf() && |m.vertices| == |b.welds.verts| && m.triangles == b.triangles
    ensures m.materialSections == b.sections && m.vertexCount == |m.vertices|
    ensures forall i :: 0 <= i < |m.vertices| ==>
              m.vertices[i] == b.welds.verts[i].pos && m.normals[i] == b.welds.verts[i].normal
              && m.tangents[i] == b.welds.verts[i].tangent && m.uv0[i] == Uv(0, 0) && m.colors[i] == White
  {
    var vs := b.welds.verts;
    var n := |vs|;
    assert BuilderOkParts(b);
    MeshData(seq(n, i requires 0 <= i < n => vs[i].pos), b.triangles,
             seq(n, i requires 0 <= i < n => vs[i].normal), seq(n, _ => Uv(0, 0)),
             seq(n, i requires 0 <= i < n => vs[i].tangent), seq(n, _ => White),
             b.sections, [], |b.triangles| / 3, n)
  }

  /** Converts greedy quads into a mesh, welding shared corners. */
  function ConvertQuadsToMesh(qs: seq<GreedyQuad>, rule: WindingRule): (m: MeshData)
    ensures m.Wf()
    ensures |m.triangles| == 6 * |qs| && m.triangleCount == 2 * |qs| && m.vertexCount == |m.vertices|
    ensures m.materialSections.Keys == Materials(qs) && m.materialTriangles == []
  {
    var b := Build(qs, rule);
    assert BuiltParts(qs, rule, b);
    ToMesh(b)
  }

  /** The welded mesh draws exactly the triangles of the unwelded quads, in
      the same order: index k names a vertex at the k-th corner position of
      the reference list. */
  lemma ConvertDrawsQuads(qs: seq<GreedyQuad>, rule: WindingRule)
    ensures var m := ConvertQuadsToMesh(qs, rule);
            forall k :: 0 <= k < |m.triangles| ==> m.vertices[m.triangles[k]] == TriangleSoup(qs, rule)[k]
  {
    var b := Build(qs, rule);
    assert BuiltParts(qs, rule, b);
    assert BuilderOkParts(b);
    var m := ToMesh(b);
    forall k | 0 <= k < |m.triangles| ensures m.vertices[m.triangles[k]] == TriangleSoup(qs, rule)[k] {
      assert Drawn(b)[k] == b.welds.verts[b.triangles[k]].pos;
    }
  }

  /** The set of a list's elements. */
  function Elements(v: seq<IntVec>): set<IntVec> {
    set i | 0 <= i < |v| :: v[i]
  }

  /** The positions of welded vertices are distinct and are exactly the
      mapped positions. */
  lemma WeldedPositions(w: Welds, ps: seq<IntVec>)
    requires Welded(w) && |ps| == |w.verts| && forall i :: 0 <= i < |ps| ==> ps[i] == w.verts[i].pos
    ensures forall i, j :: 0 <= i < j < |ps| ==> ps[i] != ps[j]
    ensures Elements(ps) == w.index.Keys
  {
    forall i, j | 0 <= i < j < |ps| ensures ps[i] != ps[j] {
      assert w.index[w.verts[i].pos] == i && w.index[w.verts[j].pos] == j;
    }
    forall p | p in w.index ensures p in Elements(ps) {
      var i := w.index[p];
      assert ps[i] == p;
    }
  }

  /** No two vertices of the welded mesh share a position, and its positions
      are exactly the quads' corner positions. */
  lemma ConvertWeldsCorners(qs: seq<GreedyQuad>, rule: WindingRule)
    ensures var m := ConvertQuadsToMesh(qs, rule);
            (forall i, j :: 0 <= i < j < |m.vertices| ==> m.vertices[i] != m.vertices[j])
            && Elements(m.vertices) == AllCorners(qs)
  {
    var b := Build(qs, rule);
    assert BuiltParts(qs, rule, b);
    assert BuilderOkParts(b);
    WeldedPositions(b.welds, ToMesh(b).vertices);
  }

  /** Every vertex carries the normal and tangent of the first quad with a
      corner at its position, texture coordinate (0,0) and opaque white. */
  lemma ConvertAttributes(qs: seq<GreedyQuad>, rule: WindingRule)
    ensures var m := ConvertQuadsToMesh(qs, rule);
            forall i :: 0 <= i < |m.vertices| ==>
              Owner(qs, m.vertices[i]).Some?
              && m.normals[i] == MeshGenerator.FaceNormal(Owner(qs, m.vertices[i]).value.face)
              && m.tangents[i] == GreedyTangent(Owner(qs, m.vertices[i]).value)
              && m.uv0[i] == Uv(0, 0) && m.colors[i] == White
  {
    var b := Build(qs, rule);
    assert BuiltParts(qs, rule, b);
    var m := ToMesh(b);
    forall i | 0 <= i < |m.vertices|
      ensures Owner(qs, m.vertices[i]).Some?
              && m.normals[i] == MeshGenerator.FaceNormal(Owner(qs, m.vertices[i]).value.face)
              && m.tangents[i] == GreedyTangent(Owner(qs, m.vertices[i]).value)
    {
      OwnedAt(qs, b.welds, i);
    }
  }

  /** A list without repeats has as many elements as its set. */
  lemma {:induction false} DistinctElements(v: seq<IntVec>)
    requires forall i, j :: 0 <= i < j < |v| ==> v[i] != v[j]
    ensures |Elements(v)| == |v|
  {
    if v != [] {
      var n := |v| - 1;
      DistinctElements(v[..n]);
      assert Elements(v) == Elements(v[..n]) + {v[n]};
      assert v[n] !in Elements(v[..n]);
    }
  }

  lemma {:induction false} PositionsBound(ps: seq<IntVec>)
    ensures |Positions(ps)| <= |ps|
  {
    if ps != [] {
      PositionsBound(ps[..|ps| - 1]);
    }
  }

  lemma {:induction false} AllCornersBound(qs: seq<GreedyQuad>)
    ensures |AllCorners(qs)| <= 4 * |qs|
  {
    if qs != [] {
      AllCornersBound(qs[..|qs| - 1]);
      PositionsBound(QuadCorners(qs[|qs| - 1]));
    }
  }

  /** Welding leaves one vertex per distinct corner position, so never more
      than four per quad. */
  lemma ConvertVertexCount(qs: seq<GreedyQuad>, rule: WindingRule)
    ensures var m := ConvertQuadsToMesh(qs, rule);
            m.vertexCount == |AllCorners(qs)| <= 4 * |qs|
  {
    var m := ConvertQuadsToMesh(qs, rule);
    ConvertWeldsCorners(qs, rule);
    DistinctElements(m.vertices);
    AllCornersBound(qs);
  }
}
