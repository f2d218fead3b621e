/** The geometry of one greedy quad: its four corners, its tangent, and the
    corner order of its two triangles. Positions are in voxel units. */
module GreedyGeometry {
  import opened VoxelTypes
  import opened GreedyMesher
  import MeshGenerator

  /** The quad's extent as a vector: size.x along the face's U axis, size.y
      along its V axis, nothing along the slice axis. */
  function SizeVector(q: GreedyQuad): (sv: IntVec)
    ensures sv.Get(UAxis(q.face)) == q.size.x && sv.Get(VAxis(q.face)) == q.size.y
    ensures sv.Get(PrimaryAxis(q.face)) == 0
  {
    match q.face
    case Front => IntVec(q.size.x, 0, q.size.y)
    case Back => IntVec(q.size.x, 0, q.size.y)
    case Right => IntVec(0, q.size.x, q.size.y)
    case Left => IntVec(0, q.size.x, q.size.y)
    case Top => IntVec(q.size.x, q.size.y, 0)
    case Bottom => IntVec(q.size.x, q.size.y, 0)
  }

  /** The four corners of a quad, in the engine's order for each face. */
  function QuadCorners(q: GreedyQuad): (vs: seq<IntVec>)
    ensures |vs| == 4
  {
    var b := q.position;
    var s := SizeVector(q);
    match q.face
    case Front => [b.Add(IntVec(0, 1, 0)), b.Add(IntVec(s.x, 1, 0)), b.Add(IntVec(s.x, 1, s.z)), b.Add(IntVec(0, 1, s.z))]
    case Back => [b.Add(IntVec(s.x, 0, 0)), b, b.Add(IntVec(0, 0, s.z)), b.Add(IntVec(s.x, 0, s.z))]
    case Right => [b.Add(IntVec(1, s.y, 0)), b.Add(IntVec(1, 0, 0)), b.Add(IntVec(1, 0, s.z)), b.Add(IntVec(1, s.y, s.z))]
    case Left => [b, b.Add(IntVec(0, s.y, 0)), b.Add(IntVec(0, s.y, s.z)), b.Add(IntVec(0, 0, s.z))]
    case Top => [b.Add(IntVec(0, 0, 1)), b.Add(IntVec(s.x, 0, 1)), b.Add(IntVec(s.x, s.y, 1)), b.Add(IntVec(0, s.y, 1))]
    case Bottom => [b.Add(IntVec(0, s.y, 0)), b.Add(IntVec(s.x, s.y, 0)), b.Add(IntVec(s.x, 0, 0)), b]
  }

  /** A one-by-one quad has exactly the corners the basic mesher gives the
      same voxel face. */
  lemma UnitQuadCorners(q: GreedyQuad)
    requires q.size.x == 1 && q.size.y == 1
    ensures QuadCorners(q) == MeshGenerator.FaceVertices(q.face, q.position)
  {
    match q.face
    case Front =>
    case Back =>
    case Right =>
    case Left =>
    case Top =>
    case Bottom =>
  }

  /** Every corner lies in the face's plane, and the corners span the quad's
      extent along U and V. */
  lemma QuadCornersInPlane(q: GreedyQuad)
    ensures var vs := QuadCorners(q);
            forall i :: 0 <= i < 4 ==>
              vs[i].Get(MeshGenerator.NormalAxis(q.face)) == MeshGenerator.FacePlane(q.face, q.position)
    ensures var vs := QuadCorners(q);
            var u, v := UAxis(q.face), VAxis(q.face);
            (forall i :: 0 <= i < 4 ==>
               vs[i].Get(u) in {q.position.Get(u), q.position.Get(u) + q.size.x}
               && vs[i].Get(v) in {q.position.Get(v), q.position.Get(v) + q.size.y})
  {
    FaceAxesPermutation(q.face);
    match q.face
    case Front =>
    case Back =>
    case Right =>
    case Left =>
    case Top =>
    case Bottom =>
  }

  /** The tangent of a quad, derived as the engine derives it: the corners'
      first edge against texture-space deltas (size.x, 0) and (size.x, size.y),
      normalised; zero when those deltas are degenerate. */
  function GreedyTangent(q: GreedyQuad): IntVec {
    var vs := QuadCorners(q);
    MeshGenerator.QuadTangent(vs[0], vs[1], vs[2], Uv(0, 0), Uv(q.size.x, 0), Uv(q.size.x, q.size.y))
  }

  /** The tangent formula with texture deltas (sx, 0) and (sx, sy) of
      positive size reduces to the direction of the first edge. */
  lemma QuadTangentFirstEdge(v0: IntVec, v1: IntVec, v2: IntVec, sx: int, sy: int)
    requires sx >= 1 && sy >= 1
    ensures MeshGenerator.QuadTangent(v0, v1, v2, Uv(0, 0), Uv(sx, 0), Uv(sx, sy))
            == MeshGenerator.Direction(v1.Sub(v0))
  {
    MulAwayFromZero(sx, sy);
    var e1 := v1.Sub(v0);
    var e2 := v2.Sub(v0);
    assert e2.Scale(0) == Zero;
    var g := e1.Scale(sy).Sub(Zero).Scale(1);
    assert g == IntVec(e1.x * sy, e1.y * sy, e1.z * sy);
    MulAwayFromZero(e1.x, sy);
    MulAwayFromZero(e1.y, sy);
    MulAwayFromZero(e1.z, sy);
  }

  /** A quad of positive size has the same tangent as the basic mesher's face
      of the same direction. */
  lemma GreedyTangentIsFaceTangent(q: GreedyQuad)
    requires q.size.x >= 1 && q.size.y >= 1
    ensures GreedyTangent(q) == MeshGenerator.FaceTangent(q.face)
  {
    var vs := QuadCorners(q);
    QuadTangentFirstEdge(vs[0], vs[1], vs[2], q.size.x, q.size.y);
    QuadNormals(q);
  }

  /** A quad with a zero extent gets the zero tangent. */
  lemma GreedyTangentDegenerate(q: GreedyQuad)
    requires q.size.x == 0 || q.size.y == 0
    ensures GreedyTangent(q) == Zero
  {
  }

  /** Which triangle corner order a mesh is built with: the engine's, or the
      corrected one (see Winding). */
  datatype WindingRule = AsWritten | Corrected

  /** The corner order of a quad's two triangles. As written, top quads use
      (0,3,1),(1,3,2) and every other face (0,1,2),(0,2,3); corrected, bottom
      quads are reversed like top quads. */
  function Winding(rule: WindingRule, f: Face): (w: seq<nat>)
    ensures |w| == 6 && forall j :: 0 <= j < 6 ==> w[j] < 4
  {
    if f == Top || (rule == Corrected && f == Bottom) then [0, 3, 1, 1, 3, 2]
    else [0, 1, 2, 0, 2, 3]
  }

  /** The right-handed normal of triangle (a, b, c). */
  function TriangleNormal(a: IntVec, b: IntVec, c: IntVec): IntVec {
    b.Sub(a).Cross(c.Sub(a))
  }

  /** The normal of a quad's corner parallelogram scaled by its area: the
      corners' first edge crossed with their last edge. */
  function AreaNormal(q: GreedyQuad): IntVec {
    var a := q.size.x * q.size.y;
    match q.face
    case Front => IntVec(0, -a, 0)
    case Back => IntVec(0, a, 0)
    case Right => IntVec(-a, 0, 0)
    case Left => IntVec(a, 0, 0)
    case Top => IntVec(0, 0, a)
    case Bottom => IntVec(0, 0, -a)
  }

  /** The first edge of a quad's corners: its U extent, pointing along or
      against the U axis. */
  function FirstEdge(q: GreedyQuad): IntVec {
    var sx := q.size.x;
    match q.face
    case Front => IntVec(sx, 0, 0)
    case Back => IntVec(-sx, 0, 0)
    case Right => IntVec(0, -sx, 0)
    case Left => IntVec(0, sx, 0)
    case Top => IntVec(sx, 0, 0)
    case Bottom => IntVec(sx, 0, 0)
  }

  /** The corners' first edge is FirstEdge; triangles (0,1,2) and (0,2,3) of
      the quad's corners have normal k, and
      triangles (0,3,1) and (1,3,2) have normal -k. */
  predicate QuadNormalsAre(q: GreedyQuad, k: IntVec) {
    var vs := QuadCorners(q);
    vs[1].Sub(vs[0]) == FirstEdge(q)
    && TriangleNormal(vs[0], vs[1], vs[2]) == k && TriangleNormal(vs[0], vs[2], vs[3]) == k
    && TriangleNormal(vs[0], vs[3], vs[1]) == k.Neg() && TriangleNormal(vs[1], vs[3], vs[2]) == k.Neg()
  }

  lemma FrontNormals(q: GreedyQuad)
    requires q.face == Front
    ensures QuadNormalsAre(q, AreaNormal(q))
  {
    var sx, sy := q.size.x, q.size.y;
    var vs := QuadCorners(q);
    assert vs[1].Sub(vs[0]) == IntVec(sx, 0, 0);
    assert vs[2].Sub(vs[0]) == IntVec(sx, 0, sy);
    assert vs[3].Sub(vs[0]) == IntVec(0, 0, sy);
    assert vs[3].Sub(vs[1]) == IntVec(-sx, 0, sy);
    assert vs[2].Sub(vs[1]) == IntVec(0, 0, sy);
  }

  lemma BackNormals(q: GreedyQuad)
    requires q.face == Back
    ensures QuadNormalsAre(q, AreaNormal(q))
  {
    var sx, sy := q.size.x, q.size.y;
    var vs := QuadCorners(q);
    assert vs[1].Sub(vs[0]) == IntVec(-sx, 0, 0);
    assert vs[2].Sub(vs[0]) == IntVec(-sx, 0, sy);
    assert vs[3].Sub(vs[0]) == IntVec(0, 0, sy);
    assert vs[3].Sub(vs[1]) == IntVec(sx, 0, sy);
    assert vs[2].Sub(vs[1]) == IntVec(0, 0, sy);
  }

  lemma RightNormals(q: GreedyQuad)
    requires q.face == Right
    ensures QuadNormalsAre(q, AreaNormal(q))
  {
    var sx, sy := q.size.x, q.size.y;
    var vs := QuadCorners(q);
    assert vs[1].Sub(vs[0]) == IntVec(0, -sx, 0);
    assert vs[2].Sub(vs[0]) == IntVec(0, -sx, sy);
    assert vs[3].Sub(vs[0]) == IntVec(0, 0, sy);
    assert vs[3].Sub(vs[1]) == IntVec(0, sx, sy);
    assert vs[2].Sub(vs[1]) == IntVec(0, 0, sy);
  }

  lemma LeftNormals(q: GreedyQuad)
    requires q.face == Left
    ensures QuadNormalsAre(q, AreaNormal(q))
  {
    var sx, sy := q.size.x, q.size.y;
    var vs := QuadCorners(q);
    assert vs[1].Sub(vs[0]) == IntVec(0, sx, 0);
    assert vs[2].Sub(vs[0]) == IntVec(0, sx, sy);
    assert vs[3].Sub(vs[0]) == IntVec(0, 0, sy);
    assert vs[3].Sub(vs[1]) == IntVec(0, -sx, sy);
    assert vs[2].Sub(vs[1]) == IntVec(0, 0, sy);
  }

  lemma TopNormals(q: GreedyQuad)
    requires q.face == Top
    ensures QuadNormalsAre(q, AreaNormal(q))
  {
    var sx, sy := q.size.x, q.size.y;
    var vs := QuadCorners(q);
    assert vs[1].Sub(vs[0]) == IntVec(sx, 0, 0);
    assert vs[2].Sub(vs[0]) == IntVec(sx, sy, 0);
    assert vs[3].Sub(vs[0]) == IntVec(0, sy, 0);
    assert vs[3].Sub(vs[1]) == IntVec(-sx, sy, 0);
    assert vs[2].Sub(vs[1]) == IntVec(0, sy, 0);
  }

  lemma BottomNormals(q: GreedyQuad)
    requires q.face == Bottom
    ensures QuadNormalsAre(q, AreaNormal(q))
  {
    var sx, sy := q.size.x, q.size.y;
    var vs := QuadCorners(q);
    assert vs[1].Sub(vs[0]) == IntVec(sx, 0, 0);
    assert vs[2].Sub(vs[0]) == IntVec(sx, -sy, 0);
    assert vs[3].Sub(vs[0]) == IntVec(0, -sy, 0);
    assert vs[3].Sub(vs[1]) == IntVec(-sx, -sy, 0);
    assert vs[2].Sub(vs[1]) == IntVec(0, -sy, 0);
  }

  lemma QuadNormals(q: GreedyQuad)
    ensures QuadNormalsAre(q, AreaNormal(q))
  {
    match q.face
    case Front => FrontNormals(q);
    case Back => BackNormals(q);
    case Right => RightNormals(q);
    case Left => LeftNormals(q);
    case Top => TopNormals(q);
    case Bottom => BottomNormals(q);
  }

  /** Whether triangle t (0 or 1) of quad q under the rule has its
      right-handed normal along (1), against (-1) or across (0) the face's
      outward normal. */
  function TriangleFacing(rule: WindingRule, q: GreedyQuad, t: nat): int
    requires t < 2
  {
    var vs := QuadCorners(q);
    var w := Winding(rule, q.face);
    MeshGenerator.Sign(TriangleNormal(vs[w[3 * t]], vs[w[3 * t + 1]], vs[w[3 * t + 2]])
                         .Dot(MeshGenerator.FaceNormal(q.face)))
  }

  /** The area normal of a quad of positive size points against the outward
      normal on the four side faces and along it on top and bottom faces. */
  lemma AreaNormalFacing(q: GreedyQuad)
    requires q.size.x >= 1 && q.size.y >= 1
    ensures var n := MeshGenerator.FaceNormal(q.face);
            var s := if q.face == Top || q.face == Bottom then 1 else -1;
            MeshGenerator.Sign(AreaNormal(q).Dot(n)) == s
            && MeshGenerator.Sign(AreaNormal(q).Neg().Dot(n)) == -s
  {
    MulAwayFromZero(q.size.x, q.size.y);
  }

  /** The facing of both triangles of a quad of positive size is decided by
      its face's corner order alone: with (0,1,2),(0,2,3) it is against the
      outward normal on the four side faces and along it on top and bottom
      faces; with (0,3,1),(1,3,2) it is the reverse. */
  lemma TriangleFacingByOrder(rule: WindingRule, q: GreedyQuad, t: nat)
    requires q.size.x >= 1 && q.size.y >= 1 && t < 2
    ensures var reversed := Winding(rule, q.face)[0] == 0 && Winding(rule, q.face)[1] == 3;
            var vertical := q.face == Top || q.face == Bottom;
            TriangleFacing(rule, q, t) == (if reversed != vertical then 1 else -1)
  {
    QuadNormals(q);
    AreaNormalFacing(q);
  }

  /** Corrected, both triangles of every quad of positive size face the same
      way relative to the outward normal. */
  lemma CorrectedWindingConsistent(q: GreedyQuad, t: nat)
    requires q.size.x >= 1 && q.size.y >= 1 && t < 2
    ensures TriangleFacing(Corrected, q, t) == -1
  {
    TriangleFacingByOrder(Corrected, q, t);
  }

  /** As written, bottom quads face the other way from the quads of the five
      other faces. */
  lemma AsWrittenBottomReversed(q: GreedyQuad, t: nat)
    requires q.size.x >= 1 && q.size.y >= 1 && t < 2
    ensures TriangleFacing(AsWritten, q, t) == (if q.face == Bottom then 1 else -1)
  {
    TriangleFacingByOrder(AsWritten, q, t);
  }

  /** The smallest input that shows it: the single unit bottom face at the
      origin, next to the unit top face. */
  lemma AsWrittenBottomWitness()
    ensures TriangleFacing(AsWritten, GreedyQuad(Zero, IntVec(1, 1, 1), Bottom, STONE), 0) == 1
    ensures TriangleFacing(AsWritten, GreedyQuad(Zero, IntVec(1, 1, 1), Top, STONE), 0) == -1
  {
    AsWrittenBottomReversed(GreedyQuad(Zero, IntVec(1, 1, 1), Bottom, STONE), 0);
    AsWrittenBottomReversed(GreedyQuad(Zero, IntVec(1, 1, 1), Top, STONE), 0);
  }
}
