/** Assembling the decoded attribute arrays of a primitive into vertices
    (the second half of Glb::LoadVertices) and the 4x4 inverse bind
    matrices of a skin (Glb::LoadSkin). */
module GltfGeometry {
  import opened Wrappers
  import opened Bytes

  // -----------------------------------------------------------------------
  // Vertices
  // -----------------------------------------------------------------------

  /** Floats per position, texture coordinate, normal, joint set and weight
      set (the nbFloatPer* constants: one VEC3, VEC2, VEC3, VEC4, VEC4). */
  const PositionWidth: nat := 3
  const TexCoordWidth: nat := 2
  const NormalWidth: nat := 3
  const JointWidth: nat := 4
  const WeightWidth: nat := 4

  /** The five arrays LoadVertices fills from the attributes it knows. */
  datatype Attributes = Attributes(
    positions: seq<FloatBits>,
    texCoords: seq<FloatBits>,
    normals: seq<FloatBits>,
    joints: seq<nat>,
    weights: seq<FloatBits>)

  const NoAttributes := Attributes([], [], [], [], [])

  /** A vertex. A field the loader does not set keeps the struct's default,
      written None here. */
  datatype Vertex = Vertex(
    position: seq<FloatBits>,
    texCoord: Option<seq<FloatBits>>,
    normal: Option<seq<FloatBits>>,
    joints: Option<seq<nat>>,
    weights: Option<seq<FloatBits>>)

  /** `positions.size() / 3`: a trailing partial position is dropped. */
  function VertexCount(a: Attributes): nat {
    |a.positions| / PositionWidth
  }

  /** An array the loop reads is either empty (never read) or long enough
      for every vertex. */
  predicate Covers<T>(s: seq<T>, width: nat, count: nat) {
    |s| == 0 || width * count <= |s|
  }

  /** Every array the loop reads is covered for the first `n` vertices. */
  predicate CoveredFor(a: Attributes, n: nat) {
    && Covers(a.texCoords, TexCoordWidth, n)
    && Covers(a.normals, NormalWidth, n)
    && Covers(a.joints, JointWidth, n)
    && Covers(a.weights, WeightWidth, n)
  }

  predicate AllCovered(a: Attributes) {
    CoveredFor(a, VertexCount(a))
  }

  /** The `i`-th group of `width` elements, or None when the array is empty. */
  function Group<T>(s: seq<T>, width: nat, i: nat): (g: Option<seq<T>>)
    requires |s| == 0 || width * (i + 1) <= |s|
    ensures g.Some? <==> |s| != 0
    ensures g.Some? ==> |g.value| == width
    ensures g.Some? ==> forall k :: 0 <= k < width ==> g.value[k] == s[width * i + k]
  {
    if |s| == 0 then None else Some(s[width * i..width * (i + 1)])
  }

  /** Vertex `i`: the i-th position, and the i-th group of every non-empty
      array. */
  function VertexAt(a: Attributes, i: nat): (v: Vertex)
    requires i < VertexCount(a) && CoveredFor(a, i + 1)
    ensures |v.position| == PositionWidth
    ensures v.texCoord.Some? <==> |a.texCoords| != 0
    ensures v.normal.Some? <==> |a.normals| != 0
    ensures v.joints.Some? <==> |a.joints| != 0
    ensures v.weights.Some? <==> |a.weights| != 0
  {
    Vertex(a.positions[PositionWidth * i..PositionWidth * (i + 1)],
           Group(a.texCoords, TexCoordWidth, i),
           Group(a.normals, NormalWidth, i),
           Group(a.joints, JointWidth, i),
           Group(a.weights, WeightWidth, i))
  }

  /** The vertices of a primitive. Reading past a shorter non-empty array
      is undefined behaviour in the source: OutOfBounds here. */
  function Vertices(a: Attributes): (r: Result<seq<Vertex>>)
    ensures r.Ok? <==> AllCovered(a)
    ensures r.Err? ==> r.error == OutOfBounds
    ensures r.Ok? ==> |r.value| == VertexCount(a)
    ensures r.Ok? ==> forall i :: 0 <= i < |r.value| ==> r.value[i] == VertexAt(a, i)
  {
    if !AllCovered(a) then Err(OutOfBounds)
    else Ok(seq(VertexCount(a), i requires 0 <= i < VertexCount(a) => VertexAt(a, i)))
  }

  /** The positions of the vertices, one after the other. */
  function Flatten(vs: seq<Vertex>): seq<FloatBits> {
    if vs == [] then [] else Flatten(vs[..|vs| - 1]) + vs[|vs| - 1].position
  }

  /** No position is lost or reordered: the vertices give back every
      complete position of the attribute array, in order. */
  lemma {:induction false} VerticesKeepPositions(a: Attributes, n: nat)
    requires AllCovered(a) && n <= VertexCount(a)
    ensures Flatten(Vertices(a).value[..n]) == a.positions[..PositionWidth * n]
  {
    var vs := Vertices(a).value;
    if n > 0 {
      VerticesKeepPositions(a, n - 1);
      assert vs[..n][..n - 1] == vs[..n - 1];
      assert a.positions[..PositionWidth * n]
          == a.positions[..PositionWidth * (n - 1)] + a.positions[PositionWidth * (n - 1)..PositionWidth * n];
    }
  }

  /** The assembly loop of LoadVertices, in place over `std::vector<Vertex>
      vertices(count)`. */
  method AssembleVertices(a: Attributes) returns (r: Result<seq<Vertex>>)
    ensures r == Vertices(a)
  {
    var count := |a.positions| / PositionWidth;
    var vertices := new Vertex[count](_ => Vertex([], None, None, None, None));
    var i := 0;
    while i < count
      invariant i <= count && count == VertexCount(a)
      invariant CoveredFor(a, i)
      invariant forall k :: 0 <= k < i ==> vertices[k] == VertexAt(a, k)
    {
      if (|a.texCoords| != 0 && TexCoordWidth * (i + 1) > |a.texCoords|)
        || (|a.normals| != 0 && NormalWidth * (i + 1) > |a.normals|)
        || (|a.joints| != 0 && JointWidth * (i + 1) > |a.joints|)
        || (|a.weights| != 0 && WeightWidth * (i + 1) > |a.weights|)
      {
        return Err(OutOfBounds);
      }
      var v := Vertex(a.positions[PositionWidth * i..PositionWidth * (i + 1)], None, None, None, None);
      if |a.texCoords| != 0 {
        v := v.(texCoord := Some(a.texCoords[TexCoordWidth * i..TexCoordWidth * (i + 1)]));
      }
      if |a.normals| != 0 {
        v := v.(normal := Some(a.normals[NormalWidth * i..NormalWidth * (i + 1)]));
      }
      if |a.joints| != 0 {
        v := v.(joints := Some(a.joints[JointWidth * i..JointWidth * (i + 1)]));
      }
      if |a.weights| != 0 {
        v := v.(weights := Some(a.weights[WeightWidth * i..WeightWidth * (i + 1)]));
      }
      assert CoveredFor(a, i + 1);
      assert v == VertexAt(a, i);
      vertices[i] := v;
      i := i + 1;
    }
    assert vertices[..] == Vertices(a).value;
    return Ok(vertices[..]);
  }

  // -----------------------------------------------------------------------
  // Inverse bind matrices
  // -----------------------------------------------------------------------

  /** Floats per matrix. */
  const MatrixWidth: nat := 16

  /** A 4x4 matrix of float words, indexed `m[a][b]` as ml::mat4 is. */
  predicate IsMat4(m: seq<seq<FloatBits>>) {
    |m| == 4 && forall a :: 0 <= a < 4 ==> |m[a]| == 4
  }

  /** `matrix[j % 4][j / 4]`: the cell the source writes word `j` into. */
  function Cell(m: seq<seq<FloatBits>>, j: nat): FloatBits
    requires IsMat4(m) && j < MatrixWidth
  {
    m[j % 4][j / 4]
  }

  /** Matrix `i` of the accessor: words `16 * i` to `16 * i + 15`. */
  function Matrix(words: seq<FloatBits>, i: nat): (m: seq<seq<FloatBits>>)
    requires MatrixWidth * (i + 1) <= |words|
    ensures IsMat4(m)
    ensures forall j :: 0 <= j < MatrixWidth ==> Cell(m, j) == words[MatrixWidth * i + j]
  {
    seq(4, a requires 0 <= a < 4 => seq(4, b requires 0 <= b < 4 => words[MatrixWidth * i + 4 * b + a]))
  }

  /** Two matrices that agree on every cell are equal. */
  lemma SameCells(m1: seq<seq<FloatBits>>, m2: seq<seq<FloatBits>>)
    requires IsMat4(m1) && IsMat4(m2)
    requires forall j :: 0 <= j < MatrixWidth ==> Cell(m1, j) == Cell(m2, j)
    ensures m1 == m2
  {
    forall a | 0 <= a < 4 ensures m1[a] == m2[a] {
      forall b | 0 <= b < 4 ensures m1[a][b] == m2[a][b] {
        assert Cell(m1, a + 4 * b) == Cell(m2, a + 4 * b);
      }
    }
  }

  /** The matrix loop of LoadSkin: for each of `count` matrices, word `j`
      goes to `matrix[j % 4][j / 4]`. */
  method ReadMatrices(words: seq<FloatBits>, count: nat) returns (matrices: seq<seq<seq<FloatBits>>>)
    requires MatrixWidth * count <= |words|
    ensures |matrices| == count
    ensures forall i :: 0 <= i < count ==> matrices[i] == Matrix(words, i)
  {
    matrices := [];
    var i := 0;
    while i < count
      invariant i <= count && |matrices| == i
      invariant forall k :: 0 <= k < i ==> matrices[k] == Matrix(words, k)
    {
      var m := FillMatrix(words, i);
      matrices := matrices + [m];
      i := i + 1;
    }
  }

  /** Fills matrix `i` cell by cell, word `16 i + j` going to row `j % 4`,
      column `j / 4`. */
  method FillMatrix(words: seq<FloatBits>, i: nat) returns (m: seq<seq<FloatBits>>)
    requires MatrixWidth * (i + 1) <= |words|
    ensures m == Matrix(words, i)
  {
    m := seq(4, _ => seq(4, _ => 0));
    var j := 0;
    while j < MatrixWidth
      invariant j <= MatrixWidth && IsMat4(m)
      invariant forall k :: 0 <= k < j ==> Cell(m, k) == words[MatrixWidth * i + k]
    {
      var m' := m[j % 4 := m[j % 4][j / 4 := words[MatrixWidth * i + j]]];
      CellUpdate(m, j, words[MatrixWidth * i + j]);
      m, j := m', j + 1;
    }
    SameCells(m, Matrix(words, i));
  }

  /** Writing cell `j` changes that cell and no other. */
  lemma CellUpdate(m: seq<seq<FloatBits>>, j: nat, w: FloatBits)
    requires IsMat4(m) && j < MatrixWidth
    ensures var m' := m[j % 4 := m[j % 4][j / 4 := w]];
            && IsMat4(m') && Cell(m', j) == w
            && forall k :: 0 <= k < MatrixWidth && k != j ==> Cell(m', k) == Cell(m, k)
  {
    forall k | 0 <= k < MatrixWidth && k != j
      ensures k % 4 != j % 4 || k / 4 != j / 4
    {
      assert k == 4 * (k / 4) + k % 4 && j == 4 * (j / 4) + j % 4;
    }
  }
}
