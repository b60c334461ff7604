/** parseDraco (src/lib/loader.js): decode a Draco-compressed triangular mesh
    into flat position, index and optional RGBA colour arrays. The decoder is
    the abstract `Codec` value; the loader's checks, the order in which it asks
    the decoder for things, and its three copy loops are modelled as written. */
module Loader {
  import opened Wrappers
  import opened DracoCodec

  /** The four errors parseDraco throws, one per check. */
  datatype DracoError = UnsupportedGeometry | DecodeFailure | NoValidGeometry | PositionNotFound
  {
    /** The message of the thrown Error. */
    function Message(): string
    {
      match this
      case UnsupportedGeometry => "Unsupported Draco geometry type."
      case DecodeFailure => "Failed to decode Draco mesh."
      case NoValidGeometry => "Decoded mesh has no valid geometry."
      case PositionNotFound => "Draco POSITION attribute not found."
    }
  }

  /** The value parseDraco resolves to: a Float32Array of positions, a
      Uint32Array of triangle indices and a Uint8Array of RGBA colours or null. */
  datatype DecodedMesh = DecodedMesh(positions: array<real>, indices: array<int>, colors: Option<array<byte>>)

  /** The buffer holds a triangular mesh and the decoder produced it. */
  predicate Decoded(codec: Codec)
  {
    codec.geometryType == TriangularMesh && codec.statusOk && codec.meshPtr != 0
  }

  /** The decoded mesh has at least one point and at least one face. */
  predicate HasGeometry(codec: Codec)
  {
    Decoded(codec) && codec.numPoints != 0 && |codec.faces| != 0
  }

  /** All four checks pass. */
  predicate Accepted(codec: Codec)
  {
    HasGeometry(codec) && codec.position.Some?
  }

  /** A colour attribute the loader converts: present, with 3 or 4 components. */
  predicate UsableColor(color: Option<ColorAttribute>)
  {
    color.Some? && (color.value.numComponents == 3 || color.value.numComponents == 4)
  }

  // ---------------------------------------------------------------------------
  // Reference definitions, one triangle or one vertex at a time

  /** The faces' vertex triples laid end to end, face after face. */
  function FlattenFaces(faces: seq<Face>): (flat: seq<int>)
    ensures |flat| == 3 * |faces|
    decreases |faces|
  {
    if faces == [] then []
    else
      var last := faces[|faces| - 1];
      FlattenFaces(faces[..|faces| - 1]) + [last.v0, last.v1, last.v2]
  }

  /** Reads a flat index array back as triangles, three entries per face. */
  function Triangles(flat: seq<int>): (faces: seq<Face>)
    requires |flat| % 3 == 0
    ensures 3 * |faces| == |flat|
    decreases |flat|
  {
    if flat == [] then []
    else
      var n := |flat|;
      Triangles(flat[..n - 3]) + [Face(flat[n - 3], flat[n - 2], flat[n - 1])]
  }

  /** The per-face decoder requests for faces 0 .. n-1, in that order. */
  function FaceCalls(n: nat): (calls: seq<CodecCall>)
    ensures |calls| == n
  {
    if n == 0 then [] else FaceCalls(n - 1) + [GetFaceFromMesh(n - 1)]
  }

  /** The RGBA pixel of vertex i in a buffer of c-component colours. */
  function Pixel(temp: seq<byte>, c: nat, i: nat): seq<byte>
    requires c == 3 || c == 4
    requires i * c + c <= |temp|
  {
    [temp[i * c], temp[i * c + 1], temp[i * c + 2], if c == 4 then temp[i * c + 3] else 255]
  }

  /** The RGBA expansion of the first n vertices of a c-component colour buffer. */
  function Rgba(temp: seq<byte>, c: nat, n: nat): (colors: seq<byte>)
    requires c == 3 || c == 4
    requires n * c <= |temp|
    ensures |colors| == 4 * n
  {
    if n == 0 then [] else Rgba(temp, c, n - 1) + Pixel(temp, c, n - 1)
  }

  /** RGBA back to RGB: every fourth byte (the alpha channel) removed. */
  function DropAlpha(colors: seq<byte>): (rgb: seq<byte>)
    requires |colors| % 4 == 0
    ensures |rgb| == |colors| / 4 * 3
    decreases |colors|
  {
    if colors == [] then []
    else
      var n := |colors|;
      DropAlpha(colors[..n - 4]) + colors[n - 4..n - 1]
  }

  // ---------------------------------------------------------------------------
  // Properties of the reference definitions

  /** Entry f*3+k of the flattened faces is vertex k of face f: winding order
      is kept and nothing is sorted. */
  lemma {:induction false} FlattenFacesAt(faces: seq<Face>, f: nat, k: nat)
    requires f < |faces| && k < 3
    ensures FlattenFaces(faces)[f * 3 + k] == faces[f].Vertex(k)
  {
    var init := faces[..|faces| - 1];
    if f < |faces| - 1 {
      FlattenFacesAt(init, f, k);
    }
  }

  /** Flattening loses nothing: the triangles can be read back unchanged. */
  lemma {:induction false} TrianglesOfFlattenFaces(faces: seq<Face>)
    ensures Triangles(FlattenFaces(faces)) == faces
    decreases |faces|
  {
    if faces != [] {
      var init := faces[..|faces| - 1];
      var flat := FlattenFaces(faces);
      assert flat[..|flat| - 3] == FlattenFaces(init);
      TrianglesOfFlattenFaces(init);
      assert faces == init + [faces[|faces| - 1]];
    }
  }

  /** Face i is requested i-th: every face once, in increasing order. */
  lemma {:induction false} FaceCallsAt(n: nat, i: nat)
    requires i < n
    ensures FaceCalls(n)[i] == GetFaceFromMesh(i)
  {
    if i < n - 1 {
      FaceCallsAt(n - 1, i);
    }
  }

  /** Vertex i of the expansion: R, G, B from offset i*c of the source buffer;
      A from offset i*4+3 for four components, 255 (opaque) for three. */
  lemma {:induction false} RgbaAt(temp: seq<byte>, c: nat, n: nat, i: nat)
    requires c == 3 || c == 4
    requires n * c <= |temp|
    requires i < n
    ensures i * c + c <= |temp|
    ensures var colors := Rgba(temp, c, n);
      colors[i * 4] == temp[i * c] &&
      colors[i * 4 + 1] == temp[i * c + 1] &&
      colors[i * 4 + 2] == temp[i * c + 2] &&
      colors[i * 4 + 3] == (if c == 4 then temp[i * 4 + 3] else 255)
  {
    if i < n - 1 {
      RgbaAt(temp, c, n - 1, i);
    }
  }

  /** Four-component colours pass through the expansion unchanged. */
  lemma {:induction false} RgbaOfRgbaIsCopy(temp: seq<byte>, n: nat)
    requires 4 * n <= |temp|
    ensures Rgba(temp, 4, n) == temp[..4 * n]
  {
    if n > 0 {
      RgbaOfRgbaIsCopy(temp, n - 1);
      assert temp[..4 * n] == temp[..4 * (n - 1)] + temp[4 * (n - 1)..4 * n];
    }
  }

  /** Three-component colours are recovered by dropping the added alpha. */
  lemma {:induction false} DropAlphaOfRgb(temp: seq<byte>, n: nat)
    requires 3 * n <= |temp|
    ensures DropAlpha(Rgba(temp, 3, n)) == temp[..3 * n]
  {
    if n > 0 {
      var colors := Rgba(temp, 3, n);
      assert colors[..|colors| - 4] == Rgba(temp, 3, n - 1);
      DropAlphaOfRgb(temp, n - 1);
      assert temp[..3 * n] == temp[..3 * (n - 1)] + temp[3 * (n - 1)..3 * n];
    }
  }

  /** A 4-point mesh with RGB colours whose point 0 is (10, 20, 30) gets the
      RGBA colour (10, 20, 30, 255) for point 0. */
  lemma CubeCornerColor(attr: ColorAttribute)
    requires attr.numComponents == 3 && |attr.bytes| >= 3
    requires attr.bytes[0] == 10 && attr.bytes[1] == 20 && attr.bytes[2] == 30
    ensures Rgba(TempColors(attr, 4), 3, 4)[..4] == [10, 20, 30, 255]
  {
    RgbaAt(TempColors(attr, 4), 3, 4, 0);
  }

  /** The loader never compares face indices with the point count: a mesh
      whose only face names vertex 7 of 3 passes every check, and the 7 is
      copied into the index array as it is. */
  lemma FaceIndexNotBoundsChecked()
    ensures var codec := Codec(TriangularMesh, true, 1, 3, [Face(0, 1, 7)], Some([0.0, 0.0, 0.0]), None);
      Accepted(codec) && FlattenFaces(codec.faces)[2] == 7 && codec.numPoints < 7
  {
  }

  // ---------------------------------------------------------------------------
  // The loader

  /** loader.js lines 40-46: copy the first numPoints*3 decoder floats into positions. */
  method ExtractPositions(values: seq<real>, numPoints: nat) returns (positions: array<real>)
    ensures fresh(positions)
    ensures positions.Length == numPoints * 3
    ensures forall i :: 0 <= i < positions.Length ==> positions[i] == GetValue(values, i)
    ensures numPoints * 3 <= |values| ==> positions[..] == values[..numPoints * 3]
  {
    positions := new real[numPoints * 3];
    for i := 0 to numPoints * 3
      invariant forall j :: 0 <= j < i ==> positions[j] == GetValue(values, j)
    {
      positions[i] := GetValue(values, i);
    }
  }

  /** loader.js lines 50-56: ask the decoder for each face in turn and store its three
      vertex indices at offset f*3. */
  method ExtractIndices(faces: seq<Face>) returns (indices: array<int>, calls: seq<CodecCall>)
    ensures fresh(indices)
    ensures indices.Length == |faces| * 3
    ensures indices[..] == FlattenFaces(faces)
    ensures forall f, k :: 0 <= f < |faces| && 0 <= k < 3 ==> indices[f * 3 + k] == faces[f].Vertex(k)
    ensures calls == FaceCalls(|faces|)
  {
    var numFaces := |faces|;
    indices := new int[numFaces * 3];
    calls := [];
    for i := 0 to numFaces
      invariant forall p :: 0 <= p < i * 3 ==> indices[p] == FlattenFaces(faces)[p]
      invariant calls == FaceCalls(i)
    {
      calls := calls + [GetFaceFromMesh(i)];
      var face := faces[i];
      FlattenFacesAt(faces, i, 0);
      FlattenFacesAt(faces, i, 1);
      FlattenFacesAt(faces, i, 2);
      indices[i * 3], indices[i * 3 + 1], indices[i * 3 + 2] := face.v0, face.v1, face.v2;
    }
    forall f, k | 0 <= f < numFaces && 0 <= k < 3
      ensures indices[f * 3 + k] == faces[f].Vertex(k)
    {
      FlattenFacesAt(faces, f, k);
    }
  }

  /** loader.js lines 58-76: look up the colour attribute; with 3 or 4 components expand
      it to RGBA, otherwise leave the colours null. */
  method ExtractColors(color: Option<ColorAttribute>, numPoints: nat)
    returns (colors: Option<array<byte>>, calls: seq<CodecCall>)
    ensures calls == [GetAttributeByUniqueId(Color)] + (if UsableColor(color) then [GetAttributeUInt8ForAllPoints] else [])
    ensures colors.Some? <==> UsableColor(color)
    ensures colors.Some? ==> fresh(colors.value)
    ensures colors.Some? ==>
      colors.value.Length == numPoints * 4 &&
      colors.value[..] == Rgba(TempColors(color.value, numPoints), color.value.numComponents, numPoints)
  {
    colors := None;
    calls := [GetAttributeByUniqueId(Color)];
    if color.Some? {
      var c := color.value.numComponents;
      if c == 3 || c == 4 {
        var rgba := new byte[numPoints * 4];
        calls := calls + [GetAttributeUInt8ForAllPoints];
        var tempColors := TempColors(color.value, numPoints);
        for i := 0 to numPoints
          invariant forall p :: 0 <= p < i * 4 ==> rgba[p] == Rgba(tempColors, c, numPoints)[p]
        {
          RgbaAt(tempColors, c, numPoints, i);
          rgba[i * 4] := tempColors[i * c];
          rgba[i * 4 + 1] := tempColors[i * c + 1];
          rgba[i * 4 + 2] := tempColors[i * c + 2];
          rgba[i * 4 + 3] := if c == 4 then tempColors[i * 4 + 3] else 255;
        }
        colors := Some(rgba);
      }
    }
  }

  /** loader.js lines 9-88: the whole decode. The four checks run in order, each with its
      own error and before any later decoder request; then the three copies. */
  method ParseDraco(codec: Codec) returns (r: Result<DecodedMesh, DracoError>, calls: seq<CodecCall>)
    ensures codec.geometryType != TriangularMesh ==>
      r == Failure(UnsupportedGeometry) && calls == [GetEncodedGeometryType]
    ensures codec.geometryType == TriangularMesh && !(codec.statusOk && codec.meshPtr != 0) ==>
      r == Failure(DecodeFailure) && calls == [GetEncodedGeometryType, DecodeBufferToMesh]
    ensures Decoded(codec) && (codec.numPoints == 0 || |codec.faces| == 0) ==>
      r == Failure(NoValidGeometry) && calls == [GetEncodedGeometryType, DecodeBufferToMesh]
    ensures HasGeometry(codec) && codec.position.None? ==>
      r == Failure(PositionNotFound) &&
      calls == [GetEncodedGeometryType, DecodeBufferToMesh, GetAttributeByUniqueId(Position)]
    ensures r.Success? <==> Accepted(codec)
    ensures r.Success? ==>
      fresh(r.value.positions) && fresh(r.value.indices) &&
      (r.value.colors.Some? ==> fresh(r.value.colors.value))
    ensures r.Success? ==>
      r.value.positions.Length == codec.numPoints * 3 &&
      forall i :: 0 <= i < r.value.positions.Length ==>
        r.value.positions[i] == GetValue(codec.position.value, i)
    ensures r.Success? ==>
      r.value.indices.Length == |codec.faces| * 3 &&
      r.value.indices[..] == FlattenFaces(codec.faces)
    ensures r.Success? ==> (r.value.colors.Some? <==> UsableColor(codec.color))
    ensures r.Success? && r.value.colors.Some? ==>
      r.value.colors.value.Length == codec.numPoints * 4 &&
      r.value.colors.value[..] ==
        Rgba(TempColors(codec.color.value, codec.numPoints), codec.color.value.numComponents, codec.numPoints)
    ensures r.Success? ==>
      calls == [GetEncodedGeometryType, DecodeBufferToMesh, GetAttributeByUniqueId(Position),
                GetAttributeFloatForAllPoints] + FaceCalls(|codec.faces|) + [GetAttributeByUniqueId(Color)] +
               (if UsableColor(codec.color) then [GetAttributeUInt8ForAllPoints] else [])
  {
    calls := [GetEncodedGeometryType];
    if codec.geometryType != TriangularMesh {
      r := Failure(UnsupportedGeometry);
      return;
    }
    calls := calls + [DecodeBufferToMesh];
    if !codec.statusOk || codec.meshPtr == 0 {
      r := Failure(DecodeFailure);
      return;
    }
    var numPoints := codec.numPoints;
    var numFaces := |codec.faces|;
    if numPoints == 0 || numFaces == 0 {
      r := Failure(NoValidGeometry);
      return;
    }
    calls := calls + [GetAttributeByUniqueId(Position)];
    if codec.position.None? {
      r := Failure(PositionNotFound);
      return;
    }
    calls := calls + [GetAttributeFloatForAllPoints];
    var positions := ExtractPositions(codec.position.value, numPoints);
    var indices, faceCalls := ExtractIndices(codec.faces);
    calls := calls + faceCalls;
    var colors, colorCalls := ExtractColors(codec.color, numPoints);
    calls := calls + colorCalls;
    r := Success(DecodedMesh(positions, indices, colors));
  }

  /** The cube-corner scenario run through the whole decode: 4 points, 2 faces
      and an RGB colour attribute whose point 0 is (10, 20, 30). The decode
      succeeds and the first RGBA colour is (10, 20, 30, 255). */
  method CubeCornerDecode() returns (firstColor: seq<byte>)
    ensures firstColor == [10, 20, 30, 255]
  {
    var attr := ColorAttribute(3, [10, 20, 30, 40, 50, 60, 70, 80, 90, 100, 110, 120]);
    var codec := Codec(TriangularMesh, true, 1, 4, [Face(0, 1, 2), Face(0, 2, 3)],
                       Some([0.0, 0.0, 0.0, 1.0, 0.0, 0.0, 0.0, 1.0, 0.0, 0.0, 0.0, 1.0]), Some(attr));
    var r, calls := ParseDraco(codec);
    assert Accepted(codec) && UsableColor(codec.color);
    CubeCornerColor(attr);
    firstColor := r.value.colors.value[..4];
  }
}
