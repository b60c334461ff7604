/** What parseDraco observes of the Draco decoder (the draco3d WebAssembly module).
    The decoder's own decompression is not modelled: one `Codec` value records
    the answers the decoder gives for one input buffer, and the loader reads
    those answers in the order the source asks for them. */
module DracoCodec {
  import opened Wrappers

  /** An unsigned byte, the element type of a Uint8Array. */
  newtype byte = x: int | 0 <= x < 256

  /** The kinds of geometry the decoder's type probe can report. */
  datatype GeometryType = InvalidGeometryType | PointCloud | TriangularMesh

  /** The two attribute kinds the loader looks up on a decoded mesh. */
  datatype AttributeKind = Position | Color

  /** The three vertex indices the decoder reports for one triangle, in its
      winding order (what `face.GetValue(0..2)` returns after GetFaceFromMesh). */
  datatype Face = Face(v0: int, v1: int, v2: int) {
    /** The k-th vertex of the triangle. */
    function Vertex(k: nat): int
      requires k < 3
    {
      if k == 0 then v0 else if k == 1 then v1 else v2
    }
  }

  /** A colour attribute: its component count and the bytes the decoder writes
      for all points into the loader's temporary buffer. */
  datatype ColorAttribute = ColorAttribute(numComponents: nat, bytes: seq<byte>)

  /** The decoder's answers for one compressed buffer:
      - geometryType: what GetEncodedGeometryType reports;
      - statusOk, meshPtr: the status of DecodeBufferToMesh and the mesh's pointer;
      - numPoints: mesh.num_points();
      - faces: one entry per face, so |faces| is mesh.num_faces();
      - position: None when the POSITION lookup finds nothing, otherwise the
        floats GetAttributeFloatForAllPoints puts in its DracoFloat32Array;
      - color: None when the COLOR lookup finds nothing, otherwise the attribute. */
  datatype Codec = Codec(
    geometryType: GeometryType,
    statusOk: bool,
    meshPtr: nat,
    numPoints: nat,
    faces: seq<Face>,
    position: Option<seq<real>>,
    color: Option<ColorAttribute>)

  /** The decoder operations the loader issues, recorded in the order issued.
      Count queries (num_points, num_faces, num_components) and element reads
      (GetValue) are not recorded. */
  datatype CodecCall =
    | GetEncodedGeometryType
    | DecodeBufferToMesh
    | GetAttributeByUniqueId(kind: AttributeKind)
    | GetAttributeFloatForAllPoints
    | GetFaceFromMesh(face: nat)
    | GetAttributeUInt8ForAllPoints

  /** `dracoArray.GetValue(i)`: the i-th float of the decoder's array. A read past
      the array's end is not defined by the decoder; the model answers 0.0. */
  function GetValue(values: seq<real>, i: nat): real
  {
    if i < |values| then values[i] else 0.0
  }

  /** The contents of `tempColors`, a zero-initialised Uint8Array of
      `numPoints * numComponents` bytes, after the decoder has written the
      attribute's bytes into it from the start. */
  function TempColors(attr: ColorAttribute, numPoints: nat): seq<byte>
  {
    var len := numPoints * attr.numComponents;
    seq(len, k requires 0 <= k < len => if k < |attr.bytes| then attr.bytes[k] else 0)
  }
}
