# Draco mesh loader, modelled in Dafny

This project models `parseDraco` (`src/lib/loader.js`). The function decodes a
mesh stored in Google's Draco compressed format into three flat arrays:
vertex positions, triangle indices, and optional per-vertex RGBA colours.
The Draco decoder itself is a WebAssembly library whose code is not visible.
It is modelled as a value, `DracoCodec.Codec`, that records the decoder's
answers for one buffer:

- the encoded geometry type;
- the decode status and the mesh pointer;
- the point count and the faces;
- the position floats, if the attribute exists;
- the colour attribute, if it exists.

`Loader.ParseDraco` is an imperative method. It runs the source's four checks
in the source's order, then fills Dafny arrays with the source's three
counted loops. It returns either a `DecodedMesh` or one of four errors:
`UnsupportedGeometry`, `DecodeFailure`, `NoValidGeometry`,
`PositionNotFound`. Each error carries the source's message text
(`DracoError.Message`). The method also returns the decoder requests it
made, in order (`CodecCall`). That trace is what lets the contract say that
a failed check stops the decode before any later request, for example that
a non-mesh buffer is never decoded.

Files:

- `wrappers.dfy`: `Option` and `Result`.
- `codec.dfy`: the decoder's observable answers.
- `loader.dfy`: the loader. It also holds reference definitions built one
  face or one vertex at a time (`FlattenFaces`, `Rgba`, `FaceCalls`), their
  inverses (`Triangles`, `DropAlpha`), and the lemmas linking them.

What the code does not do, so the model does not claim it:

- The code never checks face indices against the point count.
  `FaceIndexNotBoundsChecked` shows a mesh with an out-of-range index that
  passes every check.
- The code releases decoder objects only on the success path.
- The code ignores `normalizeColors`, although its JSDoc (`src/lib/loader.js:6`) says it normalises colours to 0-1.

## Model

| member | source | states |
|---|---|---|
| `Loader.ParseDraco` | src/lib/loader.js:9-88 | The four checks in order. Wrong geometry type gives UnsupportedGeometry after only the type probe. A bad status or a null mesh pointer gives DecodeFailure, even if the status is ok. Zero points or zero faces gives NoValidGeometry, and only after a successful decode. A missing POSITION attribute gives PositionNotFound. Success happens exactly when all four pass; colour never affects it. On success: positions hold numPoints*3 decoder floats in order; indices are the faces flattened in winding order; colours are present exactly for 3 or 4 components and are the RGBA expansion; the full request trace is fixed. Every returned array is freshly allocated. |
| `Loader.ExtractPositions` | src/lib/loader.js:40-46 | Allocates a fresh array of numPoints*3 slots, and slot i holds the decoder's i-th float. When the decoder has enough floats, the array equals their prefix. |
| `Loader.ExtractIndices` | src/lib/loader.js:50-56 | Allocates a fresh array of numFaces*3 slots, and slot f*3+k holds vertex k of face f. The array equals the flattened faces. The decoder is asked for faces 0..numFaces-1 in order. |
| `Loader.ExtractColors` | src/lib/loader.js:58-76 | The COLOR lookup is always made. Colours are returned exactly when the attribute exists with 3 or 4 components; otherwise null, not an error. Returned colours are a fresh array of numPoints*4 bytes and are the RGBA expansion of the temporary buffer. The bulk byte request is made only in that case. |
| `DracoCodec.GetValue` | src/lib/loader.js:45 | Returns the decoder's i-th position float. Past the end of the decoder's array it returns 0.0, a choice of the model, since the decoder leaves that read undefined. |
| `DracoCodec.TempColors` | src/lib/loader.js:65-66 | Returns the contents of the temporary colour buffer after the decoder fills it: numPoints*c bytes, the attribute's bytes from the start, and 0 wherever the decoder wrote nothing. |
| `Loader.DracoError.Message` | src/lib/loader.js:17-38 | Returns the text of the Error each check throws, word for word. |
| `Loader.Decoded` | src/lib/loader.js:17-26 | True exactly when the geometry type is a triangular mesh, the decode status is ok and the mesh pointer is non-zero. |
| `Loader.HasGeometry` | src/lib/loader.js:29-33 | True exactly when the mesh was decoded and has at least one point and at least one face. |
| `Loader.Accepted` | src/lib/loader.js:35-38 | True exactly when the mesh has geometry and the POSITION lookup found an attribute. |
| `Loader.UsableColor` | src/lib/loader.js:60-63 | True exactly when the COLOR lookup found an attribute with 3 or 4 components. |
| `Loader.FlattenFaces` | src/lib/loader.js:50-55 | The flattened faces have three entries per face. |
| `Loader.FlattenFacesAt` | src/lib/loader.js:52-55 | Entry f*3+k of the flattened faces is vertex k of face f. Winding order is kept and nothing is sorted. |
| `Loader.TrianglesOfFlattenFaces` | src/lib/loader.js:50-55 | Reading the flat index array back three at a time gives the original faces: flattening loses nothing and reorders nothing. |
| `Loader.FaceCalls` | src/lib/loader.js:52-53 | The face loop makes one decoder request per face. |
| `Loader.FaceCallsAt` | src/lib/loader.js:52-53 | The i-th per-face request is for face i. |
| `Loader.Rgba` | src/lib/loader.js:64-74 | The RGBA expansion of n vertices has 4*n bytes. |
| `Loader.RgbaAt` | src/lib/loader.js:69-74 | For vertex i, channels 0..2 are the temporary's bytes at i*c+0..2. Channel 3 is the byte at i*4+3 when c is 4, and 255 when c is 3. |
| `Loader.RgbaOfRgbaIsCopy` | src/lib/loader.js:69-74 | With 4 components the expansion equals the temporary buffer. |
| `Loader.DropAlphaOfRgb` | src/lib/loader.js:69-74 | With 3 components, removing the alpha channel from the expansion gives back the temporary buffer. |
| `Loader.CubeCornerColor` | src/lib/loader.js:69-74 | Expanding a 3-component buffer for 4 points whose first bytes are 10, 20, 30 gives 10, 20, 30, 255 for point 0. |
| `Loader.CubeCornerDecode` | src/lib/loader.js:9-88 | Decoding a 4-point, 2-face mesh whose RGB colour for point 0 is 10, 20, 30 succeeds, and its first RGBA colour is 10, 20, 30, 255. |
| `Loader.FaceIndexNotBoundsChecked` | src/lib/loader.js:29-55 | A mesh with 3 points whose face names vertex 7 passes every check, and the 7 reaches the index array. |

Decoding the same codec value twice gives arrays with identical contents.
This follows from `ParseDraco`'s contract, which fixes every element of every
array it returns.

## Left out

- Loading the decoder module (`createDecoderModule`) and the `async` wrapper. This is a foreign WebAssembly load. The decoder is an input value instead.
- The decoder's internals. `DecodeBufferToMesh`, `GetAttributeFloatForAllPoints`, `GetFaceFromMesh` and `GetAttributeUInt8ForAllPoints` are foreign code, so only their results are modelled.
- Which attribute `GetAttributeByUniqueId(mesh, draco.POSITION)` or `draco.COLOR` returns is decided inside the decoder. The model takes each lookup's result (present or absent) as given.
- `draco.destroy` calls (lines 48, 56, 79-81). This is foreign memory management. The source also skips it on the error paths, so no release is modelled on any path.
- Float32 semantics. Positions are copied and never computed on, so they are reals. A read past the end of the decoder's float array is undefined in the decoder; `GetValue` answers 0.0 there.
- How the decoder fills `tempColors`. It is modelled as the attribute's bytes written from the start of a zero-filled buffer of numPoints*c bytes (`TempColors`).
- The conversion of the decoder's Int32 face values into a Uint32Array, and the Int8Array view of the input buffer (lines 13, 54). Indices are unbounded integers, and no bound is added that the code does not check.
- The `normalizeColors` parameter (lines 6, 9). It is documented but never used.
- `console.error` and the rethrow (lines 84-87). This is logging only; the error passes through unchanged.
- JavaScript number limits on `numPoints * 3` and on typed-array lengths. Counts are unbounded naturals.
- `src/setupNiivue.js` (viewer setup, registering the loader for `drc` files, fetching a mesh URL). This is user-interface and network glue.
