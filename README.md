# Instanced mesh renderer: a verified model of its queue, draw and mesh setup

This project models the core of a small OpenGL renderer in Dafny and proves
properties of the model.

The renderer keeps a per-mesh instancing queue. `Renderer::queue(mesh, model)`
looks for the bucket of `mesh` in an ordered vector of buckets. If there is
none, it creates one at the end. Then it appends the model matrix to that
bucket. `Renderer::draw(viewProj)` walks the buckets in order. For each bucket
it uploads the whole instance list to the mesh's instance buffer and issues
one instanced draw. Then it clears the vector.

The mesh stores its vertices, indices and textures. `BindTextures` binds
texture i to texture unit i. It names each sampler by the texture's type plus
a per-type counter starting at 1. `setupMesh` records the vertex-attribute
layout, with the per-instance model matrix at locations 7 to 10.

Layout of the project:

- `gl.dfy` (module `Gl`): 32-bit unsigned integers and the glm vector and
  matrix values. Float contents are opaque and compared only for equality.
  Also the byte sizes of the attribute layout, and the conversion of a count
  to the signed 32-bit `GLsizei`.
- `mesh.dfy` (module `MeshModel`): the `Mesh` class. It has the stored data,
  `IndexCount`, the `BindTextures` loop with its four counters, and
  `SetupMesh`. Beside it is a counter-free specification of the sampler names
  (`SamplerName`, `TextureStep`, `TextureCalls`) and the lemmas about it.
- `batching.dfy` (module `Batching`): instance records and buckets as values.
  It specifies what one queue call does (`FindMesh`, `Queued`) and what a
  sequence of queue calls from empty produces (`Grouped`). That outcome is
  related to an independent description: one bucket per distinct mesh, in
  first-call order (`FirstOccurrences`), holding that mesh's matrices in call
  order (`InstancesFor`).
- `draw_trace.dfy` (module `DrawTrace`): the events `draw` sends to the
  graphics API, as a trace, and the lemmas about it.
- `renderer.dfy` (module `Renderer`): the `Renderer` class. Its field
  `buckets` is `r_bucket`. `Queue` and `Draw` update it in place. A ghost
  history of the queue calls since the last draw ties the field to `Grouped`.

The source's `draw` refers to names that its own headers do not declare. The
model follows the evident intent:

- the signature is `draw(viewProj)`, as in `renderer.cpp`; `renderer.h` has
  `draw()`;
- the index count comes from `Mesh::IndexCount()`;
- the vertex array is bound as `Mesh::Bind` does;
- the final clear empties `r_bucket`, which the source calls `m_Buckets`.

`src/app.cpp:66-76` calls a static `Renderer::BeginScene/Submit/EndScene`
API, passing a `Model` (not a `Mesh`), a shader and a model matrix to
`Submit`. No shown file declares or defines that API. This model follows the
code that exists: `queue` with one bucket per mesh.

Graphics-API calls are not executed. They are recorded as events: `GlCall`
for texture binding and `DrawEvent` for drawing. The shader's uniform-location
lookup is a function passed in by the caller.

## Model

| member | source | states |
|---|---|---|
| `Renderer.Renderer.constructor` | src/gfx/renderer.cpp:4-5 | A new renderer has an empty bucket vector and no pending queue calls. |
| `Renderer.Renderer.FindBucket` | src/gfx/renderer.cpp:12-15 | The `find_if` loop returns the index of the first bucket whose mesh is the argument, or the vector's length when no bucket holds it. |
| `Renderer.Renderer.Queue` | src/gfx/renderer.cpp:10-28 | The new bucket vector is the old one after one queue step. The call is added to the pending history, the vector stays equal to the grouping of that history, and it stays well formed (distinct meshes, no empty bucket). `model` defaults to the identity matrix. |
| `Renderer.Renderer.Draw` | src/gfx/renderer.cpp:30-61 | The emitted trace is the trace of the buckets before the call, in bucket order. Afterwards the vector and the history are empty, so a second draw emits nothing (`Trace` of no buckets has length 0). |
| `Batching.FindMesh` | src/gfx/renderer.cpp:12-15 | The result is at most the bucket count. If it is smaller, that bucket holds the mesh. No earlier bucket holds the mesh. |
| `Batching.QueueNewMesh` | src/gfx/renderer.cpp:17-26 | Queueing a mesh that has no bucket appends exactly one bucket at the end. It holds that mesh and the single given matrix. |
| `Batching.QueueExistingMesh` | src/gfx/renderer.cpp:12-26 | Queueing a mesh that has bucket k appends the matrix to bucket k only. The bucket count and every other bucket are unchanged. |
| `Batching.QueuePreservesWellFormed` | src/gfx/renderer.cpp:12-26 | Queue keeps the buckets' meshes pairwise distinct. It keeps every bucket non-empty, because a bucket is created only right before a push. |
| `Batching.GroupedIsFirstOccurrenceGrouping` | src/gfx/renderer.cpp:10-28 | After any sequence of queue calls from empty, bucket i holds the i-th distinct mesh in order of first call. Its instances are exactly the matrices queued for that mesh, in call order. |
| `Batching.GroupedCounts` | src/gfx/renderer.cpp:10-28 | After any sequence of queue calls from empty, the buckets are well formed. Their number is the number of distinct meshes queued. Each bucket's size is the number of calls naming its mesh. |
| `Batching.InstancesForCount` | src/gfx/renderer.cpp:24-26 | The number of instances queued for a mesh equals the number of calls naming it. |
| `DrawTrace.Trace` | src/gfx/renderer.cpp:32-58 | Drawing n buckets emits exactly 4n events. |
| `DrawTrace.TraceAt` | src/gfx/renderer.cpp:32-58 | Events 4i to 4i+3 are bucket i's: shader bind, vertex-array bind, upload, instanced draw. |
| `DrawTrace.OneUploadAndDrawPerBucket` | src/gfx/renderer.cpp:44-57 | The trace holds exactly one upload and one instanced draw per bucket, in bucket order. Each upload carries the bucket's full instance list (size times 64 bytes). Each draw names the bucket's mesh. Its instance count is the bucket's size and its index count is the mesh's index count, whenever these are below 2^31. |
| `DrawTrace.DrawAfterQueueing` | src/gfx/renderer.cpp:10-61 | Drawing after a sequence of queue calls from empty: for the i-th distinct mesh, the upload carries exactly its queued matrices in call order. The draw's instance count is the `GLsizei` of the number of calls naming the mesh. |
| `Gl.ToGLsizei` | src/gfx/renderer.cpp:56 | The cast to `GLsizei` gives a signed 32-bit value congruent to the count modulo 2^32. It equals the count when the count is below 2^31. |
| `MeshModel.Mesh.constructor` | src/gfx/mesh.h:53-60 | The constructor stores the vertices, indices and textures unchanged. The recorded attribute layout is the one `SetupMesh` promises. |
| `MeshModel.Mesh.IndexCount` | src/gfx/mesh.h:104 | The index count never exceeds the number of stored indices. It equals that number when the number fits in 32 bits. |
| `MeshModel.Mesh.BindTextures` | src/gfx/mesh.h:69-102 | The calls issued are, for each texture in order, the calls of the counter-free specification, then selecting unit 0. The loop proves this by keeping each counter equal to 1 plus the number of earlier textures of its type. |
| `MeshModel.Mesh.SetupMesh` | src/gfx/mesh.h:132-177 | There are 11 attributes at locations 0 to 10. Locations 0-6 are per-vertex (divisor 0, stride `sizeof(Vertex)` = 88), one per `Vertex` field in declaration order with that field's component count (3, 3, 2, 3, 3, 4, 4). Only location 5, the bone ids, is an integer attribute. They tile the vertex struct without gap or overlap, so each offset is the field's `offsetof`. Location 7+i has 4 float components, byte offset 16i, stride 64 (`sizeof(mat4)`) and divisor 1. |
| `MeshModel.DecimalString` | src/gfx/mesh.h:83 | `std::to_string` yields at least one character. It yields exactly one character for numbers below 10. |
| `MeshModel.DecimalStringInjective` | src/gfx/mesh.h:83-89 | Different counter values give different decimal strings. |
| `MeshModel.DecimalStringValue` | src/gfx/mesh.h:83-89 | The numeral of a counter is made of decimal digits, has no leading zero (unless the number is 0), and the digits' value is the counter. |
| `MeshModel.NumberedSamplerLookedUp` | src/gfx/mesh.h:78-92 | In the calls issued, the uniform looked up for a texture of one of the four numbered types is its type followed by its 1-based rank among the earlier textures of that type. |
| `MeshModel.UnnumberedSamplerLookedUp` | src/gfx/mesh.h:78-92 | In the calls issued, the uniform looked up for a texture of any other type is its bare type, with an empty suffix. |
| `MeshModel.UnnumberedTypeCanCollide` | src/gfx/mesh.h:78-92 | Names are distinct only among numbered types: a texture of type `texture_diffuse1` looks up the same name as the first diffuse texture. |
| `MeshModel.CountersIndependent` | src/gfx/mesh.h:71-89 | The four counters are independent. Inserting a texture of another type anywhere before a texture leaves that texture's sampler name unchanged. |
| `MeshModel.SamplerNamesDistinct` | src/gfx/mesh.h:71-92 | Two different textures of numbered types never get the same sampler name. |
| `MeshModel.SameTypeNamesDistinct` | src/gfx/mesh.h:82-89 | Two textures of the same numbered type get different numbers, hence different names. |
| `MeshModel.TextureStepInCalls` | src/gfx/mesh.h:76-98 | Texture i's calls come right after the calls of the textures before it, in list order. |
| `MeshModel.TextureBoundToItsUnit` | src/gfx/mesh.h:76-97 | Texture i's calls select unit i and look up its sampler name. They set the sampler to i exactly when the location is not -1, and end by binding the texture's id. |

## Left out

- Graphics-API semantics: `glBufferData`, `glDrawElementsInstanced`, `glBindTexture`, `glVertexAttribPointer` and the rest are recorded as events, not interpreted. `glGetUniformLocation` is a function parameter.
- The object names produced by `glGenVertexArrays` / `glGenBuffers` (`VAO`, `VBO`, `EBO`, `instanceVBO`) are not modelled. Events name the mesh instead of its buffer.
- The vertex and index buffer uploads in `setupMesh` (src/gfx/mesh.h:111-130) are not modelled: they are API calls with no logic. The attribute layout of the same function is modelled.
- `Mesh::Bind` (src/gfx/mesh.h:63-66) appears only as the `BindVertexArray` event of `Draw`.
- Shader and material binding in `draw` (src/gfx/renderer.cpp:33-38) reads fields that the shown types do not have. It is one opaque `BindShader(viewProj)` event per bucket. Which shader or material a bucket uses is not modelled.
- `Renderer.Renderer.Draw`: the upload's byte count `size() * sizeof(InstanceData)` is an unbounded `nat`. The wrap of `size_t` needs more than 2^58 instances and is not modelled.
- `MeshModel.Mesh.BindTextures`: the four `unsigned int` counters and the loop index are unbounded. Their wrap at 2^32 textures is not modelled.
- Matrix, vector and vertex float contents are opaque values, compared only for equality. `Vertex`'s bone arrays are not constrained to length 4.
- `r_bucket` is private in the source. Dafny's only way to hide a field is an export set, which this project does not use. In the model, only `Queue` and `Draw` modify the field.
- `Mesh`'s `vertices`, `indices` and `textures` are public, mutable vectors in the source (src/gfx/mesh.h:43-45) but constant fields in the model. The model cannot express a mesh changed between `queue` and `draw`; `draw` would then read the changed index count.
- `queue` accepts a null mesh pointer and groups it like any other key (src/gfx/renderer.cpp:10-20). The model's `Mesh` references are non-null, so a null key is not modelled.
- The destructor (src/gfx/renderer.cpp:7-8) is empty and has no counterpart.
- The static `Renderer::BeginScene/Submit/EndScene` API called at src/app.cpp:66-76 is declared nowhere in the shown files and is not modelled.
- Not modelled, because they are GLFW/OpenGL scaffolding or declarations without bodies: src/gfx/renderable.hpp, src/core/window.hpp, src/main.cpp, src/app.cpp.
- Byte sizes assume 4-byte `float` and `int` with no padding: `sizeof(Vertex)` = 88, `sizeof(glm::vec4)` = 16, `sizeof(glm::mat4)` = 64.
