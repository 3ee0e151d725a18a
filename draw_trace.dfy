/**
 * What draw sends to the graphics API, as a trace of events: for each bucket
 * in order, the shader/material selection with the view-projection matrix,
 * the mesh's vertex array, one upload of the bucket's whole instance list to
 * the mesh's instance buffer, and one instanced draw.
 */
module DrawTrace {
  import opened Gl
  import opened MeshModel
  import opened Batching

  /** sizeof(InstanceData): one mat4. */
  const InstanceDataSize: nat := Mat4Size

  datatype DrawEvent =
      /** Shader selection, the u_ViewProjection uniform and the material bind of one bucket. */
    | BindShader(viewProj: Mat4)
      /** The mesh's vertex array, already configured with the instance attributes. */
    | BindVertexArray(mesh: Mesh)
      /** glBufferData on the mesh's instance buffer: replaces its whole contents. */
    | UploadInstances(mesh: Mesh, bytes: nat, data: seq<InstanceData>)
      /** glDrawElementsInstanced with the index count and instance count as GLsizei. */
    | DrawElementsInstanced(mesh: Mesh, indexCount: int, instanceCount: int)

  /** The four events of one bucket. */
  function BucketEvents(b: Renderable, viewProj: Mat4): seq<DrawEvent> {
    [ BindShader(viewProj),
      BindVertexArray(b.mesh),
      UploadInstances(b.mesh, |b.instances| * InstanceDataSize, b.instances),
      DrawElementsInstanced(b.mesh, ToGLsizei(b.mesh.IndexCount() as nat), ToGLsizei(|b.instances|)) ]
  }

  /** The events of drawing the buckets `bs`, in bucket order. */
  function Trace(bs: seq<Renderable>, viewProj: Mat4): (t: seq<DrawEvent>)
    ensures |t| == 4 * |bs|
  {
    if bs == [] then [] else Trace(bs[..|bs| - 1], viewProj) + BucketEvents(bs[|bs| - 1], viewProj)
  }

  /** The events of bucket `i` occupy positions 4i to 4i+3 of the trace. */
  lemma {:induction false} TraceAt(bs: seq<Renderable>, i: nat, viewProj: Mat4)
    requires i < |bs|
    ensures Trace(bs, viewProj)[4 * i .. 4 * i + 4] == BucketEvents(bs[i], viewProj)
  {
    var p := bs[..|bs| - 1];
    if i < |bs| - 1 {
      TraceAt(p, i, viewProj);
      assert p[i] == bs[i];
      var tp := Trace(p, viewProj);
      assert Trace(bs, viewProj)[..|tp|] == tp;
      assert Trace(bs, viewProj)[4 * i .. 4 * i + 4] == tp[4 * i .. 4 * i + 4];
    } else {
      assert Trace(bs, viewProj)[4 * i ..] == BucketEvents(bs[i], viewProj);
    }
  }

  /**
   * Draw issues exactly one upload and one instanced draw per bucket, in
   * bucket order: the upload carries the bucket's full instance list and the
   * draw's instance count is the bucket's size (below 2^31), its index count
   * the mesh's index count (below 2^31).
   */
  lemma {:induction false} OneUploadAndDrawPerBucket(bs: seq<Renderable>, viewProj: Mat4)
    ensures var t := Trace(bs, viewProj);
            && (forall j :: 0 <= j < |t| ==> (t[j].UploadInstances? <==> j % 4 == 2))
            && (forall j :: 0 <= j < |t| ==> (t[j].DrawElementsInstanced? <==> j % 4 == 3))
            && (forall i :: 0 <= i < |bs| ==>
                  t[4 * i + 2] == UploadInstances(bs[i].mesh, |bs[i].instances| * InstanceDataSize, bs[i].instances))
            && (forall i :: 0 <= i < |bs| ==>
                  t[4 * i + 3].DrawElementsInstanced? && t[4 * i + 3].mesh == bs[i].mesh
                  && (|bs[i].instances| < Two31 ==> t[4 * i + 3].instanceCount == |bs[i].instances|)
                  && (|bs[i].mesh.indices| < Two31 ==> t[4 * i + 3].indexCount == |bs[i].mesh.indices|))
  {
    var t := Trace(bs, viewProj);
    forall j | 0 <= j < |t|
      ensures t[j].UploadInstances? <==> j % 4 == 2
      ensures t[j].DrawElementsInstanced? <==> j % 4 == 3
    {
      TraceEventAt(bs, j, viewProj);
      var r := j % 4;
      assert r == 0 || r == 1 || r == 2 || r == 3;
    }
    forall i | 0 <= i < |bs|
      ensures t[4 * i + 2] == BucketEvents(bs[i], viewProj)[2]
      ensures t[4 * i + 3] == BucketEvents(bs[i], viewProj)[3]
    {
      TraceAt(bs, i, viewProj);
      assert t[4 * i + 2] == t[4 * i .. 4 * i + 4][2];
      assert t[4 * i + 3] == t[4 * i .. 4 * i + 4][3];
    }
  }

  /** Event j of the trace is event j % 4 of bucket j / 4. */
  lemma {:induction false} TraceEventAt(bs: seq<Renderable>, j: nat, viewProj: Mat4)
    requires j < 4 * |bs|
    ensures j / 4 < |bs| && Trace(bs, viewProj)[j] == BucketEvents(bs[j / 4], viewProj)[j % 4]
  {
    var i := j / 4;
    assert 4 * i <= j < 4 * i + 4;
    TraceAt(bs, i, viewProj);
    assert Trace(bs, viewProj)[j] == Trace(bs, viewProj)[4 * i .. 4 * i + 4][j - 4 * i];
  }

  /**
   * Drawing after a sequence of queue calls from empty: for the i-th distinct
   * mesh in order of first call, the upload carries exactly the matrices
   * queued for it, in call order, and the instanced draw counts one instance
   * per queue call naming it.
   */
  lemma DrawAfterQueueing(subs: seq<Submission>, viewProj: Mat4)
    ensures var order := FirstOccurrences(Meshes(subs));
            var t := Trace(Grouped(subs), viewProj);
            && |t| == 4 * |order|
            && forall i :: 0 <= i < |order| ==>
                 var n := multiset(Meshes(subs))[order[i]];
                 && t[4 * i + 2] == UploadInstances(order[i], n * InstanceDataSize, InstancesFor(subs, order[i]))
                 && t[4 * i + 3] == DrawElementsInstanced(order[i], ToGLsizei(order[i].IndexCount() as nat), ToGLsizei(n))
  {
    var order := FirstOccurrences(Meshes(subs));
    var g := Grouped(subs);
    GroupedIsFirstOccurrenceGrouping(subs);
    forall i | 0 <= i < |order|
      ensures |g[i].instances| == multiset(Meshes(subs))[order[i]]
      ensures Trace(g, viewProj)[4 * i .. 4 * i + 4] == BucketEvents(g[i], viewProj)
    {
      InstancesForCount(subs, order[i]);
      TraceAt(g, i, viewProj);
    }
    forall i | 0 <= i < |order|
      ensures Trace(g, viewProj)[4 * i + 2] == BucketEvents(g[i], viewProj)[2]
      ensures Trace(g, viewProj)[4 * i + 3] == BucketEvents(g[i], viewProj)[3]
    {
      assert Trace(g, viewProj)[4 * i + 2] == Trace(g, viewProj)[4 * i .. 4 * i + 4][2];
      assert Trace(g, viewProj)[4 * i + 3] == Trace(g, viewProj)[4 * i .. 4 * i + 4][3];
    }
  }
}
