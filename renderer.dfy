/**
 * The renderer: its only state is the ordered bucket vector `r_bucket`,
 * changed in place by queue and emptied by draw. The ghost `pending` records
 * the queue calls since the last draw, so the bucket vector can be tied to
 * the grouping proved about those calls in Batching.
 */
module Renderer {
  import opened Gl
  import opened MeshModel
  import opened Batching
  import opened DrawTrace

  class Renderer {
    /** r_bucket: one bucket per distinct mesh, in order of creation. */
    var buckets: seq<Renderable>
    /** The queue calls since construction or the last draw. */
    ghost var pending: seq<Submission>

    ghost predicate Valid()
      reads this
    {
      buckets == Grouped(pending)
    }

    constructor ()
      ensures Valid() && buckets == [] && pending == []
    {
      buckets := [];
      pending := [];
    }

    /** The search of queue: the first bucket whose mesh is `mesh`, or |buckets| when there is none. */
    method FindBucket(mesh: Mesh) returns (k: nat)
      ensures k == FindMesh(buckets, mesh)
    {
      k := 0;
      while k < |buckets| && buckets[k].mesh != mesh
        invariant k <= |buckets|
        invariant forall j :: 0 <= j < k ==> buckets[j].mesh != mesh
      {
        k := k + 1;
      }
    }

    /**
     * Appends `model` to the bucket of `mesh`, creating that bucket empty at
     * the end of the vector first when there is none.
     */
    method Queue(mesh: Mesh, model: Mat4 := Identity())
      requires Valid()
      modifies this
      ensures Valid() && pending == old(pending) + [Submission(mesh, model)]
      ensures buckets == Queued(old(buckets), mesh, model)
      ensures WellFormed(buckets)
    {
      var k := FindBucket(mesh);
      if k == |buckets| {
        buckets := buckets + [Renderable(mesh, [])];
      }
      buckets := buckets[k := buckets[k].(instances := buckets[k].instances + [InstanceData(model)])];
      pending := pending + [Submission(mesh, model)];
      assert pending[..|pending| - 1] == old(pending);
      GroupedCounts(pending);
    }

    /**
     * Draws every bucket in order, one upload and one instanced draw each,
     * and then empties the queue.
     */
    method Draw(viewProj: Mat4) returns (trace: seq<DrawEvent>)
      requires Valid()
      modifies this
      ensures trace == Trace(old(buckets), viewProj)
      ensures Valid() && buckets == [] && pending == []
    {
      trace := [];
      for i := 0 to |buckets|
        invariant trace == Trace(buckets[..i], viewProj)
      {
        var bucket := buckets[i];
        trace := trace + [BindShader(viewProj), BindVertexArray(bucket.mesh)];
        var bytes := |bucket.instances| * InstanceDataSize;
        trace := trace + [UploadInstances(bucket.mesh, bytes, bucket.instances)];
        var indexCount := ToGLsizei(bucket.mesh.IndexCount() as nat);
        trace := trace + [DrawElementsInstanced(bucket.mesh, indexCount, ToGLsizei(|bucket.instances|))];
        assert buckets[..i + 1][..i] == buckets[..i];
      }
      assert buckets[..|buckets|] == buckets;
      buckets := [];
      pending := [];
    }
  }
}
