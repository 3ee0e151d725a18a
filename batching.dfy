/**
 * The per-mesh instancing queue as values: an instance record, a bucket that
 * pairs one mesh with its instances, and what one call of `queue` does to the
 * ordered bucket vector. A sequence of queue calls is related to an
 * independent description of its outcome: one bucket per distinct mesh, in
 * the order of each mesh's first call, holding that mesh's matrices in call
 * order.
 */
module Batching {
  import opened Gl
  import opened MeshModel

  /** One instance: exactly one model matrix and nothing else. */
  datatype InstanceData = InstanceData(model: Mat4)

  /** A bucket: one mesh (compared by identity) and its instances in queue order. */
  datatype Renderable = Renderable(mesh: Mesh, instances: seq<InstanceData>)

  /** One call of queue, as the renderer received it. */
  datatype Submission = Submission(mesh: Mesh, model: Mat4)

  // ---------------------------------------------------------------------------
  // One queue call
  // ---------------------------------------------------------------------------

  /** The search of queue: the first bucket holding `mesh`, or |bs| (the end) when none does. */
  function FindMesh(bs: seq<Renderable>, mesh: Mesh): (k: nat)
    ensures k <= |bs|
    ensures k < |bs| ==> bs[k].mesh == mesh
    ensures forall j :: 0 <= j < k ==> bs[j].mesh != mesh
  {
    if bs == [] then 0
    else if bs[0].mesh == mesh then 0
    else 1 + FindMesh(bs[1..], mesh)
  }

  /**
   * The bucket vector after queue(mesh, model): a bucket for `mesh` is created
   * empty at the end when none exists, then the instance is appended to the
   * mesh's bucket.
   */
  function Queued(bs: seq<Renderable>, mesh: Mesh, model: Mat4): seq<Renderable> {
    var k := FindMesh(bs, mesh);
    var withBucket := if k == |bs| then bs + [Renderable(mesh, [])] else bs;
    withBucket[k := withBucket[k].(instances := withBucket[k].instances + [InstanceData(model)])]
  }

  ghost predicate HasBucket(bs: seq<Renderable>, mesh: Mesh) {
    exists k :: 0 <= k < |bs| && bs[k].mesh == mesh
  }

  /** No two buckets hold the same mesh. */
  ghost predicate DistinctMeshes(bs: seq<Renderable>) {
    forall i, j :: 0 <= i < j < |bs| ==> bs[i].mesh != bs[j].mesh
  }

  /** Every bucket holds at least one instance. */
  ghost predicate NoEmptyBuckets(bs: seq<Renderable>) {
    forall i :: 0 <= i < |bs| ==> |bs[i].instances| > 0
  }

  ghost predicate WellFormed(bs: seq<Renderable>) {
    DistinctMeshes(bs) && NoEmptyBuckets(bs)
  }

  /** Queueing a mesh that has no bucket appends exactly one bucket, holding just the new instance. */
  lemma QueueNewMesh(bs: seq<Renderable>, mesh: Mesh, model: Mat4)
    requires !HasBucket(bs, mesh)
    ensures Queued(bs, mesh, model) == bs + [Renderable(mesh, [InstanceData(model)])]
  {
    assert FindMesh(bs, mesh) == |bs|;
    var withBucket := bs + [Renderable(mesh, [])];
    assert withBucket[|bs|].instances + [InstanceData(model)] == [InstanceData(model)];
    assert Queued(bs, mesh, model) == withBucket[|bs| := Renderable(mesh, [InstanceData(model)])];
    assert withBucket[|bs| := Renderable(mesh, [InstanceData(model)])] == bs + [Renderable(mesh, [InstanceData(model)])];
  }

  /**
   * Queueing a mesh that has bucket `k` appends the instance to that bucket
   * only; the number of buckets and every other bucket stay the same.
   */
  lemma QueueExistingMesh(bs: seq<Renderable>, k: nat, mesh: Mesh, model: Mat4)
    requires DistinctMeshes(bs)
    requires k < |bs| && bs[k].mesh == mesh
    ensures var r := Queued(bs, mesh, model);
            && |r| == |bs|
            && r[k] == Renderable(mesh, bs[k].instances + [InstanceData(model)])
            && (forall j :: 0 <= j < |bs| && j != k ==> r[j] == bs[j])
  {
    assert FindMesh(bs, mesh) == k;
  }

  /** queue keeps the meshes distinct and every bucket non-empty. */
  lemma QueuePreservesWellFormed(bs: seq<Renderable>, mesh: Mesh, model: Mat4)
    requires WellFormed(bs)
    ensures WellFormed(Queued(bs, mesh, model))
  {
    if HasBucket(bs, mesh) {
      var k :| 0 <= k < |bs| && bs[k].mesh == mesh;
      QueueExistingMesh(bs, k, mesh, model);
    } else {
      QueueNewMesh(bs, mesh, model);
    }
  }

  // ---------------------------------------------------------------------------
  // A sequence of queue calls from an empty queue
  // ---------------------------------------------------------------------------

  /** The bucket vector after queueing `subs`, in order, starting from an empty one. */
  function Grouped(subs: seq<Submission>): seq<Renderable> {
    if subs == [] then []
    else
      var last := subs[|subs| - 1];
      Queued(Grouped(subs[..|subs| - 1]), last.mesh, last.model)
  }

  function Meshes(subs: seq<Submission>): (ms: seq<Mesh>)
    ensures |ms| == |subs|
    ensures forall i :: 0 <= i < |subs| ==> ms[i] == subs[i].mesh
  {
    seq(|subs|, i requires 0 <= i < |subs| => subs[i].mesh)
  }

  /** `s` with every element after its first occurrence removed. */
  function FirstOccurrences<T(==)>(s: seq<T>): seq<T> {
    if s == [] then []
    else
      var d := FirstOccurrences(s[..|s| - 1]);
      if s[|s| - 1] in d then d else d + [s[|s| - 1]]
  }

  /** The instances queued for `mesh`, in call order. */
  function InstancesFor(subs: seq<Submission>, mesh: Mesh): seq<InstanceData> {
    if subs == [] then []
    else
      var last := subs[|subs| - 1];
      InstancesFor(subs[..|subs| - 1], mesh) + (if last.mesh == mesh then [InstanceData(last.model)] else [])
  }

  ghost predicate NoDuplicates<T>(s: seq<T>) {
    forall i, j :: 0 <= i < j < |s| ==> s[i] != s[j]
  }

  /** FirstOccurrences keeps exactly the elements of its input, each once. */
  lemma {:induction false} FirstOccurrencesProperties<T>(s: seq<T>)
    ensures NoDuplicates(FirstOccurrences(s))
    ensures forall x :: x in FirstOccurrences(s) <==> x in s
  {
    if s != [] {
      FirstOccurrencesProperties(s[..|s| - 1]);
      assert s == s[..|s| - 1] + [s[|s| - 1]];
    }
  }

  /** A sequence without duplicates is as long as the set of its elements is large. */
  lemma {:induction false} NoDuplicatesCardinality<T>(s: seq<T>)
    requires NoDuplicates(s)
    ensures |set x | x in s| == |s|
  {
    if s != [] {
      var p := s[..|s| - 1];
      NoDuplicatesCardinality(p);
      assert (set x | x in s) == (set x | x in p) + {s[|s| - 1]};
      assert s[|s| - 1] !in p;
    }
  }

  /** The number of instances queued for `mesh` is the number of calls naming it. */
  lemma {:induction false} InstancesForCount(subs: seq<Submission>, mesh: Mesh)
    ensures |InstancesFor(subs, mesh)| == multiset(Meshes(subs))[mesh]
  {
    if subs != [] {
      var p := subs[..|subs| - 1];
      InstancesForCount(p, mesh);
      assert Meshes(subs) == Meshes(p) + [subs[|subs| - 1].mesh];
    }
  }

  lemma {:induction false} InstancesForAbsent(subs: seq<Submission>, mesh: Mesh)
    requires mesh !in Meshes(subs)
    ensures InstancesFor(subs, mesh) == []
  {
    if subs != [] {
      var p := subs[..|subs| - 1];
      assert forall i :: 0 <= i < |p| ==> Meshes(p)[i] == Meshes(subs)[i];
      InstancesForAbsent(p, mesh);
    }
  }

  /**
   * The outcome of any sequence of queue calls from empty: one bucket per
   * distinct mesh, ordered by each mesh's first call, holding exactly that
   * mesh's matrices in call order.
   */
  lemma {:induction false} GroupedIsFirstOccurrenceGrouping(subs: seq<Submission>)
    ensures var order := FirstOccurrences(Meshes(subs));
            && |Grouped(subs)| == |order|
            && forall i :: 0 <= i < |order| ==>
                 Grouped(subs)[i] == Renderable(order[i], InstancesFor(subs, order[i]))
  {
    if subs != [] {
      var p := subs[..|subs| - 1];
      var last := subs[|subs| - 1];
      GroupedIsFirstOccurrenceGrouping(p);
      var g := Grouped(p);
      var f := FirstOccurrences(Meshes(p));
      FirstOccurrencesProperties(Meshes(p));
      assert Meshes(subs) == Meshes(p) + [last.mesh];
      assert Meshes(subs)[..|subs| - 1] == Meshes(p);
      assert DistinctMeshes(g);
      forall m | m != last.mesh
        ensures InstancesFor(subs, m) == InstancesFor(p, m)
      {
      }
      if last.mesh in f {
        var k :| 0 <= k < |f| && f[k] == last.mesh;
        QueueExistingMesh(g, k, last.mesh, last.model);
      } else {
        assert !HasBucket(g, last.mesh);
        QueueNewMesh(g, last.mesh, last.model);
        InstancesForAbsent(p, last.mesh);
      }
    }
  }

  /**
   * After any sequence of queue calls from empty the buckets are well formed,
   * there is one bucket per distinct mesh queued, and each bucket holds as
   * many instances as there were calls naming its mesh.
   */
  lemma GroupedCounts(subs: seq<Submission>)
    ensures WellFormed(Grouped(subs))
    ensures |Grouped(subs)| == |set s | s in subs :: s.mesh|
    ensures forall i :: 0 <= i < |Grouped(subs)| ==>
              |Grouped(subs)[i].instances| == multiset(Meshes(subs))[Grouped(subs)[i].mesh]
  {
    var order := FirstOccurrences(Meshes(subs));
    GroupedIsFirstOccurrenceGrouping(subs);
    FirstOccurrencesProperties(Meshes(subs));
    NoDuplicatesCardinality(order);
    assert (set x | x in order) == (set s | s in subs :: s.mesh) by {
      forall x | x in Meshes(subs) ensures exists s :: s in subs && s.mesh == x {
        var i :| 0 <= i < |subs| && Meshes(subs)[i] == x;
        assert subs[i] in subs;
      }
    }
    forall i | 0 <= i < |order|
      ensures |Grouped(subs)[i].instances| > 0
      ensures |Grouped(subs)[i].instances| == multiset(Meshes(subs))[Grouped(subs)[i].mesh]
    {
      InstancesForCount(subs, order[i]);
      assert order[i] in multiset(Meshes(subs));
    }
  }
}
