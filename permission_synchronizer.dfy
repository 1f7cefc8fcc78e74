/**
 * `PermissionSynchronizer` (cowbird/permissions_synchronizer.py): the sync
 * points of every `sync_permissions` entry, and the create and delete
 * operations that run a permission event through each of them in turn.
 */
module PermissionSync {
  import opened Common
  import opened ResourcePath
  import opened SyncConfig
  import opened PermissionTree
  import opened Synchronizer

  /** The services and the mapping lines of one `sync_permissions` entry. */
  datatype SyncEntry = SyncEntry(services: seq<ServiceConfig>, mapping: seq<MappingEntry>)

  /** The calls of every sync point that ran, in order. */
  function AllCalls(outcomes: seq<(seq<OpCall>, Option<Error>)>): (r: seq<OpCall>)
    ensures outcomes == [] ==> r == []
  {
    if outcomes == [] then [] else AllCalls(outcomes[..|outcomes| - 1]) + outcomes[|outcomes| - 1].0
  }

  /** One sync point ran as `sync` does, with this outcome. */
  ghost predicate PointRan(point: SyncPoint, op: Operation, perm: Permission, tree: seq<Segment>,
                           userReport: PermissionsReport, groupReport: PermissionsReport,
                           outcome: (seq<OpCall>, Option<Error>))
    reads point
  {
    Synced(point.mapping, point.services, op, perm, tree, userReport, groupReport, outcome.0, outcome.1)
  }

  /**
   * The sync points ran in order, each as `sync` does, and every one but the
   * last that ran finished without an error.
   */
  ghost predicate RanInOrder(points: seq<SyncPoint>, op: Operation, perm: Permission, tree: seq<Segment>,
                             userReport: PermissionsReport, groupReport: PermissionsReport,
                             outcomes: seq<(seq<OpCall>, Option<Error>)>)
    reads points
  {
    |outcomes| <= |points| &&
    (forall j :: 0 <= j < |outcomes| - 1 ==> outcomes[j].1.None?) &&
    (forall j {:trigger PointRan(points[j], op, perm, tree, userReport, groupReport, outcomes[j])} :: 0 <= j < |outcomes| ==>
      PointRan(points[j], op, perm, tree, userReport, groupReport, outcomes[j]))
  }

  lemma RanOneMore(points: seq<SyncPoint>, op: Operation, perm: Permission, tree: seq<Segment>,
                   userReport: PermissionsReport, groupReport: PermissionsReport,
                   outcomes: seq<(seq<OpCall>, Option<Error>)>, next: (seq<OpCall>, Option<Error>))
    requires RanInOrder(points, op, perm, tree, userReport, groupReport, outcomes)
    requires |outcomes| < |points|
    requires outcomes != [] ==> outcomes[|outcomes| - 1].1.None?
    requires PointRan(points[|outcomes|], op, perm, tree, userReport, groupReport, next)
    ensures RanInOrder(points, op, perm, tree, userReport, groupReport, outcomes + [next])
  {
    var more := outcomes + [next];
    forall j | 0 <= j < |more|
      ensures PointRan(points[j], op, perm, tree, userReport, groupReport, more[j])
    {
      if j < |outcomes| {
        assert more[j] == outcomes[j];
      }
    }
  }

  lemma AllCallsAppend(outcomes: seq<(seq<OpCall>, Option<Error>)>, next: (seq<OpCall>, Option<Error>))
    ensures AllCalls(outcomes + [next]) == AllCalls(outcomes) + next.0
  {
    assert (outcomes + [next])[..|outcomes|] == outcomes;
  }

  class PermissionSynchronizer {
    /** One sync point per `sync_permissions` entry (`self.sync_point`). */
    var points: seq<SyncPoint>

    /** Builds a sync point for every entry, in order. */
    constructor(entries: seq<SyncEntry>)
      requires forall i :: 0 <= i < |entries| ==> DistinctServiceNames(entries[i].services)
      ensures |points| == |entries|
      ensures forall i :: 0 <= i < |entries| ==>
        points[i].services == entries[i].services && points[i].mapping == Table(entries[i].mapping)
    {
      var built: seq<SyncPoint> := [];
      var i := 0;
      while i < |entries|
        invariant 0 <= i <= |entries|
        invariant |built| == i
        invariant forall j :: 0 <= j < i ==>
          built[j].services == entries[j].services && built[j].mapping == Table(entries[j].mapping)
      {
        var point := new SyncPoint(entries[i].services, entries[i].mapping);
        built := built + [point];
        i := i + 1;
      }
      points := built;
    }

    /**
     * The loop of `create_permission` and `delete_permission`: every sync
     * point syncs the permission, and the first error stops the loop.
     */
    method SyncAll(op: Operation, perm: Permission, tree: seq<Segment>,
                   userReport: PermissionsReport, groupReport: PermissionsReport)
      returns (calls: seq<OpCall>, err: Option<Error>, ghost outcomes: seq<(seq<OpCall>, Option<Error>)>)
      ensures RanInOrder(points, op, perm, tree, userReport, groupReport, outcomes)
      ensures calls == AllCalls(outcomes)
      ensures err.None? <==> |outcomes| == |points| && forall i :: 0 <= i < |outcomes| ==> outcomes[i].1.None?
      ensures err.Some? ==> outcomes != [] && err == outcomes[|outcomes| - 1].1
    {
      calls, err, outcomes := [], None, [];
      var i := 0;
      while i < |points|
        invariant 0 <= i <= |points|
        invariant |outcomes| == i
        invariant RanInOrder(points, op, perm, tree, userReport, groupReport, outcomes)
        invariant forall j :: 0 <= j < i ==> outcomes[j].1.None?
        invariant calls == AllCalls(outcomes)
      {
        var made, failed := points[i].Sync(op, perm, tree, userReport, groupReport);
        assert PointRan(points[i], op, perm, tree, userReport, groupReport, (made, failed));
        RanOneMore(points, op, perm, tree, userReport, groupReport, outcomes, (made, failed));
        AllCallsAppend(outcomes, (made, failed));
        outcomes := outcomes + [(made, failed)];
        calls := calls + made;
        if failed.Some? {
          return calls, failed, outcomes;
        }
        i := i + 1;
      }
    }

    /** `create_permission`: the same permission on every service sharing the resource. */
    method CreatePermission(perm: Permission, tree: seq<Segment>,
                            userReport: PermissionsReport, groupReport: PermissionsReport)
      returns (calls: seq<OpCall>, err: Option<Error>, ghost outcomes: seq<(seq<OpCall>, Option<Error>)>)
      ensures RanInOrder(points, Operation.CreatePermission, perm, tree, userReport, groupReport, outcomes)
      ensures calls == AllCalls(outcomes)
      ensures err.None? <==> |outcomes| == |points| && forall i :: 0 <= i < |outcomes| ==> outcomes[i].1.None?
      ensures err.Some? ==> outcomes != [] && err == outcomes[|outcomes| - 1].1
    {
      calls, err, outcomes := SyncAll(Operation.CreatePermission, perm, tree, userReport, groupReport);
    }

    /** `delete_permission`: the same permission removed on every service sharing the resource. */
    method DeletePermission(perm: Permission, tree: seq<Segment>,
                            userReport: PermissionsReport, groupReport: PermissionsReport)
      returns (calls: seq<OpCall>, err: Option<Error>, ghost outcomes: seq<(seq<OpCall>, Option<Error>)>)
      ensures RanInOrder(points, Operation.DeletePermission, perm, tree, userReport, groupReport, outcomes)
      ensures calls == AllCalls(outcomes)
      ensures err.None? <==> |outcomes| == |points| && forall i :: 0 <= i < |outcomes| ==> outcomes[i].1.None?
      ensures err.Some? ==> outcomes != [] && err == outcomes[|outcomes| - 1].1
    {
      calls, err, outcomes := SyncAll(Operation.DeletePermission, perm, tree, userReport, groupReport);
    }
  }
}
