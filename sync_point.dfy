/**
 * A sync point (`SyncPoint` in cowbird/permissions_synchronizer.py): the
 * services sharing resources, the permission-mapping table, and `sync`,
 * which turns one created or deleted Magpie permission into the permission
 * operations on the mapped resources.
 */
module Synchronizer {
  import opened Common
  import opened ResourcePath
  import opened SyncConfig
  import opened PermissionTree
  import opened DeletionGuard

  /** The Magpie operation a permission event calls: `create_permission` or `delete_permission`. */
  datatype Operation = CreatePermission | DeletePermission

  /** Per target permission of a target key: the user and the group it is synchronised for. */
  type Slots = map<PermName, (Option<string>, Option<string>)>

  /** What `_get_permission_data` produces for one target key. */
  datatype TargetData = TargetData(resPath: seq<Segment>, permissions: Slots)

  type PermissionData = map<ResKey, TargetData>

  /** One call of the permission operation: the target path with its last segment annotated. */
  datatype OpCall = OpCall(resPath: seq<Segment>, permission: PermName, user: Option<string>, group: Option<string>)

  /**
   * A resource key of the service that matches the tree and beats every other
   * matching key of the service by its number of literal segments.
   */
  ghost predicate IsBest(res: map<ResKey, Template>, k: ResKey, tree: seq<Segment>)
  {
    k in res && Match(res[k], tree).Some? &&
    forall k' :: k' in res && k' != k && Match(res[k'], tree).Some? ==> LiteralCount(res[k']) < LiteralCount(res[k])
  }

  lemma BestUnique(res: map<ResKey, Template>, tree: seq<Segment>)
    ensures forall k1, k2 :: IsBest(res, k1, tree) && IsBest(res, k2, tree) ==> k1 == k2
  {
  }

  /**
   * The outcome `_find_matching_res` has to produce: a missing service is a
   * KeyError, a template whose expression does not compile a regex error,
   * no match at all or a tie for the longest match a ValueError.
   */
  ghost function MatchingRes(services: seq<ServiceConfig>, serviceName: string, tree: seq<Segment>): Result<(ResKey, Groups)>
  {
    match ServiceResources(services, serviceName)
    case None => Failure(KeyError)
    case Some(res) =>
      if exists k :: k in res && !ValidTemplate(res[k]) then Failure(RegexError)
      else if exists k :: IsBest(res, k, tree) then
        var k :| IsBest(res, k, tree);
        Success((k, MatchedGroups(res[k], tree).value))
      else Failure(ValueError)
  }

  lemma MatchingResBest(services: seq<ServiceConfig>, serviceName: string, tree: seq<Segment>,
                        res: map<ResKey, Template>, k: ResKey)
    requires ServiceResources(services, serviceName) == Some(res)
    requires forall k' :: k' in res ==> ValidTemplate(res[k'])
    requires IsBest(res, k, tree)
    ensures MatchingRes(services, serviceName, tree) == Success((k, MatchedGroups(res[k], tree).value))
  {
    BestUnique(res, tree);
  }

  lemma MatchingResNoBest(services: seq<ServiceConfig>, serviceName: string, tree: seq<Segment>,
                          res: map<ResKey, Template>)
    requires ServiceResources(services, serviceName) == Some(res)
    requires forall k' :: k' in res ==> ValidTemplate(res[k'])
    requires forall k :: !IsBest(res, k, tree)
    ensures MatchingRes(services, serviceName, tree) == Failure(ValueError)
  {
  }

  /** Python truthiness of an optional name: None and "" are false. */
  predicate Given(principal: Option<string>)
  {
    principal.Some? && principal.value != ""
  }

  /** The report `_filter_used_targets` fetches: only for a principal that is given. */
  function ReportFor(principal: Option<string>, report: PermissionsReport): (r: Option<PermissionsReport>)
    ensures r.Some? <==> Given(principal)
  {
    if Given(principal) then Some(report) else None
  }

  /**
   * The slots of the permissions of one target key: a permission of the user
   * list is synchronised for the user, one of the group list for the group.
   */
  function SlotsFor(uL: seq<PermName>, gL: seq<PermName>, user: Option<string>, group: Option<string>): (r: Slots)
    ensures forall p :: p in r <==> p in uL || p in gL
  {
    map p | p in uL + gL :: (if p in uL then user else None, if p in gL then group else None)
  }

  /** Some key has no resource data (no service defines it, or its template reads an unbound group). */
  predicate DataMissing(services: seq<ServiceConfig>, groups: Groups, keys: set<ResKey>)
  {
    exists k :: k in keys && ResourceData(services, k, groups).Failure?
  }

  /** The permission data for the user and group copies, when every key has resource data. */
  function DataFor(services: seq<ServiceConfig>, groups: Groups, uT: TargetPerms, gT: TargetPerms,
                   user: Option<string>, group: Option<string>): (r: PermissionData)
    requires !DataMissing(services, groups, uT.Keys + gT.Keys)
    ensures r.Keys == uT.Keys + gT.Keys
  {
    map k | k in uT.Keys + gT.Keys :: RowFor(services, groups, k, EntryOf(uT, k).perms, EntryOf(gT, k).perms, user, group)
  }

  /** The permission data of one key: its resource path and the slots of its user and group lists. */
  function RowFor(services: seq<ServiceConfig>, groups: Groups, k: ResKey, uL: seq<PermName>, gL: seq<PermName>,
                  user: Option<string>, group: Option<string>): (r: TargetData)
    requires ResourceData(services, k, groups).Success?
    ensures r.resPath == ResourceData(services, k, groups).value.1
    ensures forall p :: p in r.permissions <==> p in uL || p in gL
  {
    TargetData(ResourceData(services, k, groups).value.1, SlotsFor(uL, gL, user, group))
  }

  /** The target dictionary of (source key, permission name), when it is present and not empty. */
  function TargetsFor(m: Mapping, srcKey: ResKey, name: PermName): (r: Option<TargetPerms>)
    ensures r.Some? ==> r.value != map[]
  {
    if srcKey in m && name in m[srcKey] && m[srcKey][name] != map[] then Some(m[srcKey][name]) else None
  }

  /** The call made for permission `p` of target key `k`. */
  function CallFor(pd: PermissionData, k: ResKey, p: PermName): OpCall
    requires k in pd && p in pd[k].permissions
  {
    OpCall(pd[k].resPath, p, pd[k].permissions[p].0, pd[k].permissions[p].1)
  }

  /** A target key with permissions to send but an empty path: `permissions_data[-1]` is an IndexError. */
  predicate BadPath(pd: PermissionData)
  {
    exists k :: k in pd && pd[k].permissions != map[] && pd[k].resPath == []
  }

  /**
   * Each call of `calls` is the call of a (target key, permission) of `pd`,
   * listed at the same place in `visited`, and no pair is called twice.
   */
  ghost predicate Made(pd: PermissionData, calls: seq<OpCall>, visited: seq<(ResKey, PermName)>)
  {
    |visited| == |calls| &&
    (forall i :: 0 <= i < |visited| ==>
      visited[i].0 in pd && visited[i].1 in pd[visited[i].0].permissions &&
      calls[i] == CallFor(pd, visited[i].0, visited[i].1)) &&
    (forall i, j :: 0 <= i < j < |visited| ==> visited[i] != visited[j])
  }

  /** `calls` makes one call per (target key, permission) of `pd` and no other. */
  ghost predicate Enumerates(pd: PermissionData, calls: seq<OpCall>, visited: seq<(ResKey, PermName)>)
  {
    Made(pd, calls, visited) &&
    forall k, p :: k in pd && p in pd[k].permissions ==> (k, p) in visited
  }

  /**
   * What `_find_permissions_to_sync` has to produce for the source key and
   * the permission: the permission data of the mapped target dictionary,
   * taken whole for both principals on create and as the deletion guard
   * leaves it for each principal on delete.
   */
  ghost predicate Planned(m: Mapping, services: seq<ServiceConfig>, srcKey: ResKey, groups: Groups, perm: Permission,
                          op: Operation, userReport: PermissionsReport, groupReport: PermissionsReport, pd: PermissionData)
  {
    TargetsFor(m, srcKey, perm.name).Some? &&
    var t := TargetsFor(m, srcKey, perm.name).value;
    var u := if op == CreatePermission then t else Kept(m, services, groups, srcKey, t, ReportFor(perm.user, userReport));
    var g := if op == CreatePermission then t else Kept(m, services, groups, srcKey, t, ReportFor(perm.group, groupReport));
    !DataMissing(services, groups, u.Keys + g.Keys) && pd == DataFor(services, groups, u, g, perm.user, perm.group)
  }

  /**
   * The loop of `sync` over planned permission data: the calls made, one per
   * target key and permission visited, and the IndexError of a key that has
   * permissions but an empty resource path. Without an error every target key
   * and permission has had its call.
   */
  ghost predicate Dispatched(pd: PermissionData, calls: seq<OpCall>, err: Option<Error>)
  {
    (err.None? <==> !BadPath(pd)) &&
    (err.Some? ==> err.value == IndexError) &&
    exists visited :: Made(pd, calls, visited) && (err.None? ==> Enumerates(pd, calls, visited))
  }

  /**
   * When `_find_permissions_to_sync` can fail for a source key with targets
   * `t`: on create, and on delete when no other source permission maps onto
   * `t`, exactly when some target key has no resource data; on delete with an
   * overlapping mapping the deletion guard may also raise.
   */
  ghost predicate PlanMayFail(m: Mapping, services: seq<ServiceConfig>, srcKey: ResKey, groups: Groups,
                              op: Operation, t: TargetPerms)
  {
    (op == DeletePermission && AnyOverlap(m, srcKey, t)) || DataMissing(services, groups, t.Keys + t.Keys)
  }

  /**
   * The outcome of `sync` on a sync point: the calls made and the error
   * raised, if any. The first failing step decides: no unique match raises
   * the matcher's error, a source permission without targets RuntimeError,
   * both with no call made; a plan that cannot be built raises the KeyError,
   * IndexError or TypeError of a failed lookup before any call. Otherwise the
   * planned permission data is dispatched.
   */
  ghost predicate Synced(m: Mapping, services: seq<ServiceConfig>, op: Operation, perm: Permission, tree: seq<Segment>,
                         userReport: PermissionsReport, groupReport: PermissionsReport,
                         calls: seq<OpCall>, err: Option<Error>)
  {
    var found := MatchingRes(services, perm.serviceName, tree);
    if found.Failure? then calls == [] && err == Some(found.error)
    else if TargetsFor(m, found.value.0, perm.name).None? then calls == [] && err == Some(RuntimeError)
    else
      var t := TargetsFor(m, found.value.0, perm.name).value;
      (calls == [] && err.Some? && LookupCrash(err.value) && PlanMayFail(m, services, found.value.0, found.value.1, op, t)) ||
      (exists pd :: Planned(m, services, found.value.0, found.value.1, perm, op, userReport, groupReport, pd) &&
                    Dispatched(pd, calls, err))
  }

  class SyncPoint {
    /** The services of the sync point with their resource keys (`self.services`). */
    var services: seq<ServiceConfig>
    /** Source key, source permission, target key, target permissions (`self.permissions_mapping`). */
    var mapping: Mapping

    /** Builds the table from the mapping lines, in order. */
    constructor(services: seq<ServiceConfig>, entries: seq<MappingEntry>)
      requires DistinctServiceNames(services)
      ensures this.services == services
      ensures mapping == Table(entries)
    {
      this.services := services;
      mapping := map[];
      new;
      var i := 0;
      while i < |entries|
        invariant 0 <= i <= |entries|
        invariant this.services == services
        invariant mapping == Table(entries[..i])
      {
        var e := entries[i];
        assert entries[..i + 1][..i] == entries[..i];
        if e.dir == Both || e.dir == Right {
          AddMapping(e.key1, e.perms1, e.key2, e.perms2);
        }
        if e.dir == Both || e.dir == Left {
          AddMapping(e.key2, e.perms2, e.key1, e.perms1);
        }
        i := i + 1;
      }
      assert entries[..|entries|] == entries;
    }

    /** `_add_mapping`: appends the target permissions under each listed source permission. */
    method AddMapping(src: ResKey, perms: seq<PermName>, target: ResKey, tps: seq<PermName>)
      modifies this
      ensures services == old(services)
      ensures mapping == Register(old(mapping), src, perms, target, tps)
    {
      if src !in mapping {
        mapping := mapping[src := map[]];
      }
      ghost var m0 := mapping;
      var i := 0;
      while i < |perms|
        invariant 0 <= i <= |perms|
        invariant services == old(services)
        invariant src in mapping
        invariant AddAll(mapping, src, perms[i..], target, tps) == AddAll(m0, src, perms, target, tps)
      {
        var perm := perms[i];
        var bySrc := mapping[src];
        var byPerm := if perm in bySrc then bySrc[perm] else map[];
        var list := if target in byPerm then byPerm[target] else [];
        mapping := mapping[src := bySrc[perm := byPerm[target := list + tps]]];
        assert perms[i..][0] == perm && perms[i..][1..] == perms[i + 1..];
        i := i + 1;
      }
      assert perms[i..] == [];
    }

    /**
     * `_find_matching_res`: every resource key of the service is tried; the
     * match with the most literal segments wins and must be the only one of
     * its length.
     */
    method FindMatchingRes(serviceName: string, tree: seq<Segment>) returns (r: Result<(ResKey, Groups)>)
      ensures r == MatchingRes(services, serviceName, tree)
    {
      var found := ServiceResources(services, serviceName);
      if found.None? {
        return Failure(KeyError);
      }
      var res := found.value;
      var collected := CollectMatches(res, tree);
      if collected.Failure? {
        assert Failure(RegexError) == MatchingRes(services, serviceName, tree);
        return Failure(RegexError);
      }
      var (lengths, groupsBy) := collected.value;
      r := SelectBest(res, tree, lengths, groupsBy);
      if r.Success? {
        MatchingResBest(services, serviceName, tree, res, r.value.0);
      } else {
        MatchingResNoBest(services, serviceName, tree, res);
      }
    }

    /**
     * `_filter_used_targets`: the user and the group copies of the target
     * dictionary once every other source permission of the table has been
     * checked; `userReport` and `groupReport` are what Magpie reports for the
     * permission's user and group.
     */
    method FilterUsedTargets(t: TargetPerms, inputSrc: ResKey, groups: Groups, perm: Permission,
                             userReport: PermissionsReport, groupReport: PermissionsReport)
      returns (r: Result<(TargetPerms, TargetPerms)>)
      ensures r.Success? ==> (r.value ==
        (Kept(mapping, services, groups, inputSrc, t, ReportFor(perm.user, userReport)),
         Kept(mapping, services, groups, inputSrc, t, ReportFor(perm.group, groupReport))))
      ensures r.Failure? ==> AnyOverlap(mapping, inputSrc, t) && LookupCrash(r.error)
      ensures !AnyOverlap(mapping, inputSrc, t) ==> r == Success((t, t))
    {
      var userPerms := ReportFor(perm.user, userReport);
      var groupPerms := ReportFor(perm.group, groupReport);
      var u, g := t, t;
      var todo := SrcPermissions(mapping);
      ghost var done: set<(ResKey, PermName)> := {};
      FilteredStart(mapping, services, groups, inputSrc, t, userPerms);
      FilteredStart(mapping, services, groups, inputSrc, t, groupPerms);
      while todo != {}
        invariant todo <= SrcPermissions(mapping)
        invariant forall pr :: pr in done <==> pr in SrcPermissions(mapping) && pr !in todo
        invariant Filtered(mapping, services, groups, inputSrc, t, done, u, userPerms)
        invariant Filtered(mapping, services, groups, inputSrc, t, done, g, groupPerms)
        invariant !AnyOverlap(mapping, inputSrc, t) ==> u == t && g == t
        decreases |todo|
      {
        var pr :| pr in todo;
        var step := CheckSourcePermission(mapping, services, groups, inputSrc, t, done, pr, userPerms, groupPerms, u, g);
        if step.Failure? {
          return Failure(step.error);
        }
        u, g := step.value.0, step.value.1;
        todo := todo - {pr};
        done := done + {pr};
      }
      assert done == SrcPermissions(mapping);
      FilteredEnd(mapping, services, groups, inputSrc, t, u, userPerms);
      FilteredEnd(mapping, services, groups, inputSrc, t, g, groupPerms);
      return Success((u, g));
    }

    /**
     * `_get_permission_data`: the resource path of every key of either copy,
     * with the permissions of the user copy marked for the user and those of
     * the group copy for the group.
     */
    method GetPermissionData(uT: TargetPerms, gT: TargetPerms, groups: Groups, perm: Permission)
      returns (r: Result<PermissionData>)
      ensures r.Failure? <==> DataMissing(services, groups, uT.Keys + gT.Keys)
      ensures r.Failure? ==> LookupCrash(r.error)
      ensures r.Success? ==> (!DataMissing(services, groups, uT.Keys + gT.Keys) &&
        r.value == DataFor(services, groups, uT, gT, perm.user, perm.group))
    {
      var pd := UserData(services, uT, groups, perm);
      if pd.Failure? {
        assert DataMissing(services, groups, uT.Keys + gT.Keys);
        return pd;
      }
      r := AddGroupData(services, uT, gT, groups, perm, pd.value);
      if r.Success? {
        DataForIs(services, groups, uT, gT, perm.user, perm.group, r.value);
      }
    }

    /**
     * `_find_permissions_to_sync`: a source permission without targets is a
     * RuntimeError; on create every mapped target permission is synchronised
     * for both principals, on delete only what the deletion guard keeps.
     */
    method FindPermissionsToSync(srcKey: ResKey, groups: Groups, perm: Permission, op: Operation,
                                 userReport: PermissionsReport, groupReport: PermissionsReport)
      returns (r: Result<PermissionData>)
      ensures TargetsFor(mapping, srcKey, perm.name).None? ==> r == Failure(RuntimeError)
      ensures TargetsFor(mapping, srcKey, perm.name).Some? && r.Failure? ==> LookupCrash(r.error)
      ensures r.Success? ==> Planned(mapping, services, srcKey, groups, perm, op, userReport, groupReport, r.value)
      ensures TargetsFor(mapping, srcKey, perm.name).Some? && op == CreatePermission ==>
        var t := TargetsFor(mapping, srcKey, perm.name).value;
        r.Failure? <==> DataMissing(services, groups, t.Keys + t.Keys)
      ensures TargetsFor(mapping, srcKey, perm.name).Some? && op == DeletePermission && r.Failure? ==>
        var t := TargetsFor(mapping, srcKey, perm.name).value;
        AnyOverlap(mapping, srcKey, t) || DataMissing(services, groups, t.Keys + t.Keys)
      ensures TargetsFor(mapping, srcKey, perm.name).Some? && op == DeletePermission ==>
        var t := TargetsFor(mapping, srcKey, perm.name).value;
        !AnyOverlap(mapping, srcKey, t) ==> (r.Failure? <==> DataMissing(services, groups, t.Keys + t.Keys))
    {
      var found := TargetsFor(mapping, srcKey, perm.name);
      if found.None? {
        return Failure(RuntimeError);
      }
      var t := found.value;
      if op == DeletePermission {
        var kept := FilterUsedTargets(t, srcKey, groups, perm, userReport, groupReport);
        if kept.Failure? {
          return Failure(kept.error);
        }
        r := GetPermissionData(kept.value.0, kept.value.1, groups, perm);
      } else {
        r := CreateData(t, groups, perm);
      }
    }

    /**
     * `sync`: the source resource is matched, the permissions to synchronise
     * are found and one permission operation is called per target key and
     * permission; the resource tree and Magpie's reports of the user's and
     * the group's permissions are given.
     */
    method Sync(op: Operation, perm: Permission, tree: seq<Segment>,
                userReport: PermissionsReport, groupReport: PermissionsReport)
      returns (calls: seq<OpCall>, err: Option<Error>)
      ensures Synced(mapping, services, op, perm, tree, userReport, groupReport, calls, err)
    {
      var found := FindMatchingRes(perm.serviceName, tree);
      if found.Failure? {
        return [], Some(found.error);
      }
      var (srcKey, groups) := found.value;
      var pd := FindPermissionsToSync(srcKey, groups, perm, op, userReport, groupReport);
      if pd.Failure? {
        return [], Some(pd.error);
      }
      ghost var visited;
      calls, err, visited := Dispatch(pd.value);
      assert Dispatched(pd.value, calls, err);
    }

    /** The create branch of `_find_permissions_to_sync`: every target permission for both the user and the group. */
    method CreateData(t: TargetPerms, groups: Groups, perm: Permission) returns (r: Result<PermissionData>)
      ensures r.Failure? <==> DataMissing(services, groups, t.Keys + t.Keys)
      ensures r.Failure? ==> LookupCrash(r.error)
      ensures r.Success? ==> (!DataMissing(services, groups, t.Keys + t.Keys) &&
        r.value == DataFor(services, groups, t, t, perm.user, perm.group))
    {
      var pd: PermissionData := map[];
      var todo := t.Keys;
      while todo != {}
        invariant todo <= t.Keys
        invariant forall k :: k in pd <==> k in t && k !in todo
        invariant Rows(services, groups, t, t, perm.user, perm.group, pd)
        decreases |todo|
      {
        var k :| k in todo;
        var rd := ResourceData(services, k, groups);
        if rd.Failure? {
          assert k in t.Keys + t.Keys && ResourceData(services, k, groups).Failure?;
          return Failure(rd.error);
        }
        var slots := BothSlots(t[k], perm.user, perm.group);
        pd := pd[k := TargetData(rd.value.1, slots)];
        todo := todo - {k};
      }
      DataForIs(services, groups, t, t, perm.user, perm.group, pd);
      return Success(pd);
    }
  }

  /**
   * One turn of the loop of `_filter_used_targets` over the source
   * permissions of the table; the source key of the removed permission is
   * skipped.
   */
  method CheckSourcePermission(m: Mapping, services: seq<ServiceConfig>, groups: Groups, inputSrc: ResKey,
                               t: TargetPerms, ghost done: set<(ResKey, PermName)>, pr: (ResKey, PermName),
                               userPerms: Option<PermissionsReport>, groupPerms: Option<PermissionsReport>,
                               u: TargetPerms, g: TargetPerms)
    returns (r: Result<(TargetPerms, TargetPerms)>)
    requires pr in SrcPermissions(m)
    requires Filtered(m, services, groups, inputSrc, t, done, u, userPerms)
    requires Filtered(m, services, groups, inputSrc, t, done, g, groupPerms)
    ensures r.Success? ==> Filtered(m, services, groups, inputSrc, t, done + {pr}, r.value.0, userPerms)
    ensures r.Success? ==> Filtered(m, services, groups, inputSrc, t, done + {pr}, r.value.1, groupPerms)
    ensures r.Failure? ==> AnyOverlap(m, inputSrc, t) && LookupCrash(r.error)
    ensures !AnyOverlap(m, inputSrc, t) ==> r == Success((u, g))
  {
    if pr.0 == inputSrc {
      FilteredStep(m, services, groups, inputSrc, t, done, pr, u, u, userPerms);
      FilteredStep(m, services, groups, inputSrc, t, done, pr, g, g, groupPerms);
      return Success((u, g));
    }
    FilteredWithin(m, services, groups, inputSrc, t, done, u, userPerms);
    FilteredWithin(m, services, groups, inputSrc, t, done, g, groupPerms);
    var step := ProcessPair(t, m[pr.0][pr.1], ResourceData(services, pr.0, groups), pr.1, userPerms, groupPerms, u, g);
    if step.Failure? {
      return Failure(step.error);
    }
    FilteredStep(m, services, groups, inputSrc, t, done, pr, u, step.value.0, userPerms);
    FilteredStep(m, services, groups, inputSrc, t, done, pr, g, step.value.1, groupPerms);
    return step;
  }

  /** The user loop of `_get_permission_data`: every key of the user copy with `[user, None]` slots. */
  method UserData(services: seq<ServiceConfig>, uT: TargetPerms, groups: Groups, perm: Permission)
    returns (r: Result<PermissionData>)
    ensures r.Failure? <==> DataMissing(services, groups, uT.Keys)
    ensures r.Failure? ==> LookupCrash(r.error)
    ensures r.Success? ==> (!DataMissing(services, groups, uT.Keys) &&
      r.value == DataFor(services, groups, uT, map[], perm.user, perm.group))
    ensures r.Success? ==> forall k :: k in r.value <==> k in uT
    ensures r.Success? ==> Rows(services, groups, uT, map[], perm.user, perm.group, r.value)
  {
    var pd: PermissionData := map[];
    ghost var none: TargetPerms := map[];
    var todo := uT.Keys;
    while todo != {}
      invariant todo <= uT.Keys
      invariant forall k :: k in pd <==> k in uT && k !in todo
      invariant Rows(services, groups, uT, none, perm.user, perm.group, pd)
      decreases |todo|
    {
      var k :| k in todo;
      var rd := ResourceData(services, k, groups);
      if rd.Failure? {
        assert k in uT.Keys && ResourceData(services, k, groups).Failure?;
        return Failure(rd.error);
      }
      var slots := UserSlots(uT[k], perm.user, perm.group);
      pd := pd[k := TargetData(rd.value.1, slots)];
      todo := todo - {k};
    }
    DataForIs(services, groups, uT, none, perm.user, perm.group, pd);
    return Success(pd);
  }

  /** The group loop of `_get_permission_data`: adds the keys and the group slots of the group copy. */
  method AddGroupData(services: seq<ServiceConfig>, uT: TargetPerms, gT: TargetPerms, groups: Groups, perm: Permission,
                      pd0: PermissionData)
    returns (r: Result<PermissionData>)
    requires forall k :: k in pd0 <==> k in uT
    requires Rows(services, groups, uT, map[], perm.user, perm.group, pd0)
    ensures r.Failure? ==> DataMissing(services, groups, uT.Keys + gT.Keys) && LookupCrash(r.error)
    ensures r.Success? ==> forall k :: k in r.value <==> k in uT || k in gT
    ensures r.Success? ==> Rows(services, groups, uT, gT, perm.user, perm.group, r.value)
  {
    var pd := pd0;
    ghost var gDone: TargetPerms := map[];
    var todo := gT.Keys;
    while todo != {}
      invariant todo <= gT.Keys
      invariant forall k :: k in gDone <==> k in gT && k !in todo
      invariant forall k :: k in gDone ==> gDone[k] == gT[k]
      invariant forall k :: k in pd <==> k in uT || k in gDone
      invariant Rows(services, groups, uT, gDone, perm.user, perm.group, pd)
      decreases |todo|
    {
      var k :| k in todo;
      var next := AddGroupRow(services, uT, groups, perm, pd, gDone, k, gT[k]);
      if next.Failure? {
        assert k in uT.Keys + gT.Keys && ResourceData(services, k, groups).Failure?;
        return next;
      }
      pd := next.value;
      gDone := gDone[k := gT[k]];
      todo := todo - {k};
    }
    assert gDone == gT;
    return Success(pd);
  }

  /** One turn of the group loop: the row of `k` gets the group slots of `gL`, or is created for them. */
  method AddGroupRow(services: seq<ServiceConfig>, uT: TargetPerms, groups: Groups, perm: Permission,
                     pd: PermissionData, ghost gDone: TargetPerms, k: ResKey, gL: seq<PermName>)
    returns (r: Result<PermissionData>)
    requires k !in gDone
    requires forall k' :: k' in pd <==> k' in uT || k' in gDone
    requires Rows(services, groups, uT, gDone, perm.user, perm.group, pd)
    ensures r.Failure? <==> k !in uT && ResourceData(services, k, groups).Failure?
    ensures r.Failure? ==> LookupCrash(r.error)
    ensures r.Success? ==> forall k' :: k' in r.value <==> k' in uT || k' in gDone[k := gL]
    ensures r.Success? ==> Rows(services, groups, uT, gDone[k := gL], perm.user, perm.group, r.value)
  {
    var row: TargetData;
    if k in pd {
      row := pd[k];
    } else {
      var rd := ResourceData(services, k, groups);
      if rd.Failure? {
        return Failure(rd.error);
      }
      row := TargetData(rd.value.1, map[]);
    }
    assert row == RowFor(services, groups, k, EntryOf(uT, k).perms, [], perm.user, perm.group);
    var slots := AddGroupSlots(row.permissions, EntryOf(uT, k).perms, gL, perm.user, perm.group);
    var pd' := pd[k := row.(permissions := slots)];
    RowsPutGroup(services, groups, uT, gDone, perm.user, perm.group, pd, k, gL, row.(permissions := slots));
    return Success(pd');
  }

  /** Every key of `pd` has resource data, and `pd` holds the row of its user and group lists on it. */
  ghost predicate Rows(services: seq<ServiceConfig>, groups: Groups, uT: TargetPerms, gT: TargetPerms,
                       user: Option<string>, group: Option<string>, pd: PermissionData)
  {
    forall k :: k in pd ==> (ResourceData(services, k, groups).Success? &&
      pd[k] == RowFor(services, groups, k, EntryOf(uT, k).perms, EntryOf(gT, k).perms, user, group))
  }

  /** Setting the group list of `k` and its row together keeps the rows of every key. */
  lemma RowsPutGroup(services: seq<ServiceConfig>, groups: Groups, uT: TargetPerms, gT: TargetPerms,
                     user: Option<string>, group: Option<string>, pd: PermissionData, k: ResKey, gL: seq<PermName>,
                     row: TargetData)
    requires Rows(services, groups, uT, gT, user, group, pd)
    requires ResourceData(services, k, groups).Success?
    requires row == RowFor(services, groups, k, EntryOf(uT, k).perms, gL, user, group)
    ensures Rows(services, groups, uT, gT[k := gL], user, group, pd[k := row])
  {
    forall k' | k' in pd[k := row] && k' != k
      ensures pd[k := row][k'] == RowFor(services, groups, k', EntryOf(uT, k').perms, EntryOf(gT[k := gL], k').perms, user, group)
    {
      assert EntryOf(gT[k := gL], k') == EntryOf(gT, k');
    }
  }

  /** A map holding, on exactly the keys of either copy, the row of that key is the permission data. */
  lemma DataForIs(services: seq<ServiceConfig>, groups: Groups, uT: TargetPerms, gT: TargetPerms,
                  user: Option<string>, group: Option<string>, pd: PermissionData)
    requires forall k :: k in pd <==> k in uT || k in gT
    requires Rows(services, groups, uT, gT, user, group, pd)
    ensures !DataMissing(services, groups, uT.Keys + gT.Keys)
    ensures pd == DataFor(services, groups, uT, gT, user, group)
  {
  }

  /** The user loop of `_get_permission_data` on one key: `[user, None]` per listed permission. */
  method UserSlots(l: seq<PermName>, user: Option<string>, group: Option<string>) returns (s: Slots)
    ensures s == SlotsFor(l, [], user, group)
  {
    s := map[];
    var i := 0;
    while i < |l|
      invariant 0 <= i <= |l|
      invariant s == SlotsFor(l[..i], [], user, group)
    {
      assert l[..i + 1] == l[..i] + [l[i]];
      s := s[l[i] := (user, None)];
      i := i + 1;
    }
    assert l[..i] == l;
  }

  /** The group loop on one key: the group slot of a permission already there, or `[None, group]`. */
  method AddGroupSlots(s0: Slots, uL: seq<PermName>, l: seq<PermName>, user: Option<string>, group: Option<string>)
    returns (s: Slots)
    requires s0 == SlotsFor(uL, [], user, group)
    ensures s == SlotsFor(uL, l, user, group)
  {
    s := s0;
    var i := 0;
    while i < |l|
      invariant 0 <= i <= |l|
      invariant s == SlotsFor(uL, l[..i], user, group)
    {
      assert l[..i + 1] == l[..i] + [l[i]];
      if l[i] in s {
        s := s[l[i] := (s[l[i]].0, group)];
      } else {
        s := s[l[i] := (None, group)];
      }
      i := i + 1;
    }
    assert l[..i] == l;
  }

  /** The create loop on one key: `[user, group]` per listed permission. */
  method BothSlots(l: seq<PermName>, user: Option<string>, group: Option<string>) returns (s: Slots)
    ensures s == SlotsFor(l, l, user, group)
  {
    s := map[];
    var i := 0;
    while i < |l|
      invariant 0 <= i <= |l|
      invariant s == SlotsFor(l[..i], l[..i], user, group)
    {
      assert l[..i + 1] == l[..i] + [l[i]];
      s := s[l[i] := (user, group)];
      i := i + 1;
    }
    assert l[..i] == l;
  }

  /**
   * The end of `_find_matching_res`: the longest match, which must be alone
   * with its length; `max` of no match at all is a ValueError as well.
   */
  method SelectBest(res: map<ResKey, Template>, tree: seq<Segment>, lengths: map<ResKey, nat>, groupsBy: map<ResKey, Groups>)
    returns (r: Result<(ResKey, Groups)>)
    requires forall k :: k in lengths <==> k in res && Match(res[k], tree).Some?
    requires forall k :: k in lengths ==> lengths[k] == LiteralCount(res[k])
    requires forall k :: k in lengths ==> k in groupsBy && groupsBy[k] == MatchedGroups(res[k], tree).value
    ensures r.Success? ==> IsBest(res, r.value.0, tree) && r.value.1 == MatchedGroups(res[r.value.0], tree).value
    ensures r.Failure? ==> r.error == ValueError && forall k :: !IsBest(res, k, tree)
  {
    if lengths == map[] {
      return Failure(ValueError);
    }
    var maxLen := MaxLength(lengths);
    BestIsUniqueLongest(res, tree, lengths, maxLen);
    var best := set k | k in lengths && lengths[k] == maxLen;
    if |best| != 1 {
      NoBestOnTie(res, tree, lengths, maxLen);
      return Failure(ValueError);
    }
    var k :| k in best;
    assert best == {k} by {
      assert |best - {k}| == 0;
    }
    forall k' | k' in lengths && lengths[k'] == maxLen
      ensures k' == k
    {
      assert k' in best;
    }
    return Success((k, groupsBy[k]));
  }

  lemma NoBestOnTie(res: map<ResKey, Template>, tree: seq<Segment>, lengths: map<ResKey, nat>, maxLen: nat)
    requires forall k :: IsBest(res, k, tree) <==>
      k in lengths && lengths[k] == maxLen && forall k' :: k' in lengths && lengths[k'] == maxLen ==> k' == k
    requires |set k | k in lengths && lengths[k] == maxLen| != 1
    ensures forall k :: !IsBest(res, k, tree)
  {
    var best := set k | k in lengths && lengths[k] == maxLen;
    forall k | IsBest(res, k, tree)
      ensures best == {k}
    {
    }
  }

  /**
   * The loop of `_find_matching_res` over the resource keys of the service:
   * the length and the groups of every key whose template matches, or the
   * regex error of a template that does not compile.
   */
  method CollectMatches(res: map<ResKey, Template>, tree: seq<Segment>)
    returns (r: Result<(map<ResKey, nat>, map<ResKey, Groups>)>)
    ensures r.Failure? <==> exists k :: k in res && !ValidTemplate(res[k])
    ensures r.Failure? ==> r.error == RegexError
    ensures r.Success? ==> forall k :: k in r.value.0 <==> k in res && Match(res[k], tree).Some?
    ensures r.Success? ==> forall k :: k in r.value.0 ==> r.value.0[k] == LiteralCount(res[k])
    ensures r.Success? ==> forall k :: k in r.value.0 ==> k in r.value.1 && r.value.1[k] == MatchedGroups(res[k], tree).value
  {
    var lengths: map<ResKey, nat> := map[];
    var groupsBy: map<ResKey, Groups> := map[];
    var todo := res.Keys;
    while todo != {}
      invariant todo <= res.Keys
      invariant forall k :: k in res && k !in todo ==> ValidTemplate(res[k])
      invariant forall k :: k in lengths <==> k in res && k !in todo && Match(res[k], tree).Some?
      invariant forall k :: k in lengths ==> lengths[k] == LiteralCount(res[k])
      invariant forall k :: k in lengths ==> k in groupsBy && groupsBy[k] == MatchedGroups(res[k], tree).value
      decreases |todo|
    {
      var k :| k in todo;
      if !ValidTemplate(res[k]) {
        return Failure(RegexError);
      }
      var g := MatchedGroups(res[k], tree);
      if g.Some? {
        lengths := lengths[k := LiteralCount(res[k])];
        groupsBy := groupsBy[k := g.value];
      }
      todo := todo - {k};
    }
    return Success((lengths, groupsBy));
  }

  /** A best key is exactly a key of the longest matches that is alone with that length. */
  lemma BestIsUniqueLongest(res: map<ResKey, Template>, tree: seq<Segment>, lengths: map<ResKey, nat>, maxLen: nat)
    requires forall k :: k in lengths <==> k in res && Match(res[k], tree).Some?
    requires forall k :: k in lengths ==> lengths[k] == LiteralCount(res[k])
    requires exists k :: k in lengths && lengths[k] == maxLen
    requires forall k :: k in lengths ==> lengths[k] <= maxLen
    ensures forall k :: IsBest(res, k, tree) <==>
      k in lengths && lengths[k] == maxLen && forall k' :: k' in lengths && lengths[k'] == maxLen ==> k' == k
  {
    forall k | IsBest(res, k, tree)
      ensures lengths[k] == maxLen
    {
      var k0 :| k0 in lengths && lengths[k0] == maxLen;
    }
  }

  /** `max(...)` over the match lengths, which are never empty here. */
  method MaxLength(lengths: map<ResKey, nat>) returns (m: nat)
    requires lengths != map[]
    ensures exists k :: k in lengths && lengths[k] == m
    ensures forall k :: k in lengths ==> lengths[k] <= m
  {
    var k0 :| k0 in lengths;
    m := lengths[k0];
    var todo := lengths.Keys - {k0};
    while todo != {}
      invariant todo <= lengths.Keys
      invariant exists k :: k in lengths && lengths[k] == m
      invariant forall k :: k in lengths && k !in todo ==> lengths[k] <= m
      decreases |todo|
    {
      var k :| k in todo;
      if lengths[k] > m {
        m := lengths[k];
      }
      todo := todo - {k};
    }
  }

  /**
   * The loop of `sync` over the permission data: the calls of every target
   * key in turn, until a key with permissions and an empty path raises an
   * IndexError.
   */
  method Dispatch(pd: PermissionData) returns (calls: seq<OpCall>, err: Option<Error>, ghost visited: seq<(ResKey, PermName)>)
    ensures err.None? <==> !BadPath(pd)
    ensures err.Some? ==> err.value == IndexError
    ensures Made(pd, calls, visited)
    ensures err.None? ==> Enumerates(pd, calls, visited)
  {
    calls, err, visited := [], None, [];
    var todo := pd.Keys;
    while todo != {}
      invariant todo <= pd.Keys
      invariant Made(pd, calls, visited)
      invariant forall i :: 0 <= i < |visited| ==> visited[i].0 !in todo
      invariant forall k, p :: k in pd && k !in todo && p in pd[k].permissions ==> (k, p) in visited
      invariant forall k :: k in pd && k !in todo ==> pd[k].permissions == map[] || pd[k].resPath != []
      decreases |todo|
    {
      var k :| k in todo;
      if pd[k].permissions != map[] && pd[k].resPath == [] {
        return calls, Some(IndexError), visited;
      }
      calls, visited := SendKey(pd, k, calls, visited);
      todo := todo - {k};
    }
  }

  /** The inner loop of `sync`: one call per permission of the key, its name, user and group on the last segment. */
  method SendKey(pd: PermissionData, k: ResKey, calls0: seq<OpCall>, ghost visited0: seq<(ResKey, PermName)>)
    returns (calls: seq<OpCall>, ghost visited: seq<(ResKey, PermName)>)
    requires k in pd
    requires Made(pd, calls0, visited0)
    requires forall i :: 0 <= i < |visited0| ==> visited0[i].0 != k
    ensures Made(pd, calls, visited)
    ensures |visited0| <= |visited| && visited[..|visited0|] == visited0
    ensures forall i :: |visited0| <= i < |visited| ==> visited[i].0 == k
    ensures forall p :: p in pd[k].permissions ==> (k, p) in visited
  {
    calls, visited := calls0, visited0;
    var todo := pd[k].permissions.Keys;
    while todo != {}
      invariant todo <= pd[k].permissions.Keys
      invariant Made(pd, calls, visited)
      invariant |visited0| <= |visited| && visited[..|visited0|] == visited0
      invariant forall i :: |visited0| <= i < |visited| ==> visited[i].0 == k && visited[i].1 !in todo
      invariant forall p :: p in pd[k].permissions && p !in todo ==> (k, p) in visited
      decreases |todo|
    {
      var p :| p in todo;
      var (user, group) := pd[k].permissions[p];
      calls := calls + [OpCall(pd[k].resPath, p, user, group)];
      visited := visited + [(k, p)];
      todo := todo - {p};
    }
  }
}
