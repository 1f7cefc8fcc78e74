/**
 * The static part of a sync point: the permission record, the services with
 * their configured resource keys, and the permission-mapping table that the
 * mapping lines of a sync configuration build.
 */
module SyncConfig {
  import opened Common
  import opened ResourcePath

  type ResKey = string
  type PermName = string

  /** A permission as the synchroniser receives it. */
  datatype Permission = Permission(
    serviceName: string,
    resourceId: string,
    resourceFullName: string,
    name: PermName,
    access: string,
    scope: string,
    user: Option<string>,
    group: Option<string>)

  /** `Permission.__eq__`: two permissions are equal when all eight fields are. */
  predicate SamePermission(a: Permission, b: Permission)
  {
    a.serviceName == b.serviceName && a.resourceId == b.resourceId &&
    a.resourceFullName == b.resourceFullName && a.name == b.name &&
    a.access == b.access && a.scope == b.scope && a.user == b.user && a.group == b.group
  }

  lemma SamePermissionIsEquality(a: Permission, b: Permission)
    ensures SamePermission(a, b) <==> a == b
  {
  }

  /** The arrow of a mapping line: `->`, `<-` or `<->`. */
  datatype Direction = Right | Left | Both

  /** A mapping line `key1 : perms1 <arrow> key2 : perms2`, already parsed. */
  datatype MappingEntry = MappingEntry(
    key1: ResKey, perms1: seq<PermName>, dir: Direction, key2: ResKey, perms2: seq<PermName>)

  /** Source key, then source permission, then target key, to target permissions. */
  type Mapping = map<ResKey, map<PermName, map<ResKey, seq<PermName>>>>

  /** The target permissions registered for (source key, source permission, target key). */
  function TargetsOf(m: Mapping, src: ResKey, perm: PermName, target: ResKey): seq<PermName>
  {
    if src in m && perm in m[src] && target in m[src][perm] then m[src][perm][target] else []
  }

  /** `tps` written `n` times one after the other. */
  function Repeat(tps: seq<PermName>, n: nat): (r: seq<PermName>)
    ensures |r| == n * |tps|
  {
    if n == 0 then [] else tps + Repeat(tps, n - 1)
  }

  /** One step of `_add_mapping`: append `tps` under (src, perm, target), creating levels as needed. */
  function AddOne(m: Mapping, src: ResKey, perm: PermName, target: ResKey, tps: seq<PermName>): Mapping
  {
    var bySrc := if src in m then m[src] else map[];
    var byPerm := if perm in bySrc then bySrc[perm] else map[];
    var list := if target in byPerm then byPerm[target] else [];
    m[src := bySrc[perm := byPerm[target := list + tps]]]
  }

  function AddAll(m: Mapping, src: ResKey, perms: seq<PermName>, target: ResKey, tps: seq<PermName>): Mapping
    decreases |perms|
  {
    if perms == [] then m else AddAll(AddOne(m, src, perms[0], target, tps), src, perms[1..], target, tps)
  }

  /** The table after `_add_mapping(src, perms, target, tps)`. */
  function Register(m: Mapping, src: ResKey, perms: seq<PermName>, target: ResKey, tps: seq<PermName>): Mapping
  {
    AddAll(if src in m then m else m[src := map[]], src, perms, target, tps)
  }

  /** The registrations one mapping line makes, in the order the constructor makes them. */
  function ApplyEntry(m: Mapping, e: MappingEntry): Mapping
  {
    var m1 := if e.dir == Both || e.dir == Right then Register(m, e.key1, e.perms1, e.key2, e.perms2) else m;
    if e.dir == Both || e.dir == Left then Register(m1, e.key2, e.perms2, e.key1, e.perms1) else m1
  }

  /** The table built from a list of mapping lines. */
  function Table(entries: seq<MappingEntry>): Mapping
  {
    if entries == [] then map[] else ApplyEntry(Table(entries[..|entries| - 1]), entries[|entries| - 1])
  }

  lemma {:induction false} AddOneEffect(m: Mapping, src: ResKey, perm: PermName, target: ResKey, tps: seq<PermName>,
                                        s: ResKey, p: PermName, t: ResKey)
    ensures TargetsOf(AddOne(m, src, perm, target, tps), s, p, t) ==
      TargetsOf(m, s, p, t) + (if s == src && p == perm && t == target then tps else [])
  {
  }

  lemma {:induction false} AddAllEffect(m: Mapping, src: ResKey, perms: seq<PermName>, target: ResKey, tps: seq<PermName>,
                                        s: ResKey, p: PermName, t: ResKey)
    ensures TargetsOf(AddAll(m, src, perms, target, tps), s, p, t) ==
      TargetsOf(m, s, p, t) + (if s == src && t == target then Repeat(tps, Count(perms, p)) else [])
    decreases |perms|
  {
    if perms != [] {
      var m1 := AddOne(m, src, perms[0], target, tps);
      AddOneEffect(m, src, perms[0], target, tps, s, p, t);
      AddAllEffect(m1, src, perms[1..], target, tps, s, p, t);
      if s == src && t == target {
        if perms[0] == p {
          assert Repeat(tps, Count(perms, p)) == tps + Repeat(tps, Count(perms[1..], p));
        }
      }
    }
  }

  lemma {:induction false} AddAllKeys(m: Mapping, src: ResKey, perms: seq<PermName>, target: ResKey, tps: seq<PermName>)
    requires src in m
    ensures AddAll(m, src, perms, target, tps).Keys == m.Keys
    ensures forall s :: s in m && s != src ==> AddAll(m, src, perms, target, tps)[s] == m[s]
    ensures forall p :: p in AddAll(m, src, perms, target, tps)[src] <==> p in m[src] || p in perms
    ensures forall p :: p in m[src] && p !in perms ==> AddAll(m, src, perms, target, tps)[src][p] == m[src][p]
    ensures forall p, t :: p in perms ==>
      (t in AddAll(m, src, perms, target, tps)[src][p] <==> t == target || (p in m[src] && t in m[src][p]))
    decreases |perms|
  {
    if perms != [] {
      var m1 := AddOne(m, src, perms[0], target, tps);
      AddAllKeys(m1, src, perms[1..], target, tps);
      assert forall p :: p in perms <==> p == perms[0] || p in perms[1..];
    }
  }

  /**
   * `_add_mapping` appends: under the source key, every listed source
   * permission gets the target permissions appended once per occurrence,
   * nothing else changes, and the source key exists afterwards even when no
   * permission is listed.
   */
  lemma RegisterEffect(m: Mapping, src: ResKey, perms: seq<PermName>, target: ResKey, tps: seq<PermName>)
    ensures Register(m, src, perms, target, tps).Keys == m.Keys + {src}
    ensures forall s :: s in m && s != src ==> Register(m, src, perms, target, tps)[s] == m[s]
    ensures forall p :: p in Register(m, src, perms, target, tps)[src] <==> (src in m && p in m[src]) || p in perms
    ensures forall s, p, t ::
      (TargetsOf(Register(m, src, perms, target, tps), s, p, t) ==
       TargetsOf(m, s, p, t) + (if s == src && t == target then Repeat(tps, Count(perms, p)) else []))
  {
    var m0 := if src in m then m else m[src := map[]];
    AddAllKeys(m0, src, perms, target, tps);
    forall s, p, t
      ensures TargetsOf(Register(m, src, perms, target, tps), s, p, t) ==
        TargetsOf(m, s, p, t) + (if s == src && t == target then Repeat(tps, Count(perms, p)) else [])
    {
      AddAllEffect(m0, src, perms, target, tps, s, p, t);
      assert TargetsOf(m0, s, p, t) == TargetsOf(m, s, p, t);
    }
  }

  /**
   * The contribution of one mapping line: `->` registers key1's permissions
   * towards key2, `<-` key2's towards key1, `<->` both; each registration
   * appends to what earlier lines registered.
   */
  lemma EntryEffect(m: Mapping, e: MappingEntry, s: ResKey, p: PermName, t: ResKey)
    ensures TargetsOf(ApplyEntry(m, e), s, p, t) ==
      TargetsOf(m, s, p, t)
      + (if (e.dir == Right || e.dir == Both) && s == e.key1 && t == e.key2 then Repeat(e.perms2, Count(e.perms1, p)) else [])
      + (if (e.dir == Left || e.dir == Both) && s == e.key2 && t == e.key1 then Repeat(e.perms1, Count(e.perms2, p)) else [])
    ensures ApplyEntry(m, e).Keys == m.Keys
      + (if e.dir == Right || e.dir == Both then {e.key1} else {})
      + (if e.dir == Left || e.dir == Both then {e.key2} else {})
  {
    var m1 := if e.dir == Both || e.dir == Right then Register(m, e.key1, e.perms1, e.key2, e.perms2) else m;
    if e.dir == Both || e.dir == Right {
      RegisterEffect(m, e.key1, e.perms1, e.key2, e.perms2);
    }
    if e.dir == Both || e.dir == Left {
      RegisterEffect(m1, e.key2, e.perms2, e.key1, e.perms1);
    }
  }

  /** A configured service of a sync point: its name and its resource keys with their templates. */
  datatype ServiceConfig = ServiceConfig(name: string, resources: map<ResKey, Template>)

  predicate DistinctServiceNames(services: seq<ServiceConfig>)
  {
    forall i, j :: 0 <= i < j < |services| ==> services[i].name != services[j].name
  }

  /** The resource keys of a named service (`self.services[name]`). */
  function ServiceResources(services: seq<ServiceConfig>, name: string): (r: Option<map<ResKey, Template>>)
    ensures r.Some? <==> exists i :: 0 <= i < |services| && services[i].name == name
    ensures r.Some? ==> exists i :: 0 <= i < |services| && services[i].name == name && services[i].resources == r.value
  {
    if services == [] then None
    else if services[0].name == name then Some(services[0].resources)
    else ServiceResources(services[1..], name)
  }

  /** Index of the first service that defines a resource key. */
  function FirstServiceWith(services: seq<ServiceConfig>, key: ResKey): (r: Option<nat>)
    ensures r.Some? ==> r.value < |services| && key in services[r.value].resources
    ensures r.Some? ==> forall i :: 0 <= i < r.value ==> key !in services[i].resources
    ensures r.None? ==> forall i :: 0 <= i < |services| ==> key !in services[i].resources
  {
    if services == [] then None
    else if key in services[0].resources then Some(0)
    else match FirstServiceWith(services[1..], key)
      case None => None
      case Some(i) => Some(i + 1)
  }

  /**
   * `_get_resource_full_name_and_type`: the first service that defines the key
   * and the resource data generated from its template with the given groups.
   * A key no service defines is the IndexError of `svc_list[0]`; an unbound
   * group is the KeyError of the generator.
   */
  function ResourceData(services: seq<ServiceConfig>, key: ResKey, groups: Groups): (r: Result<(string, seq<Segment>)>)
    ensures r.Failure? ==> r.error == IndexError || r.error == KeyError
  {
    if services == [] then Failure(IndexError)
    else if key in services[0].resources then
      match CreateResData(services[0].resources[key], groups)
      case None => Failure(KeyError)
      case Some(data) => Success((services[0].name, data))
    else ResourceData(services[1..], key, groups)
  }

  /** The resource data comes from the first service that defines the key, from its own template. */
  lemma {:induction false} ResourceDataOfFirstService(services: seq<ServiceConfig>, key: ResKey, groups: Groups)
    ensures FirstServiceWith(services, key).None? ==> ResourceData(services, key, groups) == Failure(IndexError)
    ensures FirstServiceWith(services, key).Some? ==>
      var i := FirstServiceWith(services, key).value;
      ResourceData(services, key, groups) ==
        match CreateResData(services[i].resources[key], groups)
        case None => Failure(KeyError)
        case Some(data) => Success((services[i].name, data))
  {
    if services != [] && key !in services[0].resources {
      ResourceDataOfFirstService(services[1..], key, groups);
    }
  }
}
