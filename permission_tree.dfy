/**
 * The resource tree with permission names that Magpie reports for a user or
 * a group, and `_is_in_permissions`, which looks a resource path up in it.
 */
module PermissionTree {
  import opened Common
  import opened ResourcePath

  /** A resource of the reported tree: its name, the permissions held on it, its children in report order. */
  datatype ResNode = ResNode(name: string, permissionNames: seq<string>, children: seq<ResNode>)

  /** Service name, then the name of the service's root resource, to that resource. */
  type PermissionsReport = map<string, map<string, ResNode>>

  /** The first child with the given name. */
  function FindChild(children: seq<ResNode>, name: string): (r: Option<ResNode>)
    ensures r.None? <==> forall i :: 0 <= i < |children| ==> children[i].name != name
    ensures r.Some? ==> r.value.name == name && exists i :: (0 <= i < |children| && children[i] == r.value &&
      forall j :: 0 <= j < i ==> children[j].name != name)
  {
    if children == [] then None
    else if children[0].name == name then Some(children[0])
    else
      var r := FindChild(children[1..], name);
      if r.Some? then
        var i :| (0 <= i < |children[1..]| && children[1..][i] == r.value &&
          forall j :: 0 <= j < i ==> children[1..][j].name != name);
        assert children[i + 1] == r.value;
        r
      else r
  }

  /** Follows the path downwards from a node, always through the first child with the segment's name. */
  function Descend(node: ResNode, path: seq<Segment>): (r: Option<ResNode>)
    ensures r.Some? && path != [] ==> r.value.name == path[|path| - 1].name
    ensures r.None? ==> path != []
    decreases |path|
  {
    if path == [] then Some(node)
    else
      match FindChild(node.children, path[0].name)
      case None => None
      case Some(child) =>
        var r := Descend(child, path[1..]);
        assert r.Some? && |path| > 1 ==> path[1..][|path| - 2] == path[|path| - 1];
        r
  }

  /**
   * Whether the permission is held on the resource at the given path. An
   * absent report is the TypeError of subscripting None, a missing service
   * or root resource the KeyError of the dictionary lookup; a missing
   * descendant means the permission is not held.
   */
  function IsInSpec(target: string, svc: string, data: seq<Segment>, perms: Option<PermissionsReport>): (r: Result<bool>)
    ensures r.Failure? ==> r.error == TypeError || r.error == KeyError
  {
    if perms.None? then Failure(TypeError)
    else if svc !in perms.value then Failure(KeyError)
    else if data == [] || data[0].name !in perms.value[svc] then Failure(KeyError)
    else
      match Descend(perms.value[svc][data[0].name], data[1..])
      case None => Success(false)
      case Some(node) => Success(target in node.permissionNames)
  }

  /**
   * A permission is reported as held only when the path leads, one named
   * child at a time, to a resource of the path's last name that lists it.
   */
  lemma IsInMeansHeldOnLastSegment(target: string, svc: string, data: seq<Segment>, perms: Option<PermissionsReport>)
    requires IsInSpec(target, svc, data, perms) == Success(true)
    ensures perms.Some? && svc in perms.value && data != [] && data[0].name in perms.value[svc]
    ensures var node := Descend(perms.value[svc][data[0].name], data[1..]);
      node.Some? && target in node.value.permissionNames &&
      (|data| > 1 ==> node.value.name == data[|data| - 1].name)
  {
    var node := Descend(perms.value[svc][data[0].name], data[1..]);
    if |data| > 1 {
      assert data[1..][|data[1..]| - 1] == data[|data| - 1];
    }
  }

  /** `_is_in_permissions`: the walk down the report, one path segment at a time. */
  method IsInPermissions(target: string, svc: string, data: seq<Segment>, perms: Option<PermissionsReport>)
    returns (r: Result<bool>)
    ensures r == IsInSpec(target, svc, data, perms)
  {
    if perms.None? {
      return Failure(TypeError);
    }
    if svc !in perms.value {
      return Failure(KeyError);
    }
    var roots := perms.value[svc];
    if data == [] || data[0].name !in roots {
      return Failure(KeyError);
    }
    var resource := roots[data[0].name];
    var i := 1;
    while i < |data|
      invariant 1 <= i <= |data|
      invariant Descend(roots[data[0].name], data[1..]) == Descend(resource, data[i..])
    {
      var name := data[i].name;
      var j := 0;
      while j < |resource.children| && resource.children[j].name != name
        invariant 0 <= j <= |resource.children|
        invariant forall k :: 0 <= k < j ==> resource.children[k].name != name
        invariant FindChild(resource.children, name) == FindChild(resource.children[j..], name)
      {
        assert resource.children[j..][1..] == resource.children[j + 1..];
        j := j + 1;
      }
      if j == |resource.children| {
        return Success(false);
      }
      assert data[i..][1..] == data[i + 1..];
      resource := resource.children[j];
      i := i + 1;
    }
    return Success(target in resource.permissionNames);
  }
}
