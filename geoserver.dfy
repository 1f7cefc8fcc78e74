/**
 * The Geoserver handler (cowbird/handlers/impl/geoserver.py): how the
 * replies of Geoserver's REST API are classified, where the files of a
 * shapefile live and how a path is read back into a workspace and a
 * shapefile name, and how the permissions of a workspace or layer are kept
 * in step between Magpie and the filesystem.
 */
module Geoserver {
  import opened Common
  import opened Magpie
  import opened Utils
  import SyncConfig

  // ---------------------------------------------------------------------
  // Classification of Geoserver replies
  // ---------------------------------------------------------------------

  /** What a Geoserver request returned: its status code and text. */
  datatype Reply = Reply(status: int, text: string)

  /** The request went through, went through with only a warning, or raised. */
  datatype Outcome = Succeeded | WorkspaceExists | Raised(error: Error)

  /**
   * `re.search(pre + ".*" + post, text)`: `pre`, then any characters but a
   * line break, then `post`.
   */
  predicate SearchAround(text: string, pre: string, post: string)
  {
    exists i, j | 0 <= i <= j <= |text| ::
      At(text, i, pre) && At(text, j, post) && i + |pre| <= j &&
      forall k | i + |pre| <= k < j :: text[k] != '\n'
  }

  const ExistsPre: string := "Workspace &#39;"
  const ExistsPost: string := "&#39; already exists"
  const NotFoundPost: string := "&#39; not found"

  /**
   * The decorator `geoserver_response_handling`: a request that raised is
   * a RequestException; 200 and 201 succeed; a 401 saying that the
   * workspace already exists only warns; other 401s, a 403 on workspace
   * removal, the three known 404 texts and 500 raise GeoserverError; any
   * other status is a RequestException.
   */
  function ResponseOutcome(reply: Option<Reply>, operation: string): (r: Outcome)
    ensures r == Succeeded <==> reply.Some? && (reply.value.status == 200 || reply.value.status == 201)
    ensures r == WorkspaceExists <==>
      reply.Some? && reply.value.status == 401 && SearchAround(reply.value.text, ExistsPre, ExistsPost)
    ensures r == Raised(GeoserverError) ==> reply.Some? && reply.value.status in {401, 403, 404, 500}
    ensures r.Raised? ==> r.error == GeoserverError || r.error == RequestError
    ensures reply.None? ==> r == Raised(RequestError)
    ensures reply.Some? && reply.value.status !in {200, 201, 401, 403, 404, 500} ==> r == Raised(RequestError)
    ensures reply.Some? && reply.value.status == 403 ==>
      (r == Raised(GeoserverError) <==> operation == "_remove_workspace_request")
    ensures reply.Some? && reply.value.status == 500 ==> r == Raised(GeoserverError)
    ensures reply.Some? && reply.value.status == 401 && !SearchAround(reply.value.text, ExistsPre, ExistsPost) ==>
      r == Raised(GeoserverError)
  {
    if reply.None? then Raised(RequestError)
    else
      var code := reply.value.status;
      var text := reply.value.text;
      if code == 200 || code == 201 then Succeeded
      else if code == 401 && SearchAround(text, ExistsPre, ExistsPost) then WorkspaceExists
      else if code == 401 then Raised(GeoserverError)
      else if code == 403 && operation == "_remove_workspace_request" then Raised(GeoserverError)
      else if code == 404 && SearchAround(text, ExistsPre, NotFoundPost) then Raised(GeoserverError)
      else if code == 404 && Contains(text, "No such data store") then Raised(GeoserverError)
      else if code == 404 && Contains(text, "No such feature type") then Raised(GeoserverError)
      else if code == 500 then Raised(GeoserverError)
      else Raised(RequestError)
  }

  /** A 404 is a GeoserverError exactly when its text is one Geoserver uses for a missing workspace, store or type. */
  lemma NotFoundOutcome(text: string, operation: string)
    ensures ResponseOutcome(Some(Reply(404, text)), operation) == Raised(GeoserverError) <==>
      SearchAround(text, ExistsPre, NotFoundPost) || Contains(text, "No such data store") ||
      Contains(text, "No such feature type")
  {
  }

  // ---------------------------------------------------------------------
  // Shapefile paths and names
  // ---------------------------------------------------------------------

  const ShapefileMainExtension: string := ".shp"
  const ShapefileRequiredExtensions: seq<string> := [ShapefileMainExtension, ".prj", ".dbf", ".shx"]
  const ShapefileOptionalExtensions: seq<string> := [".atx", ".sbx", ".qix", ".aih", ".ain", ".shp.xml", ".cpg"]
  /** `SHAPEFILE_ALL_EXTENSIONS`: the optional extensions, then the required ones. */
  const ShapefileAllExtensions: seq<string> := ShapefileOptionalExtensions + ShapefileRequiredExtensions
  const DatastoreDirName: string := "shapefile_datastore"

  /** POSIX `os.path.join(a, b)`. */
  function Join(a: string, b: string): string
  {
    if StartsWith(b, "/") then b
    else if a == "" || a[|a| - 1] == '/' then a + b
    else a + "/" + b
  }

  /** `_shapefile_folder_dir`: the datastore folder of a workspace. */
  function ShapefileFolder(workspaceDir: string, workspace: string): string
  {
    Join(Join(workspaceDir, workspace), DatastoreDirName)
  }

  /** `get_shapefile_list`: one path per extension, in the order of `SHAPEFILE_ALL_EXTENSIONS`. */
  function ShapefileList(workspaceDir: string, workspace: string, name: string): (r: seq<string>)
    ensures |r| == |ShapefileAllExtensions| == 11
    ensures forall i :: 0 <= i < |r| ==>
      r[i] == ShapefileFolder(workspaceDir, workspace) + "/" + name + ShapefileAllExtensions[i]
  {
    var base := ShapefileFolder(workspaceDir, workspace) + "/" + name;
    seq(|ShapefileAllExtensions|, i requires 0 <= i < |ShapefileAllExtensions| => base + ShapefileAllExtensions[i])
  }

  /** The extensions are pairwise distinct, so the list names 11 different files, the main one among them. */
  lemma ShapefileListDistinct(workspaceDir: string, workspace: string, name: string)
    ensures var r := ShapefileList(workspaceDir, workspace, name);
      (forall i, j :: 0 <= i < j < |r| ==> r[i] != r[j]) &&
      ShapefileFolder(workspaceDir, workspace) + "/" + name + ShapefileMainExtension in r
  {
    var r := ShapefileList(workspaceDir, workspace, name);
    var base := ShapefileFolder(workspaceDir, workspace) + "/" + name;
    forall i, j | 0 <= i < j < |r|
      ensures r[i] != r[j]
    {
      assert r[i][|base|..] == ShapefileAllExtensions[i];
      assert r[j][|base|..] == ShapefileAllExtensions[j];
    }
    assert r[7] == base + ShapefileMainExtension;
  }

  /**
   * `_get_shapefile_info`: the third-from-last path component is the
   * workspace and the last one, split on its single '.', gives the
   * shapefile name; fewer than three components is an IndexError and a
   * last component without exactly one '.' a ValueError.
   */
  function ShapefileInfo(filename: string): (r: Result<(string, string)>)
    ensures r.Failure? <==> Count(filename, '/') < 2 || Count(Split(filename, '/')[Count(filename, '/')], '.') != 1
    ensures r.Failure? ==> (r.error == IndexError <==> Count(filename, '/') < 2)
    ensures r.Failure? ==> r.error == IndexError || r.error == ValueError
    ensures r.Success? ==>
      var parts := Split(filename, '/');
      var pieces := Split(parts[|parts| - 1], '.');
      r.value.0 == parts[|parts| - 3] && r.value.1 + "." + pieces[1] == parts[|parts| - 1] &&
      '.' !in r.value.1 && '/' !in r.value.0
  {
    var parts := Split(filename, '/');
    if |parts| < 3 then Failure(IndexError)
    else
      var pieces := Split(parts[|parts| - 1], '.');
      if |pieces| != 2 then Failure(ValueError)
      else
        SplitPieces(parts, filename, '/', |parts| - 3);
        SplitTwo(parts[|parts| - 1], '.');
        Success((parts[|parts| - 3], pieces[0]))
  }

  /** No piece of a split contains the separator. */
  lemma {:induction false} SplitPieces(parts: seq<string>, s: string, sep: char, i: int)
    requires parts == Split(s, sep) && 0 <= i < |parts|
    ensures sep !in parts[i]
    decreases |s|
  {
    if s != [] {
      var rest := Split(s[1..], sep);
      if s[0] == sep {
        if i > 0 {
          SplitPieces(rest, s[1..], sep, i - 1);
        }
      } else if i == 0 {
        SplitPieces(rest, s[1..], sep, 0);
      } else {
        SplitPieces(rest, s[1..], sep, i);
      }
    }
  }

  /** A string with exactly one separator is its two pieces joined by it. */
  lemma {:induction false} SplitTwo(s: string, sep: char)
    requires |Split(s, sep)| == 2
    ensures var p := Split(s, sep); p[0] + [sep] + p[1] == s && sep !in p[0]
    decreases |s|
  {
    var rest := Split(s[1..], sep);
    if s[0] == sep {
      SplitOne(s[1..], sep);
      assert s == [sep] + s[1..];
    } else {
      SplitTwo(s[1..], sep);
      assert s == [s[0]] + s[1..];
    }
  }

  /** A split with a single piece is the string itself. */
  lemma {:induction false} SplitOne(s: string, sep: char)
    requires |Split(s, sep)| == 1
    ensures Split(s, sep) == [s]
    decreases |s|
  {
    if s != [] {
      SplitOne(s[1..], sep);
      assert s == [s[0]] + s[1..];
    }
  }

  /** Joining a relative name without '/' makes it the last component, with no trailing '/'. */
  lemma JoinLast(a: string, b: string)
    requires b != "" && '/' !in b
    ensures var j := Join(a, b); j != "" && j[|j| - 1] != '/' && Split(j, '/')[|Split(j, '/')| - 1] == b
  {
    SplitNoSep(b, '/');
    assert b[0] != '/';
    var j := Join(a, b);
    assert j[|j| - |b|..] == b;
    if a == "" {
      assert j == b;
    } else if a[|a| - 1] == '/' {
      var a0 := a[..|a| - 1];
      assert j == a0 + ['/'] + b;
      SplitJoin(a0, b, '/');
    } else {
      assert j == a + ['/'] + b;
      SplitJoin(a, b, '/');
    }
  }

  /** Joining onto a path that does not end in '/' inserts one. */
  lemma JoinPlain(a: string, b: string)
    requires a != "" && a[|a| - 1] != '/' && b != "" && b[0] != '/'
    ensures Join(a, b) == a + ['/'] + b
  {
  }

  /** A last piece without the separator is split off whole. */
  lemma SplitLast(x: string, y: string, sep: char)
    requires sep !in y
    ensures Split(x + [sep] + y, sep) == Split(x, sep) + [y]
  {
    SplitJoin(x, y, sep);
    SplitNoSep(y, sep);
  }

  /** After splitting off a last piece, the piece before it is the last piece of the front. */
  lemma SplitPenultimate(x: string, y: string, sep: char)
    requires sep !in y
    ensures var p := Split(x + [sep] + y, sep); var q := Split(x, sep);
      |p| >= 2 && p[|p| - 1] == y && p[|p| - 2] == q[|q| - 1]
  {
    SplitLast(x, y, sep);
  }

  /** A directory `d` joined under a path whose last piece is `last`. */
  lemma JoinedUnder(j: string, last: string, d: string)
    requires j != "" && j[|j| - 1] != '/' && Split(j, '/')[|Split(j, '/')| - 1] == last
    requires d != "" && '/' !in d
    ensures var p := Split(Join(j, d), '/'); |p| >= 2 && p[|p| - 2] == last && p[|p| - 1] == d
  {
    JoinPlain(j, d);
    SplitPenultimate(j, d, '/');
  }

  /** The datastore folder ends with the workspace and then the datastore directory. */
  lemma FolderSplit(workspaceDir: string, workspace: string)
    requires workspace != "" && '/' !in workspace
    ensures var p := Split(ShapefileFolder(workspaceDir, workspace), '/');
      |p| >= 2 && p[|p| - 2] == workspace && p[|p| - 1] == DatastoreDirName
  {
    JoinLast(workspaceDir, workspace);
    JoinedUnder(Join(workspaceDir, workspace), workspace, DatastoreDirName);
  }

  /** The main file's path ends with the workspace, the datastore directory and the file's name. */
  lemma MainFileParts(workspaceDir: string, workspace: string, name: string)
    requires workspace != "" && '/' !in workspace && '/' !in name
    ensures var p := Split(ShapefileFolder(workspaceDir, workspace) + "/" + name + ShapefileMainExtension, '/');
      |p| >= 3 && p[|p| - 3] == workspace && p[|p| - 1] == name + ShapefileMainExtension
  {
    var folder := ShapefileFolder(workspaceDir, workspace);
    var file := name + ShapefileMainExtension;
    assert folder + "/" + name + ShapefileMainExtension == folder + ['/'] + file;
    SplitLast(folder, file, '/');
    FolderSplit(workspaceDir, workspace);
  }

  /** The main file's name splits on '.' into the shapefile name and "shp". */
  lemma MainFileName(name: string)
    requires '.' !in name
    ensures Split(name + ShapefileMainExtension, '.') == [name, "shp"]
  {
    assert name + ShapefileMainExtension == name + ['.'] + "shp";
    SplitCons(name, "shp", '.');
    SplitNoSep("shp", '.');
  }

  /**
   * Round trip of the shapefile helpers: the main file of
   * `get_shapefile_list` (the path a watched `.shp` event carries) is read
   * back by `_get_shapefile_info` into the same workspace and name.
   */
  lemma ShapefileInfoOfMainFile(workspaceDir: string, workspace: string, name: string)
    requires workspace != "" && '/' !in workspace
    requires '/' !in name && '.' !in name
    ensures ShapefileInfo(ShapefileFolder(workspaceDir, workspace) + "/" + name + ShapefileMainExtension) ==
      Success((workspace, name))
  {
    MainFileParts(workspaceDir, workspace, name);
    MainFileName(name);
  }

  /** `_get_datastore_name`: the workspace name after a fixed prefix. */
  function DatastoreName(workspace: string): (r: string)
    ensures StartsWith(r, "shapefile_datastore_") && r[|"shapefile_datastore_"|..] == workspace
  {
    "shapefile_datastore_" + workspace
  }

  // ---------------------------------------------------------------------
  // Permissions between Magpie and the filesystem
  // ---------------------------------------------------------------------

  const Allow: string := "allow"
  const Deny: string := "deny"
  const Recursive: string := "recursive"
  const MatchScope: string := "match"

  /** The distinct names of a permission list. */
  function Names(ps: seq<string>): set<string>
  {
    set p | p in ps
  }

  /** Every Geoserver permission name, read or write. */
  function AllGeoserverPermissions(): set<string>
  {
    Names(GeoserverRead + GeoserverWrite)
  }

  /** No permission name is both a read and a write permission. */
  lemma ReadWriteDisjoint()
    ensures Names(GeoserverRead) !! Names(GeoserverWrite)
    ensures AllGeoserverPermissions() == Names(GeoserverRead) + Names(GeoserverWrite)
  {
  }

  /** `allowed_perms` of `_update_magpie_permissions`. */
  function AllowedPermissions(readable: bool, writable: bool): (r: set<string>)
    ensures r <= AllGeoserverPermissions()
  {
    (if readable then Names(GeoserverRead) else {}) + (if writable then Names(GeoserverWrite) else {})
  }

  /** `denied_perms`: with the allowed ones, a partition of every Geoserver permission. */
  function DeniedPermissions(readable: bool, writable: bool): (r: set<string>)
    ensures r !! AllowedPermissions(readable, writable)
    ensures r + AllowedPermissions(readable, writable) == AllGeoserverPermissions()
  {
    AllGeoserverPermissions() - AllowedPermissions(readable, writable)
  }

  /** The (name, access) pairs `_update_magpie_permissions` goes through. */
  function Pairs(readable: bool, writable: bool): set<(string, string)>
  {
    (set p | p in AllowedPermissions(readable, writable) :: (p, Allow)) +
    (set p | p in DeniedPermissions(readable, writable) :: (p, Deny))
  }

  /** Every Geoserver permission is asked for exactly once, either allowed or denied. */
  lemma PairsOnePerName(readable: bool, writable: bool)
    ensures forall p :: p in AllGeoserverPermissions() ==> (p, Allow) in Pairs(readable, writable) || (p, Deny) in Pairs(readable, writable)
    ensures forall p :: !((p, Allow) in Pairs(readable, writable) && (p, Deny) in Pairs(readable, writable))
    ensures forall q :: q in Pairs(readable, writable) ==> q.0 in AllGeoserverPermissions() && (q.1 == Allow || q.1 == Deny)
  {
    var allowed := AllowedPermissions(readable, writable);
    var denied := DeniedPermissions(readable, writable);
    forall p | p in AllGeoserverPermissions()
      ensures (p, Allow) in Pairs(readable, writable) || (p, Deny) in Pairs(readable, writable)
    {
      if p in allowed {
        assert (p, Allow) in (set x | x in allowed :: (x, Allow));
      } else {
        assert (p, Deny) in (set x | x in denied :: (x, Deny));
      }
    }
  }

  /** A listed permission of that name and access satisfies the request (the tests of `_is_permission_update_required`). */
  predicate Satisfies(perm: PermissionJson, actual: seq<PermissionJson>, name: string, access: string, scope: string)
  {
    perm.access == access &&
    if scope == Recursive then
      (forall i :: 0 <= i < |actual| ==> actual[i].name != name) ||
      (exists i :: 0 <= i < |actual| && actual[i].name == name && actual[i].scope == Recursive)
    else perm.scope == scope
  }

  /** An update is needed unless the first effective permission of that name satisfies the request. */
  predicate UpdateRequired(effective: seq<PermissionJson>, actual: seq<PermissionJson>, name: string, access: string,
                           scope: string)
  {
    !exists i | 0 <= i < |effective| :: FirstNamed(effective, name, i) && Satisfies(effective[i], actual, name, access, scope)
  }

  /**
   * `_is_permission_update_required`: the loop stops at the first effective
   * permission of that name; it returns False when that permission
   * satisfies the request, otherwise True, deleting the permission on the
   * resource when asked to. Without an effective permission of that name
   * it returns True and deletes nothing. `actual` is what Magpie lists
   * directly on the resource (only asked for, and only read, for a
   * recursive scope).
   */
  method IsUpdateRequired(effective: seq<PermissionJson>, actual: seq<PermissionJson>, name: string, access: string,
                          scope: string, deleteIfRequired: bool)
    returns (required: bool, deleted: bool)
    ensures !required <==>
      exists i :: FirstNamed(effective, name, i) && effective[i].access == access &&
        (scope == Recursive ==> Satisfies(effective[i], actual, name, access, scope)) &&
        (scope != Recursive ==> effective[i].scope == scope)
    ensures required == UpdateRequired(effective, actual, name, access, scope)
    ensures deleted <==> required && deleteIfRequired && exists i :: 0 <= i < |effective| && effective[i].name == name
  {
    var onResource := if scope == Recursive then actual else [];
    var i := 0;
    while i < |effective|
      invariant 0 <= i <= |effective|
      invariant forall j :: 0 <= j < i ==> effective[j].name != name
    {
      var perm := effective[i];
      if perm.name == name {
        assert FirstNamed(effective, name, i);
        if perm.access == access && scope == Recursive {
          var unset := true;
          var recursive := false;
          var k := 0;
          while k < |onResource|
            invariant 0 <= k <= |onResource|
            invariant unset <==> forall m :: 0 <= m < k ==> onResource[m].name != name
            invariant recursive <==> exists m :: 0 <= m < k && onResource[m].name == name && onResource[m].scope == Recursive
          {
            if onResource[k].name == name {
              unset := false;
              if onResource[k].scope == Recursive {
                recursive := true;
              }
            }
            k := k + 1;
          }
          if unset || recursive {
            return false, false;
          }
        } else if perm.access == access && perm.scope == scope {
          return false, false;
        }
        return true, deleteIfRequired;
      }
      i := i + 1;
    }
    return true, false;
  }

  /**
   * `_update_magpie_permissions`: every (name, access) pair of `Pairs`
   * whose update is required is collected (its permission deleted first
   * when one of that name is effective); then, against the effective
   * permissions Magpie lists after those deletions, a pair is created only
   * when no effective permission has that name and access. The pairs are
   * visited in an order the model leaves open, as Python's set order is.
   */
  method UpdateMagpiePermissions(readable: bool, writable: bool, scope: string, effective: seq<PermissionJson>,
                                 actual: seq<PermissionJson>, effectiveAfter: seq<PermissionJson>)
    returns (deleted: set<string>, toUpdate: set<(string, string)>, created: set<(string, string)>)
    ensures forall q :: q in toUpdate <==> q in Pairs(readable, writable) && UpdateRequired(effective, actual, q.0, q.1, scope)
    ensures forall n :: n in deleted <==>
      exists q :: q in toUpdate && q.0 == n && exists i :: 0 <= i < |effective| && effective[i].name == n
    ensures forall q :: q in created <==>
      q in toUpdate && !exists i :: 0 <= i < |effectiveAfter| && effectiveAfter[i].name == q.0 && effectiveAfter[i].access == q.1
  {
    var all := Pairs(readable, writable);
    var todo := all;
    deleted, toUpdate := {}, {};
    while todo != {}
      invariant todo <= all
      invariant forall q :: q in toUpdate <==> q in all && q !in todo && UpdateRequired(effective, actual, q.0, q.1, scope)
      invariant forall n :: n in deleted <==>
        exists q :: q in toUpdate && q.0 == n && exists i :: 0 <= i < |effective| && effective[i].name == n
      decreases todo
    {
      var q :| q in todo;
      var required, removed := IsUpdateRequired(effective, actual, q.0, q.1, scope, true);
      if required {
        toUpdate := toUpdate + {q};
      }
      if removed {
        deleted := deleted + {q.0};
      }
      todo := todo - {q};
    }
    created := {};
    var pending := toUpdate;
    while pending != {}
      invariant pending <= toUpdate
      invariant forall q :: q in created <==>
        q in toUpdate && q !in pending &&
        !exists i :: 0 <= i < |effectiveAfter| && effectiveAfter[i].name == q.0 && effectiveAfter[i].access == q.1
      decreases pending
    {
      var q :| q in pending;
      var present := HasPermission(effectiveAfter, q.0, q.1);
      if !present {
        created := created + {q};
      }
      pending := pending - {q};
    }
  }

  /** The `any(...)` test of `_update_magpie_permissions`: some listed permission has that name and access. */
  method HasPermission(ps: seq<PermissionJson>, name: string, access: string) returns (present: bool)
    ensures present <==> exists i :: 0 <= i < |ps| && ps[i].name == name && ps[i].access == access
  {
    present := false;
    var i := 0;
    while i < |ps|
      invariant 0 <= i <= |ps|
      invariant present <==> exists j :: 0 <= j < i && ps[j].name == name && ps[j].access == access
    {
      if ps[i].name == name && ps[i].access == access {
        present := true;
      }
      i := i + 1;
    }
  }

  /** The new permissions a Magpie permission event asks for on a workspace or layer's files. */
  datatype PathUpdate = PathUpdate(paths: seq<string>, readable: bool, writable: bool, executable: bool)

  /** Some permission allowed to the user has one of the names in `ps`. */
  predicate AllowsAny(effective: seq<PermissionJson>, ps: seq<string>)
  {
    exists i :: 0 <= i < |effective| && effective[i].access == Allow && effective[i].name in ps
  }

  /**
   * `_update_resource_paths_permissions` before it touches the files: a
   * layer needs a name (else GeoserverError) and stands for its shapefile
   * files, a workspace for its datastore folder; the files are readable
   * (writable) iff some allowed effective permission is a read (write)
   * one, and executable iff the resource is a workspace.
   */
  function ResourcePathsUpdate(resourceType: string, layerName: Option<string>, workspaceDir: string,
                               workspace: string, effective: seq<PermissionJson>): (r: Result<PathUpdate>)
    ensures r.Failure? <==> resourceType == LayerType && !Given(layerName)
    ensures r.Failure? ==> r.error == GeoserverError
    ensures r.Success? ==>
      (r.value.readable <==> AllowsAny(effective, GeoserverRead)) &&
      (r.value.writable <==> AllowsAny(effective, GeoserverWrite)) &&
      (r.value.executable <==> resourceType == WorkspaceType)
    ensures r.Success? && resourceType == LayerType ==>
      r.value.paths == ShapefileList(workspaceDir, workspace, layerName.value) && |r.value.paths| == 11
    ensures r.Success? && resourceType != LayerType ==> r.value.paths == [ShapefileFolder(workspaceDir, workspace)]
  {
    if resourceType == LayerType && !Given(layerName) then Failure(GeoserverError)
    else
      var paths := if resourceType == LayerType then ShapefileList(workspaceDir, workspace, layerName.value)
                   else [ShapefileFolder(workspaceDir, workspace)];
      var allowed := set i | 0 <= i < |effective| && effective[i].access == Allow :: effective[i].name;
      var readable := exists p :: p in allowed && p in GeoserverRead;
      var writable := exists p :: p in allowed && p in GeoserverWrite;
      assert readable <==> AllowsAny(effective, GeoserverRead) by {
        if AllowsAny(effective, GeoserverRead) {
          var i :| 0 <= i < |effective| && effective[i].access == Allow && effective[i].name in GeoserverRead;
          assert effective[i].name in allowed;
        }
      }
      assert writable <==> AllowsAny(effective, GeoserverWrite) by {
        if AllowsAny(effective, GeoserverWrite) {
          var i :| 0 <= i < |effective| && effective[i].access == Allow && effective[i].name in GeoserverWrite;
          assert effective[i].name in allowed;
        }
      }
      Success(PathUpdate(paths, readable, writable, resourceType == WorkspaceType))
  }

  /**
   * The two directions agree: when the user's allowed effective
   * permissions are exactly those `_update_magpie_permissions` allows for
   * some flags, `_update_resource_paths_permissions` derives those flags
   * back.
   */
  lemma FlagsRoundTrip(readable: bool, writable: bool, effective: seq<PermissionJson>, resourceType: string,
                       workspaceDir: string, workspace: string)
    requires resourceType != LayerType
    requires forall p :: p in AllGeoserverPermissions() ==>
      ((exists i :: 0 <= i < |effective| && effective[i].access == Allow && effective[i].name == p) <==>
       p in AllowedPermissions(readable, writable))
    ensures var r := ResourcePathsUpdate(resourceType, None, workspaceDir, workspace, effective);
      r.Success? && r.value.readable == readable && r.value.writable == writable
  {
    ReadWriteDisjoint();
    var r := ResourcePathsUpdate(resourceType, None, workspaceDir, workspace, effective);
    assert "getcapabilities" in GeoserverRead && "transaction" in GeoserverWrite;
    if AllowsAny(effective, GeoserverRead) {
      var i :| 0 <= i < |effective| && effective[i].access == Allow && effective[i].name in GeoserverRead;
      assert effective[i].name in AllGeoserverPermissions();
    }
    if readable {
      assert "getcapabilities" in AllowedPermissions(readable, writable);
    }
    if AllowsAny(effective, GeoserverWrite) {
      var i :| 0 <= i < |effective| && effective[i].access == Allow && effective[i].name in GeoserverWrite;
      assert effective[i].name in AllGeoserverPermissions();
    }
    if writable {
      assert "transaction" in AllowedPermissions(readable, writable);
    }
  }

  /**
   * The filter of `_update_permissions_on_filesystem`: a permission that is
   * not a Geoserver read or write permission is ignored (None); one without
   * a user raises NotImplementedError; otherwise the user names the
   * workspace to update.
   */
  function FilesystemTarget(perm: SyncConfig.Permission): (r: Result<Option<string>>)
    ensures perm.name !in GeoserverRead + GeoserverWrite ==> r == Success(None)
    ensures perm.name in GeoserverRead + GeoserverWrite ==>
      (r.Failure? <==> perm.user.None?) && (r.Failure? ==> r.error == NotImplementedError) &&
      (r.Success? ==> r.value == perm.user)
  {
    if perm.name !in GeoserverRead + GeoserverWrite then Success(None)
    else if perm.user.None? then Failure(NotImplementedError)
    else Success(perm.user)
  }

  /**
   * The flags `_update_magpie_workspace_permissions` reads from the
   * datastore folder's mode: readable needs both the read and the execute
   * bit of "others", writable the write bit.
   */
  function WorkspaceFlags(mode: int): (bool, bool)
  {
    (HasBit(mode, OthersRead) && HasBit(mode, OthersExecute), HasBit(mode, OthersWrite))
  }

  /**
   * `_get_shapefile_permissions`: the read and write bits of "others" on
   * the main `.shp` file, or neither when it does not exist.
   */
  function ShapefileFlags(mode: Option<int>): (bool, bool)
  {
    if mode.None? then (false, false) else (HasBit(mode.value, OthersRead), HasBit(mode.value, OthersWrite))
  }

  /**
   * A folder given its mode from a Magpie event (executable, as every
   * workspace folder is) is read back with the same flags, so the event
   * does not bounce back to Magpie with other permissions.
   */
  lemma {:induction false} WorkspaceFlagsRoundTrip(mode: int, readable: bool, writable: bool)
    ensures WorkspaceFlags(OthersMode(mode, readable, writable, true)) == (readable, writable)
  {
    OthersModeBits(mode, readable, writable, true);
  }

  /** The same for a shapefile, whose files are never executable. */
  lemma {:induction false} ShapefileFlagsRoundTrip(mode: int, readable: bool, writable: bool)
    ensures ShapefileFlags(Some(OthersMode(mode, readable, writable, false))) == (readable, writable)
  {
    OthersModeBits(mode, readable, writable, false);
  }
}
