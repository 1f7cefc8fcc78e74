/**
 * File-system monitoring of cowbird/monitoring: a `Monitor` watches one
 * path for one callback class and can be started, stopped and switched to
 * recursive; the `Monitoring` registry keeps the monitors by path and
 * callback name, together with the persistent store of their parameters.
 * The watchdog observer is reduced to whether it runs; module imports and
 * `os.path.exists` are parameters.
 */
module Monitoring {
  import opened Common

  /** The forms a callback can be given in. */
  datatype Callback =
    | FsMonitorObject(qualName: string)              // an FSMonitor instance, named by its class
    | ClassObject(qualName: string, isFsMonitor: bool) // a class, which may or may not derive from FSMonitor
    | DottedName(text: string)                       // "package.module.Class"
    | Unsupported                                    // any other value

  /**
   * What importing resolves to: module name, then class name, then the
   * qualified class name of the instance its `get_instance` returns.
   */
  type Modules = map<string, map<string, string>>

  /** `str.rfind`: the position of the last `c`. */
  function LastIndex(s: string, c: char): (r: Option<nat>)
    ensures r.None? <==> c !in s
    ensures r.Some? ==> r.value < |s| && s[r.value] == c && c !in s[r.value + 1..]
  {
    if s == [] then None
    else if s[|s| - 1] == c then Some(|s| - 1)
    else
      var r := LastIndex(s[..|s| - 1], c);
      assert r.Some? ==> s[r.value + 1..] == s[..|s| - 1][r.value + 1..] + [s[|s| - 1]];
      assert c !in s[..|s| - 1] ==> s == s[..|s| - 1] + [s[|s| - 1]];
      r
  }

  /**
   * `".".join(text.split(".")[:-1])` and `text.split(".")[-1]`: the module
   * part before the last dot ("" when there is none) and the class name.
   */
  function SplitLastDot(text: string): (string, string)
  {
    match LastIndex(text, '.')
    case None => ("", text)
    case Some(i) => (text[..i], text[i + 1..])
  }

  /** The two parts put back together give the name, and the class part holds no dot. */
  lemma {:induction false} SplitLastDotJoins(text: string)
    ensures '.' !in SplitLastDot(text).1
    ensures '.' in text ==> SplitLastDot(text).0 + "." + SplitLastDot(text).1 == text
    ensures '.' !in text ==> SplitLastDot(text) == ("", text)
  {
    var r := LastIndex(text, '.');
    if r.Some? {
      assert text == text[..r.value] + "." + text[r.value + 1..];
    }
  }

  /**
   * `get_fsmonitor_instance` followed by `get_qualified_class_name`: an
   * instance is used as is, an FSMonitor class or a dotted name gives the
   * instance its `get_instance` returns. An empty module part or a missing
   * class raises MonitorException, a missing module lets ImportError
   * through, and any other value raises TypeError.
   */
  function ResolveCallback(cb: Callback, modules: Modules): (r: Result<string>)
    ensures r.Failure? ==> r.error == TypeError || r.error == MonitorError || r.error == ImportError
    ensures r == Failure(TypeError) <==> cb.Unsupported? || (cb.ClassObject? && !cb.isFsMonitor)
    ensures r == Failure(ImportError) ==> cb.DottedName? && '.' in cb.text
    ensures cb.DottedName? && '.' !in cb.text ==> r == Failure(MonitorError)
    ensures cb.FsMonitorObject? ==> r == Success(cb.qualName)
  {
    match cb
    case FsMonitorObject(q) => Success(q)
    case ClassObject(q, isFsMonitor) => if isFsMonitor then Success(q) else Failure(TypeError)
    case DottedName(text) =>
      var (m, c) := SplitLastDot(text);
      if m == "" then Failure(MonitorError)
      else if m !in modules then Failure(ImportError)
      else if c !in modules[m] then Failure(MonitorError)
      else Success(modules[m][c])
    case Unsupported => Failure(TypeError)
  }

  /** A dotted name `module.Class` resolves to what the module defines under that class name. */
  lemma {:induction false} DottedNameResolves(m: string, c: string, modules: Modules)
    requires m != "" && '.' !in c
    ensures ResolveCallback(DottedName(m + "." + c), modules) ==
      if m !in modules then Failure(ImportError)
      else if c !in modules[m] then Failure(MonitorError)
      else Success(modules[m][c])
  {
    var text := m + "." + c;
    assert text[|m|] == '.';
    assert '.' !in text[|m| + 1..] by {
      assert text[|m| + 1..] == c;
    }
    LastIndexIs(text, '.', |m|);
    assert text[..|m|] == m && text[|m| + 1..] == c;
  }

  /** The last occurrence is the one with no occurrence after it. */
  lemma {:induction false} LastIndexIs(s: string, c: char, j: nat)
    requires j < |s| && s[j] == c && c !in s[j + 1..]
    ensures LastIndex(s, c) == Some(j)
  {
    if s[|s| - 1] != c {
      assert j < |s| - 1;
      var init := s[..|s| - 1];
      assert init[j + 1..] <= s[j + 1..];
      LastIndexIs(init, c, j);
    }
  }

  // ---------------------------------------------------------------------
  // Paths
  // ---------------------------------------------------------------------

  function StripTrailingSlashes(s: string): (r: string)
    ensures r == [] || r[|r| - 1] != '/'
    ensures StartsWith(s, r)
  {
    if s != [] && s[|s| - 1] == '/' then StripTrailingSlashes(s[..|s| - 1]) else s
  }

  predicate AllSlashes(s: string)
  {
    forall k :: 0 <= k < |s| ==> s[k] == '/'
  }

  /** `os.path.dirname` (POSIX): the head before the last `/`, trailing slashes dropped unless it is all slashes. */
  function Dirname(p: string): (r: string)
    ensures StartsWith(p, r)
  {
    var head := if '/' in p then p[..LastIndex(p, '/').value + 1] else [];
    if head != [] && !AllSlashes(head) then StripTrailingSlashes(head) else head
  }

  datatype FsEvent = Created(path: string) | Deleted(path: string) | Modified(path: string)

  /** `MonitorKey`. */
  datatype MonitorKey = MonitorKey(callback: string, path: string)

  /** `MonitorParameters`: the key and the recursive flag. */
  datatype MonitorParams = MonitorParams(callback: string, path: string, recursive: bool)
  {
    function Key(): MonitorKey
    {
      MonitorKey(callback, path)
    }
  }

  /**
   * The rule of `Monitor.on_moved` as written: the destination is forwarded
   * as created when it starts with the watched path as a string, and the
   * monitor is recursive or the destination's directory is the watched
   * path's directory.
   */
  predicate ForwardsCreateAsWritten(watched: string, recursive: bool, dest: string)
    ensures !StartsWith(dest, watched) ==> !ForwardsCreateAsWritten(watched, recursive, dest)
    ensures recursive && Within(dest, watched) ==> ForwardsCreateAsWritten(watched, recursive, dest)
  {
    StartsWith(dest, watched) && (recursive || Dirname(dest) == Dirname(watched))
  }

  /** A path at or under `watched` in the directory sense. */
  predicate Within(dest: string, watched: string)
  {
    dest == watched || StartsWith(dest, watched + "/")
  }

  /**
   * The rule the comments of `on_moved` describe: a destination at or under
   * the watched directory, and, for a monitor that is not recursive, only
   * one directly inside it.
   */
  predicate ForwardsCreate(watched: string, recursive: bool, dest: string)
  {
    Within(dest, watched) && (recursive || Dirname(dest) == watched)
  }

  /** The string test lets through a sibling whose name extends the watched directory's name. */
  lemma SiblingForwardedAsWritten()
    ensures ForwardsCreateAsWritten("/ws/user1", true, "/ws/user10/f")
    ensures !Within("/ws/user10/f", "/ws/user1")
  {
    assert "/ws/user10/f"[..9] == "/ws/user1";
    assert "/ws/user10/f"[9] != "/ws/user1/"[9];
  }

  /** With the corrected rule only paths inside the watched one are reported as created. */
  lemma {:induction false} ForwardedIsWithin(watched: string, recursive: bool, dest: string)
    requires ForwardsCreate(watched, recursive, dest)
    ensures dest == watched || (|dest| > |watched| && dest[..|watched|] == watched && dest[|watched|] == '/')
  {
    if dest != watched {
      assert dest[..|watched| + 1] == watched + "/";
      assert dest[..|watched|] == (watched + "/")[..|watched|];
    }
  }

  /** The last '/' of `w/n`, for a name `n` without '/', is the one after `w`. */
  lemma LastSlashOfChild(w: string, n: string)
    requires '/' !in n
    ensures LastIndex(w + "/" + n, '/') == Some(|w|)
  {
    var s := w + "/" + n;
    assert s[|w|] == '/';
    assert s[|w| + 1..] == n;
    LastIndexIs(s, '/', |w|);
  }

  /** The directory of `w/n`, for a name `n` without '/', is `w` when `w` does not end with '/'. */
  lemma DirnameOfChild(w: string, n: string)
    requires w != [] && w[|w| - 1] != '/' && '/' !in n
    ensures Dirname(w + "/" + n) == w
  {
    LastSlashOfChild(w, n);
    var head := (w + "/" + n)[..|w| + 1];
    assert head == w + "/";
    assert head[|w| - 1] != '/';
    assert head[..|head| - 1] == w;
    assert !AllSlashes(head);
    assert StripTrailingSlashes(head) == StripTrailingSlashes(w);
  }

  /**
   * As written, a monitor that is not recursive drops a file moved directly
   * into the watched directory `parent/dir`, because it compares that
   * file's directory with the watched directory's parent; the corrected
   * rule forwards it.
   */
  lemma ChildIgnoredAsWritten(parent: string, dir: string, n: string)
    requires parent != [] && parent[|parent| - 1] != '/'
    requires dir != [] && '/' !in dir && '/' !in n
    ensures !ForwardsCreateAsWritten(parent + "/" + dir, false, parent + "/" + dir + "/" + n)
    ensures ForwardsCreate(parent + "/" + dir, false, parent + "/" + dir + "/" + n)
  {
    var watched := parent + "/" + dir;
    DirnameOfChild(parent, dir);
    assert watched[|watched| - 1] == dir[|dir| - 1];
    DirnameOfChild(watched, n);
    assert (watched + "/" + n)[..|watched| + 1] == watched + "/";
  }

  /**
   * With the corrected rule a monitor that is not recursive forwards a move
   * into the watched directory itself, and none into a sub-directory.
   */
  lemma NonRecursiveForwardsChildren(watched: string, a: string, b: string)
    requires watched != [] && watched[|watched| - 1] != '/'
    requires a != [] && '/' !in a && '/' !in b
    ensures ForwardsCreate(watched, false, watched + "/" + a)
    ensures !ForwardsCreate(watched, false, watched + "/" + a + "/" + b)
  {
    DirnameOfChild(watched, a);
    var sub := watched + "/" + a;
    assert sub[|sub| - 1] == a[|a| - 1];
    DirnameOfChild(sub, b);
    assert (watched + "/" + a)[..|watched| + 1] == watched + "/";
  }

  // ---------------------------------------------------------------------
  // Monitor
  // ---------------------------------------------------------------------

  /** `Monitor`: one watched path, one callback, and whether its observer runs. */
  class Monitor {
    const path: string
    const callback: string
    var recursive: bool
    var alive: bool

    constructor(path: string, recursive: bool, callback: string)
      ensures this.path == path && this.recursive == recursive && this.callback == callback && !alive
    {
      this.path := path;
      this.recursive := recursive;
      this.callback := callback;
      alive := false;
    }

    /** `key`. */
    function Key(): MonitorKey
    {
      MonitorKey(callback, path)
    }

    /** `params()`: the key and the current recursive flag, from which the monitor can be rebuilt. */
    function Params(): (r: MonitorParams)
      reads this
      ensures r.Key() == Key()
      ensures r.recursive == recursive
    {
      MonitorParams(callback, path, recursive)
    }

    /** `start`: an alive monitor raises MonitorException; otherwise its observer starts. */
    method Start() returns (err: Option<Error>)
      modifies this
      ensures old(alive) ==> err == Some(MonitorError) && alive && recursive == old(recursive)
      ensures !old(alive) ==> err.None? && alive && recursive == old(recursive)
    {
      if alive {
        return Some(MonitorError);
      }
      alive := true;
      err := None;
    }

    /** `stop`: the observer is stopped and dropped; with no observer the call raises AttributeError. */
    method Stop() returns (err: Option<Error>)
      modifies this
      ensures !old(alive) ==> err == Some(AttributeError) && !alive && recursive == old(recursive)
      ensures old(alive) ==> err.None? && !alive && recursive == old(recursive)
    {
      if !alive {
        return Some(AttributeError);
      }
      alive := false;
      err := None;
    }

    /** The `recursive` setter: a different value restarts the monitor with it; the same value does nothing. */
    method SetRecursive(value: bool) returns (err: Option<Error>)
      modifies this
      ensures old(recursive) == value ==> err.None? && recursive == old(recursive) && alive == old(alive)
      ensures old(recursive) != value && old(alive) ==> err.None? && recursive == value && alive
      ensures old(recursive) != value && !old(alive) ==>
        err == Some(AttributeError) && recursive == old(recursive) && !alive
    {
      if recursive != value {
        err := Stop();
        if err.Some? {
          return;
        }
        recursive := value;
        err := Start();
      } else {
        err := None;
      }
    }

    /**
     * `on_moved`: the source is always forwarded as deleted, then the
     * destination as created under the containment rule.
     */
    function MovedEvents(src: string, dest: string): (r: seq<FsEvent>)
      reads this
      ensures 1 <= |r| <= 2 && r[0] == Deleted(src)
      ensures |r| == 2 <==> ForwardsCreate(path, recursive, dest)
      ensures |r| == 2 ==> r[1] == Created(dest)
    {
      [Deleted(src)] + (if ForwardsCreate(path, recursive, dest) then [Created(dest)] else [])
    }
  }

  /**
   * `Monitor.__init__`: a path that does not exist raises MonitorException,
   * then the callback is resolved; the new monitor is not started.
   */
  method NewMonitor(path: string, recursive: bool, cb: Callback, existing: set<string>, modules: Modules)
    returns (r: Result<Monitor>)
    ensures path !in existing ==> r == Failure(MonitorError)
    ensures path in existing && ResolveCallback(cb, modules).Failure? ==>
      r == Failure(ResolveCallback(cb, modules).error)
    ensures path in existing && ResolveCallback(cb, modules).Success? ==>
      r.Success? && fresh(r.value) && r.value.path == path && r.value.recursive == recursive &&
      r.value.callback == ResolveCallback(cb, modules).value && !r.value.alive
  {
    if path !in existing {
      return Failure(MonitorError);
    }
    var c := ResolveCallback(cb, modules);
    if c.Failure? {
      return Failure(c.error);
    }
    var mon := new Monitor(path, recursive, c.value);
    return Success(mon);
  }

  /**
   * What `register` yields when the callback cannot be resolved, as written:
   * the handler of MonitorException logs `callback`, which was never bound,
   * so UnboundLocalError escapes instead of the documented None.
   */
  function RegisterResolveFailureAsWritten(e: Error): Result<Option<Monitor>>
  {
    if e == MonitorError then Failure(UnboundLocalError) else Failure(e)
  }

  /** The documented behaviour: a MonitorException yields None, other errors pass through. */
  function RegisterResolveFailure(e: Error): (r: Result<Option<Monitor>>)
    ensures e == MonitorError <==> r == Success(None)
    ensures e != MonitorError ==> r == Failure(e)
  {
    if e == MonitorError then Success(None) else Failure(e)
  }

  /** A dotted name with no module part raises MonitorException inside `register`, which then fails itself. */
  lemma UnresolvedCallbackEscapes(modules: Modules)
    ensures ResolveCallback(DottedName("Monitor"), modules) == Failure(MonitorError)
    ensures RegisterResolveFailureAsWritten(MonitorError) == Failure(UnboundLocalError)
    ensures RegisterResolveFailure(MonitorError) == Success(None)
  {
    SplitLastDotJoins("Monitor");
  }

  // ---------------------------------------------------------------------
  // Monitoring
  // ---------------------------------------------------------------------

  /** The callbacks of a path, empty for a path not seen yet (the `defaultdict`). */
  function BucketOf(monitors: map<string, map<string, Monitor>>, path: string): map<string, Monitor>
  {
    if path in monitors then monitors[path] else map[]
  }

  /** No monitor of `loaded` between positions `k` and `n` (exclusive) has the key of the one at `k`. */
  predicate LastBefore(loaded: seq<Monitor>, k: nat, n: nat)
    requires k < n <= |loaded|
  {
    forall j :: k < j < n ==> loaded[j].Key() != loaded[k].Key()
  }

  /** Some monitor among the first `n` of `loaded` has this path and callback. */
  predicate LoadedBefore(loaded: seq<Monitor>, p: string, c: string, n: nat)
    requires n <= |loaded|
  {
    exists k :: 0 <= k < n && loaded[k].path == p && loaded[k].callback == c
  }

  /** The map after `Monitoring.start` has filed the first `n` loaded monitors, each under its path and callback. */
  function FiledAll(monitors: map<string, map<string, Monitor>>, loaded: seq<Monitor>, n: nat)
    : map<string, map<string, Monitor>>
    requires n <= |loaded|
  {
    if n == 0 then monitors
    else
      var m := FiledAll(monitors, loaded, n - 1);
      m[loaded[n - 1].path := BucketOf(m, loaded[n - 1].path)[loaded[n - 1].callback := loaded[n - 1]]]
  }

  /** The last loaded monitor with a given path and callback is the one filed under them. */
  lemma {:induction false} FiledAllLast(monitors: map<string, map<string, Monitor>>, loaded: seq<Monitor>, n: nat, k: nat)
    requires k < n <= |loaded| && LastBefore(loaded, k, n)
    ensures var m := FiledAll(monitors, loaded, n);
      loaded[k].path in m && loaded[k].callback in m[loaded[k].path] && m[loaded[k].path][loaded[k].callback] == loaded[k]
  {
    if k < n - 1 {
      FiledAllLast(monitors, loaded, n - 1, k);
      assert loaded[n - 1].Key() != loaded[k].Key();
    }
  }

  /** An earlier entry whose path and callback no loaded monitor has is left as it was. */
  lemma {:induction false} FiledAllKeeps(monitors: map<string, map<string, Monitor>>, loaded: seq<Monitor>, n: nat,
                                         p: string, c: string)
    requires n <= |loaded| && p in monitors && c in monitors[p] && !LoadedBefore(loaded, p, c, n)
    ensures var m := FiledAll(monitors, loaded, n); p in m && c in m[p] && m[p][c] == monitors[p][c]
  {
    if n > 0 {
      assert !LoadedBefore(loaded, p, c, n - 1);
      FiledAllKeeps(monitors, loaded, n - 1, p, c);
      assert !(loaded[n - 1].path == p && loaded[n - 1].callback == c);
    }
  }

  /** Every entry of the result was there before or comes from a loaded monitor. */
  lemma {:induction false} FiledAllFrom(monitors: map<string, map<string, Monitor>>, loaded: seq<Monitor>, n: nat,
                                        p: string, c: string)
    requires n <= |loaded|
    requires p in FiledAll(monitors, loaded, n) && c in FiledAll(monitors, loaded, n)[p]
    ensures (p in monitors && c in monitors[p]) || LoadedBefore(loaded, p, c, n)
  {
    if n > 0 {
      var mon := loaded[n - 1];
      if mon.path == p && mon.callback == c {
        assert LoadedBefore(loaded, p, c, n) by { assert 0 <= n - 1 < n; }
      } else {
        FiledAllFrom(monitors, loaded, n - 1, p, c);
      }
    }
  }

  /** Filing never drops a path/callback pair: earlier entries and every loaded monitor's pair are present. */
  lemma {:induction false} FiledAllHas(monitors: map<string, map<string, Monitor>>, loaded: seq<Monitor>, n: nat)
    requires n <= |loaded|
    ensures var m := FiledAll(monitors, loaded, n);
      (forall p, c :: p in monitors && c in monitors[p] ==> p in m && c in m[p]) &&
      (forall k :: 0 <= k < n ==> loaded[k].path in m && loaded[k].callback in m[loaded[k].path])
  {
    if n > 0 {
      FiledAllHas(monitors, loaded, n - 1);
    }
  }

  /** The facts above, for the whole of `loaded`. */
  lemma FiledAllFacts(monitors: map<string, map<string, Monitor>>, loaded: seq<Monitor>)
    ensures var m := FiledAll(monitors, loaded, |loaded|);
      (forall p, c :: p in monitors && c in monitors[p] ==> p in m && c in m[p]) &&
      (forall k :: 0 <= k < |loaded| ==> loaded[k].path in m && loaded[k].callback in m[loaded[k].path]) &&
      (forall k :: 0 <= k < |loaded| && LastBefore(loaded, k, |loaded|) ==>
         loaded[k].path in m && loaded[k].callback in m[loaded[k].path] && m[loaded[k].path][loaded[k].callback] == loaded[k]) &&
      (forall p, c :: p in monitors && c in monitors[p] && !LoadedBefore(loaded, p, c, |loaded|) ==>
         p in m && c in m[p] && m[p][c] == monitors[p][c]) &&
      (forall p, c :: p in m && c in m[p] ==> (p in monitors && c in monitors[p]) || LoadedBefore(loaded, p, c, |loaded|))
  {
    FiledAllHas(monitors, loaded, |loaded|);
    var m := FiledAll(monitors, loaded, |loaded|);
    forall k | 0 <= k < |loaded| && LastBefore(loaded, k, |loaded|)
      ensures loaded[k].path in m && loaded[k].callback in m[loaded[k].path] && m[loaded[k].path][loaded[k].callback] == loaded[k]
    {
      FiledAllLast(monitors, loaded, |loaded|, k);
    }
    forall p, c | p in monitors && c in monitors[p] && !LoadedBefore(loaded, p, c, |loaded|)
      ensures p in m && c in m[p] && m[p][c] == monitors[p][c]
    {
      FiledAllKeeps(monitors, loaded, |loaded|, p, c);
    }
    forall p, c | p in m && c in m[p]
      ensures (p in monitors && c in monitors[p]) || LoadedBefore(loaded, p, c, |loaded|)
    {
      FiledAllFrom(monitors, loaded, |loaded|, p, c);
    }
  }

  /**
   * `Monitoring`: monitors by path then callback name, and the store's
   * records, each key mapped to its recursive flag.
   */
  class Registry {
    var monitors: map<string, map<string, Monitor>>
    var store: map<MonitorKey, bool>

    ghost function Entries(): set<Monitor>
      reads this
    {
      set p, c | p in monitors && c in monitors[p] :: monitors[p][c]
    }

    /** Every entry sits under its own path and callback and runs; no bucket is empty. */
    ghost predicate Valid()
      reads this, Entries()
    {
      forall p, c :: p in monitors && c in monitors[p] ==>
        monitors[p][c].path == p && monitors[p][c].callback == c && monitors[p][c].alive
    }

    ghost predicate NoEmptyBucket()
      reads this
    {
      forall p :: p in monitors ==> monitors[p] != map[]
    }

    constructor()
      ensures monitors == map[] && store == map[]
      ensures Valid() && NoEmptyBucket()
    {
      monitors := map[];
      store := map[];
    }

    /**
     * `register`. An existing path/callback pair keeps its monitor and only
     * becomes recursive when asked (never the reverse); otherwise a new
     * monitor is added. Either way the store holds the pair with the
     * monitor's flag and the monitor runs. A path that does not exist yields
     * None with nothing changed.
     */
    method Register(path: string, recursive: bool, cb: Callback, existing: set<string>, modules: Modules)
      returns (r: Result<Option<Monitor>>)
      requires Valid() && NoEmptyBucket()
      modifies this, Entries()
      ensures Valid() && NoEmptyBucket()
      ensures ResolveCallback(cb, modules).Failure? ==>
        r == RegisterResolveFailure(ResolveCallback(cb, modules).error) &&
        monitors == old(monitors) && store == old(store)
      ensures ResolveCallback(cb, modules).Success? ==>
        var c := ResolveCallback(cb, modules).value;
        (path in old(monitors) && c in old(monitors)[path] ==>
           var mon := old(monitors)[path][c];
           r == Success(Some(mon)) && monitors == old(monitors) &&
           mon.recursive == (old(mon.recursive) || recursive) && mon.alive &&
           store == old(store)[MonitorKey(c, path) := mon.recursive]) &&
        (!(path in old(monitors) && c in old(monitors)[path]) && path !in existing ==>
           r == Success(None) && monitors == old(monitors) && store == old(store)) &&
        (!(path in old(monitors) && c in old(monitors)[path]) && path in existing ==>
           r.Success? && r.value.Some? && fresh(r.value.value) &&
           r.value.value.recursive == recursive && r.value.value.alive &&
           monitors == old(monitors)[path := BucketOf(old(monitors), path)[c := r.value.value]] &&
           store == old(store)[MonitorKey(c, path) := recursive])
    {
      var resolved := ResolveCallback(cb, modules);
      if resolved.Failure? {
        return RegisterResolveFailure(resolved.error);
      }
      var c := resolved.value;
      if path in monitors && c in monitors[path] {
        var mon := RegisterKnown(path, c, recursive);
        r := Success(Some(mon));
      } else {
        r := RegisterNew(path, c, recursive, cb, existing, modules);
      }
    }

    /**
     * `register` for a pair already present. Its monitor runs (every
     * registered monitor does), so only the recursive upgrade and the store
     * record remain.
     */
    method RegisterKnown(path: string, c: string, recursive: bool) returns (mon: Monitor)
      requires Valid() && NoEmptyBucket()
      requires path in monitors && c in monitors[path]
      modifies this, monitors[path][c]
      ensures Valid() && NoEmptyBucket()
      ensures mon == old(monitors)[path][c] && monitors == old(monitors)
      ensures mon.recursive == (old(mon.recursive) || recursive) && mon.alive
      ensures store == old(store)[MonitorKey(c, path) := mon.recursive]
    {
      mon := monitors[path][c];
      if !mon.recursive && recursive {
        var err := mon.SetRecursive(true);
      }
      store := store[MonitorKey(mon.callback, mon.path) := mon.recursive];
    }

    /** `register` for a new pair: the monitor is built, filed, recorded and started. */
    method RegisterNew(path: string, c: string, recursive: bool, cb: Callback, existing: set<string>,
                       modules: Modules)
      returns (r: Result<Option<Monitor>>)
      requires Valid() && NoEmptyBucket()
      requires ResolveCallback(cb, modules) == Success(c)
      modifies this
      ensures Valid() && NoEmptyBucket()
      ensures path !in existing ==> r == Success(None) && monitors == old(monitors) && store == old(store)
      ensures path in existing ==>
        r.Success? && r.value.Some? && fresh(r.value.value) &&
        r.value.value.recursive == recursive && r.value.value.alive &&
        monitors == old(monitors)[path := BucketOf(old(monitors), path)[c := r.value.value]] &&
        store == old(store)[MonitorKey(c, path) := recursive]
    {
      var made := NewMonitor(path, recursive, cb, existing, modules);
      if made.Failure? {
        return Success(None);
      }
      var mon := made.value;
      monitors := monitors[path := BucketOf(monitors, path)[c := mon]];
      assert c in monitors[path];
      store := store[MonitorKey(mon.callback, mon.path) := mon.recursive];
      if !mon.alive {
        var err := mon.Start();
      }
      return Success(Some(mon));
    }

    /**
     * `unregister`: the store record goes in every case; the result tells
     * whether a monitor was registered for the pair, which is stopped and
     * removed, and its path with it once no callback is left.
     */
    method Unregister(path: string, cb: Callback, modules: Modules) returns (r: Result<bool>)
      requires Valid() && NoEmptyBucket()
      modifies this, Entries()
      ensures Valid() && NoEmptyBucket()
      ensures ResolveCallback(cb, modules).Failure? ==>
        r == Failure(ResolveCallback(cb, modules).error) && monitors == old(monitors) && store == old(store)
      ensures ResolveCallback(cb, modules).Success? ==>
        var c := ResolveCallback(cb, modules).value;
        var found := path in old(monitors) && c in old(monitors)[path];
        r == Success(found) &&
        store == old(store) - {MonitorKey(c, path)} &&
        (found ==> !old(monitors)[path][c].alive) &&
        (found && old(monitors)[path] - {c} == map[] ==> monitors == old(monitors) - {path}) &&
        (found && old(monitors)[path] - {c} != map[] ==> monitors == old(monitors)[path := old(monitors)[path] - {c}]) &&
        (!found ==> monitors == old(monitors))
    {
      var resolved := ResolveCallback(cb, modules);
      if resolved.Failure? {
        return Failure(resolved.error);
      }
      var c := resolved.value;
      store := store - {MonitorKey(c, path)};
      var found := RemoveEntry(path, c);
      return Success(found);
    }

    /** The in-memory part of `unregister`: pop the callback, drop an emptied path, stop the monitor. */
    method RemoveEntry(path: string, c: string) returns (found: bool)
      requires Valid() && NoEmptyBucket()
      modifies this, Entries()
      ensures Valid() && NoEmptyBucket() && store == old(store)
      ensures found == (path in old(monitors) && c in old(monitors)[path])
      ensures found ==> !old(monitors)[path][c].alive
      ensures found && old(monitors)[path] - {c} == map[] ==> monitors == old(monitors) - {path}
      ensures found && old(monitors)[path] - {c} != map[] ==> monitors == old(monitors)[path := old(monitors)[path] - {c}]
      ensures !found ==> monitors == old(monitors)
    {
      if path !in monitors || c !in monitors[path] {
        return false;
      }
      var mon := monitors[path][c];
      var bucket := monitors[path] - {c};
      if bucket == map[] {
        monitors := monitors - {path};
      } else {
        monitors := monitors[path := bucket];
      }
      ghost var kept: map<string, map<string, Monitor>> := monitors;
      var err := mon.Stop();
      forall p: string, k: string | p in kept && k in kept[p] ensures kept[p][k].alive {
        assert p in old(monitors) && k in old(monitors)[p] && old(monitors)[p][k] == kept[p][k];
        assert kept[p][k].path == p && kept[p][k].callback == k && old(kept[p][k].alive);
        assert p != path || k != c;
      }
      return true;
    }

    /** One step of `Monitoring.start`: a stopped monitor is filed under its path and callback, then started. */
    method FileAndStart(mon: Monitor)
      requires Valid() && NoEmptyBucket() && !mon.alive
      modifies this, mon
      ensures Valid() && NoEmptyBucket() && store == old(store)
      ensures monitors == old(monitors)[mon.path := BucketOf(old(monitors), mon.path)[mon.callback := mon]]
      ensures mon.alive && mon.recursive == old(mon.recursive)
    {
      assert mon !in Entries();
      monitors := monitors[mon.path := BucketOf(monitors, mon.path)[mon.callback := mon]];
      assert mon.callback in monitors[mon.path];
      var err := mon.Start();
      forall p, c | p in monitors && c in monitors[p]
        ensures monitors[p][c].path == p && monitors[p][c].callback == c && monitors[p][c].alive
      {
        if p != mon.path || c != mon.callback {
          assert p in old(monitors) && c in old(monitors)[p] && monitors[p][c] == old(monitors)[p][c];
        }
      }
    }

    /**
     * `Monitoring.start`: every monitor loaded from the store is filed under
     * its path and callback, replacing an entry with the same key, and started.
     */
    method StartAll(loaded: seq<Monitor>)
      requires Valid() && NoEmptyBucket()
      requires forall i :: 0 <= i < |loaded| ==> !loaded[i].alive
      requires forall i, j :: 0 <= i < j < |loaded| ==> loaded[i] != loaded[j]
      modifies this, set i | 0 <= i < |loaded| :: loaded[i]
      ensures Valid() && NoEmptyBucket() && store == old(store)
      ensures monitors == FiledAll(old(monitors), loaded, |loaded|)
      ensures forall i :: 0 <= i < |loaded| ==> loaded[i].alive && loaded[i].recursive == old(loaded[i].recursive)
      ensures forall i :: 0 <= i < |loaded| ==> loaded[i].path in monitors && loaded[i].callback in monitors[loaded[i].path]
      ensures forall p, c :: p in old(monitors) && c in old(monitors)[p] ==> p in monitors && c in monitors[p]
      ensures forall k :: 0 <= k < |loaded| && LastBefore(loaded, k, |loaded|) ==>
        monitors[loaded[k].path][loaded[k].callback] == loaded[k]
      ensures forall p, c :: p in old(monitors) && c in old(monitors)[p] && !LoadedBefore(loaded, p, c, |loaded|) ==>
        monitors[p][c] == old(monitors)[p][c]
      ensures forall p, c :: p in monitors && c in monitors[p] ==>
        (p in old(monitors) && c in old(monitors)[p]) || LoadedBefore(loaded, p, c, |loaded|)
    {
      for i := 0 to |loaded|
        invariant Valid() && NoEmptyBucket() && store == old(store)
        invariant forall k :: 0 <= k < i ==> loaded[k].alive && loaded[k].recursive == old(loaded[k].recursive)
        invariant forall k :: i <= k < |loaded| ==> !loaded[k].alive && loaded[k].recursive == old(loaded[k].recursive)
        invariant monitors == FiledAll(old(monitors), loaded, i)
      {
        FileAndStart(loaded[i]);
      }
      FiledAllFacts(old(monitors), loaded);
    }
  }
}
