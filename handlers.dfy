/**
 * The handler registry of cowbird/handlers: a handler's construction from
 * its configuration (required parameters, priority defaulting to last), and
 * the factory that merges the configuration files, caches the handlers it
 * builds and lists the active ones by priority.
 */
module Handlers {
  import opened Common

  /**
   * The configuration of one handler as the factory sees it. `priority` is
   * None when the configuration does not give one, which the handler reads
   * as infinity; `url` and `workspaceDir` are None when absent or null.
   */
  datatype HandlerConfig = HandlerConfig(active: bool, priority: Option<int>, url: Option<string>,
                                         workspaceDir: Option<string>)

  /** `VALID_HANDLERS`. */
  const ValidHandlers: seq<string> := ["Catalog", "Geoserver", "Magpie", "Nginx", "Thredds", "FileSystem"]

  /** `HANDLER_PARAMETERS`. */
  const HandlerParameters: set<string> := {"priority", "url", "workspace_dir"}

  /** The `required_params` of each implementation; None for a class that does not override it. */
  function RequiredParams(name: string): Option<seq<string>>
  {
    if name == "Catalog" || name == "Geoserver" then Some(["url", "workspace_dir"])
    else if name == "Magpie" then Some(["url"])
    else if name == "FileSystem" then Some(["workspace_dir"])
    else if name == "Nginx" || name == "Thredds" then Some([])
    else None
  }

  /** Whether `getattr(handler, param)` is not None once the handler has read its configuration. */
  predicate Given(cfg: HandlerConfig, param: string)
  {
    if param == "priority" then true
    else if param == "url" then cfg.url.Some?
    else if param == "workspace_dir" then cfg.workspaceDir.Some?
    else false
  }

  /** A required parameter the handler accepts: a known one, and given. */
  predicate ParamOk(cfg: HandlerConfig, param: string)
  {
    param in HandlerParameters && Given(cfg, param)
  }

  /** The first required parameter that is unknown or missing, if any. */
  function FirstBadParam(params: seq<string>, cfg: HandlerConfig): (r: Option<nat>)
    ensures r.None? <==> forall k :: 0 <= k < |params| ==> ParamOk(cfg, params[k])
    ensures r.Some? ==> r.value < |params| && !ParamOk(cfg, params[r.value]) &&
                        forall k :: 0 <= k < r.value ==> ParamOk(cfg, params[k])
  {
    if params == [] then None
    else if !ParamOk(cfg, params[0]) then Some(0)
    else
      var rest := FirstBadParam(params[1..], cfg);
      if rest.None? then None else Some(rest.value + 1)
  }

  /** A constructed handler; its fields are those `Handler.__init__` sets. */
  class Handler {
    const name: string
    const priority: Option<int>
    const url: Option<string>
    const workspaceDir: Option<string>

    constructor(name: string, cfg: HandlerConfig)
      ensures this.name == name && priority == cfg.priority && url == cfg.url && workspaceDir == cfg.workspaceDir
    {
      this.name := name;
      priority := cfg.priority;
      url := cfg.url;
      workspaceDir := cfg.workspaceDir;
    }
  }

  /**
   * `Handler.__init__`: a class without `required_params` raises
   * NotImplementedError; each required parameter, in order, must be one of
   * `HANDLER_PARAMETERS` and must not be None, or HandlerConfigurationException
   * is raised for the first one that fails.
   */
  method NewHandler(name: string, required: Option<seq<string>>, cfg: HandlerConfig) returns (r: Result<Handler>)
    ensures required.None? ==> r == Failure(NotImplementedError)
    ensures required.Some? && FirstBadParam(required.value, cfg).Some? ==> r == Failure(HandlerConfigurationError)
    ensures required.Some? && FirstBadParam(required.value, cfg).None? ==>
      r.Success? && fresh(r.value) && r.value.name == name && r.value.priority == cfg.priority &&
      r.value.url == cfg.url && r.value.workspaceDir == cfg.workspaceDir
  {
    if required.None? {
      return Failure(NotImplementedError);
    }
    var params := required.value;
    for i := 0 to |params|
      invariant forall k :: 0 <= k < i ==> ParamOk(cfg, params[k])
    {
      if params[i] !in HandlerParameters {
        return Failure(HandlerConfigurationError);
      }
      if !Given(cfg, params[i]) {
        return Failure(HandlerConfigurationError);
      }
    }
    var h := new Handler(name, cfg);
    return Success(h);
  }

  /** Which configurations each implementation accepts. */
  lemma {:induction false} AcceptedConfigs(name: string, cfg: HandlerConfig)
    requires name in ValidHandlers
    ensures RequiredParams(name).Some?
    ensures FirstBadParam(RequiredParams(name).value, cfg).None? <==>
      (name in {"Catalog", "Geoserver", "Magpie"} ==> cfg.url.Some?) &&
      (name in {"Catalog", "Geoserver", "FileSystem"} ==> cfg.workspaceDir.Some?)
  {
    var params := RequiredParams(name).value;
    if name == "Catalog" || name == "Geoserver" {
      assert params[0] == "url" && params[1] == "workspace_dir";
    } else if name == "Magpie" {
      assert params[0] == "url";
    } else if name == "FileSystem" {
      assert params[0] == "workspace_dir";
    }
  }

  // ---------------------------------------------------------------------
  // Priority order
  // ---------------------------------------------------------------------

  /** `a <= b` on priorities where None is infinity. */
  predicate PriorityLe(a: Option<int>, b: Option<int>)
  {
    b.None? || (a.Some? && a.value <= b.value)
  }

  predicate ByPriority(hs: seq<Handler>)
  {
    forall i, j :: 0 <= i < j < |hs| ==> PriorityLe(hs[i].priority, hs[j].priority)
  }

  /** `h` placed before the first handler whose priority is not lower. */
  function Insert(h: Handler, hs: seq<Handler>): (r: seq<Handler>)
    requires ByPriority(hs)
    ensures ByPriority(r)
    ensures multiset(r) == multiset(hs) + multiset{h}
    ensures |r| == |hs| + 1
  {
    if hs == [] || PriorityLe(h.priority, hs[0].priority) then [h] + hs
    else
      var rest := Insert(h, hs[1..]);
      assert hs == [hs[0]] + hs[1..];
      HeadFirst(h, hs, rest);
      [hs[0]] + rest
  }

  /** The head of a sorted list stays below everything once `h`, which it precedes, joins the tail. */
  lemma {:induction false} HeadFirst(h: Handler, hs: seq<Handler>, rest: seq<Handler>)
    requires ByPriority(hs) && hs != [] && !PriorityLe(h.priority, hs[0].priority)
    requires multiset(rest) == multiset(hs[1..]) + multiset{h}
    ensures forall k :: 0 <= k < |rest| ==> PriorityLe(hs[0].priority, rest[k].priority)
  {
    forall k | 0 <= k < |rest| ensures PriorityLe(hs[0].priority, rest[k].priority) {
      assert rest[k] in multiset(rest);
      if rest[k] != h {
        assert rest[k] in multiset(hs[1..]);
        var m :| 0 <= m < |hs[1..]| && hs[1..][m] == rest[k];
        assert hs[m + 1] == rest[k];
      }
    }
  }

  /** `sorted(handlers, key=priority)`: stable, ascending, unprioritised handlers last. */
  function SortByPriority(hs: seq<Handler>): (r: seq<Handler>)
    ensures ByPriority(r)
    ensures multiset(r) == multiset(hs)
  {
    if hs == [] then []
    else
      assert hs == [hs[0]] + hs[1..];
      Insert(hs[0], SortByPriority(hs[1..]))
  }

  /** `filter(None, ...)`: the handlers that were built, in order. */
  function Built(hs: seq<Option<Handler>>): (r: seq<Handler>)
    ensures forall k :: 0 <= k < |r| ==> Some(r[k]) in hs
    ensures forall k :: 0 <= k < |hs| && hs[k].Some? ==> hs[k].value in r
  {
    if hs == [] then []
    else
      assert hs == [hs[0]] + hs[1..];
      (if hs[0].Some? then [hs[0].value] else []) + Built(hs[1..])
  }

  // ---------------------------------------------------------------------
  // Configuration merge
  // ---------------------------------------------------------------------

  /** All entries of all configuration files, file by file. */
  function Flatten(configs: seq<seq<(string, HandlerConfig)>>): seq<(string, HandlerConfig)>
  {
    if configs == [] then [] else Flatten(configs[..|configs| - 1]) + configs[|configs| - 1]
  }

  /** The first configuration given for `name`. */
  function FirstFor(entries: seq<(string, HandlerConfig)>, name: string): (r: Option<HandlerConfig>)
    ensures r.Some? <==> exists k :: 0 <= k < |entries| && entries[k].0 == name
  {
    if entries == [] then None
    else if entries[0].0 == name then Some(entries[0].1)
    else
      assert forall k :: 1 <= k < |entries| ==> entries[k] == entries[1..][k - 1];
      FirstFor(entries[1..], name)
  }

  /** The entry at `k` is the first for its name, so it is the one kept. */
  lemma {:induction false} FirstForIsFirst(entries: seq<(string, HandlerConfig)>, k: nat)
    requires k < |entries|
    requires forall l :: 0 <= l < k ==> entries[l].0 != entries[k].0
    ensures FirstFor(entries, entries[k].0) == Some(entries[k].1)
  {
    if k > 0 {
      FirstForIsFirst(entries[1..], k - 1);
    }
  }

  /** A later entry never replaces the first one for the same name. */
  lemma {:induction false} FirstForAppend(entries: seq<(string, HandlerConfig)>, e: (string, HandlerConfig),
                                          name: string)
    ensures FirstFor(entries + [e], name) ==
      if FirstFor(entries, name).Some? then FirstFor(entries, name)
      else if e.0 == name then Some(e.1) else None
  {
    if entries != [] {
      assert (entries + [e])[1..] == entries[1..] + [e];
      FirstForAppend(entries[1..], e, name);
    }
  }

  /** The configured names, in the order of their first definition. */
  function FirstNames(entries: seq<(string, HandlerConfig)>): (r: seq<string>)
  {
    if entries == [] then []
    else
      var names := FirstNames(entries[..|entries| - 1]);
      var e := entries[|entries| - 1];
      if e.0 in names then names else names + [e.0]
  }

  predicate Distinct(names: seq<string>)
  {
    forall i, j :: 0 <= i < j < |names| ==> names[i] != names[j]
  }

  lemma {:induction false} FirstNamesFacts(entries: seq<(string, HandlerConfig)>)
    ensures Distinct(FirstNames(entries))
    ensures forall n :: n in FirstNames(entries) <==> FirstFor(entries, n).Some?
  {
    if entries != [] {
      var init := entries[..|entries| - 1];
      var e := entries[|entries| - 1];
      assert entries == init + [e];
      FirstNamesFacts(init);
      forall n ensures FirstFor(entries, n) == if FirstFor(init, n).Some? then FirstFor(init, n)
                                                else if e.0 == n then Some(e.1) else None {
        FirstForAppend(init, e, n);
      }
    }
  }

  /** What the factory holds after reading `seen`: the first definition of every name, in first-seen order. */
  ghost predicate Merged(cfgs: map<string, HandlerConfig>, names: seq<string>, seen: seq<(string, HandlerConfig)>)
  {
    (forall n :: n in cfgs ==> Some(cfgs[n]) == FirstFor(seen, n)) &&
    (forall n :: FirstFor(seen, n).Some? ==> n in cfgs) &&
    names == FirstNames(seen)
  }

  lemma {:induction false} MergedStep(cfgs: map<string, HandlerConfig>, names: seq<string>,
                                      seen: seq<(string, HandlerConfig)>, e: (string, HandlerConfig))
    requires Merged(cfgs, names, seen)
    ensures e.0 in cfgs ==> Merged(cfgs, names, seen + [e])
    ensures e.0 !in cfgs ==> Merged(cfgs[e.0 := e.1], names + [e.0], seen + [e])
  {
    FirstNamesFacts(seen);
    assert (seen + [e])[..|seen + [e]| - 1] == seen;
    forall n ensures FirstFor(seen + [e], n) == if FirstFor(seen, n).Some? then FirstFor(seen, n)
                                                else if e.0 == n then Some(e.1) else None {
      FirstForAppend(seen, e, n);
    }
  }

  /** What the merge state says about the factory's representation: names once each, one per configuration. */
  lemma {:induction false} MergedFacts(cfgs: map<string, HandlerConfig>, names: seq<string>,
                                       seen: seq<(string, HandlerConfig)>)
    requires Merged(cfgs, names, seen)
    ensures Distinct(names)
    ensures forall n :: n in cfgs <==> n in names
    ensures forall n :: n in cfgs <==> FirstFor(seen, n).Some?
  {
    FirstNamesFacts(seen);
  }

  /** The inner loop of `HandlerFactory.__init__`: the entries of one configuration file, in order. */
  method MergeFile(cfgs: map<string, HandlerConfig>, names: seq<string>, ghost seen: seq<(string, HandlerConfig)>,
                   file: seq<(string, HandlerConfig)>)
    returns (cfgs': map<string, HandlerConfig>, names': seq<string>)
    requires Merged(cfgs, names, seen)
    ensures Merged(cfgs', names', seen + file)
  {
    cfgs', names' := cfgs, names;
    assert seen + file[..0] == seen;
    for j := 0 to |file|
      invariant Merged(cfgs', names', seen + file[..j])
    {
      var e := file[j];
      MergedStep(cfgs', names', seen + file[..j], e);
      assert seen + file[..j + 1] == seen + file[..j] + [e];
      if e.0 !in cfgs' {
        cfgs' := cfgs'[e.0 := e.1];
        names' := names' + [e.0];
      }
    }
    assert file[..|file|] == file;
  }

  lemma {:induction false} FlattenStep(configs: seq<seq<(string, HandlerConfig)>>, i: nat)
    requires i < |configs|
    ensures Flatten(configs[..i + 1]) == Flatten(configs[..i]) + configs[i]
  {
    assert configs[..i + 1][..i] == configs[..i];
  }

  // ---------------------------------------------------------------------
  // The factory
  // ---------------------------------------------------------------------

  /**
   * `HandlerFactory`: the merged handler configurations in their order, and
   * the cache of handlers built so far (None for a name that yields none).
   */
  class HandlerFactory {
    var cfgNames: seq<string>
    var handlersCfg: map<string, HandlerConfig>
    var handlers: map<string, Option<Handler>>

    ghost predicate Valid()
      reads this
    {
      Distinct(cfgNames) && forall n :: n in handlersCfg <==> n in cfgNames
    }

    /**
     * `HandlerFactory.__init__`: reads the configuration files in order; a
     * name already configured by an earlier entry is ignored.
     */
    constructor(configs: seq<seq<(string, HandlerConfig)>>)
      ensures Valid()
      ensures forall n :: n in handlersCfg <==> FirstFor(Flatten(configs), n).Some?
      ensures forall n :: n in handlersCfg ==> Some(handlersCfg[n]) == FirstFor(Flatten(configs), n)
      ensures cfgNames == FirstNames(Flatten(configs))
      ensures handlers == map[]
    {
      var cfgs: map<string, HandlerConfig> := map[];
      var names: seq<string> := [];
      for i := 0 to |configs|
        invariant Merged(cfgs, names, Flatten(configs[..i]))
      {
        cfgs, names := MergeFile(cfgs, names, Flatten(configs[..i]), configs[i]);
        FlattenStep(configs, i);
      }
      assert configs[..|configs|] == configs;
      MergedFacts(cfgs, names, Flatten(configs));
      cfgNames := names;
      handlersCfg := cfgs;
      handlers := map[];
    }

    /** Whether `create_handler` builds an instance for the name. */
    predicate Enabled(name: string)
      reads this
    {
      name in ValidHandlers && name in handlersCfg && handlersCfg[name].active
    }

    /**
     * The entry `create_handler` caches for `name`: a handler of that name
     * and the configured priority when the name is enabled and its
     * configuration has every required parameter, None otherwise.
     */
    ghost predicate CreatedEntry(name: string)
      reads this
      requires name in handlers
    {
      if Enabled(name) && FirstBadParam(RequiredParams(name).value, handlersCfg[name]).None? then
        handlers[name].Some? && handlers[name].value.name == name &&
        handlers[name].value.priority == handlersCfg[name].priority
      else handlers[name] == None
    }

    /**
     * `create_handler`: builds the handler when the name is valid, configured
     * and active, and caches the result, None included, over any earlier
     * entry. A construction that raises leaves the cache as it was.
     */
    method CreateHandler(name: string) returns (r: Result<Option<Handler>>)
      modifies this
      ensures cfgNames == old(cfgNames) && handlersCfg == old(handlersCfg)
      ensures !Enabled(name) ==> r == Success(None)
      ensures Enabled(name) ==>
        var bad := FirstBadParam(RequiredParams(name).value, handlersCfg[name]);
        (bad.Some? ==> r == Failure(HandlerConfigurationError)) &&
        (bad.None? ==> r.Success? && r.value.Some? && fresh(r.value.value) && r.value.value.name == name &&
                       r.value.value.priority == handlersCfg[name].priority)
      ensures r.Success? ==> handlers == old(handlers)[name := r.value] && CreatedEntry(name)
      ensures r.Failure? ==> handlers == old(handlers)
    {
      var made: Option<Handler> := None;
      if name in ValidHandlers && name in handlersCfg && handlersCfg[name].active {
        AcceptedConfigs(name, handlersCfg[name]);
        var built := NewHandler(name, RequiredParams(name), handlersCfg[name]);
        if built.Failure? {
          return Failure(built.error);
        }
        made := Some(built.value);
      }
      handlers := handlers[name := made];
      r := Success(made);
    }

    /** `get_handler`: the cached entry when there is one, otherwise `create_handler`. */
    method GetHandler(name: string) returns (r: Result<Option<Handler>>)
      modifies this
      ensures cfgNames == old(cfgNames) && handlersCfg == old(handlersCfg)
      ensures name in old(handlers) ==> r == Success(old(handlers)[name]) && handlers == old(handlers)
      ensures name !in old(handlers) && !Enabled(name) ==> r == Success(None) && handlers == old(handlers)[name := None]
      ensures name !in old(handlers) && Enabled(name) ==>
        (r.Success? <==> FirstBadParam(RequiredParams(name).value, handlersCfg[name]).None?)
      ensures r.Success? ==> handlers == old(handlers)[name := r.value]
      ensures r.Success? && name !in old(handlers) ==> CreatedEntry(name)
      ensures r.Failure? ==> handlers == old(handlers)
    {
      if name in handlers {
        return Success(handlers[name]);
      }
      r := CreateHandler(name);
    }

    /**
     * `get_active_handlers`: the handler of every configured name, in
     * configuration order, without the Nones, sorted by priority.
     */
    method GetActiveHandlers() returns (r: Result<seq<Handler>>)
      requires Valid()
      modifies this
      ensures Valid() && cfgNames == old(cfgNames) && handlersCfg == old(handlersCfg)
      ensures r.Success? ==>
        (forall n :: n in cfgNames ==> n in handlers) &&
        r.value == SortByPriority(Built(Cached(handlers, cfgNames)))
      ensures forall n :: n in old(handlers) ==> n in handlers && handlers[n] == old(handlers)[n]
      ensures forall n :: n in handlers && n !in old(handlers) ==> n in cfgNames && CreatedEntry(n)
    {
      var found: seq<Option<Handler>> := [];
      for i := 0 to |cfgNames|
        invariant Valid() && cfgNames == old(cfgNames) && handlersCfg == old(handlersCfg)
        invariant |found| == i
        invariant forall k :: 0 <= k < i ==> cfgNames[k] in handlers && handlers[cfgNames[k]] == found[k]
        invariant forall n :: n in old(handlers) ==> n in handlers && handlers[n] == old(handlers)[n]
        invariant forall n :: n in handlers && n !in old(handlers) ==> n in cfgNames[..i] && CreatedEntry(n)
      {
        ghost var prev := handlers;
        var got := GetHandler(cfgNames[i]);
        if got.Failure? {
          return Failure(got.error);
        }
        forall n | n in handlers && n !in old(handlers)
          ensures n in cfgNames[..i + 1] && CreatedEntry(n)
        {
          if n != cfgNames[i] {
            assert n in prev && handlers[n] == prev[n];
          }
        }
        found := found + [got.value];
      }
      CachedIs(handlers, cfgNames, found);
      r := Success(SortByPriority(Built(found)));
    }
  }

  /** The cache entry of every name, in order. */
  function Cached(handlers: map<string, Option<Handler>>, names: seq<string>): (r: seq<Option<Handler>>)
    requires forall n :: n in names ==> n in handlers
    ensures |r| == |names|
    ensures forall k :: 0 <= k < |names| ==> r[k] == handlers[names[k]]
  {
    if names == [] then [] else [handlers[names[0]]] + Cached(handlers, names[1..])
  }

  lemma {:induction false} CachedIs(handlers: map<string, Option<Handler>>, names: seq<string>,
                                    found: seq<Option<Handler>>)
    requires |found| == |names|
    requires forall k :: 0 <= k < |names| ==> names[k] in handlers && handlers[names[k]] == found[k]
    ensures forall n :: n in names ==> n in handlers
    ensures Cached(handlers, names) == found
  {
  }

  /** The active handlers are exactly the built ones, each once per name, in priority order. */
  lemma {:induction false} ActiveHandlersOrdered(hs: seq<Option<Handler>>)
    ensures ByPriority(SortByPriority(Built(hs)))
    ensures forall h :: h in SortByPriority(Built(hs)) <==> Some(h) in hs
  {
    var b := Built(hs);
    var s := SortByPriority(b);
    forall h ensures h in s <==> h in b {
      assert h in s <==> multiset(s)[h] > 0;
      assert h in b <==> multiset(b)[h] > 0;
    }
  }
}
