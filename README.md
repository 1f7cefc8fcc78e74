# Cowbird permission synchronisation — a Dafny model

Cowbird is a middleware that keeps several services (Magpie, the access-control
service; Geoserver; THREDDS; a file catalog; the file system) consistent with
each other. When Magpie reports that a permission was created or deleted on a
resource, Cowbird finds the *sync points* that share that resource. A sync point
maps resources of one service to resources of another with path templates and
permission mapping lines. Cowbird then creates or deletes the mapped
permissions on the other services.

A *deletion guard* keeps a target permission while another source permission
that maps to it is still held by the same user or group.

This project models that engine and the smaller cores around it, and proves
properties about the model:

- **Sync points** (`resource_path.dfy`, `sync_config.dfy`, `permission_tree.dfy`,
  `deletion_guard.dfy`, `sync_point.dfy`, `permission_synchronizer.dfy`):
  - the mapping table built from `->`, `<-` and `<->` lines;
  - the path-template matcher, a direct segment matcher;
  - the generator of target resources;
  - the deletion guard;
  - the fan-out of one permission operation per target key and permission;
  - the loop over sync points.
- **Settings and constants** (`constants.dfy`): setting-name normalisation, the
  settings / module / environment lookup cascade, and required settings.
- **Handlers** (`handlers.dfy`):
  - the handler factory's configuration merge, where the first entry wins;
  - the handler cache;
  - ordering by priority;
  - validation of required parameters.
- **File-system monitoring** (`monitoring.dfy`):
  - the two-level registry of monitors;
  - the "recursive takes precedence" rule;
  - each monitor's started/stopped state;
  - the forwarding rule for move events.
- **Utilities** (`utils.dfy`):
  - the "others" mode bits;
  - the chmod-only-if-changed decision;
  - fuzzy header lookup;
  - `ExtendedEnum` lookup;
  - the singleton metaclass.
- **Magpie handler** (`magpie.dfy`):
  - the create-permission decision (POST, PUT or nothing);
  - the cookie refresh rule;
  - the single retry on 401/403;
  - the PATCH marking;
  - the delete status handling;
  - the Geoserver workspace and layer searches.
- **Geoserver handler** (`geoserver.dfy`):
  - response classification;
  - shapefile paths and names;
  - the allowed/denied partition of permissions;
  - the "update required" decision;
  - the file-mode flags derived from permissions.
- **REST helpers** (`requests.dfy`, `webhooks.dfy`):
  - the case-insensitive query lookup;
  - the check selection of `check_value`;
  - best-effort dispatch to the handlers;
  - the validation done by the two webhook views.
- **Packaging** (`setup.dfy`): the requirement-string parser `_split_requirement`
  and `_extra_requirements`.

`common.dfy` holds the shared vocabulary: `Option`, and `Result` carrying the Python
exception the code raises. It also holds the few `str` operations the code uses
(`split`, `strip`, `lower`, `replace`).

Every HTTP exchange with Magpie or Geoserver is an oracle passed in as a
parameter, and so is the clock. The Magpie reports that the deletion guard
reads are also parameters. Crashes of the original (a `KeyError`, an
`IndexError`, a `TypeError`) are modelled as `Failure` results carrying that
exception, never as preconditions.

## Model

| member | source | states |
|---|---|---|
| SyncConfig.SamePermissionIsEquality | cowbird/permissions_synchronizer.py:50-59 | Two permissions compare equal exactly when all eight fields agree. |
| SyncConfig.RegisterEffect | cowbird/permissions_synchronizer.py:100-114 | `_add_mapping` adds the source key if it is missing. Each listed source permission gets the target permissions appended once per occurrence, and nothing else changes. |
| SyncConfig.EntryEffect | cowbird/permissions_synchronizer.py:93-98 | One mapping line: `->` registers key1 towards key2, `<-` key2 towards key1, `<->` both. Each registration appends to the existing targets. |
| Synchronizer.SyncPoint.constructor | cowbird/permissions_synchronizer.py:70-98 | The table is exactly the fold of the mapping lines in order. |
| Synchronizer.SyncPoint.AddMapping | cowbird/permissions_synchronizer.py:100-114 | The new table is `Register` of the old one; the services are unchanged. |
| ResourcePath.RemoveTypeOfNametypePath | cowbird/permissions_synchronizer.py:141-151 | Removing the types from `/n1::t1/n2::t2...` gives `/n1/n2...`, provided no name holds ':' and no name or type holds '/'. |
| ResourcePath.SplitJoin | cowbird/permissions_synchronizer.py:141-151 | Splitting a joined path at '/' gives back its pieces after a leading empty piece. The non-empty pieces are preserved. |
| ResourcePath.Match | cowbird/permissions_synchronizer.py:116-139 | A literal takes one segment with exactly its name and type. A `{var}` takes one segment of its type. The multi-token takes zero or more segments of its type. A match binds exactly the template's group names. |
| ResourcePath.LiteralCount | cowbird/permissions_synchronizer.py:131-139 | The match length counts literal segments only, and is at most the template's length. |
| ResourcePath.MatchedGroups | cowbird/permissions_synchronizer.py:164-177 | The groups handed on exist exactly when the template matches. They bind exactly the template's group names. |
| ResourcePath.CreateResData | cowbird/permissions_synchronizer.py:194-227 | Generation succeeds exactly when every token of the target template is bound. Without a multi-token, it yields one segment per template segment. |
| ResourcePath.GenerateReproducesMatchedTree | cowbird/permissions_synchronizer.py:194-227 | For a valid template (at most one multi-token, distinct named tokens, none of them named like the multi-token group) and a tree whose names hold no ':' and types no '/', generating from the template that matched, with the groups it produced, gives back the matched tree. |
| Synchronizer.SyncPoint.FindMatchingRes | cowbird/permissions_synchronizer.py:153-192 | The result is `MatchingRes`: the unique longest match, or ValueError on a tie or when nothing matches. |
| Synchronizer.BestIsUniqueLongest | cowbird/permissions_synchronizer.py:178-192 | A key is the best exactly when its match has the maximal literal count and no other key has that count. |
| Synchronizer.MatchingResNoBest | cowbird/permissions_synchronizer.py:178-192 | A tie at the maximum, or no match at all, raises ValueError. |
| Synchronizer.MatchingResBest | cowbird/permissions_synchronizer.py:178-192 | The unique best key is returned with its groups. |
| Synchronizer.SelectBest | cowbird/permissions_synchronizer.py:178-192 | On success the key is the best one and carries its groups. On failure the error is ValueError and no key is best. |
| Synchronizer.CollectMatches | cowbird/permissions_synchronizer.py:166-177 | The loop records exactly the keys whose template matches. A malformed template is a regex error. |
| Synchronizer.MaxLength | cowbird/permissions_synchronizer.py:178 | `max` over the lengths is one of them and bounds all of them. |
| SyncConfig.FirstServiceWith | cowbird/permissions_synchronizer.py:229-240 | The index of the first service defining the key, and none before it. |
| SyncConfig.ResourceDataOfFirstService | cowbird/permissions_synchronizer.py:229-240 | Resource data comes from the first service holding the key. A key held by no service is an IndexError (`svc_list[0]`). |
| DeletionGuard.SrcPermissions | cowbird/permissions_synchronizer.py:242-249 | The pairs yielded are exactly the (source key, permission) pairs of the table. |
| PermissionTree.FindChild | cowbird/permissions_synchronizer.py:251-275 | The first child with the given name, or none when no child has it. |
| PermissionTree.IsInMeansHeldOnLastSegment | cowbird/permissions_synchronizer.py:251-275 | A permission is reported held only when the path leads, one named child at a time, to a resource of the last name that lists it. |
| PermissionTree.IsInPermissions | cowbird/permissions_synchronizer.py:251-275 | The walk down the report equals `IsInSpec`. |
| DeletionGuard.CheckSide | cowbird/permissions_synchronizer.py:320-329 | A permission no longer listed is left alone. Otherwise the report decides whether the principal still justifies it. |
| DeletionGuard.ProcessKey | cowbird/permissions_synchronizer.py:309-329 | The loop over one key's permissions gives the specified result, or fails only when an overlapping permission exists. |
| DeletionGuard.VisitKey | cowbird/permissions_synchronizer.py:307-329 | One target key: each copy's entry is as specified; a failure means the key overlaps. |
| DeletionGuard.ProcessPair | cowbird/permissions_synchronizer.py:306-329 | For one source permission, both copies progress as specified; a failure implies an overlap. |
| DeletionGuard.KeptIffNoOtherHeldSource | cowbird/permissions_synchronizer.py:277-330 | A target permission survives in a principal's copy, and is deleted, exactly when no other source key maps a permission the principal holds onto it. |
| DeletionGuard.NoOverlapKeepsAll | cowbird/permissions_synchronizer.py:277-330 | With no overlapping mapping, both copies keep the whole target dictionary. |
| DeletionGuard.KeptIgnoresOwnSource | cowbird/permissions_synchronizer.py:301-303 | The triggering source key's own mappings are never consulted: replacing them changes nothing. |
| Synchronizer.SyncPoint.FilterUsedTargets | cowbird/permissions_synchronizer.py:277-330 | On success, the two copies are what the guard keeps. A crash (absent principal, deleted key) is a KeyError, IndexError or TypeError and needs an overlapping mapping. With no overlap, both copies are the input. |
| Synchronizer.CheckSourcePermission | cowbird/permissions_synchronizer.py:292-330 | One source permission more is checked, and the triggering key is skipped. |
| Synchronizer.SyncPoint.GetPermissionData | cowbird/permissions_synchronizer.py:332-361 | Every key of either copy gets its resource path. User-copy permissions get `[user, None]`; a group-copy permission fills the group slot or gets `[None, group]`. Missing resource data fails. |
| Synchronizer.UserData | cowbird/permissions_synchronizer.py:344-350 | The user loop covers exactly the keys of the user copy, with `[user, None]` slots. |
| Synchronizer.AddGroupData | cowbird/permissions_synchronizer.py:351-360 | After the group loop, the keys are those of either copy, each with its row. |
| Synchronizer.DataForIs | cowbird/permissions_synchronizer.py:332-361 | A map holding the row of exactly the keys of either copy is the permission data. |
| Synchronizer.SlotsFor | cowbird/permissions_synchronizer.py:346-360 | A permission has a slot exactly when it is in the user or the group list. |
| Synchronizer.SyncPoint.FindPermissionsToSync | cowbird/permissions_synchronizer.py:376-401 | A missing or empty mapping raises RuntimeError. On create, every mapped target permission gets `[user, group]`. On delete, the guarded copies are planned. |
| Synchronizer.SyncPoint.CreateData | cowbird/permissions_synchronizer.py:391-399 | The create branch: every target key with `[user, group]` for each mapped permission. |
| Synchronizer.SyncPoint.Sync | cowbird/permissions_synchronizer.py:403-427 | A failed match raises its error and a missing mapping RuntimeError, with no call made. A plan that cannot be built raises a KeyError, IndexError or TypeError before any call. Otherwise exactly one operation call is made per target key and permission, each carrying the resource path with permission, user and group on its last segment. |
| Synchronizer.Dispatch | cowbird/permissions_synchronizer.py:418-427 | The calls of every key in turn. An IndexError happens exactly when a key with permissions has an empty path. |
| Synchronizer.SendKey | cowbird/permissions_synchronizer.py:420-427 | One call per permission of the key, each permission once, extending the calls made so far. |
| PermissionSync.PermissionSynchronizer.constructor | cowbird/permissions_synchronizer.py:438-458 | One sync point per configuration entry, in order. |
| PermissionSync.PermissionSynchronizer.SyncAll | cowbird/permissions_synchronizer.py:460-476 | Every sync point runs in order; the first error stops the loop. The calls are those of the points that ran. |
| PermissionSync.PermissionSynchronizer.CreatePermission | cowbird/permissions_synchronizer.py:460-467 | `SyncAll` with the create operation. |
| PermissionSync.PermissionSynchronizer.DeletePermission | cowbird/permissions_synchronizer.py:469-476 | `SyncAll` with the delete operation. |
| PermissionSync.AllCallsAppend | cowbird/permissions_synchronizer.py:460-476 | The calls of one more sync point come after those of the earlier ones. |
| Constants.SettingNameShape | cowbird/constants.py:113-126 | Every normalised name is lower case and made of word characters. A leading digit is prefixed with `_`, and `cowbird_` becomes `cowbird.`. |
| Constants.SettingNameLength | cowbird/constants.py:113-126 | Characters are replaced one for one; only a leading digit adds one `_` in front, and the prefix rewrite keeps the length. |
| Constants.SettingNameOfCowbirdName | cowbird/constants.py:113-126 | `COWBIRD_` followed by word characters becomes `cowbird.` followed by the rest in lower case. |
| Constants.SettingNameIdempotent | cowbird/constants.py:113-126 | Normalising a normalised name changes nothing. |
| Constants.FirstSet | cowbird/constants.py:176-203 | The first place that holds a value other than None, and only such a value. |
| Constants.SettingsFirst | cowbird/constants.py:176-181 | A value in the settings under the exact name wins over every other place. |
| Constants.EnvironmentLast | cowbird/constants.py:194-203 | The environment is read only when no setting and no module definition gives a value. |
| Constants.GetConstant | cowbird/constants.py:129-212 | A protected constant comes from the module alone. Otherwise the first value present and not None is returned. Found-but-None raises ValueError with `raise_not_set`; missing raises LookupError with `raise_missing`; else the default. |
| Constants.ValidateRequired | cowbird/constants.py:215-222 | Succeeds exactly when both required settings have a value; otherwise ValueError or LookupError. |
| Handlers.FirstBadParam | cowbird/handlers/handler.py:72-81 | The first required parameter that is unknown or None, and every earlier one is fine. |
| Handlers.NewHandler | cowbird/handlers/handler.py:53-81 | No `required_params` raises NotImplementedError. A bad parameter raises HandlerConfigurationException. Otherwise the fields are set and the priority defaults to none (infinity). |
| Handlers.AcceptedConfigs | cowbird/handlers/handler.py:53-81 | Each implementation has a parameter list, and it accepts a configuration exactly when that configuration gives its listed parameters. |
| Handlers.HandlerFactory.constructor | cowbird/handlers/handler_factory.py:27-43 | For every name, the kept configuration is its first entry across the files, in order. |
| Handlers.FirstForAppend | cowbird/handlers/handler_factory.py:33-40 | A later entry never replaces the first one for the same name. |
| Handlers.MergeFile | cowbird/handlers/handler_factory.py:33-40 | One file's entries, in order, extend the merge state. |
| Handlers.HandlerFactory.CreateHandler | cowbird/handlers/handler_factory.py:73-87 | A handler is built only for a valid, configured, active name, with that name and priority; otherwise None. The result, None included, overwrites the cache entry. |
| Handlers.HandlerFactory.GetHandler | cowbird/handlers/handler_factory.py:117-125 | A cached entry is returned unchanged, and the cache is untouched; otherwise `create_handler` runs and caches what it builds. |
| Handlers.HandlerFactory.GetActiveHandlers | cowbird/handlers/handler_factory.py:127-132 | The built handler of every configured name, without the Nones, sorted by ascending priority. Every name newly cached is a configured name whose entry is the handler `create_handler` builds for it, or None when it is inactive or misconfigured. |
| Handlers.SortByPriority | cowbird/handlers/handler_factory.py:132 | The output is sorted by priority, with unprioritised handlers last, and is a permutation of the input. |
| Handlers.Built | cowbird/handlers/handler_factory.py:131 | The output holds exactly the present handlers. |
| Handlers.ActiveHandlersOrdered | cowbird/handlers/handler_factory.py:131-132 | The active handlers are sorted and are exactly the built ones. |
| Monitoring.Monitor.constructor | cowbird/monitoring/monitor.py:55-72 | A new monitor keeps its path, flag and callback, and is not alive. |
| Monitoring.NewMonitor | cowbird/monitoring/monitor.py:55-93 | A missing path raises MonitorException; then the callback is resolved (its error passes through); otherwise a stopped monitor. |
| Monitoring.DottedNameResolves | cowbird/monitoring/monitor.py:74-93 | `module.Class` resolves to what the module defines under the class name; a missing module or class raises. |
| Monitoring.ResolveCallback | cowbird/monitoring/monitor.py:74-101 | An instance gives its class name. A class that is not an FSMonitor, or any other value, and only those, raise TypeError. ImportError comes only from a dotted name, and a name without a dot raises MonitorException. |
| Monitoring.SplitLastDotJoins | cowbird/monitoring/monitor.py:86-90 | The text is split at its last dot: the class part holds no dot, and the parts join back to the text. |
| Monitoring.Monitor.Params | cowbird/monitoring/monitor.py:126-145 | `params` is the key plus the current recursive flag. |
| Monitoring.Monitor.Start | cowbird/monitoring/monitor.py:147-163 | Starting an alive monitor raises MonitorException; otherwise it becomes alive. |
| Monitoring.Monitor.Stop | cowbird/monitoring/monitor.py:165-171 | Stopping drops the observer; with none, AttributeError. |
| Monitoring.Monitor.SetRecursive | cowbird/monitoring/monitor.py:107-112 | A different value stops and restarts the monitor with it; the same value is a no-op. |
| Monitoring.Monitor.MovedEvents | cowbird/monitoring/monitor.py:173-187 | The corrected rule (see Findings rows 2 and 3): a move always forwards `deleted(src)`, and forwards `created(dest)` exactly when the destination lies in the watched directory and, without recursion, directly inside it. |
| Monitoring.Dirname | cowbird/monitoring/monitor.py:184 | `os.path.dirname` gives a prefix of the path. |
| Monitoring.NonRecursiveForwardsChildren | cowbird/monitoring/monitor.py:182-187 | With the corrected rule a non-recursive monitor forwards a move directly into the watched directory, and none into a sub-directory. |
| Monitoring.ChildIgnoredAsWritten | cowbird/monitoring/monitor.py:184-186 | As written, a non-recursive monitor of `parent/dir` drops a file moved directly into `parent/dir`, which the corrected rule forwards. |
| Monitoring.ForwardsCreateAsWritten | cowbird/monitoring/monitor.py:181-186 | As written, nothing that does not start with the watched path is forwarded, and a recursive monitor forwards every path inside the watched directory. |
| Monitoring.Registry.Register | cowbird/monitoring/monitoring.py:57-97 | The corrected behaviour (see Findings row 1): a callback that cannot be resolved yields None on MonitorException and passes other errors through, changing nothing. An existing pair keeps its monitor and is upgraded to recursive, never downgraded. A new pair is built, filed, recorded and started. The store holds one record with the current flag. |
| Monitoring.Registry.RegisterKnown | cowbird/monitoring/monitoring.py:75-92 | An existing pair: same monitor, recursive becomes old-or-requested, and the monitor stays alive. |
| Monitoring.Registry.RegisterNew | cowbird/monitoring/monitoring.py:80-92 | A new pair: a monitor that cannot be built yields None and changes nothing; otherwise it is filed and alive. |
| Monitoring.Registry.Unregister | cowbird/monitoring/monitoring.py:99-122 | The store record is always deleted. The result is true exactly when a monitor was registered, which is stopped and removed, and an emptied path is dropped. |
| Monitoring.Registry.RemoveEntry | cowbird/monitoring/monitoring.py:111-122 | The in-memory removal: found exactly when the pair was present; the monitor ends stopped. |
| Monitoring.Registry.StartAll | cowbird/monitoring/monitoring.py:48-55 | Every loaded monitor is started, and the registry is `FiledAll` of the old one: for each path and callback the last loaded monitor wins, entries not loaded are unchanged, and no other entry appears. |
| Monitoring.Registry.FileAndStart | cowbird/monitoring/monitoring.py:53-55 | One loaded monitor is filed under its path and callback, replacing any earlier entry there, and started. |
| Monitoring.FiledAllFacts | cowbird/monitoring/monitoring.py:52-55 | After the loop, each pair holds its last loaded monitor, untouched pairs keep their old monitor, and every pair is old or loaded. |
| Utils.UpdateFilesystemPermissions | cowbird/utils.py:611-625 | The result is `OthersMode`: each "others" bit set or cleared by its flag, then masked to `0o777`. |
| Utils.OthersModeBits | cowbird/utils.py:620-625 | The result is at most `0o777`. Its others read/write/execute bits equal the three flags, and its user and group digits are the input's. |
| Utils.OthersModeIdempotent | cowbird/utils.py:620-625 | Applying the same flags twice gives the same mode as once. |
| Utils.NewPathPermissions | cowbird/utils.py:591-608 | A chmod is issued, to the new mode, exactly when the new mode differs from the previous low nine bits. |
| Utils.ChmodSettles | cowbird/utils.py:602-605 | After the chmod, the same event asks for no further change. |
| Utils.FuzzyIgnoresCaseAndDash | cowbird/utils.py:327-328 | Names equal up to ASCII case and `-`/`_` have the same fuzzy form. |
| Utils.FirstFuzzy | cowbird/utils.py:338-340 | The first header whose fuzzy name matches, with no match before it; none when nothing matches. |
| Utils.GetHeader | cowbird/utils.py:310-347 | A missing container, or no match, gives the default. Otherwise the first matching header's value, cut as `Cut` says and stripped. |
| Utils.CutValue | cowbird/utils.py:340-346 | The separator handling equals `Cut`. |
| Utils.CutAtAnySeparator | cowbird/utils.py:341-346 | With several one-character separators, the value is cut before the first of any of them and stripped. |
| Utils.CutAtAnyTextSeparator | cowbird/utils.py:341-346 | A multi-character split string acts as the set of its characters. |
| Utils.EnumGet | cowbird/utils.py:493-513 | A member of this enum is returned as is, and a member of another enum class is not found. A text key gives the first member whose name or value equals it, with no earlier member matching; `default` exactly when no member matches. |
| Utils.OtherEnumMemberNotFound | cowbird/utils.py:503-509 | A member of another enum class with the same name and value is not found, while its name finds this class's own member. |
| Utils.NamesLeadBack | cowbird/utils.py:479-513 | Each name listed by `names` leads back to its member, provided no earlier member has it as name or value. |
| Utils.ValuesLeadBack | cowbird/utils.py:486-513 | The same for every value listed by `values`. |
| Utils.Names | cowbird/utils.py:479-484 | One name per member, in order. |
| Utils.Values | cowbird/utils.py:486-491 | One value per member, in order. |
| Utils.SingletonRegistry.Call | cowbird/utils.py:540-543 | The first call for a class builds and caches its instance; later calls return the cached one and change nothing. |
| Magpie.DecideMeaning | cowbird/handlers/impl/magpie.py:347-355 | POST exactly when no permission of that name is listed. Otherwise the first one of that name decides: nothing when access and scope agree, else PUT. |
| Magpie.ChooseMethod | cowbird/handlers/impl/magpie.py:347-355 | The loop over the listed permissions yields `Decide`. |
| Magpie.PermissionEndpoint | cowbird/handlers/impl/magpie.py:334-339 | The user route when a user is given, even with a group; else the group route; ValueError when neither is given. |
| Magpie.MagpieHandler.CreatePermissionByResId | cowbird/handlers/impl/magpie.py:325-370 | ValueError without a principal. Otherwise the listing reply decides: none raises the transport error, non-200 raises MagpieHttpError, no change needed returns None. Else the decided POST or PUT is the last request answered, success on 200/201 returning that reply, MagpieHttpError otherwise. |
| Magpie.Marked | cowbird/handlers/impl/magpie.py:312-323 | The marked item has `action` set and every other field unchanged. |
| Magpie.MagpieHandler.PatchPermissions | cowbird/handlers/impl/magpie.py:308-323 | No items: nothing is sent. Otherwise only the last item is marked, and the list is sent in one PATCH, whose reply decides the outcome; a missing reply raises the transport error. |
| Magpie.MagpieHandler.CreatePermissions | cowbird/handlers/impl/magpie.py:308-323 | The last item is marked `create`; success exactly when the PATCH is answered with 200. |
| Magpie.MagpieHandler.DeletePermission | cowbird/handlers/impl/magpie.py:418-432 | The last item is marked `remove`; success exactly when the PATCH is answered with 200. |
| Magpie.MagpieHandler.Login | cowbird/handlers/impl/magpie.py:460-474 | Signs in only when the cookies are missing or older than 60 s; otherwise nothing is sent and the cookies are returned. |
| Magpie.MagpieHandler.SendRequest | cowbird/handlers/impl/magpie.py:78-97 | The result is the network's reply to the request. It is retried exactly once, after a sign-in with the cookies dropped, when the first reply is 401 or 403, and the second reply is then the result. A missing reply raises. Only sign-ins and the request are sent. |
| Magpie.MagpieHandler.Reattempt | cowbird/handlers/impl/magpie.py:91-96 | The retry: the cookies are dropped, so a sign-in is sent first, then the request, whose reply is the result. |
| Magpie.MagpieHandler.Attempt | cowbird/handlers/impl/magpie.py:88-90 | One attempt: sign in when the cookies need it, then send the request with the cookies obtained; the result is the network's reply. |
| Magpie.MagpieHandler.Get | cowbird/handlers/impl/magpie.py:111-151 | The GET's reply decides: success exactly on 200, MagpieHttpError on any other status, the transport error when there is no reply. |
| Magpie.MagpieHandler.GetServiceTypes | cowbird/handlers/impl/magpie.py:99-109 | A non-empty cache is returned; otherwise the types are fetched with a GET, and cached only when it is answered with 200. |
| Magpie.DeleteOutcome | cowbird/handlers/impl/magpie.py:398-416 | 200 deletes something, 404 is not an error, and any other status raises. |
| Magpie.MagpieHandler.Delete | cowbird/handlers/impl/magpie.py:398-416 | The DELETE is the last request answered, and its reply's outcome is `DeleteOutcome`; no reply raises. |
| Magpie.MagpieHandler.DeletePermissionByUser | cowbird/handlers/impl/magpie.py:398-406 | The user route, with the outcome of `DeleteOutcome`. |
| Magpie.MagpieHandler.DeletePermissionByGroup | cowbird/handlers/impl/magpie.py:408-416 | The group route, with the outcome of `DeleteOutcome`. |
| Magpie.MagpieHandler.DeleteResource | cowbird/handlers/impl/magpie.py:451-458 | The resource route, with the outcome of `DeleteOutcome`. |
| Magpie.DisplayName | cowbird/handlers/impl/magpie.py:441 | The display name when truthy, else the name. |
| Magpie.MagpieHandler.CreateResource | cowbird/handlers/impl/magpie.py:434-449 | A POST with the display name defaulting to the name; success exactly when it is answered with 201. |
| Magpie.NewMagpieHandler | cowbird/handlers/impl/magpie.py:56-76 | ConfigError exactly when an admin credential is missing. |
| Magpie.FindWorkspaceResId | cowbird/handlers/impl/magpie.py:153-177 | No geoserver services raises ValueError. The last matching workspace over all services wins. When none is found, it is created only if asked. |
| Magpie.LaterServiceWins | cowbird/handlers/impl/magpie.py:161-170 | A matching workspace in a later service overrides earlier matches. |
| Magpie.FirstByName | cowbird/handlers/impl/magpie.py:190-201 | The first workspace, or layer, with that name, with none before it; none exactly when no item has that name. |
| Magpie.LayerScanStops | cowbird/handlers/impl/magpie.py:184-203 | The search stops at the first service where the layer is found. |
| Magpie.FindLayerResId | cowbird/handlers/impl/magpie.py:179-214 | Stops at the first layer found. Otherwise it creates the workspace only if none was found, then the layer under the last workspace found. |
| Geoserver.ResponseOutcome | cowbird/handlers/impl/geoserver.py:104-146 | 200/201 succeed; a 401 saying the workspace exists only warns. Any other 401, a 403 on removal, the known 404 texts and 500 raise GeoserverError; anything else, or a failed connection, RequestException. |
| Geoserver.NotFoundOutcome | cowbird/handlers/impl/geoserver.py:128-140 | A 404 is a GeoserverError exactly when its text is one of the known not-found texts. |
| Geoserver.ShapefileList | cowbird/handlers/impl/geoserver.py:202-207 | One path per extension of `SHAPEFILE_ALL_EXTENSIONS` (11), all with the same base path. |
| Geoserver.ShapefileListDistinct | cowbird/handlers/impl/geoserver.py:70-73 | The 11 paths are pairwise different, and the main `.shp` file is among them. |
| Geoserver.ShapefileInfo | cowbird/handlers/impl/geoserver.py:664-674 | The workspace is the third-from-last component and the name is the last component's stem. Fewer than three parts is an IndexError, and anything but one '.' is a ValueError. |
| Geoserver.ShapefileInfoOfMainFile | cowbird/handlers/impl/geoserver.py:664-674 | The main file of a workspace's shapefile is read back as that workspace and name. |
| Geoserver.DatastoreName | cowbird/handlers/impl/geoserver.py:676-684 | The datastore name is a fixed prefix followed by the workspace name. |
| Geoserver.DeniedPermissions | cowbird/handlers/impl/geoserver.py:447-451 | Allowed is READ if readable, plus WRITE if writable; denied is the rest. Together they partition READ ∪ WRITE. |
| Geoserver.ReadWriteDisjoint | cowbird/handlers/impl/magpie.py:21-42 | No permission is both a Geoserver read and a write permission. |
| Geoserver.PairsOnePerName | cowbird/handlers/impl/geoserver.py:452-456 | Every Geoserver permission is requested exactly once, either allowed or denied. |
| Geoserver.IsUpdateRequired | cowbird/handlers/impl/geoserver.py:392-433 | False only for an effective permission of the same name and access with a matching scope rule (recursive: no direct permission, or a recursive one). Deletes only when required and asked. |
| Geoserver.HasPermission | cowbird/handlers/impl/geoserver.py:478-482 | True exactly when some listed permission has that name and access. |
| Geoserver.UpdateMagpiePermissions | cowbird/handlers/impl/geoserver.py:435-487 | Collects exactly the required pairs. Creates only pairs with no effective permission of the same name and access. |
| Geoserver.ResourcePathsUpdate | cowbird/handlers/impl/geoserver.py:209-247 | Readable/writable hold exactly when an allowed permission is a READ/WRITE one; executable only for a workspace. A layer's paths are its 11 shapefile paths. A layer without a name raises GeoserverError. |
| Geoserver.FlagsRoundTrip | cowbird/handlers/impl/geoserver.py:219-239 | Flags turned into permissions and back give the same flags. |
| Geoserver.FilesystemTarget | cowbird/handlers/impl/geoserver.py:273-291 | A non-Geoserver permission is skipped. A permission without a user raises NotImplementedError. |
| Geoserver.WorkspaceFlagsRoundTrip | cowbird/handlers/impl/geoserver.py:489-503 | A workspace folder's mode set from flags reads back as those flags. |
| Geoserver.ShapefileFlagsRoundTrip | cowbird/handlers/impl/geoserver.py:603-617 | A shapefile's mode set from flags reads back as those flags; the files are never executable. |
| Requests.FirstMatch | cowbird/api/requests.py:234-236 | The first parameter whose name equals a key up to ASCII case, with none before it; none when nothing matches. |
| Requests.LastIndex | cowbird/api/requests.py:237 | The last parameter with that name: reading a name gives its last value. |
| Requests.GetQueryParam | cowbird/api/requests.py:225-238 | One key is a one-element list. The value of the first parameter, in request order, that matches any key ignoring case; `default` when none matches. |
| Requests.FirstMatchIgnoresKeyCase | cowbird/api/requests.py:236 | Keys that agree once lower-cased select the same parameter. |
| Requests.CheckValue | cowbird/api/requests.py:14-45 | `None` passes only when the check type is disabled or a tuple holding `NoneType`. A disabled check passes everything. A `str` check with a truthy pattern needs a non-empty matching string. A bool passes an `int` check. |
| Requests.PatternOnlyForStr | cowbird/api/requests.py:43-45 | The pattern is consulted only for exactly `str` with a truthy pattern. |
| Webhooks.Dispatch | cowbird/api/webhooks/views.py:25-42 | Every handler is called once, in order, even after one raises. It warns exactly when there are none. It raises with every collected exception iff one was raised. |
| Webhooks.RaisedMembers | cowbird/api/webhooks/views.py:33-37 | An exception is collected exactly when some handler raised it. |
| Webhooks.RaisedAppend | cowbird/api/webhooks/views.py:30-37 | The exceptions of consecutive handlers are collected in handler order. |
| Webhooks.RaisedEmpty | cowbird/api/webhooks/views.py:41-42 | Nothing is collected exactly when no handler raises. |
| Webhooks.PostUserWebhook | cowbird/api/webhooks/views.py:45-91 | A bad event gives 422, or 400 when outside {created, deleted}. A bad user name, or a created event without a string callback, gives 422. Handlers run only after validation. 200 iff none raises; the callback is contacted only for a failed created dispatch with a non-empty URL. |
| Webhooks.PermissionRequestStatus | cowbird/api/webhooks/views.py:97-126 | The checks before the permission is built. A body with neither a truthy user nor group is a 400. A failed Magpie lookup escapes. |
| Webhooks.PostPermissionWebhook | cowbird/api/webhooks/views.py:97-144 | After the checks, `permission_created` or `permission_deleted` goes to every handler. 200 iff all checks pass and no handler raises; a dispatch failure escapes. |
| Webhooks.PostPermissionWebhookAsWritten | cowbird/api/webhooks/views.py:128-138 | As written, a request that passes the checks never succeeds. |
| Setup.FindOperator | setup.py:83-87 | The operators are tried in the order `>=, >, <=, <, !=, ==, =`. The first one found splits the requirement at its first occurrence. |
| Setup.PythonPartAbsent | setup.py:77-79 | With `python` and no `python_version`, the result is `""`, or `("", "")` with `version` and without `merge`. |
| Setup.NameOnly | setup.py:88-89 | Without flags, the result is the stripped package name. |
| Setup.VersionWithoutOperator | setup.py:90-98 | With `version` and no operator, the result is `("", "")`. |
| Setup.MergedRoundTrip | setup.py:94-97 | Merging `name + op + ver` gives it back when name and version are clean. |
| Setup.PythonMarkerRoundTrip | setup.py:77-98 | A requirement with a `python_version <op> "<ver>"` marker gives back the operator and version, and with `merge` the marker itself. |
| Setup.Assemble | setup.py:88-98 | A pair exactly when `version` is set without `merge`; its operator is empty or one of the list. |
| Setup.RequirementParts | setup.py:38-98 | The same shape guarantees hold for the whole parser. |
| Setup.SplitRequirement | setup.py:38-98 | The loop-based parser computes `RequirementParts`. |
| Setup.ExtraRequirements | setup.py:144-160 | An other requirement is kept exactly when its merged form is non-empty and differs from every base requirement's merged form. |
| Setup.RawRequirements | setup.py:150-153 | The raw set holds exactly the merged forms of the base requirements. |
| Setup.FilterExtra | setup.py:154-159 | Keeps exactly the other requirements whose merged form is non-empty and not raw. |

## Left out

- The regex helpers `get_mapping_info`, `get_permissions_from_str`, `NAMED_TOKEN_REGEX` and `MULTI_TOKEN` live in `cowbird/config.py`, which is not part of this model. Mapping lines arrive already parsed, and template segments already classified as literal, named token or multi-token.
- Regular expressions are replaced by direct matchers. The matcher is the segment matcher described above. The `[\w:-]+` class is an ASCII predicate. `PARAM_REGEX` and the resource-name pattern are an abstract `matches` parameter, because `cowbird/api/exception.py` is not part of this model.
- `cowbird/api/exception.py` (`verify_param`) is not part of this model. `Requests.CheckValue` takes a value to be rejected for each requested check it fails.
- HTTP traffic with Magpie and Geoserver, the webhook's `requests.head` callback, and the Magpie lookups of the permission webhook are oracles or parameters. The callback is only a `calledBack` flag.
- Celery tasks and chains, `RequestTask` retries, and the Geoserver REST calls: asynchronous queueing.
- Watchdog observers and threads: only an `alive` flag is kept. An `OSError` raised by `observer.start` is not modelled.
- The MongoDB store is a map from monitor key to record.
- Real file-system effects (`os.chmod`, `os.stat`, the recursive walk of `_update_resource_paths_permissions_recursive`) are left out. Only the decisions taken before them are kept.
- `Monitor.get_fsmonitor_instance` returning `None` from `get_instance`, and relative module names, are not modelled.
- The thread-local registry behind `SingletonMeta` is a single map.
- Constructor checks of handler implementations other than Magpie are left out, as is an explicit `priority: null` in a configuration.
- The Magpie getters not used by the modelled code, and the `NotImplementedError` stubs of the handler interface, are left out.
- The workspace and layer searches take already-fetched service trees.
- `str.strip()` and `str.lower()` cover ASCII only; Unicode white space and case folding are not modelled.
- Constants.SettingName: `\W` and `\d` are taken as ASCII classes, as the function's docstring describes. Python 3's `re` treats them as Unicode classes, so the source keeps a non-ASCII letter or digit (`café` stays `café`) where the model writes `_`.
- `Requests.GetQueryParam`: the query and form parameters (`request.params`) are one ordered list. The model does not separate the GET and POST dictionaries.
- `Webhooks.PostPermissionWebhook`: the service type fetched from Magpie is reduced to the error the lookup may raise.
- `Webhooks.PostUserWebhook`: the outcome of each handler call is a parameter. The handlers' own state changes are not modelled.
- Dictionary insertion order is left open: `Synchronizer.CollectMatches`, `Synchronizer.SyncPoint.FilterUsedTargets`, `Synchronizer.UserData`, `Synchronizer.AddGroupData`, `Synchronizer.SyncPoint.CreateData`, `Synchronizer.Dispatch`, `Synchronizer.SendKey`, `Synchronizer.SelectBest`, `Synchronizer.MaxLength` and `DeletionGuard.ProcessPair` take keys in an arbitrary order (`:|`). The model does not fix the order of the permission operation calls, which error is raised first, which calls were made before an error, or whether the deletion guard raises on delete when a mapping overlaps.
- `Monitoring.ForwardsCreate` and `Monitoring.NonRecursiveForwardsChildren`: the watched path is taken without a trailing slash, as `Monitor` stores it.
- Logging, printing (`print_missing`) and the event-name extraction by `inspect.getsource` in `dispatch` are not modelled.

## Findings

| source | as written | input that shows it | evidently intended | confidence | as-written member | corrected member |
|---|---|---|---|---|---|---|
| cowbird/monitoring/monitoring.py:74-97 | When resolving the callback at line 74 raises MonitorException, the handler logs `callback`, which was never bound, so UnboundLocalError escapes | a dotted callback name without a module part, e.g. `"Monitor"` | `register` returns None on MonitorException, as its docstring says | not executed | Monitoring.UnresolvedCallbackEscapes | Monitoring.RegisterResolveFailure |
| cowbird/monitoring/monitor.py:181 | `dest_path.startswith(self.__src_path)` is a string-prefix test | watched `/ws/user1`, recursive, destination `/ws/user10/f` is forwarded as created | only paths inside the watched directory are forwarded | not executed | Monitoring.SiblingForwardedAsWritten | Monitoring.ForwardedIsWithin |
| cowbird/monitoring/monitor.py:184-186 | A non-recursive monitor compares the destination's directory with the watched path's own directory | watched `/ws/user1`, not recursive, destination `/ws/user1/f` is not forwarded as created | a non-recursive monitor forwards moves directly into the watched directory | not executed | Monitoring.ChildIgnoredAsWritten | Monitoring.NonRecursiveForwardsChildren |
| cowbird/api/webhooks/views.py:128-138 | The permission is built with `service_type=...`, which `Permission.__init__` (cowbird/permissions_synchronizer.py:31-40) does not accept, so TypeError is raised | any request that passes the checks, e.g. the body of tests/test_api.py:76-86 with an integer `resource_id` | the permission reaches `dispatch` | not executed | Webhooks.ValidPermissionRequestFailsAsWritten | Webhooks.PostPermissionWebhook |
