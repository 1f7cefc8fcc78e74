/**
 * The webhook endpoints: best-effort dispatch of one event to every active
 * handler, and the validation the user and permission webhooks perform
 * before dispatching.
 *
 * Handlers are named by the sequence `get_handlers()` returns (active
 * handlers, in priority order). What calling the event on a handler does is
 * a parameter: the exception it raises, if any.
 */
module Webhooks {
  import opened Common
  import opened Requests

  /** `ValidOperations`: the accepted event values. */
  const CreateOperation := "created"
  const DeleteOperation := "deleted"

  /** The pattern checked on `resource_full_name` by the permission webhook. */
  const ResourceFullNamePattern := "^/?[A-Za-z0-9]+(?:[\\s_\\-\\./:][A-Za-z0-9]+)*$"

  /** The effect of `handler_fct(handler)` for each handler: the exception raised, if any. */
  type HandlerCall = string -> Option<Error>

  /** The exceptions collected by `dispatch`, in handler order. */
  function Raised(handlers: seq<string>, call: HandlerCall): (r: seq<Error>)
    ensures |r| <= |handlers|
  {
    if handlers == [] then [] else Raised(handlers[..|handlers| - 1], call) + Caught(call(handlers[|handlers| - 1]))
  }

  /** Nothing is collected exactly when no handler raises. */
  lemma {:induction false} RaisedEmpty(handlers: seq<string>, call: HandlerCall)
    ensures Raised(handlers, call) == [] <==> forall j :: 0 <= j < |handlers| ==> call(handlers[j]).None?
  {
    if handlers != [] {
      var front := handlers[..|handlers| - 1];
      RaisedEmpty(front, call);
      assert forall j :: 0 <= j < |front| ==> front[j] == handlers[j];
    }
  }

  /** What one handler adds to the collected exceptions. */
  function Caught(raised: Option<Error>): (r: seq<Error>)
    ensures |r| <= 1 && (r == [] <==> raised.None?)
  {
    match raised
    case None => []
    case Some(e) => [e]
  }

  /** One handler more adds what it raised. */
  lemma RaisedSnoc(handlers: seq<string>, h: string, call: HandlerCall)
    ensures Raised(handlers + [h], call) == Raised(handlers, call) + Caught(call(h))
  {
    assert (handlers + [h])[..|handlers|] == handlers;
  }

  /** The collected exceptions are those of the handlers, in their order. */
  lemma {:induction false} RaisedAppend(a: seq<string>, b: seq<string>, call: HandlerCall)
    ensures Raised(a + b, call) == Raised(a, call) + Raised(b, call)
    decreases |b|
  {
    if b == [] {
      assert a + b == a;
    } else {
      var b', last := b[..|b| - 1], b[|b| - 1];
      calc {
        Raised(a + b, call);
        { assert a + b == (a + b') + [last]; }
        Raised((a + b') + [last], call);
        { RaisedSnoc(a + b', last, call); }
        Raised(a + b', call) + Caught(call(last));
        { RaisedAppend(a, b', call); }
        (Raised(a, call) + Raised(b', call)) + Caught(call(last));
        Raised(a, call) + (Raised(b', call) + Caught(call(last)));
        { assert b == b' + [last]; RaisedSnoc(b', last, call); }
        Raised(a, call) + Raised(b, call);
      }
    }
  }

  /** Some handler raises `e`. */
  predicate RaisedBy(handlers: seq<string>, call: HandlerCall, e: Error)
  {
    exists j :: 0 <= j < |handlers| && call(handlers[j]) == Some(e)
  }

  lemma RaisedBySnoc(handlers: seq<string>, h: string, call: HandlerCall, e: Error)
    ensures RaisedBy(handlers + [h], call, e) <==> RaisedBy(handlers, call, e) || call(h) == Some(e)
  {
    var hs := handlers + [h];
    if RaisedBy(handlers, call, e) {
      var j :| 0 <= j < |handlers| && call(handlers[j]) == Some(e);
      assert hs[j] == handlers[j];
    }
    if call(h) == Some(e) {
      assert hs[|handlers|] == h;
    }
    if RaisedBy(hs, call, e) {
      var j :| 0 <= j < |hs| && call(hs[j]) == Some(e);
      if j < |handlers| {
        assert hs[j] == handlers[j];
      }
    }
  }

  /** Every collected exception comes from some handler, and every handler's exception is collected. */
  lemma {:induction false} RaisedMembers(handlers: seq<string>, call: HandlerCall, e: Error)
    ensures e in Raised(handlers, call) <==> RaisedBy(handlers, call, e)
  {
    if handlers != [] {
      var front, last := handlers[..|handlers| - 1], handlers[|handlers| - 1];
      assert handlers == front + [last];
      RaisedMembers(front, call, e);
      RaisedSnoc(front, last, call);
      RaisedBySnoc(front, last, call, e);
    }
  }

  /** What `dispatch` ends with: normal return, or WebhookDispatchException carrying the exceptions. */
  datatype DispatchOutcome = Dispatched | DispatchFailed(exceptions: seq<Error>)

  /**
   * `dispatch`: call the event on every handler in order, collecting each
   * exception instead of stopping; warn when there is no handler; raise
   * with every collected exception when at least one was raised.
   */
  method Dispatch(handlers: seq<string>, call: HandlerCall) returns (outcome: DispatchOutcome, called: seq<string>, warned: bool)
    ensures called == handlers
    ensures warned <==> handlers == []
    ensures outcome.Dispatched? <==> forall j :: 0 <= j < |handlers| ==> call(handlers[j]).None?
    ensures outcome.DispatchFailed? ==> outcome.exceptions == Raised(handlers, call) && outcome.exceptions != []
  {
    var exceptions: seq<Error> := [];
    called := [];
    var i := 0;
    while i < |handlers|
      invariant 0 <= i <= |handlers|
      invariant called == handlers[..i]
      invariant exceptions == Raised(handlers[..i], call)
    {
      called := called + [handlers[i]];
      var raised := call(handlers[i]);
      if raised.Some? {
        exceptions := exceptions + [raised.value];
      }
      assert handlers[..i + 1][..i] == handlers[..i];
      i := i + 1;
    }
    assert handlers[..i] == handlers;
    RaisedEmpty(handlers, call);
    warned := handlers == [];
    if exceptions != [] {
      outcome := DispatchFailed(exceptions);
    } else {
      outcome := Dispatched;
    }
  }

  /** The handler call for the event: the created one for `created`, the deleted one otherwise. */
  function Chosen(event: Value, created: HandlerCall, deleted: HandlerCall): (r: HandlerCall)
    ensures event == Str(CreateOperation) ==> r == created
    ensures event != Str(CreateOperation) ==> r == deleted
  {
    if event.Str? && event.s == CreateOperation then created else deleted
  }

  /** `bool(value)` in Python. */
  predicate Truthy(v: Value)
  {
    match v
    case NoneValue => false
    case Str(s) => s != ""
    case Int(i) => i != 0
    case Bool(b) => b
    case Float(f) => f != 0.0
  }

  /** The outcome of a view: an HTTP status, or an exception that escapes the view. */
  datatype ViewOutcome = Status(code: nat) | Escaped(error: Error)

  const Ok := 200
  const BadRequestCode := 400
  const UnprocessableCode := 422
  const InternalErrorCode := 500

  /** A body value read with `get_multiformat_body` under its default checks. */
  predicate StrParamOk(v: Value, paramRegex: Pattern, matches: (Pattern, string) -> bool)
  {
    CheckValue(v, Single(StrType), paramRegex, matches)
  }

  /** The event passes the body checks and is one of `ValidOperations`. */
  predicate ValidEvent(event: Value, paramRegex: Pattern, matches: (Pattern, string) -> bool)
  {
    StrParamOk(event, paramRegex, matches) && event.Str? && event.s in {CreateOperation, DeleteOperation}
  }

  /**
   * `post_user_webhook_view`. The event and the user name are read as
   * strings checked against `paramRegex`; an event outside `ValidOperations`
   * is a 400. A created event also reads `callback_url` as a string with no
   * pattern. When dispatching fails, the callback is contacted if its URL is
   * non-empty, and the reply is a 500; otherwise a 200.
   */
  method PostUserWebhook(event: Value, userName: Value, callbackUrl: Value, paramRegex: Pattern,
                         matches: (Pattern, string) -> bool, handlers: seq<string>,
                         userCreated: HandlerCall, userDeleted: HandlerCall)
    returns (reply: ViewOutcome, called: seq<string>, calledBack: bool)
    ensures !StrParamOk(event, paramRegex, matches) ==> reply == Status(UnprocessableCode)
    ensures StrParamOk(event, paramRegex, matches) && !ValidEvent(event, paramRegex, matches) ==>
      reply == Status(BadRequestCode)
    ensures ValidEvent(event, paramRegex, matches) && !StrParamOk(userName, paramRegex, matches) ==>
      reply == Status(UnprocessableCode)
    ensures ValidEvent(event, paramRegex, matches) && event.s == CreateOperation && !callbackUrl.Str? ==>
      reply == Status(UnprocessableCode)
    ensures called == (if reply.Status? && reply.code in {BadRequestCode, UnprocessableCode} then [] else handlers)
    ensures calledBack ==> event == Str(CreateOperation) && reply == Status(InternalErrorCode)
    ensures reply == Status(Ok) <==>
      ValidEvent(event, paramRegex, matches) && StrParamOk(userName, paramRegex, matches) &&
      (event.s == CreateOperation ==> callbackUrl.Str?) &&
      forall j :: 0 <= j < |handlers| ==> Chosen(event, userCreated, userDeleted)(handlers[j]).None?
    ensures reply == Status(InternalErrorCode) ==>
      (calledBack <==> event.s == CreateOperation && Truthy(callbackUrl))
    ensures reply != Status(InternalErrorCode) ==> !calledBack
    ensures reply.Status?
  {
    called, calledBack := [], false;
    if !StrParamOk(event, paramRegex, matches) {
      return Status(UnprocessableCode), called, calledBack;
    }
    if !ValidEvent(event, paramRegex, matches) {
      return Status(BadRequestCode), called, calledBack;
    }
    if !StrParamOk(userName, paramRegex, matches) {
      return Status(UnprocessableCode), called, calledBack;
    }
    var url: Value;
    var call: HandlerCall;
    if event.s == CreateOperation {
      if !CheckValue(callbackUrl, Single(StrType), NoPattern, matches) {
        return Status(UnprocessableCode), called, calledBack;
      }
      url, call := callbackUrl, Chosen(event, userCreated, userDeleted);
    } else {
      url, call := NoneValue, Chosen(event, userCreated, userDeleted);
    }
    var outcome, warned;
    outcome, called, warned := Dispatch(handlers, call);
    if outcome.DispatchFailed? {
      // the callback is an HTTP HEAD request whose own failure is only logged
      calledBack := Truthy(url);
      reply := Status(InternalErrorCode);
    } else {
      reply := Status(Ok);
    }
  }

  /**
   * The checks of `post_permission_webhook_view` before the permission is
   * built: the event, an integer `resource_id`, the Magpie lookup of the
   * service type, the resource full name against its own pattern, the name,
   * access and scope, and at least one truthy user or group.
   */
  function PermissionRequestStatus(event: Value, resourceId: Value, serviceLookup: Option<Error>,
                                   resourceFullName: Value, name: Value, access: Value, scope: Value,
                                   user: Value, group: Value, paramRegex: Pattern,
                                   matches: (Pattern, string) -> bool): (r: Option<ViewOutcome>)
    ensures r.None? ==> ValidEvent(event, paramRegex, matches) && (Truthy(user) || Truthy(group))
    ensures r.None? ==> CheckValue(resourceId, Single(IntType), paramRegex, matches) && serviceLookup.None?
    ensures
      (ValidEvent(event, paramRegex, matches) && CheckValue(resourceId, Single(IntType), paramRegex, matches) &&
       serviceLookup.None? && CheckValue(resourceFullName, Single(StrType), Regex(ResourceFullNamePattern), matches) &&
       StrParamOk(name, paramRegex, matches) && StrParamOk(access, paramRegex, matches) &&
       StrParamOk(scope, paramRegex, matches) && !Truthy(user) && !Truthy(group)) ==>
      r == Some(Status(BadRequestCode))
    ensures StrParamOk(event, paramRegex, matches) && !ValidEvent(event, paramRegex, matches) ==>
      r == Some(Status(BadRequestCode))
    ensures
      (serviceLookup.Some? && ValidEvent(event, paramRegex, matches) &&
       CheckValue(resourceId, Single(IntType), paramRegex, matches)) ==> r == Some(Escaped(serviceLookup.value))
  {
    if !StrParamOk(event, paramRegex, matches) then Some(Status(UnprocessableCode))
    else if !ValidEvent(event, paramRegex, matches) then Some(Status(BadRequestCode))
    else if !CheckValue(resourceId, Single(IntType), paramRegex, matches) then Some(Status(UnprocessableCode))
    else if serviceLookup.Some? then Some(Escaped(serviceLookup.value))
    else if !CheckValue(resourceFullName, Single(StrType), Regex(ResourceFullNamePattern), matches) then Some(Status(UnprocessableCode))
    else if !StrParamOk(name, paramRegex, matches) then Some(Status(UnprocessableCode))
    else if !StrParamOk(access, paramRegex, matches) then Some(Status(UnprocessableCode))
    else if !StrParamOk(scope, paramRegex, matches) then Some(Status(UnprocessableCode))
    else if !(Truthy(user) || Truthy(group)) then Some(Status(BadRequestCode))
    else None
  }

  /**
   * `post_permission_webhook_view` as written: the permission is built with
   * a `service_type` argument that the permission's constructor does not
   * take, so every request that passes the checks raises TypeError.
   */
  function PostPermissionWebhookAsWritten(event: Value, resourceId: Value, serviceLookup: Option<Error>,
                                          resourceFullName: Value, name: Value, access: Value, scope: Value,
                                          user: Value, group: Value, paramRegex: Pattern,
                                          matches: (Pattern, string) -> bool): (r: ViewOutcome)
    ensures r != Status(Ok)
  {
    match PermissionRequestStatus(event, resourceId, serviceLookup, resourceFullName, name, access, scope,
                                  user, group, paramRegex, matches)
    case Some(rejected) => rejected
    case None => Escaped(TypeError)
  }

  /** A valid permission request, such as the API test's body with an integer `resource_id`, never reaches the handlers as written. */
  lemma ValidPermissionRequestFailsAsWritten(matches: (Pattern, string) -> bool)
    requires forall s :: matches(Regex("[A-Za-z0-9_]+"), s)
    requires matches(Regex(ResourceFullNamePattern), "thredds/birdhouse/file.nc")
    ensures PostPermissionWebhookAsWritten(Str(CreateOperation), Int(7), None, Str("thredds/birdhouse/file.nc"),
      Str("read"), Str("allow"), Str("recursive"), Str("string"), Str("string"), Regex("[A-Za-z0-9_]+"), matches)
      == Escaped(TypeError)
  {
    var p := Regex("[A-Za-z0-9_]+");
    assert ValidEvent(Str(CreateOperation), p, matches);
    assert PermissionRequestStatus(Str(CreateOperation), Int(7), None, Str("thredds/birdhouse/file.nc"),
      Str("read"), Str("allow"), Str("recursive"), Str("string"), Str("string"), p, matches).None?;
  }

  /**
   * `post_permission_webhook_view` with the permission built from the
   * fields it does take: after the checks, dispatch `permission_created` or
   * `permission_deleted`; a dispatch failure escapes the view.
   */
  method PostPermissionWebhook(event: Value, resourceId: Value, serviceLookup: Option<Error>,
                               resourceFullName: Value, name: Value, access: Value, scope: Value,
                               user: Value, group: Value, paramRegex: Pattern,
                               matches: (Pattern, string) -> bool, handlers: seq<string>,
                               permissionCreated: HandlerCall, permissionDeleted: HandlerCall)
    returns (reply: ViewOutcome, called: seq<string>)
    ensures !(Truthy(user) || Truthy(group)) ==> reply != Status(Ok) && called == []
    ensures !ValidEvent(event, paramRegex, matches) ==> reply.Status? && reply != Status(Ok) && called == []
    ensures called != [] ==> called == handlers
    ensures reply == Status(Ok) <==>
      PermissionRequestStatus(event, resourceId, serviceLookup, resourceFullName, name, access, scope,
                              user, group, paramRegex, matches).None? &&
      forall j :: 0 <= j < |handlers| ==> Chosen(event, permissionCreated, permissionDeleted)(handlers[j]).None?
    ensures reply == Escaped(WebhookDispatchError) && serviceLookup.None? ==> called == handlers && handlers != []
  {
    var rejected := PermissionRequestStatus(event, resourceId, serviceLookup, resourceFullName, name, access,
                                            scope, user, group, paramRegex, matches);
    if rejected.Some? {
      return rejected.value, [];
    }
    var call := Chosen(event, permissionCreated, permissionDeleted);
    var outcome, warned;
    outcome, called, warned := Dispatch(handlers, call);
    if outcome.DispatchFailed? {
      reply := Escaped(WebhookDispatchError);
    } else {
      reply := Status(Ok);
    }
  }
}
