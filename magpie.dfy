/**
 * The Magpie handler (cowbird/handlers/impl/magpie.py): a signed-in session
 * whose cookies are renewed after `COOKIES_TIMEOUT` seconds or after a 401 or
 * 403, the permission requests it sends, and its searches for the Geoserver
 * workspace and layer resources of a user.
 *
 * Magpie itself is an oracle: the reply to the n-th exchange the handler
 * makes is `net(n, exchange)` (None when the connection fails), and
 * `time.time()` once n exchanges have been made is `clock(n)`.
 */
module Magpie {
  import opened Common

  /** `COOKIES_TIMEOUT`, in seconds. */
  const CookiesTimeout: real := 60.0

  // Magpie's permission names grouped as the handler groups them.
  const WfsRead: seq<string> := ["describefeaturetype", "describestoredqueries", "getcapabilities", "getfeature",
                                 "getgmlobject", "getpropertyvalue", "liststoredqueries"]
  const WfsWrite: seq<string> := ["createstoredquery", "dropstoredquery", "getfeaturewithlock", "lockfeature",
                                  "transaction"]
  const WmsRead: seq<string> := ["describelayer", "getcapabilities", "getfeatureinfo", "getlegendgraphic", "getmap"]
  /** `GEOSERVER_READ_PERMISSIONS` ("getcapabilities" appears twice, as in the source). */
  const GeoserverRead: seq<string> := WfsRead + WmsRead
  /** `GEOSERVER_WRITE_PERMISSIONS`. */
  const GeoserverWrite: seq<string> := WfsWrite

  /** Magpie's resource type names of a Geoserver workspace and layer. */
  const WorkspaceType: string := "workspace"
  const LayerType: string := "layer"

  /** A permission as Magpie lists it on a resource. */
  datatype PermissionJson = PermissionJson(name: string, access: string, scope: string)

  /** An item of a `PATCH /permissions` body: a dictionary of string fields. */
  datatype PermissionItem = PermissionItem(fields: map<string, string>)

  datatype Verb = GET | POST | PUT | PATCH | DELETE

  /** The Magpie routes the handler calls. */
  datatype Endpoint =
    | Signin
    | ServiceTypes
    | Permissions
    | Resources
    | Resource(resId: int)
    | UserResourcePermissions(user: string, resId: int)
    | GroupResourcePermissions(group: string, resId: int)
    | UserResourcePermission(user: string, resId: int, perm: string)
    | GroupResourcePermission(group: string, resId: int, perm: string)

  datatype Payload =
    | NoBody
    | Credentials(user: string, password: string)
    | PermissionBody(perm: PermissionJson)
    | PermissionsPatch(items: seq<PermissionItem>)
    | ResourceBody(name: string, displayName: string, kind: string, parent: Option<int>)

  datatype Request = Request(verb: Verb, endpoint: Endpoint, body: Payload)

  /** A request together with the cookies sent with it. */
  datatype Exchange = Exchange(request: Request, cookies: seq<string>)

  /** Every exchange of `t` from position `from` on is the sign-in `signin` or carries `req`. */
  predicate OnlySent(t: seq<Exchange>, from: nat, signin: Exchange, req: Request)
  {
    from <= |t| && forall i :: from <= i < |t| ==> t[i] == signin || t[i].request == req
  }

  /** Two stretches of such exchanges, one after the other, make one. */
  lemma OnlySentJoin(t: seq<Exchange>, u: seq<Exchange>, from: nat, signin: Exchange, req: Request)
    requires OnlySent(t, from, signin, req) && |t| <= |u| && u[..|t|] == t && OnlySent(u, |t|, signin, req)
    ensures OnlySent(u, from, signin, req)
  {
    forall i | from <= i < |t|
      ensures u[i] == signin || u[i].request == req
    {
      assert u[i] == u[..|t|][i];
    }
  }

  /** The parts of a Magpie reply the handler reads. */
  datatype Response = Response(status: int, cookies: seq<string>, names: seq<string>,
                               permissions: seq<PermissionJson>, resourceId: int)

  /** Magpie's reply to the n-th exchange, or None when the connection fails. */
  type Network = (nat, Exchange) -> Option<Response>

  /** `time.time()` once n exchanges have been made. */
  type Clock = nat -> real

  /**
   * The test of `login`: sign in again when there are no cookies (an empty
   * jar is falsy), no (or a zero) time of the last sign-in, or when that
   * sign-in is more than `COOKIES_TIMEOUT` seconds old.
   */
  predicate NeedsLogin(cookies: seq<string>, last: Option<real>, now: real)
  {
    cookies == [] || last.None? || last.value == 0.0 || now - last.value > CookiesTimeout
  }

  /** The statuses after which `_send_request` signs in again and retries. */
  predicate AuthRejected(status: int)
  {
    status == 401 || status == 403
  }

  /** Whether an exchange changes something on Magpie. */
  predicate Writes(ex: Exchange)
  {
    ex.request.verb != GET && ex.request.endpoint != Signin
  }

  // ---------------------------------------------------------------------
  // The create-permission decision
  // ---------------------------------------------------------------------

  /** `PUT` updates a permission that exists with other parameters, `POST` creates one, `Keep` sends nothing. */
  datatype Decision = Keep | Put | Post

  /** The request method `create_permission_by_res_id` settles on, from the permissions listed on the resource. */
  function Decide(listed: seq<PermissionJson>, name: string, access: string, scope: string): Decision
  {
    if listed == [] then Post
    else if listed[0].name == name then
      (if listed[0].access == access && listed[0].scope == scope then Keep else Put)
    else Decide(listed[1..], name, access, scope)
  }

  /** `listed[i]` is the first permission named `name`. */
  predicate FirstNamed(listed: seq<PermissionJson>, name: string, i: int)
  {
    0 <= i < |listed| && listed[i].name == name && forall j :: 0 <= j < i ==> listed[j].name != name
  }

  /**
   * POST exactly when no permission of that name is listed; otherwise the
   * first one of that name decides: nothing is sent when its access and
   * scope are the requested ones, PUT when either differs.
   */
  lemma {:induction false} DecideMeaning(listed: seq<PermissionJson>, name: string, access: string, scope: string)
    ensures Decide(listed, name, access, scope) == Post <==> forall i :: 0 <= i < |listed| ==> listed[i].name != name
    ensures Decide(listed, name, access, scope) != Post ==>
      exists i :: FirstNamed(listed, name, i) &&
        (Decide(listed, name, access, scope) == Keep <==> listed[i].access == access && listed[i].scope == scope)
  {
    if listed == [] {
    } else if listed[0].name == name {
      assert FirstNamed(listed, name, 0);
    } else {
      var rest := listed[1..];
      DecideMeaning(rest, name, access, scope);
      assert forall i :: 1 <= i < |listed| ==> listed[i] == rest[i - 1];
      if Decide(rest, name, access, scope) != Post {
        var i :| FirstNamed(rest, name, i) &&
          (Decide(rest, name, access, scope) == Keep <==> rest[i].access == access && rest[i].scope == scope);
        assert FirstNamed(listed, name, i + 1);
      }
    }
  }

  /**
   * The loop of `create_permission_by_res_id` over the listed permissions:
   * the first one with the requested name either ends the call (same access
   * and scope) or turns the POST into a PUT.
   */
  method ChooseMethod(listed: seq<PermissionJson>, name: string, access: string, scope: string)
    returns (d: Decision)
    ensures d == Decide(listed, name, access, scope)
  {
    d := Post;
    var i := 0;
    while i < |listed|
      invariant 0 <= i <= |listed|
      invariant Decide(listed, name, access, scope) == Decide(listed[i..], name, access, scope)
    {
      assert listed[i..][1..] == listed[i + 1..];
      if listed[i].name == name {
        if listed[i].access == access && listed[i].scope == scope {
          return Keep;
        }
        d := Put;
        break;
      }
      i := i + 1;
    }
  }

  /** A name that Python treats as given: neither None nor empty. */
  predicate Given(s: Option<string>)
  {
    s.Some? && s.value != ""
  }

  /**
   * The permissions route of `create_permission_by_res_id`: the user's when
   * a user is given (even if a group is given too), else the group's, and
   * ValueError when neither is.
   */
  function PermissionEndpoint(resId: int, user: Option<string>, group: Option<string>): (r: Result<Endpoint>)
    ensures r.Failure? <==> !Given(user) && !Given(group)
    ensures r.Failure? ==> r.error == ValueError
    ensures Given(user) ==> r == Success(UserResourcePermissions(user.value, resId))
    ensures !Given(user) && Given(group) ==> r == Success(GroupResourcePermissions(group.value, resId))
  {
    if Given(user) then Success(UserResourcePermissions(user.value, resId))
    else if Given(group) then Success(GroupResourcePermissions(group.value, resId))
    else Failure(ValueError)
  }

  /** The last item of a PATCH body gets the `action` field. */
  function Marked(item: PermissionItem, action: string): (r: PermissionItem)
    ensures "action" in r.fields && r.fields["action"] == action
    ensures forall k :: k in item.fields && k != "action" ==> k in r.fields && r.fields[k] == item.fields[k]
    ensures forall k :: k in r.fields ==> k == "action" || k in item.fields
  {
    PermissionItem(item.fields["action" := action])
  }

  /**
   * The status handling of the delete requests: 200 deleted something, 404
   * found nothing to delete (not an error), anything else raises.
   */
  function DeleteOutcome(status: int): (r: Result<bool>)
    ensures r.Success? <==> status == 200 || status == 404
    ensures r.Success? ==> (r.value <==> status == 200)
    ensures r.Failure? ==> r.error == MagpieHttpError
  {
    if status == 200 then Success(true)
    else if status == 404 then Success(false)
    else Failure(MagpieHttpError)
  }

  /** `resource_display_name or resource_name`. */
  function DisplayName(name: string, displayName: Option<string>): (r: string)
    ensures Given(displayName) ==> r == displayName.value
    ensures !Given(displayName) ==> r == name
  {
    if Given(displayName) then displayName.value else name
  }

  // ---------------------------------------------------------------------
  // The handler and its session
  // ---------------------------------------------------------------------

  class MagpieHandler {
    const adminUser: string
    const adminPassword: string
    /** `self.cookies`; an empty jar stands for `None` too, both being falsy. */
    var cookies: seq<string>
    /** `self.last_cookies_update_time`. */
    var lastUpdate: Option<real>
    /** `self.service_types`, the cached list (empty until fetched). */
    var serviceTypes: seq<string>
    /** Every exchange the handler has made with Magpie, in order. */
    var traffic: seq<Exchange>

    constructor(adminUser: string, adminPassword: string)
      ensures this.adminUser == adminUser && this.adminPassword == adminPassword
      ensures cookies == [] && lastUpdate == None && serviceTypes == [] && traffic == []
    {
      this.adminUser := adminUser;
      this.adminPassword := adminPassword;
      cookies := [];
      lastUpdate := None;
      serviceTypes := [];
      traffic := [];
    }

    /** The last exchange the handler made carried `req`, and Magpie answered it with `resp`. */
    ghost predicate Replied(net: Network, req: Request, resp: Response)
      reads this
    {
      |traffic| > 0 && traffic[|traffic| - 1].request == req && net(|traffic| - 1, traffic[|traffic| - 1]) == Some(resp)
    }

    /** The last exchange the handler made, a sign-in or `req`, got no answer from Magpie. */
    ghost predicate NoReply(net: Network, req: Request)
      reads this
    {
      |traffic| > 0 &&
      (traffic[|traffic| - 1] == SigninExchange() || traffic[|traffic| - 1].request == req) &&
      net(|traffic| - 1, traffic[|traffic| - 1]).None?
    }

    /**
     * How one attempt at `req` ended, read off the last exchange: a reply to
     * `req` sent with the current cookies, or no reply at all, to the sign-in
     * (RuntimeError of `login`) or to `req` (the connection error).
     */
    ghost predicate Answered(net: Network, req: Request, r: Result<Response>)
      reads this
    {
      if r.Success? then Replied(net, req, r.value) && traffic[|traffic| - 1].cookies == cookies
      else
        NoReply(net, req) &&
        (r.error == RuntimeError ==> traffic[|traffic| - 1] == SigninExchange()) &&
        (r.error == RequestError ==> traffic[|traffic| - 1].request == req) &&
        (r.error == RuntimeError || r.error == RequestError)
    }

    /** The sign-in request of `login`, sent without cookies. */
    function SigninExchange(): Exchange
    {
      Exchange(Request(POST, Signin, Credentials(adminUser, adminPassword)), [])
    }

    /**
     * `login`: sign in (and remember the cookies and the time) only when
     * `NeedsLogin`; a connection failure becomes RuntimeError. Otherwise
     * nothing is sent and the current cookies are returned.
     */
    method Login(net: Network, clock: Clock) returns (r: Result<seq<string>>)
      modifies this
      ensures serviceTypes == old(serviceTypes)
      ensures !NeedsLogin(old(cookies), old(lastUpdate), clock(|old(traffic)|)) ==>
        traffic == old(traffic) && cookies == old(cookies) && lastUpdate == old(lastUpdate) && r == Success(cookies)
      ensures NeedsLogin(old(cookies), old(lastUpdate), clock(|old(traffic)|)) ==>
        traffic == old(traffic) + [SigninExchange()] &&
        var reply := net(|old(traffic)|, SigninExchange());
        if reply.None? then r == Failure(RuntimeError) && cookies == old(cookies) && lastUpdate == old(lastUpdate)
        else cookies == reply.value.cookies && lastUpdate == Some(clock(|traffic|)) && r == Success(cookies)
    {
      if NeedsLogin(cookies, lastUpdate, clock(|traffic|)) {
        var reply := net(|traffic|, SigninExchange());
        traffic := traffic + [SigninExchange()];
        if reply.None? {
          return Failure(RuntimeError);
        }
        cookies := reply.value.cookies;
        lastUpdate := Some(clock(|traffic|));
      }
      r := Success(cookies);
    }

    /**
     * One attempt of `_send_request`: `login`, then the request with the
     * cookies it returned; `at` is the request's position in `traffic`. A
     * failed sign-in sends nothing more; otherwise the request is the last
     * exchange, right after the sign-in when one was needed.
     */
    method Attempt(net: Network, clock: Clock, req: Request) returns (r: Result<Response>, ghost at: nat)
      modifies this
      ensures serviceTypes == old(serviceTypes)
      ensures Answered(net, req, r)
      ensures r == Failure(RuntimeError) ==>
        NeedsLogin(old(cookies), old(lastUpdate), clock(|old(traffic)|)) && traffic == old(traffic) + [SigninExchange()]
      ensures r != Failure(RuntimeError) ==>
        at == |traffic| - 1 &&
        traffic == old(traffic) + (if NeedsLogin(old(cookies), old(lastUpdate), clock(|old(traffic)|)) then [SigninExchange()] else [])
                   + [Exchange(req, cookies)]
      ensures |old(traffic)| < |traffic| && traffic[..|old(traffic)|] == old(traffic)
      ensures OnlySent(traffic, |old(traffic)|, SigninExchange(), req)
    {
      var c := Login(net, clock);
      if c.Failure? {
        return Failure(c.error), 0;
      }
      var ex := Exchange(req, c.value);
      var reply := net(|traffic|, ex);
      at := |traffic|;
      traffic := traffic + [ex];
      if reply.None? {
        return Failure(RequestError), at;
      }
      r := Success(reply.value);
    }

    /**
     * The retry of `_send_request` after a 401 or 403: the cookies are
     * dropped, so `login` signs in again before the request is resent.
     */
    method Reattempt(net: Network, clock: Clock, req: Request) returns (r: Result<Response>, ghost at: nat)
      modifies this
      ensures serviceTypes == old(serviceTypes)
      ensures Answered(net, req, r)
      ensures |old(traffic)| < |traffic| <= |old(traffic)| + 2 && traffic[..|old(traffic)|] == old(traffic)
      ensures traffic[|old(traffic)|] == SigninExchange()
      ensures OnlySent(traffic, |old(traffic)|, SigninExchange(), req)
      ensures r.Success? ==> at == |old(traffic)| + 1 == |traffic| - 1 && net(at, traffic[at]) == Some(r.value)
      ensures r.Failure? && r.error == RequestError ==> |traffic| == |old(traffic)| + 2
    {
      cookies := [];
      r, at := Attempt(net, clock, req);
    }

    /**
     * `_send_request`: the request goes out with the session cookies; after
     * a 401 or 403 the cookies are dropped, the handler signs in again and
     * sends the same request exactly once more, whatever that reply is.
     * `tries` are the positions of the request in `traffic` that Magpie
     * answered, `replies` those answers.
     */
    method SendRequest(net: Network, clock: Clock, req: Request)
      returns (r: Result<Response>, ghost tries: seq<nat>, ghost replies: seq<Response>)
      modifies this
      ensures serviceTypes == old(serviceTypes)
      ensures |old(traffic)| < |traffic| && traffic[..|old(traffic)|] == old(traffic)
      ensures OnlySent(traffic, |old(traffic)|, SigninExchange(), req)
      ensures Answered(net, req, r)
      ensures |replies| == |tries| <= 2
      ensures forall k :: 0 <= k < |tries| ==>
        |old(traffic)| <= tries[k] < |traffic| && traffic[tries[k]].request == req && net(tries[k], traffic[tries[k]]) == Some(replies[k])
      ensures tries == [] ==> r.Failure?
      ensures tries != [] && !AuthRejected(replies[0].status) ==>
        r == Success(replies[0]) && |tries| == 1 && tries[0] == |traffic| - 1
      ensures tries != [] && AuthRejected(replies[0].status) ==>
        tries[0] + 1 < |traffic| <= tries[0] + 3 && traffic[tries[0] + 1] == SigninExchange() &&
        (r.Success? <==> |tries| == 2) &&
        (|tries| == 2 ==> tries[1] == tries[0] + 2 == |traffic| - 1 && r == Success(replies[1]))
    {
      ghost var at;
      r, at := Attempt(net, clock, req);
      if r.Failure? {
        return r, [], [];
      }
      tries, replies := [at], [r.value];
      if AuthRejected(r.value.status) {
        ghost var first := traffic;
        r, at := Reattempt(net, clock, req);
        OnlySentJoin(first, traffic, |old(traffic)|, SigninExchange(), req);
        assert traffic[tries[0]] == traffic[..|first|][tries[0]];
        if r.Success? {
          tries, replies := tries + [at], replies + [r.value];
        }
      }
    }

    /**
     * The GET helpers (`get_services_by_type`, `get_resource`,
     * `get_user_permissions_by_res_id`, ...): any status but 200 raises
     * MagpieHttpError. `answer` is Magpie's last reply, if any.
     */
    method Get(net: Network, clock: Clock, ep: Endpoint) returns (r: Result<Response>, ghost answer: Option<Response>)
      modifies this
      ensures serviceTypes == old(serviceTypes)
      ensures |old(traffic)| < |traffic| && traffic[..|old(traffic)|] == old(traffic)
      ensures forall i :: |old(traffic)| <= i < |traffic| ==> traffic[i] == SigninExchange() || traffic[i].request.verb == GET
      ensures answer.Some? ==> Replied(net, Request(GET, ep, NoBody), answer.value)
      ensures answer.Some? ==> (r.Success? <==> answer.value.status == 200) && (r.Success? ==> r.value == answer.value)
      ensures answer.Some? && r.Failure? ==> r.error == MagpieHttpError
      ensures answer.None? ==>
        r.Failure? && (r.error == RuntimeError || r.error == RequestError) && NoReply(net, Request(GET, ep, NoBody))
    {
      var sent, tries, replies := SendRequest(net, clock, Request(GET, ep, NoBody));
      if sent.Failure? {
        return Failure(sent.error), None;
      }
      answer := Some(sent.value);
      if sent.value.status != 200 {
        return Failure(MagpieHttpError), answer;
      }
      r := Success(sent.value);
    }

    /**
     * `get_service_types`: the cached list when it is non-empty; otherwise
     * it is fetched, and kept only when the request succeeds.
     */
    method GetServiceTypes(net: Network, clock: Clock) returns (r: Result<seq<string>>, ghost answer: Option<Response>)
      modifies this
      ensures old(serviceTypes) != [] ==>
        r == Success(old(serviceTypes)) && traffic == old(traffic) &&
        cookies == old(cookies) && lastUpdate == old(lastUpdate) && serviceTypes == old(serviceTypes)
      ensures old(serviceTypes) == [] && answer.Some? ==>
        Replied(net, Request(GET, ServiceTypes, NoBody), answer.value) &&
        (r.Success? <==> answer.value.status == 200) && (r.Failure? ==> r.error == MagpieHttpError)
      ensures old(serviceTypes) == [] && answer.None? ==>
        r.Failure? && (r.error == RuntimeError || r.error == RequestError) && NoReply(net, Request(GET, ServiceTypes, NoBody))
      ensures r.Success? ==> serviceTypes == r.value
      ensures r.Failure? ==> serviceTypes == old(serviceTypes)
      ensures r.Success? && old(serviceTypes) == [] ==> answer.Some? && r.value == answer.value.names
    {
      answer := None;
      if serviceTypes == [] {
        var got;
        got, answer := Get(net, clock, ServiceTypes);
        if got.Failure? {
          return Failure(got.error), answer;
        }
        serviceTypes := got.value.names;
      }
      r := Success(serviceTypes);
    }

    /** The PUT or POST `create_permission_by_res_id` sends for a decision other than `Keep`. */
    function PermissionRequest(d: Decision, ep: Endpoint, name: string, access: string, scope: string): Request
    {
      Request(if d == Put then PUT else POST, ep, PermissionBody(PermissionJson(name, access, scope)))
    }

    /**
     * `create_permission_by_res_id`: ValueError without a user or a group;
     * otherwise the permissions on the resource are listed (anything but 200
     * raises), and the request `Decide` chooses is sent, unless it is `Keep`,
     * in which case nothing else is sent and the result is None. A PUT or
     * POST answered by anything but 200 or 201 raises. `listReply` is
     * Magpie's answer to the listing, `answer` its answer to the PUT or POST.
     */
    method CreatePermissionByResId(net: Network, clock: Clock, resId: int, name: string, access: string,
                                   scope: string, user: Option<string>, group: Option<string>)
      returns (r: Result<Option<Response>>, ghost listReply: Option<Response>, ghost answer: Option<Response>)
      modifies this
      ensures serviceTypes == old(serviceTypes)
      ensures PermissionEndpoint(resId, user, group).Failure? ==>
        r == Failure(ValueError) && traffic == old(traffic) && cookies == old(cookies) && lastUpdate == old(lastUpdate)
      ensures PermissionEndpoint(resId, user, group).Success? ==>
        var listing := Request(GET, PermissionEndpoint(resId, user, group).value, NoBody);
        if listReply.None? then
          r.Failure? && (r.error == RuntimeError || r.error == RequestError) && NoReply(net, listing)
        else if listReply.value.status != 200 then
          r == Failure(MagpieHttpError) && Replied(net, listing, listReply.value)
        else
          var d := Decide(listReply.value.permissions, name, access, scope);
          var req := PermissionRequest(d, PermissionEndpoint(resId, user, group).value, name, access, scope);
          if d == Keep then
            r == Success(None) && Replied(net, listing, listReply.value)
          else if answer.None? then
            r.Failure? && (r.error == RuntimeError || r.error == RequestError) && NoReply(net, req)
          else
            Replied(net, req, answer.value) &&
            if answer.value.status == 200 || answer.value.status == 201 then r == Success(Some(answer.value))
            else r == Failure(MagpieHttpError)
      ensures r == Success(None) ==> forall i :: |old(traffic)| <= i < |traffic| ==> !Writes(traffic[i])
    {
      listReply, answer := None, None;
      var ep := PermissionEndpoint(resId, user, group);
      if ep.Failure? {
        return Failure(ValueError), listReply, answer;
      }
      var got;
      got, listReply := Get(net, clock, ep.value);
      if got.Failure? {
        return Failure(got.error), listReply, answer;
      }
      var d := ChooseMethod(got.value.permissions, name, access, scope);
      if d == Keep {
        return Success(None), listReply, answer;
      }
      var req := PermissionRequest(d, ep.value, name, access, scope);
      var sent, tries, replies := SendRequest(net, clock, req);
      if sent.Failure? {
        return Failure(sent.error), listReply, answer;
      }
      answer := Some(sent.value);
      if sent.value.status != 200 && sent.value.status != 201 {
        return Failure(MagpieHttpError), listReply, answer;
      }
      r := Success(Some(sent.value));
    }

    /**
     * What `create_permissions` and `delete_permission` share: with no items
     * nothing is sent; otherwise only the last item gets `action`, and the
     * whole list is sent in one PATCH, which must be answered by 200.
     */
    method PatchPermissions(net: Network, clock: Clock, data: array<PermissionItem>, action: string)
      returns (r: Result<()>, ghost answer: Option<Response>)
      modifies this, data
      ensures serviceTypes == old(serviceTypes)
      ensures data.Length == 0 ==>
        r == Success(()) && traffic == old(traffic) && cookies == old(cookies) && lastUpdate == old(lastUpdate)
      ensures data.Length > 0 ==>
        data[..] == old(data[..data.Length - 1]) + [Marked(old(data[data.Length - 1]), action)]
      ensures data.Length > 0 && answer.Some? ==>
        Replied(net, Request(PATCH, Permissions, PermissionsPatch(data[..])), answer.value) &&
        (if answer.value.status == 200 then r == Success(()) else r == Failure(MagpieHttpError))
      ensures data.Length > 0 && answer.None? ==>
        r.Failure? && (r.error == RuntimeError || r.error == RequestError) &&
        NoReply(net, Request(PATCH, Permissions, PermissionsPatch(data[..])))
    {
      answer := None;
      if data.Length == 0 {
        return Success(()), answer;
      }
      data[data.Length - 1] := Marked(data[data.Length - 1], action);
      var sent, tries, replies := SendRequest(net, clock, Request(PATCH, Permissions, PermissionsPatch(data[..])));
      if sent.Failure? {
        return Failure(sent.error), answer;
      }
      answer := Some(sent.value);
      if sent.value.status != 200 {
        return Failure(MagpieHttpError), answer;
      }
      r := Success(());
    }

    /** `create_permissions`: the last item is marked `create`. */
    method CreatePermissions(net: Network, clock: Clock, data: array<PermissionItem>)
      returns (r: Result<()>, ghost answer: Option<Response>)
      modifies this, data
      ensures data.Length == 0 ==> r == Success(()) && traffic == old(traffic)
      ensures data.Length > 0 ==>
        data[..] == old(data[..data.Length - 1]) + [Marked(old(data[data.Length - 1]), "create")]
      ensures data.Length > 0 && answer.Some? ==>
        Replied(net, Request(PATCH, Permissions, PermissionsPatch(data[..])), answer.value) &&
        (if answer.value.status == 200 then r == Success(()) else r == Failure(MagpieHttpError))
      ensures data.Length > 0 && answer.None? ==>
        r.Failure? && (r.error == RuntimeError || r.error == RequestError) &&
        NoReply(net, Request(PATCH, Permissions, PermissionsPatch(data[..])))
    {
      r, answer := PatchPermissions(net, clock, data, "create");
    }

    /** `delete_permission`: the last item is marked `remove`. */
    method DeletePermission(net: Network, clock: Clock, data: array<PermissionItem>)
      returns (r: Result<()>, ghost answer: Option<Response>)
      modifies this, data
      ensures data.Length == 0 ==> r == Success(()) && traffic == old(traffic)
      ensures data.Length > 0 ==>
        data[..] == old(data[..data.Length - 1]) + [Marked(old(data[data.Length - 1]), "remove")]
      ensures data.Length > 0 && answer.Some? ==>
        Replied(net, Request(PATCH, Permissions, PermissionsPatch(data[..])), answer.value) &&
        (if answer.value.status == 200 then r == Success(()) else r == Failure(MagpieHttpError))
      ensures data.Length > 0 && answer.None? ==>
        r.Failure? && (r.error == RuntimeError || r.error == RequestError) &&
        NoReply(net, Request(PATCH, Permissions, PermissionsPatch(data[..])))
    {
      r, answer := PatchPermissions(net, clock, data, "remove");
    }

    /**
     * The DELETE requests (`delete_permission_by_user_and_res_id`,
     * `delete_permission_by_grp_and_res_id`, `delete_resource`): the outcome
     * is `DeleteOutcome` of Magpie's last reply.
     */
    method Delete(net: Network, clock: Clock, ep: Endpoint) returns (r: Result<bool>, ghost answer: Option<Response>)
      modifies this
      ensures serviceTypes == old(serviceTypes)
      ensures answer.Some? ==> r == DeleteOutcome(answer.value.status) && Replied(net, Request(DELETE, ep, NoBody), answer.value)
      ensures answer.None? ==>
        r.Failure? && (r.error == RuntimeError || r.error == RequestError) && NoReply(net, Request(DELETE, ep, NoBody))
    {
      var sent, tries, replies := SendRequest(net, clock, Request(DELETE, ep, NoBody));
      if sent.Failure? {
        return Failure(sent.error), None;
      }
      answer := Some(sent.value);
      r := DeleteOutcome(sent.value.status);
    }

    method DeletePermissionByUser(net: Network, clock: Clock, user: string, resId: int, perm: string)
      returns (r: Result<bool>, ghost answer: Option<Response>)
      modifies this
      ensures answer.Some? ==>
        r == DeleteOutcome(answer.value.status) &&
        Replied(net, Request(DELETE, UserResourcePermission(user, resId, perm), NoBody), answer.value)
      ensures answer.None? ==>
        r.Failure? && (r.error == RuntimeError || r.error == RequestError) &&
        NoReply(net, Request(DELETE, UserResourcePermission(user, resId, perm), NoBody))
    {
      r, answer := Delete(net, clock, UserResourcePermission(user, resId, perm));
    }

    method DeletePermissionByGroup(net: Network, clock: Clock, group: string, resId: int, perm: string)
      returns (r: Result<bool>, ghost answer: Option<Response>)
      modifies this
      ensures answer.Some? ==>
        r == DeleteOutcome(answer.value.status) &&
        Replied(net, Request(DELETE, GroupResourcePermission(group, resId, perm), NoBody), answer.value)
      ensures answer.None? ==>
        r.Failure? && (r.error == RuntimeError || r.error == RequestError) &&
        NoReply(net, Request(DELETE, GroupResourcePermission(group, resId, perm), NoBody))
    {
      r, answer := Delete(net, clock, GroupResourcePermission(group, resId, perm));
    }

    method DeleteResource(net: Network, clock: Clock, resId: int) returns (r: Result<bool>, ghost answer: Option<Response>)
      modifies this
      ensures answer.Some? ==>
        r == DeleteOutcome(answer.value.status) && Replied(net, Request(DELETE, Resource(resId), NoBody), answer.value)
      ensures answer.None? ==>
        r.Failure? && (r.error == RuntimeError || r.error == RequestError) &&
        NoReply(net, Request(DELETE, Resource(resId), NoBody))
    {
      r, answer := Delete(net, clock, Resource(resId));
    }

    /**
     * `create_resource`: a POST of the resource, whose display name defaults
     * to its name; anything but 201 raises, otherwise the new id is returned.
     */
    method CreateResource(net: Network, clock: Clock, name: string, kind: string, parent: Option<int>,
                          displayName: Option<string>)
      returns (r: Result<int>, ghost answer: Option<Response>)
      modifies this
      ensures serviceTypes == old(serviceTypes)
      ensures answer.Some? ==>
        Replied(net, Request(POST, Resources, ResourceBody(name, DisplayName(name, displayName), kind, parent)), answer.value) &&
        (if answer.value.status == 201 then r == Success(answer.value.resourceId) else r == Failure(MagpieHttpError))
      ensures answer.None? ==>
        r.Failure? && (r.error == RuntimeError || r.error == RequestError) &&
        NoReply(net, Request(POST, Resources, ResourceBody(name, DisplayName(name, displayName), kind, parent)))
    {
      var body := ResourceBody(name, DisplayName(name, displayName), kind, parent);
      var sent, tries, replies := SendRequest(net, clock, Request(POST, Resources, body));
      if sent.Failure? {
        return Failure(sent.error), None;
      }
      answer := Some(sent.value);
      if sent.value.status != 201 {
        return Failure(MagpieHttpError), answer;
      }
      r := Success(sent.value.resourceId);
    }
  }

  /**
   * `Magpie.__init__`: both admin credentials must be given, else
   * ConfigError.
   */
  method NewMagpieHandler(adminUser: Option<string>, adminPassword: Option<string>) returns (r: Result<MagpieHandler>)
    ensures r.Failure? <==> !Given(adminUser) || !Given(adminPassword)
    ensures r.Failure? ==> r.error == ConfigError
    ensures r.Success? ==>
      fresh(r.value) && r.value.adminUser == adminUser.value &&
      r.value.adminPassword == adminPassword.value && r.value.cookies == [] && r.value.traffic == []
  {
    if !Given(adminUser) || !Given(adminPassword) {
      return Failure(ConfigError);
    }
    var h := new MagpieHandler(adminUser.value, adminPassword.value);
    r := Success(h);
  }

  // ---------------------------------------------------------------------
  // Searches over the Geoserver resources
  // ---------------------------------------------------------------------

  datatype LayerRes = LayerRes(name: string, id: int)
  datatype WorkspaceRes = WorkspaceRes(name: string, id: int, layers: seq<LayerRes>)

  /**
   * A service of type `geoserver` and the children `get_resource` gave for
   * it, in order (None when that request raised MagpieHttpError).
   */
  datatype ServiceRes = ServiceRes(id: int, children: Option<seq<WorkspaceRes>>)

  /** A `create_resource` call: name, resource type and parent id. */
  datatype NewResource = NewResource(name: string, kind: string, parent: int)

  /** What `create_resource` returns for a resource. */
  type Creator = NewResource -> Result<int>

  /** A resource id that Python treats as found: neither None nor 0. */
  predicate Truthy(id: Option<int>)
  {
    id.Some? && id.value != 0
  }

  function SomeOf(r: Result<int>): Result<Option<int>>
  {
    if r.Success? then Success(Some(r.value)) else Failure(r.error)
  }

  /** The inner loop of `get_geoserver_workspace_res_id`: every match overwrites `found`. */
  function LastIn(ws: seq<WorkspaceRes>, name: string, found: Option<int>): Option<int>
  {
    if ws == [] then found else LastIn(ws[1..], name, if ws[0].name == name then Some(ws[0].id) else found)
  }

  /** With no workspace of that name, the search keeps `found`. */
  lemma {:induction false} LastInNone(ws: seq<WorkspaceRes>, name: string, found: Option<int>)
    requires forall j :: 0 <= j < |ws| ==> ws[j].name != name
    ensures LastIn(ws, name, found) == found
  {
    if ws != [] {
      assert forall k :: 0 <= k < |ws[1..]| ==> ws[1..][k] == ws[k + 1];
      LastInNone(ws[1..], name, found);
    }
  }

  /** Otherwise it ends on the id of the last workspace of that name. */
  lemma {:induction false} LastInAt(ws: seq<WorkspaceRes>, name: string, found: Option<int>, j: int)
    requires 0 <= j < |ws| && ws[j].name == name
    requires forall k :: j < k < |ws| ==> ws[k].name != name
    ensures LastIn(ws, name, found) == Some(ws[j].id)
  {
    var next := if ws[0].name == name then Some(ws[0].id) else found;
    assert forall k :: 0 <= k < |ws[1..]| ==> ws[1..][k] == ws[k + 1];
    if j == 0 {
      LastInNone(ws[1..], name, next);
    } else {
      LastInAt(ws[1..], name, next, j - 1);
    }
  }

  /**
   * The service loop of `get_geoserver_workspace_res_id` over the services
   * visited so far: every service is fetched (the first failure raises) and
   * every matching workspace overwrites the id found before it.
   */
  function LastWorkspace(services: seq<ServiceRes>, name: string): Result<Option<int>>
  {
    if services == [] then Success(None)
    else
      var before := LastWorkspace(services[..|services| - 1], name);
      var s := services[|services| - 1];
      if before.Failure? then before
      else if s.children.None? then Failure(MagpieHttpError)
      else Success(LastIn(s.children.value, name, before.value))
  }

  /** A workspace of that name in a later service wins over every earlier match. */
  lemma LaterServiceWins(services: seq<ServiceRes>, s: ServiceRes, name: string, j: int)
    requires LastWorkspace(services, name).Success?
    requires s.children.Some? && 0 <= j < |s.children.value| && s.children.value[j].name == name
    requires forall k :: j < k < |s.children.value| ==> s.children.value[k].name != name
    ensures LastWorkspace(services + [s], name) == Success(Some(s.children.value[j].id))
  {
    assert (services + [s])[..|services|] == services;
    LastInAt(s.children.value, name, LastWorkspace(services, name).value, j);
  }

  /**
   * `get_geoserver_workspace_res_id`: ValueError without geoserver services;
   * otherwise the last matching workspace over all services; when none is
   * found (or its id is 0) and creation is asked for, the workspace is
   * created under the first service.
   */
  method FindWorkspaceResId(services: seq<ServiceRes>, name: string, createIfMissing: bool, create: Creator)
    returns (r: Result<Option<int>>, created: seq<NewResource>)
    ensures services == [] ==> r == Failure(ValueError) && created == []
    ensures services != [] && LastWorkspace(services, name).Failure? ==> r == Failure(MagpieHttpError) && created == []
    ensures services != [] && LastWorkspace(services, name).Success? ==>
      var found := LastWorkspace(services, name).value;
      if Truthy(found) || !createIfMissing then r == Success(found) && created == []
      else created == [NewResource(name, WorkspaceType, services[0].id)] && r == SomeOf(create(created[0]))
  {
    created := [];
    if services == [] {
      return Failure(ValueError), created;
    }
    var found: Option<int> := None;
    var i := 0;
    while i < |services|
      invariant 0 <= i <= |services|
      invariant LastWorkspace(services[..i], name) == Success(found)
    {
      assert services[..i + 1][..i] == services[..i];
      if services[i].children.None? {
        LastWorkspaceFails(services, name, i + 1);
        return Failure(MagpieHttpError), created;
      }
      var children := services[i].children.value;
      ghost var start := found;
      var j := 0;
      while j < |children|
        invariant 0 <= j <= |children|
        invariant LastIn(children, name, start) == LastIn(children[j..], name, found)
      {
        assert children[j..][1..] == children[j + 1..];
        if children[j].name == name {
          found := Some(children[j].id);
        }
        j := j + 1;
      }
      i := i + 1;
    }
    assert services[..i] == services;
    if !Truthy(found) && createIfMissing {
      var nw := NewResource(name, WorkspaceType, services[0].id);
      created := [nw];
      r := SomeOf(create(nw));
    } else {
      r := Success(found);
    }
  }

  /** A failed prefix makes the whole search fail. */
  lemma LastWorkspaceFails(services: seq<ServiceRes>, name: string, i: int)
    requires 0 < i <= |services|
    requires LastWorkspace(services[..i], name).Failure?
    ensures LastWorkspace(services, name) == Failure(MagpieHttpError)
    decreases |services| - i
  {
    if i < |services| {
      assert services[..i + 1][..i] == services[..i];
      LastWorkspaceFails(services, name, i + 1);
    } else {
      assert services[..i] == services;
    }
    LastWorkspaceErrorKind(services, name);
  }

  lemma {:induction false} LastWorkspaceErrorKind(services: seq<ServiceRes>, name: string)
    ensures LastWorkspace(services, name).Failure? ==> LastWorkspace(services, name).error == MagpieHttpError
    decreases |services|
  {
    if services != [] {
      LastWorkspaceErrorKind(services[..|services| - 1], name);
    }
  }

  /**
   * The first resource named `name`: the inner loops of
   * `get_geoserver_layer_res_id` break on it, over workspaces and then over
   * the layers of the workspace found.
   */
  function FirstByName<T>(xs: seq<T>, nameOf: T -> string, name: string): (r: Option<nat>)
    ensures r.None? <==> forall j :: 0 <= j < |xs| ==> nameOf(xs[j]) != name
    ensures r.Some? ==> r.value < |xs| && nameOf(xs[r.value]) == name && forall j :: 0 <= j < r.value ==> nameOf(xs[j]) != name
  {
    if xs == [] then None
    else if nameOf(xs[0]) == name then Some(0)
    else
      var rest := FirstByName(xs[1..], nameOf, name);
      assert forall j :: 1 <= j < |xs| ==> xs[j] == xs[1..][j - 1];
      if rest.None? then None else Some(rest.value + 1)
  }

  function WorkspaceName(w: WorkspaceRes): string { w.name }

  function LayerName(l: LayerRes): string { l.name }

  /** The layer and workspace ids `get_geoserver_layer_res_id` holds after some services. */
  datatype Scan = Scan(layer: Option<int>, workspace: Option<int>)

  /** One service of the search: its first matching workspace is taken, and the first matching layer in it. */
  function Visit(st: Scan, s: ServiceRes, ws: string, layer: string): Result<Scan>
  {
    if s.children.None? then Failure(MagpieHttpError)
    else
      var w := FirstByName(s.children.value, WorkspaceName, ws);
      if w.None? then Success(st)
      else
        var found := s.children.value[w.value];
        var l := FirstByName(found.layers, LayerName, layer);
        Success(Scan(if l.Some? then Some(found.layers[l.value].id) else st.layer, Some(found.id)))
  }

  /**
   * The service loop of `get_geoserver_layer_res_id`: once a (truthy) layer
   * id is held, the remaining services are neither fetched nor searched.
   */
  function LayerScan(services: seq<ServiceRes>, ws: string, layer: string): Result<Scan>
  {
    if services == [] then Success(Scan(None, None))
    else
      var before := LayerScan(services[..|services| - 1], ws, layer);
      if before.Failure? || Truthy(before.value.layer) then before
      else Visit(before.value, services[|services| - 1], ws, layer)
  }

  /** The search stops at the first service in which the layer is found. */
  lemma LayerScanStops(services: seq<ServiceRes>, ws: string, layer: string, i: int)
    requires 0 <= i <= |services|
    requires LayerScan(services[..i], ws, layer).Success? && Truthy(LayerScan(services[..i], ws, layer).value.layer)
    ensures LayerScan(services, ws, layer) == LayerScan(services[..i], ws, layer)
    decreases |services| - i
  {
    if i < |services| {
      assert services[..i + 1][..i] == services[..i];
      LayerScanStops(services, ws, layer, i + 1);
    } else {
      assert services[..i] == services;
    }
  }

  /** A failure is final too. */
  lemma LayerScanFails(services: seq<ServiceRes>, ws: string, layer: string, i: int)
    requires 0 <= i <= |services|
    requires LayerScan(services[..i], ws, layer).Failure?
    ensures LayerScan(services, ws, layer) == LayerScan(services[..i], ws, layer)
    decreases |services| - i
  {
    if i < |services| {
      assert services[..i + 1][..i] == services[..i];
      LayerScanFails(services, ws, layer, i + 1);
    } else {
      assert services[..i] == services;
    }
  }

  /** Every failure of the search is the MagpieHttpError of a fetch. */
  lemma {:induction false} LayerScanErrorKind(services: seq<ServiceRes>, ws: string, layer: string)
    ensures LayerScan(services, ws, layer).Failure? ==> LayerScan(services, ws, layer).error == MagpieHttpError
    decreases |services|
  {
    if services != [] {
      LayerScanErrorKind(services[..|services| - 1], ws, layer);
    }
  }

  /**
   * The two inner loops of `get_geoserver_layer_res_id` for one fetched
   * service: they stop at the first workspace of that name, and within it
   * at the first layer of that name.
   */
  method VisitService(st: Scan, s: ServiceRes, ws: string, layer: string) returns (next: Scan)
    requires s.children.Some?
    ensures Visit(st, s, ws, layer) == Success(next)
  {
    next := st;
    var children := s.children.value;
    var j := 0;
    while j < |children| && children[j].name != ws
      invariant 0 <= j <= |children|
      invariant forall k :: 0 <= k < j ==> children[k].name != ws
    {
      j := j + 1;
    }
    if j < |children| {
      var layers := children[j].layers;
      var k := 0;
      while k < |layers| && layers[k].name != layer
        invariant 0 <= k <= |layers|
        invariant forall m :: 0 <= m < k ==> layers[m].name != layer
      {
        k := k + 1;
      }
      if k < |layers| {
        next := Scan(Some(layers[k].id), Some(children[j].id));
      } else {
        next := Scan(st.layer, Some(children[j].id));
      }
    }
  }

  /**
   * `get_geoserver_layer_res_id`: ValueError without geoserver services;
   * otherwise `LayerScan` finds the layer (and the last workspace seen).
   * When no layer was found and creation is asked for, the workspace is
   * created under the first service only if none was found, then the layer
   * under the workspace.
   */
  method FindLayerResId(services: seq<ServiceRes>, ws: string, layer: string, createIfMissing: bool, create: Creator)
    returns (r: Result<Option<int>>, created: seq<NewResource>)
    ensures services == [] ==> r == Failure(ValueError) && created == []
    ensures services != [] && LayerScan(services, ws, layer).Failure? ==> r == Failure(MagpieHttpError) && created == []
    ensures services != [] && LayerScan(services, ws, layer).Success? ==>
      var st := LayerScan(services, ws, layer).value;
      (Truthy(st.layer) || !createIfMissing ==> r == Success(st.layer) && created == []) &&
      (!Truthy(st.layer) && createIfMissing && Truthy(st.workspace) ==>
        created == [NewResource(layer, LayerType, st.workspace.value)] && r == SomeOf(create(created[0]))) &&
      (!Truthy(st.layer) && createIfMissing && !Truthy(st.workspace) ==>
        var nw := NewResource(ws, WorkspaceType, services[0].id);
        if create(nw).Failure? then created == [nw] && r == Failure(create(nw).error)
        else created == [nw, NewResource(layer, LayerType, create(nw).value)] && r == SomeOf(create(created[1])))
  {
    created := [];
    if services == [] {
      return Failure(ValueError), created;
    }
    var layerId: Option<int> := None;
    var wsId: Option<int> := None;
    var i := 0;
    while i < |services| && !Truthy(layerId)
      invariant 0 <= i <= |services|
      invariant LayerScan(services[..i], ws, layer) == Success(Scan(layerId, wsId))
    {
      assert services[..i + 1][..i] == services[..i];
      if services[i].children.None? {
        LayerScanFails(services, ws, layer, i + 1);
        LayerScanErrorKind(services, ws, layer);
        return Failure(MagpieHttpError), created;
      }
      var next := VisitService(Scan(layerId, wsId), services[i], ws, layer);
      layerId, wsId := next.layer, next.workspace;
      i := i + 1;
    }
    if i < |services| {
      LayerScanStops(services, ws, layer, i);
    }
    if i == |services| {
      assert services[..i] == services;
    }
    if !Truthy(layerId) && createIfMissing {
      if !Truthy(wsId) {
        var nw := NewResource(ws, WorkspaceType, services[0].id);
        created := [nw];
        var made := create(nw);
        if made.Failure? {
          return Failure(made.error), created;
        }
        wsId := Some(made.value);
      }
      var nl := NewResource(layer, LayerType, wsId.value);
      created := created + [nl];
      r := SomeOf(create(nl));
    } else {
      r := Success(layerId);
    }
  }
}
