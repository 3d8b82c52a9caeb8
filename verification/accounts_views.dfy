/**
 * The two OAuth views: step one stores where to continue after login and
 * redirects to the provider; step two exchanges the code, authenticates,
 * logs the user in and redirects onwards.  The session and the query string
 * are string maps; the provider calls, `authenticate` and `is_safe_url` are
 * parameters.
 */
module OauthViews {
  import opened Wrappers

  type Session = map<string, string>
  type Query = map<string, string>
  type FlowKwargs = map<string, string>

  /** The settings the views read. */
  datatype Settings = Settings(
    flowSessionKey: string,
    loginRedirectSessionKey: string,
    flows: map<string, FlowKwargs>,
    redirectUri: string,
    loginUrl: string,
    loginRedirectUrl: string)

  /** The query-string field naming the continue URL (Django's REDIRECT_FIELD_NAME). */
  const NextField: string := "next"
  const DefaultFlow: string := "default"
  const RetryMessage: string := "Try connecting your account again."

  /** `d.get(key)` on a string map. */
  function GetOpt(d: map<string, string>, key: string): Option<string>
  {
    if key in d then Some(d[key]) else None
  }

  /** Python truthiness of an optional string. */
  predicate TruthyText(s: Option<string>)
  {
    s.Some? && s.value != ""
  }

  /** The flow chosen for a request: its name, its keyword arguments, and the session afterwards. */
  datatype FlowChoice = FlowChoice(name: string, kwargs: FlowKwargs, session: Session)

  /**
   * The flow name: the query's `flow` value if non-empty, else the one kept
   * in the session, else "default".
   */
  function FlowName(query: Query, session: Session, settings: Settings): (name: string)
    ensures TruthyText(GetOpt(query, "flow")) ==> name == query["flow"]
    ensures !TruthyText(GetOpt(query, "flow")) ==> name == GetOpt(session, settings.flowSessionKey).GetOr(DefaultFlow)
  {
    if TruthyText(GetOpt(query, "flow")) then query["flow"]
    else GetOpt(session, settings.flowSessionKey).GetOr(DefaultFlow)
  }

  /**
   * `_get_flow`: picks the flow, writes its name back into the session and
   * takes its keyword arguments, falling back to the "default" flow when the
   * named one is unknown or empty, with the redirect URI for this host.
   * `None` is the KeyError raised when the fallback is needed and there is
   * no "default" flow.
   */
  function GetFlow(query: Query, session: Session, settings: Settings, scheme: string, host: string): (r: Option<FlowChoice>)
    ensures r.Some? ==> r.value.name == FlowName(query, session, settings)
    ensures r.Some? ==> r.value.session == session[settings.flowSessionKey := r.value.name]
    ensures r.Some? ==> "redirect_uri" in r.value.kwargs && r.value.kwargs["redirect_uri"] == scheme + "://" + host + settings.redirectUri
    ensures r.None? <==>
              DefaultFlow !in settings.flows
              && (FlowName(query, session, settings) !in settings.flows
                  || settings.flows[FlowName(query, session, settings)] == map[])
    ensures var name := FlowName(query, session, settings);
            r.Some? && name in settings.flows && settings.flows[name] != map[] ==>
              r.value.kwargs == settings.flows[name]["redirect_uri" := scheme + "://" + host + settings.redirectUri]
    ensures var name := FlowName(query, session, settings);
            r.Some? && (name !in settings.flows || settings.flows[name] == map[]) ==>
              r.value.kwargs == settings.flows[DefaultFlow]["redirect_uri" := scheme + "://" + host + settings.redirectUri]
  {
    var name := FlowName(query, session, settings);
    var session' := session[settings.flowSessionKey := name];
    var uri := scheme + "://" + host + settings.redirectUri;
    if name in settings.flows && settings.flows[name] != map[] then
      Some(FlowChoice(name, settings.flows[name]["redirect_uri" := uri], session'))
    else if DefaultFlow in settings.flows then
      Some(FlowChoice(name, settings.flows[DefaultFlow]["redirect_uri" := uri], session'))
    else None
  }

  /**
   * An unknown or empty flow gets the "default" flow's arguments, but keeps
   * its name in the session.
   */
  lemma UnknownFlowFallsBackToDefault(query: Query, session: Session, settings: Settings, scheme: string, host: string)
    requires FlowName(query, session, settings) !in settings.flows
             || settings.flows[FlowName(query, session, settings)] == map[]
    requires DefaultFlow in settings.flows
    ensures var r := GetFlow(query, session, settings, scheme, host);
            r.Some? && r.value.kwargs == settings.flows[DefaultFlow]["redirect_uri" := scheme + "://" + host + settings.redirectUri]
            && r.value.session[settings.flowSessionKey] == FlowName(query, session, settings)
  {
  }

  /** The response of a view: a redirect, or the KeyError of a missing default flow. */
  datatype ViewResult =
    | Redirect(url: string, session: Session, loggedIn: Option<nat>, messages: seq<string>)
    | FlowConfigError

  /**
   * `OauthStepOne.get_redirect_url`.  `authorizeUrl(kwargs, state)` is the
   * provider URL the flow built from `kwargs` produces.
   */
  function StepOne(query: Query, session: Session, settings: Settings, scheme: string, host: string,
                   authorizeUrl: (FlowKwargs, Option<string>) -> string): (r: ViewResult)
    ensures r.Redirect? ==> r.loggedIn.None? && r.messages == []
    ensures (r.Redirect? && TruthyText(GetOpt(query, NextField)) && settings.loginRedirectSessionKey != settings.flowSessionKey)
              ==> GetOpt(r.session, settings.loginRedirectSessionKey) == GetOpt(query, NextField)
    ensures (r.Redirect? && !TruthyText(GetOpt(query, NextField)) && settings.loginRedirectSessionKey != settings.flowSessionKey)
              ==> GetOpt(r.session, settings.loginRedirectSessionKey) == GetOpt(session, settings.loginRedirectSessionKey)
    ensures settings.loginRedirectSessionKey != settings.flowSessionKey ==>
              (r.FlowConfigError? <==> GetFlow(query, session, settings, scheme, host).None?)
    ensures settings.loginRedirectSessionKey != settings.flowSessionKey && r.Redirect? ==>
              r.url == authorizeUrl(GetFlow(query, session, settings, scheme, host).value.kwargs, GetOpt(query, "state"))
  {
    var next := GetOpt(query, NextField);
    var state := GetOpt(query, "state");
    var session1 := if TruthyText(next) then session[settings.loginRedirectSessionKey := next.value] else session;
    assert settings.loginRedirectSessionKey != settings.flowSessionKey ==>
             GetOpt(session1, settings.flowSessionKey) == GetOpt(session, settings.flowSessionKey);
    match GetFlow(query, session1, settings, scheme, host)
    case None => FlowConfigError
    case Some(flow) => Redirect(authorizeUrl(flow.kwargs, state), flow.session, None, [])
  }

  /** What exchanging the code produced. */
  datatype Exchange<C> = ExchangeError | Exchanged(credentials: C)

  /**
   * `OauthStepTwo.get_redirect_url`.  `exchange(kwargs, code)` is the code
   * exchange, `authenticate(c)` the authentication backends, `isSafe(url,
   * host)` Django's `is_safe_url`.
   */
  function StepTwo<C>(query: Query, session: Session, settings: Settings, scheme: string, host: string,
                      exchange: (FlowKwargs, string) -> Exchange<C>, authenticate: C -> Option<nat>,
                      isSafe: (string, string) -> bool): (r: ViewResult)
    ensures r.Redirect? && r.loggedIn.None? ==> r.url == settings.loginUrl && r.messages == [RetryMessage]
    ensures r.Redirect? && r.loggedIn.Some? ==> r.messages == [] && settings.loginRedirectSessionKey !in r.session
    ensures r.FlowConfigError? <==> GetFlow(query, session, settings, scheme, host).None?
    ensures r.Redirect? && r.loggedIn.Some? ==>
              var e := exchange(GetFlow(query, session, settings, scheme, host).value.kwargs, GetOpt(query, "code").GetOr(""));
              e.Exchanged? && authenticate(e.credentials) == r.loggedIn
    ensures settings.loginRedirectSessionKey != settings.flowSessionKey && r.Redirect? && r.loggedIn.Some? ==>
              var next := GetOpt(session, settings.loginRedirectSessionKey);
              r.url == (if TruthyText(next) && isSafe(next.value, host) then next.value else settings.loginRedirectUrl)
    ensures GetFlow(query, session, settings, scheme, host).Some? ==>
              var e := exchange(GetFlow(query, session, settings, scheme, host).value.kwargs, GetOpt(query, "code").GetOr(""));
              e.Exchanged? && authenticate(e.credentials).Some? ==> r.Redirect? && r.loggedIn == authenticate(e.credentials)
  {
    var code := GetOpt(query, "code").GetOr("");
    match GetFlow(query, session, settings, scheme, host)
    case None => FlowConfigError
    case Some(flow) =>
      match exchange(flow.kwargs, code)
      case ExchangeError => Redirect(settings.loginUrl, flow.session, None, [RetryMessage])
      case Exchanged(creds) =>
        match authenticate(creds)
        case None => Redirect(settings.loginUrl, flow.session, None, [RetryMessage])
        case Some(user) =>
          var next := GetOpt(flow.session, settings.loginRedirectSessionKey);
          var session' := flow.session - {settings.loginRedirectSessionKey};
          var url := if !TruthyText(next) || !isSafe(next.value, host) then settings.loginRedirectUrl else next.value;
          Redirect(url, session', Some(user), [])
  }

  /** A failed code exchange never logs anyone in: back to the login page with a message. */
  lemma ExchangeErrorRedirectsToLogin<C>(query: Query, session: Session, settings: Settings, scheme: string, host: string,
                                        exchange: (FlowKwargs, string) -> Exchange<C>, authenticate: C -> Option<nat>,
                                        isSafe: (string, string) -> bool)
    requires GetFlow(query, session, settings, scheme, host).Some?
    requires exchange(GetFlow(query, session, settings, scheme, host).value.kwargs, GetOpt(query, "code").GetOr("")).ExchangeError?
    ensures var r := StepTwo(query, session, settings, scheme, host, exchange, authenticate, isSafe);
            r.Redirect? && r.loggedIn.None? && r.url == settings.loginUrl && r.messages == [RetryMessage]
  {
  }

  /** When no backend accepts this request's credentials, nobody is logged in. */
  lemma NoUserRedirectsToLogin<C>(query: Query, session: Session, settings: Settings, scheme: string, host: string,
                                 exchange: (FlowKwargs, string) -> Exchange<C>, authenticate: C -> Option<nat>,
                                 isSafe: (string, string) -> bool)
    requires GetFlow(query, session, settings, scheme, host).Some?
    requires var e := exchange(GetFlow(query, session, settings, scheme, host).value.kwargs, GetOpt(query, "code").GetOr(""));
             e.Exchanged? ==> authenticate(e.credentials).None?
    ensures var r := StepTwo(query, session, settings, scheme, host, exchange, authenticate, isSafe);
            r.Redirect? && r.loggedIn.None? && r.url == settings.loginUrl && r.messages == [RetryMessage]
  {
  }

  /**
   * Step two on its own, with no continue URL in the session: when the code
   * exchanges and a backend returns a user, that user is logged in and the
   * view goes to LOGIN_REDIRECT_URL.
   */
  lemma StepTwoLogsUserIn<C>(query: Query, session: Session, settings: Settings, scheme: string, host: string,
                            exchange: (FlowKwargs, string) -> Exchange<C>, authenticate: C -> Option<nat>,
                            isSafe: (string, string) -> bool, creds: C, user: nat)
    requires settings.loginRedirectSessionKey != settings.flowSessionKey
    requires settings.loginRedirectSessionKey !in session
    requires GetFlow(query, session, settings, scheme, host).Some?
    requires exchange(GetFlow(query, session, settings, scheme, host).value.kwargs, GetOpt(query, "code").GetOr("")) == Exchanged(creds)
    requires authenticate(creds) == Some(user)
    ensures var r := StepTwo(query, session, settings, scheme, host, exchange, authenticate, isSafe);
            && r.Redirect? && r.loggedIn == Some(user) && r.messages == []
            && r.url == settings.loginRedirectUrl
            && settings.loginRedirectSessionKey !in r.session
  {
  }

  /**
   * The two steps together: a continue URL and a flow given to step one are
   * remembered in the session, so that step two, called with only the code,
   * uses the same flow and, on success, logs the user in and redirects to
   * that URL if it is safe and to the default landing page otherwise.
   */
  lemma StepOneThenStepTwo<C>(next: string, flow: string, code: string, session: Session, settings: Settings,
                             scheme: string, host: string, authorizeUrl: (FlowKwargs, Option<string>) -> string,
                             exchange: (FlowKwargs, string) -> Exchange<C>, authenticate: C -> Option<nat>,
                             isSafe: (string, string) -> bool, creds: C, user: nat)
    requires next != "" && flow != ""
    requires settings.loginRedirectSessionKey != settings.flowSessionKey
    requires flow in settings.flows && settings.flows[flow] != map[]
    requires var kwargs := settings.flows[flow]["redirect_uri" := scheme + "://" + host + settings.redirectUri];
             exchange(kwargs, code) == Exchanged(creds)
    requires authenticate(creds) == Some(user)
    ensures var one := StepOne(map[NextField := next, "flow" := flow], session, settings, scheme, host, authorizeUrl);
            && one.Redirect?
            && var two := StepTwo(map["code" := code], one.session, settings, scheme, host, exchange, authenticate, isSafe);
            && two.Redirect?
            && two.loggedIn == Some(user)
            && two.url == (if isSafe(next, host) then next else settings.loginRedirectUrl)
            && settings.loginRedirectSessionKey !in two.session
            && two.session[settings.flowSessionKey] == flow
  {
    var q1 := map[NextField := next, "flow" := flow];
    assert GetOpt(q1, "flow") == Some(flow);
    assert GetOpt(q1, NextField) == Some(next);
    var session1 := session[settings.loginRedirectSessionKey := next];
    assert FlowName(q1, session1, settings) == flow;
    var one := StepOne(q1, session, settings, scheme, host, authorizeUrl);
    assert one.session == session1[settings.flowSessionKey := flow];
    var q2 := map["code" := code];
    assert GetOpt(q2, "flow") == None;
    assert GetOpt(q2, "code") == Some(code);
    assert FlowName(q2, one.session, settings) == flow;
    assert GetOpt(one.session, settings.loginRedirectSessionKey) == Some(next);
  }
}
