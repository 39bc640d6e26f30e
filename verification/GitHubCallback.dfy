/** What GitHub's redirect asks for, from untrusted query text (web/src/modules/github/domain/callback.ts). */
module GitHubCallback {
  import opened Options
  import opened Decimals
  import opened InstallationIds

  datatype CallbackParam = CODE | STATE | INSTALLATION_ID | SETUP_ACTION | ERROR

  const CALLBACK_PARAMS := [CODE, STATE, INSTALLATION_ID, SETUP_ACTION, ERROR]

  function NameOf(param: CallbackParam): string {
    match param
    case CODE => "code"
    case STATE => "state"
    case INSTALLATION_ID => "installation_id"
    case SETUP_ACTION => "setup_action"
    case ERROR => "error"
  }

  type CallbackQuery = map<CallbackParam, string>

  datatype Grant = Grant(code: string, state: string)

  datatype Callback =
    | Authorization(grant: Grant)
    | FreshInstall(installationId: int, grant: Grant)
    | InstallWithoutAuthorization(installationId: int)
    | InstallRequested
    | Cancelled
    | Invalid

  /** `URLSearchParams.get`: the first value of that name. */
  function FirstValue(params: seq<(string, string)>, name: string): Option<string> {
    if params == [] then None
    else if params[0].0 == name then Some(params[0].1)
    else FirstValue(params[1..], name)
  }

  /** The parameters GitHub sends, and no others. */
  function QueryOf(params: seq<(string, string)>): CallbackQuery {
    map param | param in CALLBACK_PARAMS && FirstValue(params, NameOf(param)).Some?
      :: FirstValue(params, NameOf(param)).value
  }

  /** Each parameter kept is the first value of its name in GitHub's query. */
  lemma QueryMeaning(params: seq<(string, string)>)
    ensures Get(QueryOf(params), CODE) == FirstValue(params, "code")
    ensures Get(QueryOf(params), STATE) == FirstValue(params, "state")
    ensures Get(QueryOf(params), INSTALLATION_ID) == FirstValue(params, "installation_id")
    ensures Get(QueryOf(params), SETUP_ACTION) == FirstValue(params, "setup_action")
    ensures Get(QueryOf(params), ERROR) == FirstValue(params, "error")
  {
    assert CALLBACK_PARAMS[0] == CODE && CALLBACK_PARAMS[1] == STATE && CALLBACK_PARAMS[2] == INSTALLATION_ID;
    assert CALLBACK_PARAMS[3] == SETUP_ACTION && CALLBACK_PARAMS[4] == ERROR;
  }

  /** The value looked for is the one of that name with none of the name before it. */
  lemma {:induction false} FirstValueMeaning(params: seq<(string, string)>, name: string, k: nat)
    requires k < |params| && params[k].0 == name && forall i :: 0 <= i < k ==> params[i].0 != name
    ensures FirstValue(params, name) == Some(params[k].1)
  {
    if k > 0 {
      FirstValueMeaning(params[1..], name, k - 1);
    }
  }

  lemma {:induction false} NoValueMeaning(params: seq<(string, string)>, name: string)
    requires forall i :: 0 <= i < |params| ==> params[i].0 != name
    ensures FirstValue(params, name) == None
  {
    if params != [] {
      NoValueMeaning(params[1..], name);
    }
  }

  method CallbackQueryFrom(params: seq<(string, string)>) returns (query: CallbackQuery)
    ensures query == QueryOf(params)
  {
    query := map[];
    for k := 0 to |CALLBACK_PARAMS|
      invariant forall p :: p in query <==> p in CALLBACK_PARAMS[..k] && FirstValue(params, NameOf(p)).Some?
      invariant forall p :: p in query ==> query[p] == FirstValue(params, NameOf(p)).value
    {
      var param := CALLBACK_PARAMS[k];
      var value := FirstValue(params, NameOf(param));
      assert CALLBACK_PARAMS[..k + 1] == CALLBACK_PARAMS[..k] + [param];
      if value.Some? {
        query := query[param := value.value];
      }
    }
  }

  function Get(query: CallbackQuery, param: CallbackParam): Option<string> {
    if param in query then Some(query[param]) else None
  }

  /** `/^[\x21-\x7e]{1,1024}$/` */
  predicate IsOpaqueToken(value: string) {
    1 <= |value| <= 1024 && forall i :: 0 <= i < |value| ==> '!' <= value[i] <= '~'
  }

  function ClassifyCallback(query: CallbackQuery): Callback {
    var error, setupAction := Get(query, ERROR), Get(query, SETUP_ACTION);
    var code, state := Get(query, CODE), Get(query, STATE);
    if error.Some? then if error.value == "access_denied" then Cancelled else Invalid
    else if setupAction.Some? && setupAction.value !in {"install", "update", "request"} then Invalid
    else if setupAction == Some("request") then InstallRequested
    else if (code.Some? && !IsOpaqueToken(code.value)) || (state.Some? && !IsOpaqueToken(state.value))
            || code.Some? != state.Some? then Invalid
    else if Get(query, INSTALLATION_ID).None? then
      if code.None? then Invalid else Authorization(Grant(code.value, state.value))
    else
      var id := InstallationIdFrom(Get(query, INSTALLATION_ID));
      if id.None? then Invalid
      else if code.None? then InstallWithoutAuthorization(id.value)
      else FreshInstall(id.value, Grant(code.value, state.value))
  }

  /** One to 1024 characters from U+0021 to U+007E. */
  predicate IsPrintableToken(value: string) {
    value != "" && |value| < 1025 && forall c :: c in value ==> 0x21 <= c as int <= 0x7e
  }

  predicate IsValidGrant(grant: Grant) { IsPrintableToken(grant.code) && IsPrintableToken(grant.state) }

  lemma OpaqueTokens(value: string)
    ensures IsOpaqueToken(value) <==> IsPrintableToken(value)
  {
    assert forall i :: 0 <= i < |value| ==> value[i] in value;
  }

  lemma OpaqueGrant(query: CallbackQuery)
    ensures CODE in query ==> (IsOpaqueToken(query[CODE]) <==> IsPrintableToken(query[CODE]))
    ensures STATE in query ==> (IsOpaqueToken(query[STATE]) <==> IsPrintableToken(query[STATE]))
  {
    if CODE in query {
      OpaqueTokens(query[CODE]);
    }
    if STATE in query {
      OpaqueTokens(query[STATE]);
    }
  }

  /** A link is only ever asked for with a real installation id and, if any, a well-formed grant. */
  lemma ClassifiedIsWellFormed(query: CallbackQuery)
    ensures match ClassifyCallback(query)
            case Authorization(grant) => IsValidGrant(grant) && INSTALLATION_ID !in query && ERROR !in query
            case FreshInstall(id, grant) =>
              && IsValidGrant(grant) && InstallationIdFrom(Get(query, INSTALLATION_ID)) == Some(id)
              && 1 <= id <= MAX_SAFE_INTEGER
            case InstallWithoutAuthorization(id) =>
              CODE !in query && STATE !in query && InstallationIdFrom(Get(query, INSTALLATION_ID)) == Some(id)
              && 1 <= id <= MAX_SAFE_INTEGER
            case _ => true
  {
    OpaqueGrant(query);
    if INSTALLATION_ID in query {
      var id := InstallationIdFrom(Get(query, INSTALLATION_ID));
      if id.Some? {
        AcceptsExactlyDecimals(query[INSTALLATION_ID], id.value);
      }
    }
  }

  /** GitHub reports no error, and says nothing of the install or that it happened. */
  predicate Acts(query: CallbackQuery) {
    ERROR !in query && (SETUP_ACTION !in query || query[SETUP_ACTION] in {"install", "update"})
  }

  predicate Carries(query: CallbackQuery, grant: Grant) {
    IsValidGrant(grant) && Get(query, CODE) == Some(grant.code) && Get(query, STATE) == Some(grant.state)
  }

  predicate Names(query: CallbackQuery, id: int) {
    INSTALLATION_ID in query && 1 <= id <= MAX_SAFE_INTEGER && query[INSTALLATION_ID] == Decimal(id)
  }

  /** When each kind is answered, whatever order the checks are made in; everything else is invalid. */
  lemma ClassifiedExactly(query: CallbackQuery, id: int, grant: Grant)
    ensures ClassifyCallback(query) == Cancelled <==> Get(query, ERROR) == Some("access_denied")
    ensures ClassifyCallback(query) == InstallRequested
            <==> ERROR !in query && Get(query, SETUP_ACTION) == Some("request")
    ensures ClassifyCallback(query) == Authorization(grant)
            <==> Acts(query) && Carries(query, grant) && INSTALLATION_ID !in query
    ensures ClassifyCallback(query) == FreshInstall(id, grant)
            <==> Acts(query) && Carries(query, grant) && Names(query, id)
    ensures ClassifyCallback(query) == InstallWithoutAuthorization(id)
            <==> Acts(query) && CODE !in query && STATE !in query && Names(query, id)
  {
    OpaqueGrant(query);
    if INSTALLATION_ID in query {
      var read := InstallationIdFrom(Get(query, INSTALLATION_ID));
      if read.Some? {
        AcceptsExactlyDecimals(query[INSTALLATION_ID], read.value);
      }
      if id >= 0 {
        AcceptsExactlyDecimals(query[INSTALLATION_ID], id);
      }
    }
  }

  /** A redirect with nothing in it but an installation is a bare one. */
  lemma BareInstallation(id: int)
    requires 1 <= id <= MAX_SAFE_INTEGER
    ensures ClassifyCallback(QueryOf([(NameOf(INSTALLATION_ID), Decimal(id))])) == InstallWithoutAuthorization(id)
  {
    var params := [(NameOf(INSTALLATION_ID), Decimal(id))];
    QueryMeaning(params);
    OneValue("installation_id", Decimal(id), "code");
    OneValue("installation_id", Decimal(id), "state");
    OneValue("installation_id", Decimal(id), "installation_id");
    OneValue("installation_id", Decimal(id), "setup_action");
    OneValue("installation_id", Decimal(id), "error");
    ClassifiedExactly(QueryOf(params), id, Grant("", ""));
  }

  lemma OneValue(name: string, value: string, asked: string)
    ensures FirstValue([(name, value)], asked) == if asked == name then Some(value) else None
  {
    assert [(name, value)][1..] == [];
  }
}
