/** The text endpoint of internal/devclient: from a decoded body to the request that reaches the backend. */
module DevClient {
  import opened Text
  import opened Wrappers
  import Backend
  import Cleanup
  import CleanupDefaults
  import Registry
  import RegistryValidation

  datatype DevTextRequest = DevTextRequest(
    requestID: string, deviceID: string, alias: string, input: string, text: string, metadata: Backend.Metadata)

  /** The outcome of JSON decoding, which happens before this model starts. */
  datatype Body = Decoded(request: DevTextRequest) | Malformed | TooLarge

  datatype ErrorReply = ErrorReply(status: nat, code: string)

  const METHOD_NOT_ALLOWED := ErrorReply(405, "method_not_allowed")
  const INVALID_REQUEST := ErrorReply(400, "invalid_request")
  const BODY_TOO_LARGE := ErrorReply(413, "invalid_request")
  const ROUTE_ERROR := ErrorReply(400, "route_error")
  const NOT_CONFIGURED := ErrorReply(500, "internal_error")

  datatype HandlerConfig = HandlerConfig(
    registry: Option<Registry.Registry>, cleaner: Option<Cleanup.Cleaner>, hasBackend: bool)

  /** parseDevTextRequest: the request and its effective input. */
  function Parse(body: Body): Result<(DevTextRequest, string), ErrorReply> {
    match body
    case Malformed => Err(INVALID_REQUEST)
    case TooLarge => Err(BODY_TOO_LARGE)
    case Decoded(req) =>
      if IsBlank(req.deviceID) then Err(INVALID_REQUEST)
      else if req.input != "" && req.text != "" && req.text != req.input then Err(INVALID_REQUEST)
      else
        var effective := Said(req);
        if IsBlank(effective) then Err(INVALID_REQUEST) else Ok((req, effective))
  }

  function MetadataWithSource(metadata: Backend.Metadata): map<string, string> {
    var given := if metadata.None? then map[] else metadata.value;
    if "source" in given then given else given["source" := "dev-http"]
  }

  /** requestMetadata */
  method RequestMetadata(metadata: Backend.Metadata) returns (copied: map<string, string>)
    ensures copied == MetadataWithSource(metadata)
  {
    var given := if metadata.None? then map[] else metadata.value;
    copied := map[];
    var keys := given.Keys;
    while keys != {}
      invariant keys <= given.Keys
      invariant copied == map key | key in given.Keys - keys :: given[key]
      decreases keys
    {
      var key :| key in keys;
      copied := copied[key := given[key]];
      keys := keys - {key};
    }
    assert copied == given;
    if "source" !in copied {
      copied := copied["source" := "dev-http"];
    }
  }

  function BackendRequest(req: DevTextRequest, input: string, c: Registry.ResolvedContext): Backend.Request {
    Backend.Request(req.requestID, input, req.deviceID, req.alias, c.personID, c.profileID, c.modelID, c.backendID,
                    c.model.name, c.profile.systemPrompt, Some(MetadataWithSource(req.metadata)))
  }

  function Routed(r: Registry.Registry, rules: seq<Cleanup.Rule>, req: DevTextRequest, effective: string)
    : Result<Backend.Request, ErrorReply>
  {
    match Registry.Resolve(r, req.deviceID, req.alias)
    case Err(_) => Err(ROUTE_ERROR)
    case Ok(c) => Ok(BackendRequest(req, Cleanup.Traced(rules, effective).cleaned, c))
  }

  /** The request that devText hands to the backend, or the error reply that it writes instead. */
  function Prepared(cfg: HandlerConfig, isPost: bool, body: Body): Result<Backend.Request, ErrorReply> {
    if !isPost then Err(METHOD_NOT_ALLOWED)
    else if Parse(body).Err? then Err(Parse(body).error)
    else
      var (req, effective) := Parse(body).value;
      if cfg.registry.None? then Err(ROUTE_ERROR)
      else if cfg.cleaner.None? || !cfg.hasBackend then Err(NOT_CONFIGURED)
      else Routed(cfg.registry.value, cfg.cleaner.value.rules, req, effective)
  }

  /** devText up to the backend call. */
  method DevText(cfg: HandlerConfig, isPost: bool, body: Body) returns (r: Result<Backend.Request, ErrorReply>)
    ensures r == Prepared(cfg, isPost, body)
  {
    if !isPost {
      return Err(METHOD_NOT_ALLOWED);
    }
    var parsed := Parse(body);
    if parsed.Err? {
      return Err(parsed.error);
    }
    var (req, effective) := parsed.value;
    if cfg.registry.None? {
      return Err(ROUTE_ERROR);
    }
    if cfg.cleaner.None? || !cfg.hasBackend {
      return Err(NOT_CONFIGURED);
    }
    var resolved := Registry.Resolve(cfg.registry.value, req.deviceID, req.alias);
    if resolved.Err? {
      return Err(ROUTE_ERROR);
    }
    var c := resolved.value;
    var cleaned := Cleanup.CleanWithTrace(cfg.cleaner.value, effective);
    var metadata := RequestMetadata(req.metadata);
    r := Ok(Backend.Request(req.requestID, cleaned.cleaned, req.deviceID, req.alias, c.personID, c.profileID,
                            c.modelID, c.backendID, c.model.name, c.profile.systemPrompt, Some(metadata)));
  }

  /** As the program starts up: a registry that passed validation, and the default rules. */
  ghost predicate Served(cfg: HandlerConfig) {
    && cfg.registry.Some? && RegistryValidation.AllIssues(cfg.registry.value) == multiset{}
    && cfg.cleaner == Some(Cleanup.Cleaner(CleanupDefaults.DefaultRules())) && cfg.hasBackend
  }

  /** A body that parses: a device, no conflict between input and text, and something to say. */
  ghost predicate BodyOk(body: Body) {
    && body.Decoded?
    && !IsBlank(body.request.deviceID)
    && (body.request.input == "" || body.request.text == "" || body.request.input == body.request.text)
    && !(IsBlank(body.request.input) && IsBlank(body.request.text))
    && !(body.request.input != "" && IsBlank(body.request.input))
  }

  lemma ParseOkIff(body: Body)
    ensures Parse(body).Ok? <==> BodyOk(body)
    ensures Parse(body).Ok? ==> Parse(body).value.0 == body.request && !IsBlank(Parse(body).value.1)
  {
    assert IsBlank("");
  }

  lemma RoutedIdsAreNotBlank(r: Registry.Registry, c: Registry.ResolvedContext)
    requires Registry.WellFormed(r) && Registry.ContextOk(r, c)
    ensures !IsBlank(c.personID) && !IsBlank(c.profileID) && !IsBlank(c.modelID) && !IsBlank(c.backendID)
    ensures !IsBlank(c.model.name)
  {
    Registry.NotBlankIn(r.persons.Keys, c.personID);
    Registry.NotBlankIn(r.profiles.Keys, c.profileID);
    Registry.NotBlankIn(r.models.Keys, c.modelID);
    Registry.NotBlankIn(r.backends.Keys, c.backendID);
  }

  lemma AllFieldsSet(q: Backend.Request)
    requires !IsBlank(q.input) && !IsBlank(q.personID) && !IsBlank(q.profileID)
    requires !IsBlank(q.modelID) && !IsBlank(q.backendID) && !IsBlank(q.modelName)
    ensures Backend.Validate(q).None?
  {
  }

  /** The alias of a request leads somewhere: none is given, or a binding without white-space-only fields. */
  ghost predicate AliasLeads(device: Registry.Device, alias: string) {
    alias == "" ||
    (&& alias in device.aliases
     && !Registry.OnlySpace(device.aliases[alias].person) && !Registry.OnlySpace(device.aliases[alias].profile))
  }

  ghost predicate Routable(r: Registry.Registry, req: DevTextRequest) {
    req.deviceID in r.devices && AliasLeads(r.devices[req.deviceID], req.alias)
  }

  lemma RoutableIff(r: Registry.Registry, req: DevTextRequest)
    requires Registry.WellFormed(r)
    ensures Registry.Resolve(r, req.deviceID, req.alias).Ok? <==> Routable(r, req)
    ensures Routable(r, req) ==> Registry.ContextOk(r, Registry.Resolve(r, req.deviceID, req.alias).value)
  {
    Registry.ResolveOnWellFormed(r, req.deviceID, req.alias);
  }

  /**
   Which error reply a refused request gets: the method, the body, a missing part of the handler and the
   route are looked at in this order.
   */
  lemma RefusalIs(cfg: HandlerConfig, isPost: bool, body: Body)
    ensures !isPost ==> Prepared(cfg, isPost, body) == Err(ErrorReply(405, "method_not_allowed"))
    ensures isPost && body.TooLarge? ==> Prepared(cfg, isPost, body) == Err(ErrorReply(413, "invalid_request"))
    ensures isPost && !body.TooLarge? && !BodyOk(body) ==>
              Prepared(cfg, isPost, body) == Err(ErrorReply(400, "invalid_request"))
    ensures isPost && BodyOk(body) && cfg.registry.None? ==>
              Prepared(cfg, isPost, body) == Err(ErrorReply(400, "route_error"))
    ensures isPost && BodyOk(body) && cfg.registry.Some? && (cfg.cleaner.None? || !cfg.hasBackend) ==>
              Prepared(cfg, isPost, body) == Err(ErrorReply(500, "internal_error"))
    ensures isPost && BodyOk(body) && cfg.registry.Some? && cfg.cleaner.Some? && cfg.hasBackend ==>
              (Registry.Resolve(cfg.registry.value, body.request.deviceID, body.request.alias).Err?
               <==> Prepared(cfg, isPost, body) == Err(ErrorReply(400, "route_error")))
  {
    ParseOkIff(body);
  }

  /** backendErrorStatus: status, code and message for an error of the backend. */
  function BackendErrorStatus(e: Backend.Error): (ErrorReply, string) {
    if Backend.InvalidRequest in e.wraps then
      (ErrorReply(400, "backend_invalid_request"), "backend request is invalid")
    else if Backend.Unauthorized in e.wraps then (ErrorReply(401, "backend_unauthorized"), "backend unauthorized")
    else if Backend.Temporary in e.wraps then
      (ErrorReply(503, "backend_temporary"), "backend temporarily unavailable")
    else if Backend.InvocationFailed in e.wraps then
      (ErrorReply(502, "backend_invocation_failed"), "backend invocation failed")
    else (ErrorReply(500, "internal_error"), "internal error")
  }

  /** What was said in a body. */
  function Said(req: DevTextRequest): string {
    if req.input == "" then req.text else req.input
  }

  lemma PreparedIsRouted(cfg: HandlerConfig, isPost: bool, body: Body)
    requires cfg.registry.Some? && cfg.cleaner.Some? && cfg.hasBackend
    ensures isPost && BodyOk(body) ==>
      && !IsBlank(Said(body.request))
      && Prepared(cfg, isPost, body)
         == Routed(cfg.registry.value, cfg.cleaner.value.rules, body.request, Said(body.request))
    ensures !(isPost && BodyOk(body)) ==> Prepared(cfg, isPost, body).Err?
  {
    ParseOkIff(body);
  }

  lemma RoutedIff(r: Registry.Registry, rules: seq<Cleanup.Rule>, req: DevTextRequest, effective: string)
    requires Registry.WellFormed(r)
    ensures Routed(r, rules, req, effective).Ok? <==> Routable(r, req)
    ensures Routed(r, rules, req, effective).Ok? ==>
              Routed(r, rules, req, effective).value.input == Cleanup.Traced(rules, effective).cleaned
  {
    RoutableIff(r, req);
  }

  lemma RoutedIsValid(r: Registry.Registry, rules: seq<Cleanup.Rule>, req: DevTextRequest, effective: string)
    requires Registry.WellFormed(r) && Routed(r, rules, req, effective).Ok?
    requires !IsBlank(Cleanup.Traced(rules, effective).cleaned)
    ensures Backend.Validate(Routed(r, rules, req, effective).value).None?
  {
    RoutableIff(r, req);
    RoutedIdsAreNotBlank(r, Registry.Resolve(r, req.deviceID, req.alias).value);
    AllFieldsSet(Routed(r, rules, req, effective).value);
  }

  lemma DefaultsClean(rules: seq<Cleanup.Rule>, s: string)
    requires rules == CleanupDefaults.DefaultRules()
    ensures Cleanup.Traced(rules, s).cleaned == Sentence(CleanupDefaults.CleanWords(Fields(s)))
    ensures IsBlank(Cleanup.Traced(rules, s).cleaned) <==> IsBlank(s)
  {
    CleanupDefaults.DefaultCleanIsWordList(s);
    CleanupDefaults.DefaultCleanKeepsBlankness(s);
  }

  /** Every request that the served endpoint hands to the backend passes the backend's own validation. */
  lemma EveryRequestIsValid(cfg: HandlerConfig, isPost: bool, body: Body)
    requires Served(cfg)
    ensures Prepared(cfg, isPost, body).Ok? ==> Backend.Validate(Prepared(cfg, isPost, body).value).None?
  {
    RegistryValidation.NoIssuesIffWellFormed(cfg.registry.value);
    PreparedIsRouted(cfg, isPost, body);
    if Prepared(cfg, isPost, body).Ok? {
      DefaultsClean(cfg.cleaner.value.rules, Said(body.request));
      RoutedIsValid(cfg.registry.value, cfg.cleaner.value.rules, body.request, Said(body.request));
    }
  }

  /** The served endpoint reaches the backend exactly for these requests, with the cleaned words as input. */
  lemma ReachesBackendIff(cfg: HandlerConfig, isPost: bool, body: Body)
    requires Served(cfg)
    ensures Prepared(cfg, isPost, body).Ok? <==> isPost && BodyOk(body) && Routable(cfg.registry.value, body.request)
    ensures Prepared(cfg, isPost, body).Ok? ==>
      Prepared(cfg, isPost, body).value.input == Sentence(CleanupDefaults.CleanWords(Fields(Said(body.request))))
  {
    RegistryValidation.NoIssuesIffWellFormed(cfg.registry.value);
    PreparedIsRouted(cfg, isPost, body);
    if isPost && BodyOk(body) {
      RoutedIff(cfg.registry.value, cfg.cleaner.value.rules, body.request, Said(body.request));
      DefaultsClean(cfg.cleaner.value.rules, Said(body.request));
    }
  }

  /** The binding of an alias, where no alias overrides nothing. */
  function Override(device: Registry.Device, alias: string): Registry.AliasBinding
    requires alias == "" || alias in device.aliases
  {
    if alias == "" then Registry.AliasBinding("", "") else device.aliases[alias]
  }

  /** The request names its sender, and the chain from the person to the backend that the registry lays down. */
  ghost predicate FollowsRoute(r: Registry.Registry, req: DevTextRequest, q: Backend.Request) {
    && q.id == req.requestID && q.deviceID == req.deviceID && q.alias == req.alias
    && q.deviceID in r.devices && (q.alias == "" || q.alias in r.devices[q.deviceID].aliases)
    && (var device := r.devices[q.deviceID];
        && q.personID == Registry.OrElse(Override(device, q.alias).person, device.defaultPerson)
        && q.profileID == Registry.OrElse(Override(device, q.alias).profile, device.defaultProfile))
    && q.personID in r.persons && q.profileID in r.profiles && r.profiles[q.profileID].person == q.personID
    && q.systemPrompt == r.profiles[q.profileID].systemPrompt && q.modelID == r.profiles[q.profileID].model
    && q.modelID in r.models && q.modelName == r.models[q.modelID].name && q.backendID == r.models[q.modelID].backend
    && q.backendID in r.backends
  }

  /** The metadata given, with a source added if there is none. */
  ghost predicate CarriesMetadata(given: Backend.Metadata, carried: Backend.Metadata) {
    && carried.Some? && "source" in carried.value
    && (given.None? || "source" !in given.value ==> carried.value["source"] == "dev-http")
    && (given.Some? ==> forall k | k in given.value :: k in carried.value && carried.value[k] == given.value[k])
    && (forall k | k in carried.value && k != "source" :: given.Some? && k in given.value)
  }

  /** The person and profile that the route of a device and an alias starts from. */
  ghost predicate StartsRoute(r: Registry.Registry, deviceID: string, alias: string, c: Registry.ResolvedContext) {
    && deviceID in r.devices && (alias == "" || alias in r.devices[deviceID].aliases)
    && c.personID == Registry.OrElse(Override(r.devices[deviceID], alias).person, r.devices[deviceID].defaultPerson)
    && c.profileID == Registry.OrElse(Override(r.devices[deviceID], alias).profile, r.devices[deviceID].defaultProfile)
  }

  lemma BlankOverrideInherits(r: Registry.Registry, deviceID: string, alias: string)
    requires deviceID in r.devices && (alias == "" || alias in r.devices[deviceID].aliases)
    ensures var device := r.devices[deviceID];
      && (alias == "" ==>
            && Registry.OrElse(Override(device, alias).person, device.defaultPerson) == device.defaultPerson
            && Registry.OrElse(Override(device, alias).profile, device.defaultProfile) == device.defaultProfile)
      && (alias != "" ==> Override(device, alias) == device.aliases[alias])
  {
    assert IsBlank("");
  }

  lemma ResolvedStartsRoute(r: Registry.Registry, deviceID: string, alias: string)
    requires Registry.WellFormed(r) && Registry.Resolve(r, deviceID, alias).Ok?
    ensures StartsRoute(r, deviceID, alias, Registry.Resolve(r, deviceID, alias).value)
    ensures Registry.ContextOk(r, Registry.Resolve(r, deviceID, alias).value)
  {
    Registry.ResolveOnWellFormed(r, deviceID, alias);
    Registry.ResolveNeedsStart(r, deviceID, alias);
    BlankOverrideInherits(r, deviceID, alias);
  }

  lemma RequestOfContext(r: Registry.Registry, req: DevTextRequest, input: string, c: Registry.ResolvedContext)
    requires StartsRoute(r, req.deviceID, req.alias, c) && Registry.ContextOk(r, c)
    ensures FollowsRoute(r, req, BackendRequest(req, input, c))
    ensures CarriesMetadata(req.metadata, BackendRequest(req, input, c).metadata)
  {
  }

  lemma RoutedFollowsRoute(r: Registry.Registry, rules: seq<Cleanup.Rule>, req: DevTextRequest, effective: string)
    requires Registry.WellFormed(r) && Routed(r, rules, req, effective).Ok?
    ensures FollowsRoute(r, req, Routed(r, rules, req, effective).value)
    ensures CarriesMetadata(req.metadata, Routed(r, rules, req, effective).value.metadata)
  {
    ResolvedStartsRoute(r, req.deviceID, req.alias);
    RequestOfContext(r, req, Cleanup.Traced(rules, effective).cleaned,
                     Registry.Resolve(r, req.deviceID, req.alias).value);
  }

  /**
   Every request that the served endpoint hands to the backend follows the registry's route for its
   device and alias, and carries the given metadata with some source.
   */
  lemma EveryRequestFollowsRoute(cfg: HandlerConfig, isPost: bool, body: Body)
    requires Served(cfg)
    ensures Prepared(cfg, isPost, body).Ok? ==>
      && body.Decoded? && FollowsRoute(cfg.registry.value, body.request, Prepared(cfg, isPost, body).value)
      && CarriesMetadata(body.request.metadata, Prepared(cfg, isPost, body).value.metadata)
  {
    RegistryValidation.NoIssuesIffWellFormed(cfg.registry.value);
    PreparedIsRouted(cfg, isPost, body);
    if Prepared(cfg, isPost, body).Ok? {
      RoutedFollowsRoute(cfg.registry.value, cfg.cleaner.value.rules, body.request, Said(body.request));
    }
  }
}
