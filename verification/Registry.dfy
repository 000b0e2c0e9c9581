/** The registry of internal/registry, and routing from a device and an alias to a backend. */
module Registry {
  import opened Text
  import opened Wrappers

  datatype BackendEntry = BackendEntry(kind: string, endpoint: string, apiKeyRef: string)
  datatype ModelEntry = ModelEntry(backend: string, name: string)
  datatype Person = Person(displayName: string)
  datatype Profile = Profile(person: string, model: string, systemPrompt: string)
  datatype AliasBinding = AliasBinding(person: string, profile: string)
  datatype Device = Device(
    deviceLabel: string, defaultPerson: string, defaultProfile: string, aliases: map<string, AliasBinding>)

  datatype Registry = Registry(
    schemaVersion: int, backends: map<string, BackendEntry>, models: map<string, ModelEntry>,
    persons: map<string, Person>, profiles: map<string, Profile>, devices: map<string, Device>)

  datatype ResolvedContext = ResolvedContext(
    deviceID: string, alias: string, personID: string, person: Person, profileID: string, profile: Profile,
    modelID: string, model: ModelEntry, backendID: string, backend: BackendEntry)

  datatype ResolveError =
    | DeviceNotFound | AliasNotFound | MissingDefaultPerson | MissingDefaultProfile
    | PersonNotFound | ProfileNotFound | ModelNotFound | BackendNotFound

  /** Registry.Resolve. */
  function Resolve(r: Registry, deviceID: string, alias: string): Result<ResolvedContext, ResolveError> {
    if deviceID !in r.devices then Err(DeviceNotFound)
    else
      var device := r.devices[deviceID];
      if alias != "" && alias !in device.aliases then Err(AliasNotFound)
      else
        var personID := if alias != "" && device.aliases[alias].person != ""
                        then device.aliases[alias].person else device.defaultPerson;
        var profileID := if alias != "" && device.aliases[alias].profile != ""
                         then device.aliases[alias].profile else device.defaultProfile;
        if personID == "" then Err(MissingDefaultPerson)
        else if profileID == "" then Err(MissingDefaultProfile)
        else if personID !in r.persons then Err(PersonNotFound)
        else if profileID !in r.profiles then Err(ProfileNotFound)
        else
          var profile := r.profiles[profileID];
          if profile.model !in r.models then Err(ModelNotFound)
          else
            var model := r.models[profile.model];
            if model.backend !in r.backends then Err(BackendNotFound)
            else Ok(ResolvedContext(deviceID, alias, personID, r.persons[personID], profileID, profile,
                                    profile.model, model, model.backend, r.backends[model.backend]))
  }

  // ---------- Well-formedness, declaratively ----------

  predicate IsIdHead(c: char) {
    'a' <= c <= 'z' || '0' <= c <= '9'
  }

  /** The pattern ^[a-z0-9][a-z0-9_-]*$ */
  predicate IsRegistryID(s: string) {
    s != "" && IsIdHead(s[0]) && forall k | 0 < k < |s| :: IsIdHead(s[k]) || s[k] == '_' || s[k] == '-'
  }

  const SECRET_PREFIX := "env:"

  /** The pattern ^env:[A-Z_][A-Z0-9_]*$ */
  predicate IsSecretRef(s: string) {
    && SECRET_PREFIX <= s && |s| > 4
    && ('A' <= s[4] <= 'Z' || s[4] == '_')
    && forall k | 4 < k < |s| :: 'A' <= s[k] <= 'Z' || '0' <= s[k] <= '9' || s[k] == '_'
  }

  /** A person and one of that person's own profiles. */
  ghost predicate RouteOk(r: Registry, personID: string, profileID: string) {
    personID in r.persons && profileID in r.profiles && r.profiles[profileID].person == personID
  }

  function OrElse(s: string, fallback: string): string {
    if IsBlank(s) then fallback else s
  }

  ghost predicate AliasOk(r: Registry, device: Device, alias: string)
    requires alias in device.aliases
  {
    var b := device.aliases[alias];
    && !IsBlank(alias)
    && !(IsBlank(b.person) && IsBlank(b.profile))
    && RouteOk(r, OrElse(b.person, device.defaultPerson), OrElse(b.profile, device.defaultProfile))
  }

  ghost predicate DeviceOk(r: Registry, device: Device) {
    && !IsBlank(device.deviceLabel)
    && RouteOk(r, device.defaultPerson, device.defaultProfile)
    && forall alias | alias in device.aliases :: AliasOk(r, device, alias)
  }

  ghost predicate BackendOk(b: BackendEntry) {
    b.kind == "hermes" && !IsBlank(b.endpoint) && (b.apiKeyRef == "" || IsSecretRef(b.apiKeyRef))
  }

  ghost predicate BackendsOk(r: Registry) {
    forall id | id in r.backends :: IsRegistryID(id) && BackendOk(r.backends[id])
  }

  ghost predicate ModelsOk(r: Registry) {
    forall id | id in r.models ::
      IsRegistryID(id) && r.models[id].backend in r.backends && !IsBlank(r.models[id].name)
  }

  ghost predicate PersonsOk(r: Registry) {
    forall id | id in r.persons :: IsRegistryID(id) && !IsBlank(r.persons[id].displayName)
  }

  ghost predicate ProfilesOk(r: Registry) {
    forall id | id in r.profiles ::
      IsRegistryID(id) && r.profiles[id].person in r.persons && r.profiles[id].model in r.models
  }

  ghost predicate DevicesOk(r: Registry) {
    forall id | id in r.devices :: IsRegistryID(id) && DeviceOk(r, r.devices[id])
  }

  ghost predicate TopOk(r: Registry) {
    && r.schemaVersion == 1
    && r.backends != map[] && r.models != map[] && r.persons != map[] && r.profiles != map[] && r.devices != map[]
  }

  /** What a registry has to look like to be accepted. */
  ghost predicate WellFormed(r: Registry) {
    TopOk(r) && BackendsOk(r) && ModelsOk(r) && PersonsOk(r) && ProfilesOk(r) && DevicesOk(r)
  }

  lemma RegistryIdsAreNotBlank(id: string)
    requires IsRegistryID(id)
    ensures !IsBlank(id)
  {
    BlankIsAllSpace(id);
    assert !IsSpace(id[0]);
  }

  // ---------- Routing on well-formed registries ----------

  /** Set, but to nothing except white space. */
  predicate OnlySpace(s: string) {
    s != "" && IsBlank(s)
  }

  /**
   On a well-formed registry, routing fails exactly for an unknown device, an unknown alias, or a
   binding with a field of white space only; every success leads through existing entries to a
   profile of the very person chosen.
   */
  lemma ResolveOnWellFormed(r: Registry, deviceID: string, alias: string)
    requires WellFormed(r)
    ensures var result := Resolve(r, deviceID, alias);
      if deviceID !in r.devices then result == Err(DeviceNotFound)
      else
        var device := r.devices[deviceID];
        if alias == "" then
          result.Ok? && result.value.personID == device.defaultPerson && result.value.profileID == device.defaultProfile
        else if alias !in device.aliases then result == Err(AliasNotFound)
        else if OnlySpace(device.aliases[alias].person) then result == Err(PersonNotFound)
        else if OnlySpace(device.aliases[alias].profile) then result == Err(ProfileNotFound)
        else
          && result.Ok?
          && result.value.personID == OrElse(device.aliases[alias].person, device.defaultPerson)
          && result.value.profileID == OrElse(device.aliases[alias].profile, device.defaultProfile)
    ensures Resolve(r, deviceID, alias).Ok? ==>
              var c := Resolve(r, deviceID, alias).value; c.deviceID == deviceID && c.alias == alias && ContextOk(r, c)
  {
    if deviceID in r.devices {
      var device := r.devices[deviceID];
      assert DeviceOk(r, device);
      NotBlankIn(r.persons.Keys, device.defaultPerson);
      NotBlankIn(r.profiles.Keys, device.defaultProfile);
      assert IsBlank("");
      if alias in device.aliases {
        assert AliasOk(r, device, alias);
        var b := device.aliases[alias];
        if b.person in r.persons { NotBlankIn(r.persons.Keys, b.person); }
        if b.profile in r.profiles { NotBlankIn(r.profiles.Keys, b.profile); }
      }
    }
  }

  lemma NotBlankIn(ids: set<string>, id: string)
    requires id in ids && forall i | i in ids :: IsRegistryID(i)
    ensures !IsBlank(id) && id != ""
  {
    RegistryIdsAreNotBlank(id);
  }

  /** The chain that starts at a person and a profile, on any registry whatever. */
  ghost predicate Chained(r: Registry, c: ResolvedContext) {
    && c.personID in r.persons && c.person == r.persons[c.personID]
    && c.profileID in r.profiles && c.profile == r.profiles[c.profileID]
    && c.modelID == c.profile.model && c.modelID in r.models && c.model == r.models[c.modelID]
    && c.backendID == c.model.backend && c.backendID in r.backends && c.backend == r.backends[c.backendID]
  }

  /** The route starts at `personID` and `profileID`: a non-empty override wins over the default. */
  ghost predicate StartsAt(r: Registry, deviceID: string, alias: string, personID: string, profileID: string) {
    && deviceID in r.devices && (alias == "" || alias in r.devices[deviceID].aliases)
    && var device := r.devices[deviceID];
       && (if alias != "" && device.aliases[alias].person != "" then personID == device.aliases[alias].person
           else personID == device.defaultPerson)
       && (if alias != "" && device.aliases[alias].profile != "" then profileID == device.aliases[alias].profile
           else profileID == device.defaultProfile)
  }

  /** On any registry: a route without a start fails by the device or the alias. */
  lemma ResolveNeedsStart(r: Registry, deviceID: string, alias: string)
    ensures Resolve(r, deviceID, alias) == Err(DeviceNotFound) <==> deviceID !in r.devices
    ensures Resolve(r, deviceID, alias) == Err(AliasNotFound)
       <==> deviceID in r.devices && alias != "" && alias !in r.devices[deviceID].aliases
  {
  }

  /** On any registry: a route with a start ends at its first missing link, or returns the whole chain. */
  lemma ResolveFollowsChain(r: Registry, deviceID: string, alias: string, personID: string, profileID: string)
    requires StartsAt(r, deviceID, alias, personID, profileID)
    ensures var result := Resolve(r, deviceID, alias);
      && (personID == "" ==> result == Err(MissingDefaultPerson))
      && (personID != "" && profileID == "" ==> result == Err(MissingDefaultProfile))
      && (personID != "" && profileID != "" && personID !in r.persons ==> result == Err(PersonNotFound))
      && (personID != "" && profileID != "" && personID in r.persons && profileID !in r.profiles ==>
            result == Err(ProfileNotFound))
      && (result == Err(ModelNotFound) ==> profileID in r.profiles && r.profiles[profileID].model !in r.models)
      && (result == Err(BackendNotFound) ==>
            && profileID in r.profiles && r.profiles[profileID].model in r.models
            && r.models[r.profiles[profileID].model].backend !in r.backends)
    ensures Resolve(r, deviceID, alias).Ok? ==>
              var c := Resolve(r, deviceID, alias).value;
              && c.deviceID == deviceID && c.alias == alias && c.personID == personID && c.profileID == profileID
              && Chained(r, c)
  {
  }

  /** Every ID of the context names the entry beside it, and the profile belongs to the person. */
  ghost predicate ContextOk(r: Registry, c: ResolvedContext) {
    && c.deviceID in r.devices
    && c.personID in r.persons && c.person == r.persons[c.personID]
    && c.profileID in r.profiles && c.profile == r.profiles[c.profileID] && c.profile.person == c.personID
    && c.modelID == c.profile.model && c.modelID in r.models && c.model == r.models[c.modelID]
    && c.backendID == c.model.backend && c.backendID in r.backends && c.backend == r.backends[c.backendID]
  }

  function SampleDevice(): Device {
    Device("L", "p", "q", map["a" := AliasBinding(" ", "q")])
  }

  function SampleRegistry(): Registry {
    Registry(1, map["b" := BackendEntry("hermes", "x", "")], map["m" := ModelEntry("b", "n")],
             map["p" := Person("P")], map["q" := Profile("p", "m", "")], map["d" := SampleDevice()])
  }

  lemma NotBlankIfHead(s: string)
    requires s != "" && !IsSpace(s[0])
    ensures !IsBlank(s)
  {
    BlankIsAllSpace(s);
  }

  lemma SampleDeviceIsOk()
    ensures DeviceOk(SampleRegistry(), SampleDevice())
  {
    BlankIsAllSpace(" ");
    NotBlankIfHead("L");
    NotBlankIfHead("a");
    NotBlankIfHead("q");
    assert RouteOk(SampleRegistry(), "p", "q");
    assert AliasOk(SampleRegistry(), SampleDevice(), "a");
  }

  lemma SampleBackendsAndModels()
    ensures BackendsOk(SampleRegistry()) && ModelsOk(SampleRegistry())
  {
    NotBlankIfHead("x");
    NotBlankIfHead("n");
  }

  lemma SamplePersonsAndProfiles()
    ensures PersonsOk(SampleRegistry()) && ProfilesOk(SampleRegistry())
  {
    NotBlankIfHead("P");
  }

  lemma SampleDevices()
    ensures TopOk(SampleRegistry()) && DevicesOk(SampleRegistry())
  {
    var r := SampleRegistry();
    SampleDeviceIsOk();
    assert "b" in r.backends && "m" in r.models && "p" in r.persons && "q" in r.profiles && "d" in r.devices;
  }

  /** Being well-formed does not make every declared alias resolve: a person of one space is no override. */
  lemma WellFormedAliasCanFail()
    ensures WellFormed(SampleRegistry()) && "a" in SampleDevice().aliases
    ensures Resolve(SampleRegistry(), "d", "a") == Err(PersonNotFound)
  {
    SampleBackendsAndModels();
    SamplePersonsAndProfiles();
    SampleDevices();
    BlankIsAllSpace(" ");
    assert SampleRegistry().devices["d"] == SampleDevice();
    assert OnlySpace(SampleDevice().aliases["a"].person);
    ResolveOnWellFormed(SampleRegistry(), "d", "a");
  }
}
