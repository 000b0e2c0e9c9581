/** Which issues validation reports: for every entry and field of a registry, and nothing else. */
module ReportedIssues {
  import opened Text
  import opened Registry
  import opened RegistryValidation
  import Decimal

  // ---------- What is to be reported, field by field ----------

  ghost predicate TopReported(r: Registry, x: Issue) {
    || (r.schemaVersion != 1
        && x == Issue("schema_version", "unsupported_schema_version",
                      "schema_version must be 1, got " + Decimal.PrintInt(r.schemaVersion)))
    || (|r.backends| == 0 && x == Issue("backends", "missing_required", "backends must be present and non-empty"))
    || (|r.models| == 0 && x == Issue("models", "missing_required", "models must be present and non-empty"))
    || (|r.persons| == 0 && x == Issue("persons", "missing_required", "persons must be present and non-empty"))
    || (|r.profiles| == 0 && x == Issue("profiles", "missing_required", "profiles must be present and non-empty"))
    || (|r.devices| == 0 && x == Issue("devices", "missing_required", "devices must be present and non-empty"))
  }

  /** An ID, at the path of its entry. */
  ghost predicate IdReported(path: string, id: string, x: Issue) {
    !IsRegistryID(id) && x == Issue(path, "invalid_id", "id " + Quote(id) + " must match [a-z0-9][a-z0-9_-]*")
  }

  ghost predicate BackendReported(id: string, b: BackendEntry, x: Issue) {
    var base := "backends." + id;
    || IdReported(base, id, x)
    || (IsBlank(b.kind) && x == Issue(base + ".type", "missing_required", "type is required"))
    || (!IsBlank(b.kind) && b.kind != "hermes"
        && x == Issue(base + ".type", "unknown_backend_type", "backend type must be hermes"))
    || (b.kind == "hermes" && IsBlank(b.endpoint)
        && x == Issue(base + ".endpoint", "missing_required", "endpoint is required for hermes backend"))
    || (b.apiKeyRef != "" && !IsSecretRef(b.apiKeyRef)
        && x == Issue(base + ".api_key_ref", "invalid_secret_ref",
                      "api_key_ref must be empty or match env:[A-Z_][A-Z0-9_]*"))
  }

  ghost predicate ModelReported(r: Registry, id: string, m: ModelEntry, x: Issue) {
    var base := "models." + id;
    || IdReported(base, id, x)
    || (IsBlank(m.backend) && x == Issue(base + ".backend", "missing_required", "backend is required"))
    || (!IsBlank(m.backend) && m.backend !in r.backends
        && x == Issue(base + ".backend", "missing_reference", "backend reference not found"))
    || (IsBlank(m.name) && x == Issue(base + ".name", "missing_required", "name is required"))
  }

  ghost predicate PersonReported(id: string, p: Person, x: Issue) {
    var base := "persons." + id;
    || IdReported(base, id, x)
    || (IsBlank(p.displayName)
        && x == Issue(base + ".display_name", "missing_required", "display_name is required"))
  }

  ghost predicate ProfileReported(r: Registry, id: string, p: Profile, x: Issue) {
    var base := "profiles." + id;
    || IdReported(base, id, x)
    || (IsBlank(p.person) && x == Issue(base + ".person", "missing_required", "person is required"))
    || (!IsBlank(p.person) && p.person !in r.persons
        && x == Issue(base + ".person", "missing_reference", "person reference not found"))
    || (IsBlank(p.model) && x == Issue(base + ".model", "missing_required", "model is required"))
    || (!IsBlank(p.model) && p.model !in r.models
        && x == Issue(base + ".model", "missing_reference", "model reference not found"))
  }

  /** A person and a profile that both exist, but the profile is another person's. */
  ghost predicate PairReported(r: Registry, path: string, personID: string, profileID: string, x: Issue) {
    && !IsBlank(personID) && personID in r.persons && !IsBlank(profileID) && profileID in r.profiles
    && r.profiles[profileID].person != personID
    && x == Issue(path, "incompatible_person_profile",
                  "profile " + Quote(profileID) + " belongs to person " + Quote(r.profiles[profileID].person)
                  + ", not " + Quote(personID))
  }

  ghost predicate DeviceReported(r: Registry, id: string, d: Device, x: Issue) {
    var base := "devices." + id;
    || IdReported(base, id, x)
    || (IsBlank(d.deviceLabel) && x == Issue(base + ".label", "missing_required", "label is required"))
    || (IsBlank(d.defaultPerson)
        && x == Issue(base + ".default_person", "missing_required", "default_person is required"))
    || (!IsBlank(d.defaultPerson) && d.defaultPerson !in r.persons
        && x == Issue(base + ".default_person", "missing_reference", "default_person reference not found"))
    || (IsBlank(d.defaultProfile)
        && x == Issue(base + ".default_profile", "missing_required", "default_profile is required"))
    || (!IsBlank(d.defaultProfile) && d.defaultProfile !in r.profiles
        && x == Issue(base + ".default_profile", "missing_reference", "default_profile reference not found"))
    || PairReported(r, base + ".default_profile", d.defaultPerson, d.defaultProfile, x)
  }

  /** A blank override stands for the default of the device. */
  ghost predicate AliasReported(r: Registry, id: string, d: Device, alias: string, b: AliasBinding, x: Issue) {
    var path := "devices." + id + ".aliases." + alias;
    || (IsBlank(alias) && x == Issue(path, "invalid_id", "alias key must not be empty"))
    || (IsBlank(b.person) && IsBlank(b.profile)
        && x == Issue(path, "missing_required", "alias binding requires person or profile"))
    || (!IsBlank(b.person) && b.person !in r.persons
        && x == Issue(path + ".person", "missing_reference", "person reference not found"))
    || (!IsBlank(b.profile) && b.profile !in r.profiles
        && x == Issue(path + ".profile", "missing_reference", "profile reference not found"))
    || PairReported(r, path + ".profile", if IsBlank(b.person) then d.defaultPerson else b.person,
                    if IsBlank(b.profile) then d.defaultProfile else b.profile, x)
  }

  ghost predicate AnyBackendReported(r: Registry, x: Issue) {
    exists id :: id in r.backends && BackendReported(id, r.backends[id], x)
  }

  ghost predicate AnyModelReported(r: Registry, x: Issue) {
    exists id :: id in r.models && ModelReported(r, id, r.models[id], x)
  }

  ghost predicate AnyPersonReported(r: Registry, x: Issue) {
    exists id :: id in r.persons && PersonReported(id, r.persons[id], x)
  }

  ghost predicate AnyProfileReported(r: Registry, x: Issue) {
    exists id :: id in r.profiles && ProfileReported(r, id, r.profiles[id], x)
  }

  ghost predicate AnyDeviceReported(r: Registry, x: Issue) {
    || (exists id :: id in r.devices && DeviceReported(r, id, r.devices[id], x))
    || (exists id, alias :: id in r.devices && alias in r.devices[id].aliases
                            && AliasReported(r, id, r.devices[id], alias, r.devices[id].aliases[alias], x))
  }

  ghost predicate Reported(r: Registry, x: Issue) {
    || TopReported(r, x)
    || AnyBackendReported(r, x)
    || AnyModelReported(r, x)
    || AnyPersonReported(r, x)
    || AnyProfileReported(r, x)
    || AnyDeviceReported(r, x)
  }

  // ---------- Entry by entry ----------

  lemma TopHas(r: Registry, x: Issue)
    ensures x in TopIssues(r) <==> TopReported(r, x)
  {
  }

  lemma IdHas(path: string, id: string, x: Issue)
    ensures x in IdIssues(path, id) <==> IdReported(path, id, x)
  {
  }

  /** The two texts that a field name makes. */
  lemma FieldTexts(base: string, field: string)
    requires field in {"backend", "person", "model", "default_person", "default_profile"}
    ensures field == "backend" ==> base + "." + field == base + ".backend"
    ensures field == "person" ==> base + "." + field == base + ".person"
    ensures field == "model" ==> base + "." + field == base + ".model"
    ensures field == "default_person" ==> base + "." + field == base + ".default_person"
    ensures field == "default_profile" ==> base + "." + field == base + ".default_profile"
  {
    assert base + "." + field == base + ("." + field);
  }

  lemma RequiredTexts(field: string)
    requires field in {"backend", "person", "model", "default_person", "default_profile"}
    ensures field == "backend" ==> field + " is required" == "backend is required"
    ensures field == "person" ==> field + " is required" == "person is required"
    ensures field == "model" ==> field + " is required" == "model is required"
    ensures field == "default_person" ==> field + " is required" == "default_person is required"
    ensures field == "default_profile" ==> field + " is required" == "default_profile is required"
  {
  }

  lemma NotFoundTexts(field: string)
    requires field in {"backend", "person"}
    ensures field == "backend" ==> field + " reference not found" == "backend reference not found"
    ensures field == "person" ==> field + " reference not found" == "person reference not found"
  {
  }

  lemma ModelNotFoundText()
    ensures "model" + " reference not found" == "model reference not found"
  {
  }

  lemma DefaultNotFoundTexts(field: string)
    requires field in {"default_person", "default_profile"}
    ensures field == "default_person" ==> field + " reference not found" == "default_person reference not found"
    ensures field == "default_profile" ==> field + " reference not found" == "default_profile reference not found"
  {
  }

  lemma BackendHas(id: string, b: BackendEntry, x: Issue)
    ensures x in BackendIssues(id, b) <==> BackendReported(id, b, x)
  {
    IdHas("backends." + id, id, x);
  }

  lemma ModelHas(r: Registry, id: string, m: ModelEntry, x: Issue)
    ensures x in ModelIssues(r, id, m) <==> ModelReported(r, id, m, x)
  {
    IdHas("models." + id, id, x);
    FieldTexts("models." + id, "backend");
    RequiredTexts("backend");
    NotFoundTexts("backend");
  }

  lemma PersonHas(id: string, p: Person, x: Issue)
    ensures x in PersonIssues(id, p) <==> PersonReported(id, p, x)
  {
    IdHas("persons." + id, id, x);
  }

  lemma ProfileHas(r: Registry, id: string, p: Profile, x: Issue)
    ensures x in ProfileIssues(r, id, p) <==> ProfileReported(r, id, p, x)
  {
    IdHas("profiles." + id, id, x);
    FieldTexts("profiles." + id, "person");
    RequiredTexts("person");
    NotFoundTexts("person");
    FieldTexts("profiles." + id, "model");
    RequiredTexts("model");
    ModelNotFoundText();
  }

  lemma DeviceHas(r: Registry, id: string, d: Device, x: Issue)
    ensures x in DeviceIssues(r, id, d) <==> DeviceReported(r, id, d, x)
  {
    IdHas("devices." + id, id, x);
    FieldTexts("devices." + id, "default_person");
    RequiredTexts("default_person");
    DefaultNotFoundTexts("default_person");
    FieldTexts("devices." + id, "default_profile");
    RequiredTexts("default_profile");
    DefaultNotFoundTexts("default_profile");
  }

  lemma AliasHas(r: Registry, id: string, d: Device, alias: string, b: AliasBinding, x: Issue)
    ensures x in AliasIssues(r, "devices." + id, d, alias, b) <==> AliasReported(r, id, d, alias, b, x)
  {
  }

  // ---------- The whole registry ----------

  lemma {:induction false} TotalHas(keys: set<string>, f: string -> Bag, x: Issue)
    ensures x in Total(keys, f) <==> exists k :: k in keys && x in f(k)
  {
    if keys != {} {
      var k :| k in keys;
      TotalPick(keys, f, k);
      TotalHas(keys - {k}, f, x);
    }
  }

  lemma BackendsHave(r: Registry, x: Issue)
    ensures x in Total(r.backends.Keys, Bags(BackendLists(r)))
       <==> AnyBackendReported(r, x)
  {
    TotalHas(r.backends.Keys, Bags(BackendLists(r)), x);
    forall id | id in r.backends { BackendHas(id, r.backends[id], x); }
  }

  lemma ModelsHave(r: Registry, x: Issue)
    ensures x in Total(r.models.Keys, Bags(ModelLists(r)))
       <==> AnyModelReported(r, x)
  {
    TotalHas(r.models.Keys, Bags(ModelLists(r)), x);
    forall id | id in r.models { ModelHas(r, id, r.models[id], x); }
  }

  lemma PersonsHave(r: Registry, x: Issue)
    ensures x in Total(r.persons.Keys, Bags(PersonLists(r)))
       <==> AnyPersonReported(r, x)
  {
    TotalHas(r.persons.Keys, Bags(PersonLists(r)), x);
    forall id | id in r.persons { PersonHas(id, r.persons[id], x); }
  }

  lemma ProfilesHave(r: Registry, x: Issue)
    ensures x in Total(r.profiles.Keys, Bags(ProfileLists(r)))
       <==> AnyProfileReported(r, x)
  {
    TotalHas(r.profiles.Keys, Bags(ProfileLists(r)), x);
    forall id | id in r.profiles { ProfileHas(r, id, r.profiles[id], x); }
  }

  lemma AliasesHave(r: Registry, id: string, d: Device, x: Issue)
    ensures x in Total(d.aliases.Keys, AliasBags(r, "devices." + id, d))
       <==> exists alias :: alias in d.aliases && AliasReported(r, id, d, alias, d.aliases[alias], x)
  {
    TotalHas(d.aliases.Keys, AliasBags(r, "devices." + id, d), x);
    forall alias | alias in d.aliases { AliasHas(r, id, d, alias, d.aliases[alias], x); }
  }

  lemma DeviceBagHas(r: Registry, id: string, d: Device, x: Issue)
    ensures x in DeviceBag(r, id, d)
       <==> DeviceReported(r, id, d, x)
            || exists alias :: alias in d.aliases && AliasReported(r, id, d, alias, d.aliases[alias], x)
  {
    DeviceHas(r, id, d, x);
    AliasesHave(r, id, d, x);
  }

  lemma DevicesHave(r: Registry, x: Issue)
    ensures x in Total(r.devices.Keys, DeviceBags(r)) <==> AnyDeviceReported(r, x)
  {
    TotalHas(r.devices.Keys, DeviceBags(r), x);
    forall id | id in r.devices { DeviceBagHas(r, id, r.devices[id], x); }
  }

  lemma InSum(a: Bag, b: Bag, c: Bag, d: Bag, e: Bag, f: Bag, x: Issue)
    ensures x in a + b + c + d + e + f <==> x in a || x in b || x in c || x in d || x in e || x in f
  {
  }

  lemma InAllIssues(r: Registry, x: Issue)
    ensures x in AllIssues(r)
       <==> || x in TopIssues(r)
            || x in Total(r.backends.Keys, Bags(BackendLists(r))) || x in Total(r.models.Keys, Bags(ModelLists(r)))
            || x in Total(r.persons.Keys, Bags(PersonLists(r))) || x in Total(r.profiles.Keys, Bags(ProfileLists(r)))
            || x in Total(r.devices.Keys, DeviceBags(r))
  {
    InSum(multiset(TopIssues(r)), Total(r.backends.Keys, Bags(BackendLists(r))),
          Total(r.models.Keys, Bags(ModelLists(r))), Total(r.persons.Keys, Bags(PersonLists(r))),
          Total(r.profiles.Keys, Bags(ProfileLists(r))), Total(r.devices.Keys, DeviceBags(r)), x);
  }

  /** Validation reports an issue exactly if some entry of the registry gives reason for it. */
  lemma ReportedExactly(r: Registry, x: Issue)
    ensures x in AllIssues(r) <==> Reported(r, x)
  {
    InAllIssues(r, x);
    TopHas(r, x);
    BackendsHave(r, x);
    ModelsHave(r, x);
    PersonsHave(r, x);
    ProfilesHave(r, x);
    DevicesHave(r, x);
  }

  /** So the list that Validate returns holds these issues and no others. */
  lemma ListHoldsReported(r: Registry, issues: seq<Issue>)
    requires multiset(issues) == AllIssues(r)
    ensures forall x :: x in issues <==> Reported(r, x)
  {
    forall x ensures x in issues <==> Reported(r, x) {
      ReportedExactly(r, x);
      assert x in issues <==> x in multiset(issues);
    }
  }
}
