/** Registry.Validate: collecting issues over maps in any order, and sorting them. */
module RegistryValidation {
  import opened Text
  import opened Wrappers
  import opened Registry
  import Decimal

  datatype Issue = Issue(path: string, code: string, message: string)

  // ---------- The order of issues ----------

  /** Go's < on strings. */
  predicate StrLess(a: string, b: string) {
    b != "" && (a == "" || a[0] < b[0] || (a[0] == b[0] && StrLess(a[1..], b[1..])))
  }

  predicate IssueLess(a: Issue, b: Issue) {
    if a.path != b.path then StrLess(a.path, b.path)
    else if a.code != b.code then StrLess(a.code, b.code)
    else StrLess(a.message, b.message)
  }

  lemma {:induction false} StrLessTotal(a: string, b: string)
    ensures !(StrLess(a, b) && StrLess(b, a))
    ensures StrLess(a, b) || StrLess(b, a) <==> a != b
  {
    if a != "" && b != "" && a[0] == b[0] {
      StrLessTotal(a[1..], b[1..]);
      assert a == [a[0]] + a[1..] && b == [b[0]] + b[1..];
    }
  }

  lemma {:induction false} StrLessTransitive(a: string, b: string, c: string)
    requires StrLess(a, b) && StrLess(b, c)
    ensures StrLess(a, c)
  {
    if a != "" && a[0] == b[0] == c[0] {
      StrLessTransitive(a[1..], b[1..], c[1..]);
    }
  }

  lemma IssueLessTotal(a: Issue, b: Issue)
    ensures !(IssueLess(a, b) && IssueLess(b, a))
    ensures IssueLess(a, b) || IssueLess(b, a) <==> a != b
  {
    StrLessTotal(a.path, b.path);
    StrLessTotal(a.code, b.code);
    StrLessTotal(a.message, b.message);
  }

  lemma IssueLessTransitive(a: Issue, b: Issue, c: Issue)
    requires IssueLess(a, b) && IssueLess(b, c)
    ensures IssueLess(a, c)
  {
    StrLessTotal(a.path, b.path);
    StrLessTotal(b.path, c.path);
    StrLessTotal(a.code, b.code);
    StrLessTotal(b.code, c.code);
    if a.path == b.path == c.path {
      if a.code == b.code == c.code {
        StrLessTransitive(a.message, b.message, c.message);
      } else if a.code != b.code && b.code != c.code {
        StrLessTransitive(a.code, b.code, c.code);
        StrLessTotal(a.code, c.code);
      }
    } else if a.path != b.path && b.path != c.path {
      StrLessTransitive(a.path, b.path, c.path);
      StrLessTotal(a.path, c.path);
    }
  }

  /** The strings agree up to `k`, where `a` ends or has the smaller code point. */
  ghost predicate FirstDifference(a: string, b: string, k: nat) {
    && k <= |a| && k < |b| && a[..k] == b[..k]
    && (k < |a| ==> a[k] < b[k])
  }

  /** The order of strings is that of their first difference, a proper prefix coming first. */
  lemma {:induction false} StrLessIff(a: string, b: string)
    ensures StrLess(a, b) <==> exists k: nat :: FirstDifference(a, b, k)
  {
    if b != "" && a == "" {
      assert FirstDifference(a, b, 0);
    } else if b != "" && a[0] < b[0] {
      assert FirstDifference(a, b, 0);
    } else if b != "" && a[0] == b[0] {
      StrLessIff(a[1..], b[1..]);
      if k: nat :| FirstDifference(a[1..], b[1..], k) {
        assert a[..k + 1] == [a[0]] + a[1..][..k] && b[..k + 1] == [b[0]] + b[1..][..k];
        assert FirstDifference(a, b, k + 1);
      }
      if k: nat :| FirstDifference(a, b, k) {
        assert k > 0;
        assert a[1..][..k - 1] == a[..k][1..] && b[1..][..k - 1] == b[..k][1..];
        assert FirstDifference(a[1..], b[1..], k - 1);
      }
    } else {
      forall k: nat | k <= |a| && k < |b| ensures !FirstDifference(a, b, k) {
        if k > 0 { assert a[..k][0] == a[0] && b[..k][0] == b[0]; }
      }
    }
  }

  /** Issues are ordered by path; on one path by code; under one code by message. */
  lemma IssueLessIff(a: Issue, b: Issue)
    ensures IssueLess(a, b)
       <==> || (exists k: nat :: FirstDifference(a.path, b.path, k))
            || (a.path == b.path && exists k: nat :: FirstDifference(a.code, b.code, k))
            || (a.path == b.path && a.code == b.code && exists k: nat :: FirstDifference(a.message, b.message, k))
  {
    StrLessIff(a.path, b.path);
    StrLessIff(a.code, b.code);
    StrLessIff(a.message, b.message);
    StrLessTotal(a.path, b.path);
    StrLessTotal(a.code, b.code);
  }

  ghost predicate Sorted(issues: seq<Issue>) {
    forall i, j | 0 <= i < j < |issues| :: !IssueLess(issues[j], issues[i])
  }

  /** If `x` is not above the head of a sorted list, it is not above any element. */
  lemma BelowHead(x: Issue, s: seq<Issue>, k: nat)
    requires Sorted(s) && k < |s| && !IssueLess(s[0], x)
    ensures !IssueLess(s[k], x)
  {
    IssueLessTotal(x, s[0]);
    IssueLessTotal(s[k], s[0]);
    if IssueLess(s[k], x) && x != s[0] {
      IssueLessTransitive(s[k], x, s[0]);
    }
  }

  lemma SortedCons(x: Issue, s: seq<Issue>)
    requires Sorted(s) && forall k | 0 <= k < |s| :: !IssueLess(s[k], x)
    ensures Sorted([x] + s)
  {
  }

  function Insert(x: Issue, s: seq<Issue>): (r: seq<Issue>)
    requires Sorted(s)
    ensures Sorted(r) && multiset(r) == multiset(s) + multiset{x}
  {
    if s == [] then [x]
    else if IssueLess(s[0], x) then
      InsertedAboveHead(x, s, Insert(x, s[1..]));
      [s[0]] + Insert(x, s[1..])
    else
      assert Sorted([x] + s) by {
        forall k | 0 <= k < |s| ensures !IssueLess(s[k], x) { BelowHead(x, s, k); }
        SortedCons(x, s);
      }
      [x] + s
  }

  lemma InsertedAboveHead(x: Issue, s: seq<Issue>, rest: seq<Issue>)
    requires s != [] && Sorted(s) && IssueLess(s[0], x)
    requires Sorted(rest) && multiset(rest) == multiset(s[1..]) + multiset{x}
    ensures Sorted([s[0]] + rest) && multiset([s[0]] + rest) == multiset(s) + multiset{x}
  {
    IssueLessTotal(s[0], x);
    forall k | 0 <= k < |rest| ensures !IssueLess(rest[k], s[0]) {
      assert rest[k] in multiset(rest);
      assert rest[k] == x || rest[k] in multiset(s[1..]);
      assert rest[k] == x || exists j :: 0 <= j < |s[1..]| && s[1..][j] == rest[k];
    }
    SortedCons(s[0], rest);
    assert s == [s[0]] + s[1..];
  }

  /** A sorted arrangement, as sort.Slice leaves one behind. */
  function SortIssues(s: seq<Issue>): (r: seq<Issue>)
    ensures Sorted(r) && multiset(r) == multiset(s)
  {
    if s == [] then []
    else
      assert s == [s[0]] + s[1..];
      Insert(s[0], SortIssues(s[1..]))
  }

  lemma HeadIsLeast(a: seq<Issue>, x: Issue)
    requires Sorted(a) && a != [] && x in multiset(a)
    ensures !IssueLess(x, a[0])
  {
    IssueLessTotal(x, x);
  }

  lemma BagOfTail(a: seq<Issue>)
    requires a != []
    ensures multiset(a[1..]) == multiset(a) - multiset{a[0]}
  {
    assert a == [a[0]] + a[1..];
  }

  /** There is only one sorted arrangement of a bag of issues. */
  lemma {:induction false} SortedIsUnique(a: seq<Issue>, b: seq<Issue>)
    requires Sorted(a) && Sorted(b) && multiset(a) == multiset(b)
    ensures a == b
  {
    assert |a| == |multiset(a)| == |multiset(b)| == |b|;
    if a != [] {
      assert a[0] in multiset(a) && b[0] in multiset(b);
      HeadIsLeast(a, b[0]);
      HeadIsLeast(b, a[0]);
      IssueLessTotal(a[0], b[0]);
      BagOfTail(a);
      BagOfTail(b);
      SortedIsUnique(a[1..], b[1..]);
      assert a == [a[0]] + a[1..] && b == [b[0]] + b[1..];
    }
  }

  // ---------- The issues of one entry ----------

  function Quote(s: string): string {
    "\"" + s + "\""
  }

  function When(c: bool, path: string, code: string, message: string): seq<Issue> {
    if c then [Issue(path, code, message)] else []
  }

  function TopIssues(r: Registry): seq<Issue> {
    When(r.schemaVersion != 1, "schema_version", "unsupported_schema_version",
         "schema_version must be 1, got " + Decimal.PrintInt(r.schemaVersion))
    + When(r.backends == map[], "backends", "missing_required", "backends must be present and non-empty")
    + When(r.models == map[], "models", "missing_required", "models must be present and non-empty")
    + When(r.persons == map[], "persons", "missing_required", "persons must be present and non-empty")
    + When(r.profiles == map[], "profiles", "missing_required", "profiles must be present and non-empty")
    + When(r.devices == map[], "devices", "missing_required", "devices must be present and non-empty")
  }

  function IdIssues(path: string, id: string): seq<Issue> {
    When(!IsRegistryID(id), path, "invalid_id", "id " + Quote(id) + " must match [a-z0-9][a-z0-9_-]*")
  }

  /** A required reference: missing when blank, dangling when it names nothing. */
  function RefIssues(path: string, field: string, ref: string, known: bool): seq<Issue> {
    if IsBlank(ref) then [Issue(path + "." + field, "missing_required", field + " is required")]
    else When(!known, path + "." + field, "missing_reference", field + " reference not found")
  }

  function BackendIssues(id: string, b: BackendEntry): seq<Issue> {
    var base := "backends." + id;
    IdIssues(base, id)
    + (if IsBlank(b.kind) then [Issue(base + ".type", "missing_required", "type is required")]
       else When(b.kind != "hermes", base + ".type", "unknown_backend_type", "backend type must be hermes"))
    + When(b.kind == "hermes" && IsBlank(b.endpoint), base + ".endpoint", "missing_required",
           "endpoint is required for hermes backend")
    + When(b.apiKeyRef != "" && !IsSecretRef(b.apiKeyRef), base + ".api_key_ref", "invalid_secret_ref",
           "api_key_ref must be empty or match env:[A-Z_][A-Z0-9_]*")
  }

  function ModelIssues(r: Registry, id: string, m: ModelEntry): seq<Issue> {
    var base := "models." + id;
    IdIssues(base, id)
    + RefIssues(base, "backend", m.backend, m.backend in r.backends)
    + When(IsBlank(m.name), base + ".name", "missing_required", "name is required")
  }

  function PersonIssues(id: string, p: Person): seq<Issue> {
    var base := "persons." + id;
    IdIssues(base, id)
    + When(IsBlank(p.displayName), base + ".display_name", "missing_required", "display_name is required")
  }

  function ProfileIssues(r: Registry, id: string, p: Profile): seq<Issue> {
    var base := "profiles." + id;
    IdIssues(base, id)
    + RefIssues(base, "person", p.person, p.person in r.persons)
    + RefIssues(base, "model", p.model, p.model in r.models)
  }

  /** validateRoutePersonProfile. */
  function RouteIssues(r: Registry, path: string, personID: string, profileID: string): seq<Issue>
    requires profileID in r.profiles
  {
    var owner := r.profiles[profileID].person;
    When(owner != personID, path, "incompatible_person_profile",
         "profile " + Quote(profileID) + " belongs to person " + Quote(owner) + ", not " + Quote(personID))
  }

  predicate Found(s: string, ids: set<string>) {
    !IsBlank(s) && s in ids
  }

  /** The issues of a device apart from its aliases. */
  function DeviceIssues(r: Registry, id: string, d: Device): seq<Issue> {
    var base := "devices." + id;
    IdIssues(base, id)
    + When(IsBlank(d.deviceLabel), base + ".label", "missing_required", "label is required")
    + RefIssues(base, "default_person", d.defaultPerson, d.defaultPerson in r.persons)
    + RefIssues(base, "default_profile", d.defaultProfile, d.defaultProfile in r.profiles)
    + (if Found(d.defaultPerson, r.persons.Keys) && Found(d.defaultProfile, r.profiles.Keys)
       then RouteIssues(r, base + ".default_profile", d.defaultPerson, d.defaultProfile) else [])
  }

  function BindingIssues(path: string, alias: string, b: AliasBinding): seq<Issue> {
    When(IsBlank(alias), path, "invalid_id", "alias key must not be empty")
    + When(IsBlank(b.person) && IsBlank(b.profile), path, "missing_required",
           "alias binding requires person or profile")
  }

  function OverrideIssues(r: Registry, path: string, b: AliasBinding): seq<Issue> {
    When(!IsBlank(b.person) && b.person !in r.persons, path + ".person", "missing_reference",
         "person reference not found")
    + When(!IsBlank(b.profile) && b.profile !in r.profiles, path + ".profile", "missing_reference",
           "profile reference not found")
  }

  function AliasIssues(r: Registry, base: string, d: Device, alias: string, b: AliasBinding): seq<Issue> {
    var path := base + ".aliases." + alias;
    var personID, profileID := OrElse(b.person, d.defaultPerson), OrElse(b.profile, d.defaultProfile);
    BindingIssues(path, alias, b)
    + OverrideIssues(r, path, b)
    + (if Found(personID, r.persons.Keys) && Found(profileID, r.profiles.Keys)
       then RouteIssues(r, path + ".profile", personID, profileID) else [])
  }

  // ---------- Bags over maps ----------

  type Bag = multiset<Issue>

  /** A bag per key from a list per key. */
  ghost function Bags(lists: string -> seq<Issue>): string -> Bag {
    (key: string) => multiset(lists(key))
  }

  /** The sum of a bag per key, over a set of keys. */
  ghost function Total(keys: set<string>, f: string -> Bag): Bag {
    if keys == {} then multiset{} else
      var k :| k in keys;
      f(k) + Total(keys - {k}, f)
  }

  /** The sum does not depend on which key is taken first. */
  lemma {:induction false} TotalPick(keys: set<string>, f: string -> Bag, k: string)
    requires k in keys
    ensures Total(keys, f) == f(k) + Total(keys - {k}, f)
    decreases keys
  {
    var j :| j in keys && Total(keys, f) == f(j) + Total(keys - {j}, f);
    if j != k {
      TotalPick(keys - {j}, f, k);
      TotalPick(keys - {k}, f, j);
      assert keys - {j} - {k} == keys - {k} - {j};
    }
  }

  lemma {:induction false} TotalEmptyIff(keys: set<string>, f: string -> Bag)
    ensures Total(keys, f) == multiset{} <==> forall k | k in keys :: f(k) == multiset{}
  {
    if keys != {} {
      var k :| k in keys;
      TotalPick(keys, f, k);
      TotalEmptyIff(keys - {k}, f);
    }
  }

  function BackendLists(r: Registry): string -> seq<Issue> {
    (id: string) => if id in r.backends then BackendIssues(id, r.backends[id]) else []
  }

  function ModelLists(r: Registry): string -> seq<Issue> {
    (id: string) => if id in r.models then ModelIssues(r, id, r.models[id]) else []
  }

  function PersonLists(r: Registry): string -> seq<Issue> {
    (id: string) => if id in r.persons then PersonIssues(id, r.persons[id]) else []
  }

  function ProfileLists(r: Registry): string -> seq<Issue> {
    (id: string) => if id in r.profiles then ProfileIssues(r, id, r.profiles[id]) else []
  }

  ghost function AliasBags(r: Registry, base: string, d: Device): string -> Bag {
    (alias: string) =>
      if alias in d.aliases then multiset(AliasIssues(r, base, d, alias, d.aliases[alias])) else multiset{}
  }

  ghost function DeviceBag(r: Registry, id: string, d: Device): Bag {
    multiset(DeviceIssues(r, id, d)) + Total(d.aliases.Keys, AliasBags(r, "devices." + id, d))
  }

  ghost function DeviceBags(r: Registry): string -> Bag {
    (id: string) => if id in r.devices then DeviceBag(r, id, r.devices[id]) else multiset{}
  }

  /** Every issue of a registry, as often as it arises, in no order. */
  ghost function AllIssues(r: Registry): Bag {
    multiset(TopIssues(r))
    + Total(r.backends.Keys, Bags(BackendLists(r))) + Total(r.models.Keys, Bags(ModelLists(r)))
    + Total(r.persons.Keys, Bags(PersonLists(r))) + Total(r.profiles.Keys, Bags(ProfileLists(r)))
    + Total(r.devices.Keys, DeviceBags(r))
  }

  /** Moving the issues of one key from the sum to the list. */
  lemma TakeOne(issues: seq<Issue>, extra: seq<Issue>, keys: set<string>, f: string -> Bag, k: string)
    requires k in keys && f(k) == multiset(extra)
    ensures multiset(issues + extra) + Total(keys - {k}, f) == multiset(issues) + Total(keys, f)
  {
    TotalPick(keys, f, k);
  }

  lemma TakeBag(had: Bag, keys: set<string>, f: string -> Bag, k: string)
    requires k in keys
    ensures had + f(k) + Total(keys - {k}, f) == had + Total(keys, f)
  {
    TotalPick(keys, f, k);
  }

  // ---------- Validate ----------

  /** The loop over a map: the entries come in any order, and each adds its issues. */
  method Collect(keys: set<string>, lists: string -> seq<Issue>, before: seq<Issue>) returns (issues: seq<Issue>)
    ensures multiset(issues) == multiset(before) + Total(keys, Bags(lists))
  {
    issues := before;
    var left := keys;
    while left != {}
      invariant left <= keys
      invariant multiset(issues) + Total(left, Bags(lists)) == multiset(before) + Total(keys, Bags(lists))
      decreases left
    {
      var key :| key in left;
      TakeOne(issues, lists(key), left, Bags(lists), key);
      left := left - {key};
      issues := issues + lists(key);
    }
  }

  method CheckBackends(r: Registry, before: seq<Issue>) returns (issues: seq<Issue>)
    ensures multiset(issues) == multiset(before) + Total(r.backends.Keys, Bags(BackendLists(r)))
  {
    issues := Collect(r.backends.Keys, BackendLists(r), before);
  }

  method CheckModels(r: Registry, before: seq<Issue>) returns (issues: seq<Issue>)
    ensures multiset(issues) == multiset(before) + Total(r.models.Keys, Bags(ModelLists(r)))
  {
    issues := Collect(r.models.Keys, ModelLists(r), before);
  }

  method CheckPersons(r: Registry, before: seq<Issue>) returns (issues: seq<Issue>)
    ensures multiset(issues) == multiset(before) + Total(r.persons.Keys, Bags(PersonLists(r)))
  {
    issues := Collect(r.persons.Keys, PersonLists(r), before);
  }

  method CheckProfiles(r: Registry, before: seq<Issue>) returns (issues: seq<Issue>)
    ensures multiset(issues) == multiset(before) + Total(r.profiles.Keys, Bags(ProfileLists(r)))
  {
    issues := Collect(r.profiles.Keys, ProfileLists(r), before);
  }

  /** One override of an alias binding: a blank value inherits the default and its standing. */
  method CheckOverride(value: string, ids: set<string>, defaultID: string, defaultOK: bool, path: string,
                       message: string) returns (id: string, ok: bool, found: seq<Issue>)
    requires defaultOK == Found(defaultID, ids)
    ensures id == OrElse(value, defaultID) && ok == Found(id, ids)
    ensures found == When(!IsBlank(value) && value !in ids, path, "missing_reference", message)
  {
    found, id, ok := [], defaultID, defaultOK;
    if !IsBlank(value) {
      id, ok := value, value in ids;
      if !ok {
        found := [Issue(path, "missing_reference", message)];
      }
    }
  }

  method CheckBinding(path: string, alias: string, binding: AliasBinding) returns (found: seq<Issue>)
    ensures found == BindingIssues(path, alias, binding)
  {
    found := [];
    if TrimSpace(alias) == "" {
      found := [Issue(path, "invalid_id", "alias key must not be empty")];
    }
    if IsBlank(binding.person) && IsBlank(binding.profile) {
      found := found + [Issue(path, "missing_required", "alias binding requires person or profile")];
    }
  }

  /** The checks on one alias binding, given the flags kept for the device defaults. */
  method CheckAlias(r: Registry, base: string, device: Device, alias: string, binding: AliasBinding,
                    defaultPersonOK: bool, defaultProfileOK: bool) returns (found: seq<Issue>)
    requires defaultPersonOK == Found(device.defaultPerson, r.persons.Keys)
    requires defaultProfileOK == Found(device.defaultProfile, r.profiles.Keys)
    ensures found == AliasIssues(r, base, device, alias, binding)
  {
    var aliasPath := base + ".aliases." + alias;
    var named := CheckBinding(aliasPath, alias, binding);
    var personID, personOK, personIssues := CheckOverride(
      binding.person, r.persons.Keys, device.defaultPerson, defaultPersonOK, aliasPath + ".person",
      "person reference not found");
    var profileID, profileOK, profileIssues := CheckOverride(
      binding.profile, r.profiles.Keys, device.defaultProfile, defaultProfileOK, aliasPath + ".profile",
      "profile reference not found");
    var route: seq<Issue> := [];
    if personOK && profileOK {
      route := RouteIssues(r, aliasPath + ".profile", personID, profileID);
    }
    found := named + (personIssues + profileIssues) + route;
  }

  method CheckAliases(r: Registry, base: string, device: Device, defaultPersonOK: bool, defaultProfileOK: bool,
                      before: seq<Issue>) returns (issues: seq<Issue>)
    requires defaultPersonOK == Found(device.defaultPerson, r.persons.Keys)
    requires defaultProfileOK == Found(device.defaultProfile, r.profiles.Keys)
    ensures multiset(issues) == multiset(before) + Total(device.aliases.Keys, AliasBags(r, base, device))
  {
    issues := before;
    ghost var f := AliasBags(r, base, device);
    var aliases := device.aliases.Keys;
    while aliases != {}
      invariant aliases <= device.aliases.Keys
      invariant multiset(issues) + Total(aliases, f) == multiset(before) + Total(device.aliases.Keys, f)
      decreases aliases
    {
      var alias :| alias in aliases;
      TakeOne(issues, AliasIssues(r, base, device, alias, device.aliases[alias]), aliases, f, alias);
      aliases := aliases - {alias};
      var found := CheckAlias(r, base, device, alias, device.aliases[alias], defaultPersonOK, defaultProfileOK);
      issues := issues + found;
    }
  }

  method CheckDevice(r: Registry, id: string, device: Device, before: seq<Issue>) returns (issues: seq<Issue>)
    ensures multiset(issues) == multiset(before) + DeviceBag(r, id, device)
  {
    var defaultPersonOK := Found(device.defaultPerson, r.persons.Keys);
    var defaultProfileOK := Found(device.defaultProfile, r.profiles.Keys);
    issues := before + DeviceIssues(r, id, device);
    issues := CheckAliases(r, "devices." + id, device, defaultPersonOK, defaultProfileOK, issues);
  }

  method CheckDevices(r: Registry, before: seq<Issue>) returns (issues: seq<Issue>)
    ensures multiset(issues) == multiset(before) + Total(r.devices.Keys, DeviceBags(r))
  {
    issues := before;
    ghost var f := DeviceBags(r);
    var ids := r.devices.Keys;
    while ids != {}
      invariant ids <= r.devices.Keys
      invariant multiset(issues) + Total(ids, f) == multiset(before) + Total(r.devices.Keys, f)
      decreases ids
    {
      var id :| id in ids;
      TakeBag(multiset(issues), ids, f, id);
      ids := ids - {id};
      issues := CheckDevice(r, id, r.devices[id], issues);
    }
  }

  const NIL_ISSUE := Issue("registry", "missing_required", "registry is required")

  /**
   Validate: the maps may be walked in any order, yet the list returned is the one sorted
   arrangement of the bag of all issues. An empty list stands for the nil error.
   */
  method Validate(registry: Option<Registry>) returns (issues: seq<Issue>)
    ensures Sorted(issues)
    ensures multiset(issues) == if registry.None? then multiset{NIL_ISSUE} else AllIssues(registry.value)
  {
    if registry.None? {
      return [NIL_ISSUE];
    }
    var r := registry.value;
    issues := TopIssues(r);
    issues := CheckBackends(r, issues);
    issues := CheckModels(r, issues);
    issues := CheckPersons(r, issues);
    issues := CheckProfiles(r, issues);
    issues := CheckDevices(r, issues);
    issues := SortIssues(issues);
  }

  /** Two validations of the same registry return the same list, whatever orders they walked. */
  method ValidateTwice(registry: Option<Registry>) returns (first: seq<Issue>, second: seq<Issue>)
    ensures first == second
  {
    first := Validate(registry);
    second := Validate(registry);
    SortedIsUnique(first, second);
  }

  // ---------- No issue means well-formed ----------

  ghost predicate CleanBackends(r: Registry) {
    forall id | id in r.backends :: BackendIssues(id, r.backends[id]) == []
  }

  ghost predicate CleanModels(r: Registry) {
    forall id | id in r.models :: ModelIssues(r, id, r.models[id]) == []
  }

  ghost predicate CleanPersons(r: Registry) {
    forall id | id in r.persons :: PersonIssues(id, r.persons[id]) == []
  }

  ghost predicate CleanProfiles(r: Registry) {
    forall id | id in r.profiles :: ProfileIssues(r, id, r.profiles[id]) == []
  }

  ghost predicate CleanAliases(r: Registry, base: string, d: Device) {
    forall alias | alias in d.aliases :: AliasIssues(r, base, d, alias, d.aliases[alias]) == []
  }

  ghost predicate CleanDevices(r: Registry) {
    forall id | id in r.devices ::
      DeviceIssues(r, id, r.devices[id]) == [] && CleanAliases(r, "devices." + id, r.devices[id])
  }

  lemma EmptyBag(s: seq<Issue>)
    ensures multiset(s) == multiset{} <==> s == []
  {
    assert |multiset(s)| == |s|;
  }

  lemma BackendBagsEmptyIff(r: Registry)
    ensures Total(r.backends.Keys, Bags(BackendLists(r))) == multiset{} <==> CleanBackends(r)
  {
    TotalEmptyIff(r.backends.Keys, Bags(BackendLists(r)));
    forall id | id in r.backends { EmptyBag(BackendIssues(id, r.backends[id])); }
  }

  lemma ModelBagsEmptyIff(r: Registry)
    ensures Total(r.models.Keys, Bags(ModelLists(r))) == multiset{} <==> CleanModels(r)
  {
    TotalEmptyIff(r.models.Keys, Bags(ModelLists(r)));
    forall id | id in r.models { EmptyBag(ModelIssues(r, id, r.models[id])); }
  }

  lemma PersonBagsEmptyIff(r: Registry)
    ensures Total(r.persons.Keys, Bags(PersonLists(r))) == multiset{} <==> CleanPersons(r)
  {
    TotalEmptyIff(r.persons.Keys, Bags(PersonLists(r)));
    forall id | id in r.persons { EmptyBag(PersonIssues(id, r.persons[id])); }
  }

  lemma ProfileBagsEmptyIff(r: Registry)
    ensures Total(r.profiles.Keys, Bags(ProfileLists(r))) == multiset{} <==> CleanProfiles(r)
  {
    TotalEmptyIff(r.profiles.Keys, Bags(ProfileLists(r)));
    forall id | id in r.profiles { EmptyBag(ProfileIssues(r, id, r.profiles[id])); }
  }

  lemma AliasBagsEmptyIff(r: Registry, base: string, d: Device)
    ensures Total(d.aliases.Keys, AliasBags(r, base, d)) == multiset{} <==> CleanAliases(r, base, d)
  {
    TotalEmptyIff(d.aliases.Keys, AliasBags(r, base, d));
    forall alias | alias in d.aliases { EmptyBag(AliasIssues(r, base, d, alias, d.aliases[alias])); }
  }

  lemma DeviceBagEmptyIff(r: Registry, id: string, d: Device)
    ensures DeviceBag(r, id, d) == multiset{}
       <==> DeviceIssues(r, id, d) == [] && CleanAliases(r, "devices." + id, d)
  {
    EmptyBag(DeviceIssues(r, id, d));
    AliasBagsEmptyIff(r, "devices." + id, d);
  }

  lemma DeviceBagsEmptyIff(r: Registry)
    ensures Total(r.devices.Keys, DeviceBags(r)) == multiset{} <==> CleanDevices(r)
  {
    TotalEmptyIff(r.devices.Keys, DeviceBags(r));
    forall id | id in r.devices
      ensures DeviceBag(r, id, r.devices[id]) == multiset{}
         <==> DeviceIssues(r, id, r.devices[id]) == [] && CleanAliases(r, "devices." + id, r.devices[id])
    {
      DeviceBagEmptyIff(r, id, r.devices[id]);
    }
  }

  lemma BackendsOkIff(r: Registry)
    ensures CleanBackends(r) <==> BackendsOk(r)
  {
    BlankIsAllSpace("hermes");
    assert !IsSpace("hermes"[0]);
    forall id | id in r.backends
      ensures BackendIssues(id, r.backends[id]) == [] <==> IsRegistryID(id) && BackendOk(r.backends[id]) {}
  }

  lemma PersonsOkIff(r: Registry)
    ensures CleanPersons(r) <==> PersonsOk(r)
  {
    forall id | id in r.persons
      ensures PersonIssues(id, r.persons[id]) == [] <==> IsRegistryID(id) && !IsBlank(r.persons[id].displayName) {}
  }

  lemma RefOkIff(path: string, field: string, ref: string, ids: set<string>)
    requires forall id | id in ids :: IsRegistryID(id)
    ensures RefIssues(path, field, ref, ref in ids) == [] <==> ref in ids
    ensures Found(ref, ids) <==> ref in ids
  {
    if ref in ids {
      NotBlankIn(ids, ref);
    }
  }

  lemma ModelsOkIff(r: Registry)
    requires BackendsOk(r)
    ensures CleanModels(r) <==> ModelsOk(r)
  {
    forall id | id in r.models
      ensures ModelIssues(r, id, r.models[id]) == [] <==>
              IsRegistryID(id) && r.models[id].backend in r.backends && !IsBlank(r.models[id].name)
    {
      RefOkIff("models." + id, "backend", r.models[id].backend, r.backends.Keys);
    }
  }

  lemma ProfilesOkIff(r: Registry)
    requires PersonsOk(r) && ModelsOk(r)
    ensures CleanProfiles(r) <==> ProfilesOk(r)
  {
    forall id | id in r.profiles
      ensures ProfileIssues(r, id, r.profiles[id]) == [] <==>
              IsRegistryID(id) && r.profiles[id].person in r.persons && r.profiles[id].model in r.models
    {
      RefOkIff("profiles." + id, "person", r.profiles[id].person, r.persons.Keys);
      RefOkIff("profiles." + id, "model", r.profiles[id].model, r.models.Keys);
    }
  }

  lemma DeviceOkIff(r: Registry, id: string, d: Device)
    requires PersonsOk(r) && ProfilesOk(r)
    ensures DeviceIssues(r, id, d) == []
       <==> IsRegistryID(id) && !IsBlank(d.deviceLabel) && RouteOk(r, d.defaultPerson, d.defaultProfile)
  {
    RefOkIff("devices." + id, "default_person", d.defaultPerson, r.persons.Keys);
    RefOkIff("devices." + id, "default_profile", d.defaultProfile, r.profiles.Keys);
  }

  lemma AliasOkIff(r: Registry, base: string, d: Device, alias: string)
    requires PersonsOk(r) && ProfilesOk(r)
    requires alias in d.aliases && d.defaultPerson in r.persons && d.defaultProfile in r.profiles
    ensures AliasIssues(r, base, d, alias, d.aliases[alias]) == [] <==> AliasOk(r, d, alias)
  {
    var b := d.aliases[alias];
    RefOkIff("", "", OrElse(b.person, d.defaultPerson), r.persons.Keys);
    RefOkIff("", "", OrElse(b.profile, d.defaultProfile), r.profiles.Keys);
  }

  lemma DevicesOkIff(r: Registry)
    requires PersonsOk(r) && ProfilesOk(r)
    ensures CleanDevices(r) <==> DevicesOk(r)
  {
    forall id | id in r.devices
      ensures DeviceIssues(r, id, r.devices[id]) == [] && CleanAliases(r, "devices." + id, r.devices[id])
         <==> IsRegistryID(id) && DeviceOk(r, r.devices[id])
    {
      var d := r.devices[id];
      DeviceOkIff(r, id, d);
      if RouteOk(r, d.defaultPerson, d.defaultProfile) {
        forall alias | alias in d.aliases
          ensures AliasIssues(r, "devices." + id, d, alias, d.aliases[alias]) == [] <==> AliasOk(r, d, alias)
        {
          AliasOkIff(r, "devices." + id, d, alias);
        }
      }
    }
  }

  lemma TopOkIff(r: Registry)
    ensures TopIssues(r) == [] <==> TopOk(r)
  {
  }

  ghost predicate AllClean(r: Registry) {
    TopIssues(r) == [] && CleanBackends(r) && CleanModels(r) && CleanPersons(r) && CleanProfiles(r) && CleanDevices(r)
  }

  lemma AllIssuesEmptyIff(r: Registry)
    ensures AllIssues(r) == multiset{} <==> AllClean(r)
  {
    EmptyBag(TopIssues(r));
    BackendBagsEmptyIff(r);
    ModelBagsEmptyIff(r);
    PersonBagsEmptyIff(r);
    ProfileBagsEmptyIff(r);
    DeviceBagsEmptyIff(r);
  }

  lemma LowerSectionsIff(r: Registry)
    ensures CleanBackends(r) && CleanModels(r) && CleanPersons(r) <==> BackendsOk(r) && ModelsOk(r) && PersonsOk(r)
  {
    BackendsOkIff(r);
    PersonsOkIff(r);
    if BackendsOk(r) {
      ModelsOkIff(r);
    }
  }

  lemma UpperSectionsIff(r: Registry)
    requires BackendsOk(r) && ModelsOk(r) && PersonsOk(r)
    ensures CleanProfiles(r) && CleanDevices(r) <==> ProfilesOk(r) && DevicesOk(r)
  {
    ProfilesOkIff(r);
    if ProfilesOk(r) {
      DevicesOkIff(r);
    }
  }

  /** Validation finds nothing exactly on well-formed registries. */
  lemma NoIssuesIffWellFormed(r: Registry)
    ensures AllIssues(r) == multiset{} <==> WellFormed(r)
  {
    AllIssuesEmptyIff(r);
    TopOkIff(r);
    LowerSectionsIff(r);
    if BackendsOk(r) && ModelsOk(r) && PersonsOk(r) {
      UpperSectionsIff(r);
    }
  }
}
