/** The rule interpreter of internal/cleanup: rules, their validation, and the trace. */
module Cleanup {
  import opened Text
  import opened Wrappers

  /** A rule kind is a string in the program, so an unknown kind can be written down. */
  datatype RuleKind =
    | TrimKind
    | CollapseKind
    | RemovePrefixKind
    | RemoveSuffixKind
    | ReplaceKind
    | OtherKind(name: string)

  datatype Rule = Rule(id: string, kind: RuleKind, pattern: string, replacement: string)

  datatype AppliedRule = AppliedRule(id: string, before: string, after: string)

  datatype CleanResult = CleanResult(original: string, cleaned: string, applied: seq<AppliedRule>)

  datatype Cleaner = Cleaner(rules: seq<Rule>)

  datatype RuleError =
    | IdRequired(index: nat)
    | DuplicateId(id: string)
    | PatternRequired(id: string)
    | ReplacementNotAllowed(id: string)
    | UnknownKind(id: string, name: string)

  const FALLBACK_ID := "fallback_original"

  // ---------- Validation ----------

  ghost predicate UniqueIds(rules: seq<Rule>) {
    forall i, j | 0 <= i < j < |rules| :: rules[i].id != rules[j].id
  }

  predicate ShapeOk(rule: Rule) {
    match rule.kind
    case TrimKind => rule.replacement == ""
    case CollapseKind => rule.replacement == ""
    case RemovePrefixKind => rule.pattern != "" && rule.replacement == ""
    case RemoveSuffixKind => rule.pattern != "" && rule.replacement == ""
    case ReplaceKind => rule.pattern != ""
    case OtherKind(_) => false
  }

  ghost predicate ValidRules(rules: seq<Rule>) {
    && UniqueIds(rules)
    && forall i | 0 <= i < |rules| :: rules[i].id != "" && ShapeOk(rules[i])
  }

  /** The one complaint that rule `i` deserves, all rules before it being fine; checks come in this order. */
  ghost predicate Complaint(rules: seq<Rule>, i: nat, e: RuleError)
    requires i < |rules|
  {
    var rule := rules[i];
    if rule.id == "" then e == IdRequired(i)
    else if exists j :: 0 <= j < i && rules[j].id == rule.id then e == DuplicateId(rule.id)
    else match rule.kind
      case OtherKind(name) => e == UnknownKind(rule.id, name)
      case ReplaceKind => rule.pattern == "" && e == PatternRequired(rule.id)
      case _ =>
        if (rule.kind.RemovePrefixKind? || rule.kind.RemoveSuffixKind?) && rule.pattern == "" then
          e == PatternRequired(rule.id)
        else rule.replacement != "" && e == ReplacementNotAllowed(rule.id)
  }

  /** A cleaner is made exactly from well-formed rules; otherwise the first bad rule is reported. */
  method New(rules: seq<Rule>) returns (r: Result<Cleaner, RuleError>)
    ensures r.Ok? <==> ValidRules(rules)
    ensures r.Ok? ==> r.value.rules == rules
    ensures r.Err? ==> exists i :: 0 <= i < |rules| && ValidRules(rules[..i]) && Complaint(rules, i, r.error)
  {
    var seen: set<string> := {};
    var copied: seq<Rule> := [];
    for i := 0 to |rules|
      invariant copied == rules[..i]
      invariant ValidRules(rules[..i])
      invariant forall id :: id in seen <==> exists j :: 0 <= j < i && rules[j].id == id
    {
      var rule := rules[i];
      assert forall k | 0 <= k < i :: rules[..i][k] == rules[k];
      if rule.id == "" {
        return Err(IdRequired(i));
      }
      if rule.id in seen {
        return Err(DuplicateId(rule.id));
      }
      seen := seen + {rule.id};
      match rule.kind {
        case TrimKind | CollapseKind =>
          if rule.replacement != "" {
            return Err(ReplacementNotAllowed(rule.id));
          }
        case RemovePrefixKind | RemoveSuffixKind =>
          if rule.pattern == "" {
            return Err(PatternRequired(rule.id));
          }
          if rule.replacement != "" {
            return Err(ReplacementNotAllowed(rule.id));
          }
        case ReplaceKind =>
          if rule.pattern == "" {
            return Err(PatternRequired(rule.id));
          }
        case OtherKind(name) =>
          return Err(UnknownKind(rule.id, name));
      }
      copied := copied + [rule];
      assert rules[..i + 1] == rules[..i] + [rule];
    }
    assert rules[..|rules|] == rules;
    r := Ok(Cleaner(copied));
  }

  // ---------- Applying rules ----------

  function Collapse(s: string): string {
    Sentence(Fields(s))
  }

  predicate HasPrefixPhrase(input: string, phrase: string) {
    phrase <= input && (|input| == |phrase| || IsSpace(input[|phrase|]))
  }

  predicate HasSuffixPhrase(input: string, phrase: string) {
    && |phrase| <= |input|
    && input[|input| - |phrase|..] == phrase
    && (|input| == |phrase| || IsSpace(input[|input| - |phrase| - 1]))
  }

  function ApplyRule(rule: Rule, input: string): string {
    match rule.kind
    case TrimKind => TrimSpace(input)
    case CollapseKind => Collapse(input)
    case RemovePrefixKind =>
      if HasPrefixPhrase(input, rule.pattern) then input[|rule.pattern|..] else input
    case RemoveSuffixKind =>
      if HasSuffixPhrase(input, rule.pattern) then input[..|input| - |rule.pattern|] else input
    case ReplaceKind => ReplaceAll(input, rule.pattern, rule.replacement)
    case OtherKind(_) => input
  }

  /** The text after all rules, in declaration order. */
  function Run(rules: seq<Rule>, input: string): string {
    if rules == [] then input else Run(rules[1..], ApplyRule(rules[0], input))
  }

  /** The entry of one rule, if it changes the text. */
  function Entry(rule: Rule, input: string): seq<AppliedRule> {
    var after := ApplyRule(rule, input);
    if after != input then [AppliedRule(rule.id, input, after)] else []
  }

  /** The entries of the rules that change the text. */
  function Entries(rules: seq<Rule>, input: string): seq<AppliedRule> {
    if rules == [] then [] else Entry(rules[0], input) + Entries(rules[1..], ApplyRule(rules[0], input))
  }

  predicate FallsBack(rules: seq<Rule>, input: string) {
    Run(rules, input) == "" && !IsBlank(input)
  }

  /** What CleanWithTrace computes, as a function. */
  function Traced(rules: seq<Rule>, input: string): CleanResult {
    if FallsBack(rules, input) then
      var fallback := Collapse(TrimSpace(input));
      CleanResult(input, fallback, Entries(rules, input) + [AppliedRule(FALLBACK_ID, "", fallback)])
    else
      CleanResult(input, Run(rules, input), Entries(rules, input))
  }

  lemma UnfoldAt(rules: seq<Rule>, i: nat, current: string, applied: seq<AppliedRule>)
    requires i < |rules|
    ensures Run(rules[i..], current) == Run(rules[i + 1..], ApplyRule(rules[i], current))
    ensures applied + Entries(rules[i..], current)
         == applied + Entry(rules[i], current) + Entries(rules[i + 1..], ApplyRule(rules[i], current))
  {
    assert rules[i..][1..] == rules[i + 1..];
  }

  method CleanWithTrace(c: Cleaner, input: string) returns (result: CleanResult)
    ensures result == Traced(c.rules, input)
  {
    var current := input;
    var applied: seq<AppliedRule> := [];
    assert c.rules[0..] == c.rules;
    for i := 0 to |c.rules|
      invariant Run(c.rules[i..], current) == Run(c.rules, input)
      invariant applied + Entries(c.rules[i..], current) == Entries(c.rules, input)
    {
      var rule := c.rules[i];
      var before := current;
      UnfoldAt(c.rules, i, current, applied);
      ghost var entry := Entry(rule, current);
      current := ApplyRule(rule, current);
      if current != before {
        applied := applied + [AppliedRule(rule.id, before, current)];
      } else {
        assert applied + entry == applied;
      }
    }
    assert current == Run(c.rules, input) && applied == Entries(c.rules, input);
    if current == "" && TrimSpace(input) != "" {
      var fallback := Collapse(TrimSpace(input));
      applied := applied + [AppliedRule(FALLBACK_ID, current, fallback)];
      current := fallback;
    }
    result := CleanResult(input, current, applied);
  }

  // ---------- What the trace says ----------

  /** A chain of changes leading from one text to another, each changing the text. */
  ghost predicate Path(from: string, applied: seq<AppliedRule>, to: string)
    decreases |applied|
  {
    if applied == [] then from == to
    else applied[0].before == from != applied[0].after && Path(applied[0].after, applied[1..], to)
  }

  lemma {:induction false} PathExtend(from: string, applied: seq<AppliedRule>, mid: string, last: AppliedRule)
    requires Path(from, applied, mid) && last.before == mid != last.after
    ensures Path(from, applied + [last], last.after)
    decreases |applied|
  {
    if applied == [] {
      assert (applied + [last])[1..] == [];
    } else {
      PathExtend(applied[0].after, applied[1..], mid, last);
      assert (applied + [last])[1..] == applied[1..] + [last];
    }
  }

  lemma {:induction false} EntriesArePath(rules: seq<Rule>, input: string)
    ensures Path(input, Entries(rules, input), Run(rules, input))
  {
    if rules != [] {
      var after := ApplyRule(rules[0], input);
      EntriesArePath(rules[1..], after);
      if after != input {
        assert Entries(rules, input)[1..] == Entries(rules[1..], after);
      } else {
        assert Entries(rules, input) == Entries(rules[1..], after);
      }
    }
  }

  lemma FallbackIsNotBlank(input: string)
    requires !IsBlank(input)
    ensures Collapse(TrimSpace(input)) != "" && !IsBlank(Collapse(TrimSpace(input)))
  {
    BlankHasNoFields(input);
    FieldsOfTrim(input);
    FieldsAreWords(input);
    SentenceIsTrimmed(Fields(input));
    TrimmedIsFixed(Sentence(Fields(input)));
  }

  /** The trace is a gapless path from the original to the cleaned text, without idle entries. */
  lemma TraceIsPath(rules: seq<Rule>, input: string)
    ensures var t := Traced(rules, input); t.original == input && Path(input, t.applied, t.cleaned)
  {
    EntriesArePath(rules, input);
    if FallsBack(rules, input) {
      FallbackIsNotBlank(input);
      PathExtend(input, Entries(rules, input), "", Traced(rules, input).applied[|Entries(rules, input)|]);
    }
  }

  /** The positions, counted from `from`, of the rules that change the text. */
  ghost function Positions(rules: seq<Rule>, input: string, from: nat): seq<nat> {
    if rules == [] then []
    else (if Entry(rules[0], input) != [] then [from] else [])
         + Positions(rules[1..], ApplyRule(rules[0], input), from + 1)
  }

  /** Entry `e` is the work of rule number `p - from`. */
  ghost predicate Explains(rules: seq<Rule>, p: nat, from: nat, e: AppliedRule) {
    && from <= p < from + |rules|
    && rules[p - from].id == e.id
    && ApplyRule(rules[p - from], e.before) == e.after
  }

  ghost predicate Increasing(ps: seq<nat>) {
    forall j, k | 0 <= j < k < |ps| :: ps[j] < ps[k]
  }

  lemma {:induction false} PositionsExplain(rules: seq<Rule>, input: string, from: nat)
    ensures |Positions(rules, input, from)| == |Entries(rules, input)|
    ensures forall k | 0 <= k < |Entries(rules, input)| ::
              Explains(rules, Positions(rules, input, from)[k], from, Entries(rules, input)[k])
    ensures Increasing(Positions(rules, input, from))
  {
    if rules != [] {
      var after := ApplyRule(rules[0], input);
      var ps, es := Positions(rules[1..], after, from + 1), Entries(rules[1..], after);
      PositionsExplain(rules[1..], after, from + 1);
      forall k | 0 <= k < |es| ensures Explains(rules, ps[k], from, es[k]) {
        assert Explains(rules[1..], ps[k], from + 1, es[k]);
      }
      if after != input {
        assert Positions(rules, input, from) == [from] + ps;
        assert Entries(rules, input) == [AppliedRule(rules[0].id, input, after)] + es;
      } else {
        assert Positions(rules, input, from) == ps;
        assert Entries(rules, input) == es;
      }
    }
  }

  /** Every rule entry comes from a rule of its own, and the entries follow declaration order. */
  lemma TraceFollowsDeclarationOrder(rules: seq<Rule>, input: string) returns (ps: seq<nat>)
    ensures var t := Traced(rules, input);
      && |t.applied| == |ps| + (if FallsBack(rules, input) then 1 else 0)
      && Increasing(ps)
      && (forall k | 0 <= k < |ps| :: Explains(rules, ps[k], 0, t.applied[k]))
  {
    PositionsExplain(rules, input, 0);
    ps := Positions(rules, input, 0);
  }

  /** The fallback entry starts from the empty text and is never the first entry. */
  lemma FallbackComesLast(rules: seq<Rule>, input: string)
    requires FallsBack(rules, input)
    ensures var t := Traced(rules, input);
      && |t.applied| >= 2
      && t.applied[|t.applied| - 1] == AppliedRule(FALLBACK_ID, "", Sentence(Fields(input)))
      && t.applied[|t.applied| - 2].after == ""
  {
    EntriesArePath(rules, input);
    FieldsOfTrim(input);
    PathEnds(input, Entries(rules, input), "");
    assert TrimSpace("") == "";
  }

  lemma {:induction false} PathEnds(from: string, applied: seq<AppliedRule>, to: string)
    requires Path(from, applied, to)
    ensures if applied == [] then from == to else applied[|applied| - 1].after == to
    decreases |applied|
  {
    if applied != [] {
      PathEnds(applied[0].after, applied[1..], to);
    }
  }

  // ---------- Replaying the trace ----------

  ghost function IdsOf(entries: seq<AppliedRule>): set<string> {
    set k | 0 <= k < |entries| :: entries[k].id
  }

  /** The rules with an ID in `ids`, in declaration order. */
  ghost function Select(rules: seq<Rule>, ids: set<string>): seq<Rule> {
    if rules == [] then []
    else (if rules[0].id in ids then [rules[0]] else []) + Select(rules[1..], ids)
  }

  lemma {:induction false} EntryIdsAreRuleIds(rules: seq<Rule>, input: string)
    ensures forall id | id in IdsOf(Entries(rules, input)) :: exists i :: 0 <= i < |rules| && rules[i].id == id
  {
    forall id | id in IdsOf(Entries(rules, input))
      ensures exists i :: 0 <= i < |rules| && rules[i].id == id
    {
      PositionsExplain(rules, input, 0);
      var k :| 0 <= k < |Entries(rules, input)| && Entries(rules, input)[k].id == id;
      assert Explains(rules, Positions(rules, input, 0)[k], 0, Entries(rules, input)[k]);
    }
  }

  lemma {:induction false} ReplaySelected(rules: seq<Rule>, input: string, ids: set<string>)
    requires UniqueIds(rules)
    requires forall i | 0 <= i < |rules| :: rules[i].id in ids <==> rules[i].id in IdsOf(Entries(rules, input))
    ensures Run(Select(rules, ids), input) == Run(rules, input)
  {
    if rules != [] {
      var r, after := rules[0], ApplyRule(rules[0], input);
      var rest := Entries(rules[1..], after);
      EntryIdsAreRuleIds(rules[1..], after);
      assert r.id !in IdsOf(rest);
      IdsOfConcat(Entry(r, input), rest);
      forall i | 0 <= i < |rules[1..]|
        ensures rules[1..][i].id in ids <==> rules[1..][i].id in IdsOf(rest)
      {
        assert rules[1..][i] == rules[i + 1];
        assert r.id != rules[i + 1].id;
      }
      ReplaySelected(rules[1..], after, ids);
      assert after != input <==> r.id in IdsOf(Entry(r, input)) by {
        if after != input { assert Entry(r, input)[0].id == r.id; }
      }
      if after != input {
        assert Select(rules, ids)[0] == r && Select(rules, ids)[1..] == Select(rules[1..], ids);
      } else {
        assert Select(rules, ids) == Select(rules[1..], ids);
      }
    }
  }

  lemma IdsOfConcat(a: seq<AppliedRule>, b: seq<AppliedRule>)
    ensures IdsOf(a + b) == IdsOf(a) + IdsOf(b)
  {
    assert forall k | 0 <= k < |a| :: (a + b)[k] == a[k];
    assert forall k | 0 <= k < |b| :: (a + b)[|a| + k] == b[k];
  }

  /** Rules that leave no entry contribute nothing: running only the traced ones gives the same text. */
  lemma ReplayTracedRules(rules: seq<Rule>, input: string)
    requires ValidRules(rules)
    ensures Run(Select(rules, IdsOf(Entries(rules, input))), input) == Run(rules, input)
  {
    ReplaySelected(rules, input, IdsOf(Entries(rules, input)));
  }
}
