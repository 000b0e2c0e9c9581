/** What each kind of cleanup rule does to a text, and how the default trace begins. */
module CleanupRules {
  import opened Text
  import opened Cleanup
  import opened CleanupDefaults

  // ---------- One rule ----------

  /** A trim cuts white space, and nothing else, off both ends, until none is left there. */
  lemma TrimRuleCuts(rule: Rule, input: string) returns (before: string, after: string)
    requires rule.kind == TrimKind
    ensures input == before + ApplyRule(rule, input) + after
    ensures AllSpace(before) && AllSpace(after) && Trimmed(ApplyRule(rule, input))
  {
    var lo, hi := TrimSpaceSplits(input);
    before, after := input[..lo], input[hi..];
  }

  /** Every stretch of white space is a single space between two words. */
  ghost predicate SingleSpaced(s: string) {
    forall k | 0 <= k < |s| && IsSpace(s[k]) ::
      s[k] == ' ' && 0 < k < |s| - 1 && !IsSpace(s[k - 1]) && !IsSpace(s[k + 1])
  }

  lemma {:induction false} SentenceIsSingleSpaced(ws: seq<string>)
    requires AreWords(ws)
    ensures SingleSpaced(Sentence(ws))
  {
    if |ws| == 1 {
      assert IsWord(ws[0]);
    } else if |ws| > 1 {
      var rest, w := Sentence(ws[1..]), ws[0];
      SentenceIsSingleSpaced(ws[1..]);
      SentenceIsTrimmed(ws[1..]);
      assert IsWord(w) && Sentence(ws) == w + " " + rest;
      assert forall k | 0 <= k < |w| :: Sentence(ws)[k] == w[k];
      forall k | 0 <= k < |Sentence(ws)| && IsSpace(Sentence(ws)[k])
        ensures Sentence(ws)[k] == ' ' && 0 < k < |Sentence(ws)| - 1
        ensures !IsSpace(Sentence(ws)[k - 1]) && !IsSpace(Sentence(ws)[k + 1])
      {
        if k > |w| {
          assert Sentence(ws)[k] == rest[k - |w| - 1];
          assert Sentence(ws)[k - 1] == rest[k - |w| - 2];
          assert Sentence(ws)[k + 1] == rest[k - |w|];
        }
      }
    }
  }

  /** A collapse keeps the words and puts a single space between them. */
  lemma CollapseRuleJoins(rule: Rule, input: string)
    requires rule.kind == CollapseKind
    ensures Fields(ApplyRule(rule, input)) == Fields(input) && SingleSpaced(ApplyRule(rule, input))
  {
    FieldsAreWords(input);
    FieldsOfSentence(Fields(input));
    SentenceIsSingleSpaced(Fields(input));
  }

  /** A prefix phrase goes exactly if the text is that phrase followed by white space or by nothing. */
  lemma PrefixRuleCuts(rule: Rule, input: string, rest: string)
    requires rule.kind == RemovePrefixKind
    ensures input == rule.pattern + rest && (rest == "" || IsSpace(rest[0])) ==> ApplyRule(rule, input) == rest
    ensures ApplyRule(rule, input) != input ==>
              var r := ApplyRule(rule, input); input == rule.pattern + r && (r == "" || IsSpace(r[0]))
  {
    if input == rule.pattern + rest {
      assert input[|rule.pattern|..] == rest;
    }
  }

  /** A suffix phrase goes exactly if the text is that phrase preceded by white space or by nothing. */
  lemma SuffixRuleCuts(rule: Rule, input: string, rest: string)
    requires rule.kind == RemoveSuffixKind
    ensures input == rest + rule.pattern && (rest == "" || IsSpace(rest[|rest| - 1])) ==> ApplyRule(rule, input) == rest
    ensures ApplyRule(rule, input) != input ==>
              var r := ApplyRule(rule, input); input == r + rule.pattern && (r == "" || IsSpace(r[|r| - 1]))
  {
    if input == rest + rule.pattern {
      assert input[..|input| - |rule.pattern|] == rest;
    }
  }

  /** A replacement cuts the text at each occurrence of the phrase, from the left, and joins the parts anew. */
  lemma ReplaceRuleJoins(rule: Rule, input: string) returns (parts: seq<string>)
    requires rule.kind == ReplaceKind && rule.pattern != ""
    ensures parts != [] && Join(parts, rule.pattern) == input && Join(parts, rule.replacement) == ApplyRule(rule, input)
    ensures forall k | 0 <= k < |parts| :: !Contains(parts[k], rule.pattern)
    ensures parts == Split(input, rule.pattern)
  {
    parts := Split(input, rule.pattern);
    JoinSplit(input, rule.pattern);
    ReplaceIsSplitJoin(input, rule.pattern, rule.replacement);
    SplitPartsLackSeparator(input, rule.pattern);
  }

  // ---------- The default trace ----------

  lemma TrimChangesIff(s: string)
    ensures TrimSpace(s) != s <==> !Trimmed(s)
  {
    TrimIsTrimmed(s);
    if Trimmed(s) { TrimmedIsFixed(s); }
  }

  /** The ID of an entry is that of a rule, or of the fallback. */
  lemma EntriesOfTheRest(rules: seq<Rule>, input: string, id: string)
    requires forall i | 0 <= i < |rules| :: rules[i].id != id
    ensures forall k | 0 <= k < |Entries(rules, input)| :: Entries(rules, input)[k].id != id
  {
    PositionsExplain(rules, input, 0);
    forall k | 0 <= k < |Entries(rules, input)| ensures Entries(rules, input)[k].id != id {
      assert Explains(rules, Positions(rules, input, 0)[k], 0, Entries(rules, input)[k]);
    }
  }

  /** The entries of valid rules begin with the first rule exactly if that rule changes the text. */
  lemma FirstEntryIff(rules: seq<Rule>, input: string)
    requires ValidRules(rules) && rules != [] && rules[0].id != FALLBACK_ID
    ensures var t, after := Traced(rules, input).applied, ApplyRule(rules[0], input);
      && (after != input ==> t != [] && t[0] == AppliedRule(rules[0].id, input, after))
      && (after == input ==> forall k | 0 <= k < |t| :: t[k].id != rules[0].id)
  {
    if ApplyRule(rules[0], input) == input {
      assert Entries(rules, input) == Entries(rules[1..], input);
      EntriesOfTheRest(rules[1..], input, rules[0].id);
    }
  }

  /** The default trace begins with the trim exactly if the utterance has white space at an end; else it has no trim. */
  lemma DefaultTraceStartsWithTrim(s: string)
    ensures var t := Traced(DefaultRules(), s).applied;
      && (!Trimmed(s) ==> t != [] && t[0] == AppliedRule("trim_space_initial", s, TrimSpace(s)))
      && (Trimmed(s) ==> forall k | 0 <= k < |t| :: t[k].id != "trim_space_initial")
  {
    var rules := DefaultRules();
    DefaultRulesAreValid();
    FirstDefaultRule(rules);
    TrimChangesIff(s);
    FirstEntryIff(rules, s);
  }

  lemma FirstDefaultRule(rules: seq<Rule>)
    requires rules == DefaultRules()
    ensures rules != [] && rules[0] == Rule("trim_space_initial", TrimKind, "", "") && rules[0].id != FALLBACK_ID
  {
    assert |"trim_space_initial"| != |FALLBACK_ID|;
  }
}
