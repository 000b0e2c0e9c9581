/** The default rules of internal/cleanup, and the word-list algorithm they amount to. */
module CleanupDefaults {
  import opened Text
  import opened Cleanup

  const TAIL := "пожалуйста"

  function DefaultRules(): seq<Rule> {
    [ Rule("trim_space_initial", TrimKind, "", ""),
      Rule("collapse_space_initial", CollapseKind, "", ""),
      Rule("remove_prefix_okey_hermes", RemovePrefixKind, "окей гермес", ""),
      Rule("trim_space_after_okey_hermes", TrimKind, "", ""),
      Rule("collapse_space_after_okey_hermes", CollapseKind, "", ""),
      Rule("remove_prefix_hey_hermes", RemovePrefixKind, "эй гермес", ""),
      Rule("trim_space_after_hey_hermes", TrimKind, "", ""),
      Rule("collapse_space_after_hey_hermes", CollapseKind, "", ""),
      Rule("remove_prefix_listen_hermes", RemovePrefixKind, "слушай гермес", ""),
      Rule("trim_space_after_listen_hermes", TrimKind, "", ""),
      Rule("collapse_space_after_listen_hermes", CollapseKind, "", ""),
      Rule("remove_prefix_hermes", RemovePrefixKind, "гермес", ""),
      Rule("trim_space_after_hermes", TrimKind, "", ""),
      Rule("collapse_space_after_hermes", CollapseKind, "", ""),
      Rule("remove_prefix_filler_nu", RemovePrefixKind, "ну", ""),
      Rule("trim_space_after_filler_nu", TrimKind, "", ""),
      Rule("collapse_space_after_filler_nu", CollapseKind, "", ""),
      Rule("remove_prefix_filler_ee", RemovePrefixKind, "ээ", ""),
      Rule("trim_space_after_filler_ee", TrimKind, "", ""),
      Rule("collapse_space_after_filler_ee", CollapseKind, "", ""),
      Rule("remove_prefix_filler_em", RemovePrefixKind, "эм", ""),
      Rule("trim_space_after_filler_em", TrimKind, "", ""),
      Rule("collapse_space_after_filler_em", CollapseKind, "", ""),
      Rule("remove_suffix_please", RemoveSuffixKind, TAIL, ""),
      Rule("trim_space_final", TrimKind, "", ""),
      Rule("collapse_space_final", CollapseKind, "", "") ]
  }

  /** Clean: the cleaned text under the default rules. */
  function Clean(input: string): string {
    Traced(DefaultRules(), input).cleaned
  }

  // ---------- The word-list algorithm ----------

  /** The wake phrases and fillers, as words, in the order they are looked for. */
  function Phrases(): seq<seq<string>> {
    [["окей", "гермес"], ["эй", "гермес"], ["слушай", "гермес"], ["гермес"], ["ну"], ["ээ"], ["эм"]]
  }

  function DropFront(ws: seq<string>, phrase: seq<string>): seq<string> {
    if phrase <= ws then ws[|phrase|..] else ws
  }

  function DropEach(ws: seq<string>, phrases: seq<seq<string>>): seq<string> {
    if phrases == [] then ws else DropEach(DropFront(ws, phrases[0]), phrases[1..])
  }

  function DropTail(ws: seq<string>): seq<string> {
    if ws != [] && ws[|ws| - 1] == TAIL then ws[..|ws| - 1] else ws
  }

  function Strip(ws: seq<string>): seq<string> {
    DropTail(DropEach(ws, Phrases()))
  }

  /** Drop each phrase at most once from the front, then one trailing word; keep all words if none remain. */
  function CleanWords(ws: seq<string>): seq<string> {
    if Strip(ws) == [] then ws else Strip(ws)
  }

  // ---------- Phrases in sentences are prefixes and suffixes in words ----------

  /** On a sentence, the boundary-checked prefix match is the prefix relation on words. */
  lemma PrefixPhraseIsWordPrefix(ws: seq<string>, ps: seq<string>)
    requires AreWords(ws) && AreWords(ps) && ps != []
    ensures HasPrefixPhrase(Sentence(ws), Sentence(ps)) <==> ps <= ws
    ensures ps <= ws ==> Fields(Sentence(ws)[|Sentence(ps)|..]) == ws[|ps|..]
  {
    var s, p := Sentence(ws), Sentence(ps);
    FieldsOfSentence(ws);
    FieldsOfSentence(ps);
    if HasPrefixPhrase(s, p) {
      var rest := s[|p|..];
      assert s == p + rest;
      FieldsConcat(p, rest);
      assert ws == ps + Fields(rest);
    }
    if ps <= ws {
      var qs := ws[|ps|..];
      assert ws == ps + qs;
      FieldsOfSentence(qs);
      if qs == [] {
        assert ws == ps && s[|p|..] == "";
      } else {
        JoinAppend(ps, qs, " ");
        assert s[|p|..] == " " + Sentence(qs);
        assert s[|p|..][1..] == Sentence(qs);
      }
    }
  }

  /** On a sentence, the boundary-checked suffix match of one word compares the last word. */
  lemma SuffixPhraseIsLastWord(ws: seq<string>, w: string)
    requires AreWords(ws) && IsWord(w)
    ensures HasSuffixPhrase(Sentence(ws), w) <==> ws != [] && ws[|ws| - 1] == w
    ensures ws != [] && ws[|ws| - 1] == w ==> Fields(Sentence(ws)[..|Sentence(ws)| - |w|]) == ws[..|ws| - 1]
  {
    var s := Sentence(ws);
    FieldsOfSentence(ws);
    FieldsOfWord(w);
    if HasSuffixPhrase(s, w) {
      var rest := s[..|s| - |w|];
      assert s == rest + w;
      FieldsConcat(rest, w);
      assert ws == Fields(rest) + [w];
    }
    if ws != [] && ws[|ws| - 1] == w {
      var qs := ws[..|ws| - 1];
      assert ws == qs + [w];
      FieldsOfSentence(qs);
      if qs == [] {
        assert s[..|s| - |w|] == "";
      } else {
        JoinAppend(qs, [w], " ");
        assert s[..|s| - |w|] == Sentence(qs) + " ";
        FieldsConcat(Sentence(qs), " ");
      }
    }
  }

  lemma TrimCollapse(s: string)
    ensures Collapse(TrimSpace(s)) == Sentence(Fields(s))
  {
    FieldsOfTrim(s);
  }

  // ---------- One group of default rules ----------

  lemma RunThree(rules: seq<Rule>, i: nat, s: string)
    requires i + 3 <= |rules| && rules[i + 1].kind == TrimKind && rules[i + 2].kind == CollapseKind
    ensures Run(rules[i..], s) == Run(rules[i + 3..], Sentence(Fields(ApplyRule(rules[i], s))))
  {
    assert rules[i..][1..] == rules[i + 1..];
    assert rules[i + 1..][1..] == rules[i + 2..];
    assert rules[i + 2..][1..] == rules[i + 3..];
    var t := ApplyRule(rules[i], s);
    assert Run(rules[i..], s) == Run(rules[i + 1..], t);
    assert Run(rules[i + 1..], t) == Run(rules[i + 2..], TrimSpace(t));
    assert Run(rules[i + 2..], TrimSpace(t)) == Run(rules[i + 3..], Collapse(TrimSpace(t)));
    TrimCollapse(t);
  }

  lemma PrefixGroup(rules: seq<Rule>, i: nat, ws: seq<string>, phrase: seq<string>)
    requires AreWords(ws) && AreWords(phrase) && phrase != []
    requires i + 3 <= |rules| && rules[i + 1].kind == TrimKind && rules[i + 2].kind == CollapseKind
    requires rules[i].kind == RemovePrefixKind && rules[i].pattern == Sentence(phrase)
    ensures Run(rules[i..], Sentence(ws)) == Run(rules[i + 3..], Sentence(DropFront(ws, phrase)))
    ensures AreWords(DropFront(ws, phrase))
  {
    RunThree(rules, i, Sentence(ws));
    PrefixPhraseIsWordPrefix(ws, phrase);
    FieldsOfSentence(ws);
  }

  lemma SuffixGroup(rules: seq<Rule>, i: nat, ws: seq<string>)
    requires AreWords(ws) && IsWord(TAIL)
    requires i + 3 == |rules| && rules[i + 1].kind == TrimKind && rules[i + 2].kind == CollapseKind
    requires rules[i].kind == RemoveSuffixKind && rules[i].pattern == TAIL
    ensures Run(rules[i..], Sentence(ws)) == Sentence(DropTail(ws))
    ensures AreWords(DropTail(ws))
  {
    RunThree(rules, i, Sentence(ws));
    SuffixPhraseIsLastWord(ws, TAIL);
    FieldsOfSentence(ws);
  }

  lemma PhrasesAreWords()
    ensures |Phrases()| == 7 && IsWord(TAIL)
    ensures forall k | 0 <= k < 7 :: AreWords(Phrases()[k]) && 1 <= |Phrases()[k]| <= 2
  {
  }

  /** Whether group `k` of the rules spells phrase `k`. */
  ghost predicate Spells(rules: seq<Rule>, phrases: seq<seq<string>>, k: nat)
    requires 4 + 3 * k < |rules| && k < |phrases|
  {
    && rules[2 + 3 * k].kind == RemovePrefixKind && rules[2 + 3 * k].pattern == Sentence(phrases[k])
    && rules[3 + 3 * k].kind == TrimKind && rules[4 + 3 * k].kind == CollapseKind
    && AreWords(phrases[k]) && phrases[k] != []
  }

  /** The outcome of the rules from group `k` on. */
  ghost function FromGroup(rules: seq<Rule>, k: nat, ws: seq<string>): string {
    if 2 + 3 * k <= |rules| then Run(rules[2 + 3 * k..], Sentence(ws)) else ""
  }

  /** If every step drops its phrase, all steps from `k` on drop the phrases from `k` on. */
  lemma {:induction false} StepsDropEach(f: (nat, seq<string>) -> string, phrases: seq<seq<string>>,
                                         ws: seq<string>, k: nat)
    requires AreWords(ws) && k <= |phrases|
    requires forall j: nat, v | j < |phrases| && AreWords(v) ::
               f(j, v) == f(j + 1, DropFront(v, phrases[j])) && AreWords(DropFront(v, phrases[j]))
    ensures f(k, ws) == f(|phrases|, DropEach(ws, phrases[k..])) && AreWords(DropEach(ws, phrases[k..]))
    decreases |phrases| - k
  {
    if k < |phrases| {
      StepsDropEach(f, phrases, DropFront(ws, phrases[k]), k + 1);
      DropEachUnfolds(ws, phrases, k);
    }
  }

  /** The prefix groups drop the phrases. */
  lemma PrefixGroups(rules: seq<Rule>, phrases: seq<seq<string>>, ws: seq<string>)
    requires AreWords(ws) && 2 + 3 * |phrases| <= |rules|
    requires forall j | 0 <= j < |phrases| :: Spells(rules, phrases, j)
    ensures FromGroup(rules, 0, ws) == FromGroup(rules, |phrases|, DropEach(ws, phrases))
    ensures AreWords(DropEach(ws, phrases))
  {
    var f := (k: nat, v: seq<string>) => FromGroup(rules, k, v);
    forall j: nat, v | j < |phrases| && AreWords(v)
      ensures f(j, v) == f(j + 1, DropFront(v, phrases[j])) && AreWords(DropFront(v, phrases[j]))
    {
      assert Spells(rules, phrases, j);
      PrefixGroup(rules, 2 + 3 * j, v, phrases[j]);
    }
    StepsDropEach(f, phrases, ws, 0);
    assert phrases[0..] == phrases;
  }

  ghost function Patterns(): seq<string> {
    ["окей гермес", "эй гермес", "слушай гермес", "гермес", "ну", "ээ", "эм"]
  }

  lemma PatternsSpellPhrases(k: nat)
    requires k < 7
    ensures Patterns()[k] == Sentence(Phrases()[k])
  {
    if k <= 2 {
      assert Phrases()[k][1..] == [Phrases()[k][1]];
      assert "окей" + " " + "гермес" == "окей гермес";
      assert "эй" + " " + "гермес" == "эй гермес";
      assert "слушай" + " " + "гермес" == "слушай гермес";
    }
  }

  lemma RulesCarryPatterns(rules: seq<Rule>)
    requires rules == DefaultRules()
    ensures forall k | 0 <= k < 7 ::
              && rules[2 + 3 * k].kind == RemovePrefixKind && rules[2 + 3 * k].pattern == Patterns()[k]
              && rules[3 + 3 * k].kind == TrimKind && rules[4 + 3 * k].kind == CollapseKind
  {
  }

  /** A rule list laid out like the default rules strips words. */
  lemma LaidOutRunIsStrip(rules: seq<Rule>, s: string)
    requires |rules| == 26 && rules[0].kind == TrimKind && rules[1].kind == CollapseKind
    requires forall k | 0 <= k < 7 :: Spells(rules, Phrases(), k)
    requires rules[23].kind == RemoveSuffixKind && rules[23].pattern == TAIL
    requires rules[24].kind == TrimKind && rules[25].kind == CollapseKind
    ensures Run(rules, s) == Sentence(Strip(Fields(s))) && AreWords(Strip(Fields(s)))
  {
    var ws := Fields(s);
    FieldsAreWords(s);
    assert rules[1..][1..] == rules[2..];
    assert Run(rules, s) == Run(rules[2..], Sentence(ws)) by { TrimCollapse(s); }
    PrefixGroups(rules, Phrases(), ws);
    PhrasesAreWords();
    SuffixGroup(rules, 23, DropEach(ws, Phrases()));
  }

  lemma DefaultRunIsStrip(s: string)
    ensures Run(DefaultRules(), s) == Sentence(Strip(Fields(s)))
    ensures AreWords(Strip(Fields(s)))
  {
    RulesCarryPatterns(DefaultRules());
    PhrasesAreWords();
    forall k | 0 <= k < 7 ensures Spells(DefaultRules(), Phrases(), k) { PatternsSpellPhrases(k); }
    LaidOutRunIsStrip(DefaultRules(), s);
  }

  /** For every utterance the default pipeline is the word-list algorithm. */
  lemma DefaultCleanIsWordList(s: string)
    ensures Clean(s) == Sentence(CleanWords(Fields(s)))
    ensures Fields(Clean(s)) == CleanWords(Fields(s))
    ensures FallsBack(DefaultRules(), s) <==> Fields(s) != [] && Strip(Fields(s)) == []
  {
    DefaultRunIsStrip(s);
    FieldsAreWords(s);
    SentenceIsTrimmed(Strip(Fields(s)));
    BlankHasNoFields(s);
    TrimCollapse(s);
    FieldsOfSentence(CleanWords(Fields(s)));
    if Fields(s) == [] {
      StripIsInfix([]);
    }
  }

  /** Default cleaning never turns a non-blank utterance into a blank one, nor the other way round. */
  lemma DefaultCleanKeepsBlankness(s: string)
    ensures IsBlank(Clean(s)) <==> IsBlank(s)
  {
    DefaultCleanIsWordList(s);
    BlankHasNoFields(s);
    BlankHasNoFields(Clean(s));
    StripIsInfix(Fields(s));
  }

  // ---------- How much is dropped ----------

  ghost predicate Infix(a: seq<string>, ws: seq<string>, slack: nat) {
    exists lo, hi :: 0 <= lo <= hi <= |ws| && a == ws[lo..hi] && |ws| - |a| <= slack
  }

  /** The most words that dropping each of the phrases once can remove. */
  ghost function TotalLength(phrases: seq<seq<string>>): nat {
    if phrases == [] then 0 else |phrases[0]| + TotalLength(phrases[1..])
  }

  lemma {:induction false} DropEachIsSuffix(ws: seq<string>, phrases: seq<seq<string>>) returns (n: nat)
    ensures n <= |ws| && DropEach(ws, phrases) == ws[n..] && n <= TotalLength(phrases)
  {
    n := 0;
    if phrases != [] {
      var v := DropFront(ws, phrases[0]);
      var m := DropEachIsSuffix(v, phrases[1..]);
      n := |ws| - |v| + m;
      assert v[m..] == ws[n..];
    }
  }

  lemma PhrasesTotal()
    ensures TotalLength(Phrases()) == 10
  {
    var p := Phrases();
    forall k | 0 <= k < 7 ensures TotalLength(p[k..]) == |p[k]| + TotalLength(p[k + 1..]) {
      assert p[k..][1..] == p[k + 1..];
    }
    assert p[7..] == [] && p[0..] == p;
  }

  lemma StripIsInfix(ws: seq<string>)
    ensures Infix(Strip(ws), ws, 11)
  {
    PhrasesTotal();
    var n := DropEachIsSuffix(ws, Phrases());
    var d := DropEach(ws, Phrases());
    var hi := n + |DropTail(d)|;
    assert Strip(ws) == ws[n..hi];
  }

  /** The output words are a contiguous stretch of the input words, at most 11 shorter. */
  lemma CleanedIsInfix(s: string)
    ensures Infix(Fields(Clean(s)), Fields(s), 11)
  {
    DefaultCleanIsWordList(s);
    StripIsInfix(Fields(s));
    assert Fields(s) == Fields(s)[0..|Fields(s)|];
  }

  // ---------- Repeated cleaning ----------

  function Iterate(f: string -> string, s: string, n: nat): string {
    if n == 0 then s else f(Iterate(f, s, n - 1))
  }

  /** Cleaning a cleaned text, on words. */
  lemma CleanAgain(s: string)
    ensures Clean(Clean(s)) == Sentence(CleanWords(CleanWords(Fields(s))))
    ensures Clean(s) == Sentence(CleanWords(Fields(s)))
    ensures Fields(Clean(s)) == CleanWords(Fields(s))
    ensures Fields(Clean(Clean(s))) == CleanWords(CleanWords(Fields(s)))
  {
    DefaultCleanIsWordList(s);
    DefaultCleanIsWordList(Clean(s));
  }

  lemma CleanWordsFixesOrShrinks(ws: seq<string>)
    ensures CleanWords(ws) == ws || |CleanWords(ws)| < |ws|
  {
    StripIsInfix(ws);
  }

  /** After one pass, a further pass changes nothing or removes at least one word. */
  lemma SecondPassFixesOrShrinks(s: string)
    ensures Clean(Clean(s)) == Clean(s) || |Fields(Clean(Clean(s)))| < |Fields(Clean(s))|
  {
    CleanAgain(s);
    CleanWordsFixesOrShrinks(CleanWords(Fields(s)));
  }

  ghost predicate FixesOrShrinks(f: string -> string, s: string) {
    f(f(s)) == f(s) || |Fields(f(f(s)))| < |Fields(f(s))|
  }

  lemma {:induction false} IterateSettles(f: string -> string, s: string, n: nat) returns (k: nat)
    requires n >= 1 && forall t :: FixesOrShrinks(f, t)
    ensures n <= k <= n + |Fields(Iterate(f, s, n))| && f(Iterate(f, s, k)) == Iterate(f, s, k)
    decreases |Fields(Iterate(f, s, n))|
  {
    if f(Iterate(f, s, n)) == Iterate(f, s, n) {
      k := n;
    } else {
      assert FixesOrShrinks(f, Iterate(f, s, n - 1));
      k := IterateSettles(f, s, n + 1);
    }
  }

  lemma {:induction false} FixedStaysFixed(f: string -> string, s: string, k: nat, n: nat)
    requires n >= k && f(Iterate(f, s, k)) == Iterate(f, s, k)
    ensures Iterate(f, s, n) == Iterate(f, s, k)
  {
    if n > k {
      FixedStaysFixed(f, s, k, n - 1);
    }
  }

  /** Cleaning again and again reaches a fixed point within one pass more than there are words. */
  lemma RepeatedCleaningSettles(s: string) returns (k: nat)
    ensures k <= |Fields(s)| + 1
    ensures forall n: nat | n >= k :: Iterate(Clean, s, n) == Iterate(Clean, s, k)
  {
    forall t ensures FixesOrShrinks(Clean, t) { SecondPassFixesOrShrinks(t); }
    k := IterateSettles(Clean, s, 1);
    CleanedIsInfix(s);
    assert Iterate(Clean, s, 1) == Clean(Iterate(Clean, s, 0));
    forall n: nat | n >= k ensures Iterate(Clean, s, n) == Iterate(Clean, s, k) {
      FixedStaysFixed(Clean, s, k, n);
    }
  }

  // ---------- Idempotence ----------

  /** Nothing left to remove: no phrase in front, no polite word at the end. */
  ghost predicate Quiet(ws: seq<string>) {
    && (forall k | 0 <= k < |Phrases()| :: !(Phrases()[k] <= ws))
    && (ws != [] ==> ws[|ws| - 1] != TAIL)
  }

  lemma {:induction false} DropEachIdleIff(ws: seq<string>, phrases: seq<seq<string>>)
    requires forall k | 0 <= k < |phrases| :: phrases[k] != []
    ensures DropEach(ws, phrases) == ws <==> forall k | 0 <= k < |phrases| :: !(phrases[k] <= ws)
  {
    if phrases != [] {
      assert forall k | 0 <= k < |phrases[1..]| :: phrases[1..][k] == phrases[k + 1];
      if phrases[0] <= ws {
        var n := DropEachIsSuffix(DropFront(ws, phrases[0]), phrases[1..]);
      } else {
        DropEachIdleIff(ws, phrases[1..]);
        if forall k | 0 <= k < |phrases[1..]| :: !(phrases[1..][k] <= ws) {
          forall k | 0 <= k < |phrases| ensures !(phrases[k] <= ws) {
            assert k > 0 ==> phrases[k] == phrases[1..][k - 1];
          }
        }
      }
    }
  }

  lemma CleanWordsIdleIff(ws: seq<string>)
    ensures CleanWords(ws) == ws <==> Quiet(ws) || Strip(ws) == []
  {
    PhrasesAreWords();
    DropEachIdleIff(ws, Phrases());
    var n := DropEachIsSuffix(ws, Phrases());
    StripIsInfix(ws);
    if Strip(ws) == ws {
      assert DropEach(ws, Phrases()) == ws;
    }
  }

  /** The words are some of the phrases, each at most once and in order, followed by `end`. */
  predicate Made(ws: seq<string>, phrases: seq<seq<string>>, end: seq<string>) {
    if phrases == [] then ws == end
    else Made(ws, phrases[1..], end) || (phrases[0] <= ws && Made(ws[|phrases[0]|..], phrases[1..], end))
  }

  /** No two phrases start with the same word, and none with the first word of `end`. */
  ghost predicate Apart(phrases: seq<seq<string>>, end: seq<string>) {
    && (forall k | 0 <= k < |phrases| :: phrases[k] != [] && (end != [] ==> phrases[k][0] != end[0]))
    && (forall j, k | 0 <= j < k < |phrases| :: phrases[j][0] != phrases[k][0])
  }

  lemma {:induction false} MadeStartsWith(ws: seq<string>, phrases: seq<seq<string>>, end: seq<string>)
    requires Apart(phrases, end) && Made(ws, phrases, end) && ws != []
    ensures (end != [] && ws[0] == end[0]) || exists k :: 0 <= k < |phrases| && phrases[k][0] == ws[0]
  {
    if phrases != [] && !(phrases[0] <= ws) {
      MadeStartsWith(ws, phrases[1..], end);
    } else if phrases != [] {
      assert phrases[0][0] == ws[0];
    }
  }

  /** Greedy dropping finds out whether words are made of phrases, as their first words tell these apart. */
  lemma {:induction false} DropEachLeavesIff(ws: seq<string>, phrases: seq<seq<string>>, end: seq<string>)
    requires Apart(phrases, end)
    ensures DropEach(ws, phrases) == end <==> Made(ws, phrases, end)
  {
    if phrases != [] {
      DropEachLeavesIff(DropFront(ws, phrases[0]), phrases[1..], end);
      if phrases[0] <= ws && Made(ws, phrases[1..], end) {
        MadeStartsWith(ws, phrases[1..], end);
        assert false;
      }
    }
  }

  lemma PhrasesAreApart()
    ensures Apart(Phrases(), []) && Apart(Phrases(), [TAIL])
  {
    var p := Phrases();
    assert p[0][0][0] == 'о' && p[1][0][1] == 'й' && p[2][0][0] == 'с' && p[3][0][0] == 'г';
    assert p[4][0][0] == 'н' && p[5][0][1] == 'э' && p[6][0][1] == 'м' && TAIL[0] == 'п';
    assert p[1][0][0] == 'э' && p[5][0][0] == 'э' && p[6][0][0] == 'э';
  }

  /** All words go: phrases in order, each at most once, and perhaps the polite word. */
  predicate AllGo(ws: seq<string>) {
    Made(ws, Phrases(), []) || Made(ws, Phrases(), [TAIL])
  }

  lemma StripsToNothingIff(ws: seq<string>)
    ensures Strip(ws) == [] <==> AllGo(ws)
  {
    PhrasesAreApart();
    DropEachLeavesIff(ws, Phrases(), []);
    DropEachLeavesIff(ws, Phrases(), [TAIL]);
  }

  /** The fallback is used exactly for utterances made of nothing but phrases and the polite word. */
  lemma FallsBackIff(s: string)
    ensures FallsBack(DefaultRules(), s) <==> !IsBlank(s) && AllGo(Fields(s))
  {
    DefaultCleanIsWordList(s);
    BlankHasNoFields(s);
    StripsToNothingIff(Fields(s));
  }

  /**
   A second pass changes nothing exactly when what the first one leaves of the words has no phrase in
   front and no polite word at the end, or is made of nothing but these.
   */
  lemma IdempotentIff(s: string)
    ensures Clean(Clean(s)) == Clean(s) <==> Quiet(Strip(Fields(s))) || AllGo(Strip(Fields(s)))
  {
    var ws, left := Fields(s), Strip(Fields(s));
    CleanAgain(s);
    FieldsAreWords(s);
    CleanWordsIdleIff(CleanWords(ws));
    StripsToNothingIff(left);
    if left == [] { StripIsInfix(left); }
    SentencesDiffer(s);
  }

  lemma SentencesDiffer(s: string)
    ensures Clean(Clean(s)) == Clean(s) <==> CleanWords(CleanWords(Fields(s))) == CleanWords(Fields(s))
  {
    CleanAgain(s);
  }

  lemma DropFrontSkips(ws: seq<string>, phrase: seq<string>)
    requires phrase != [] && ws != [] && phrase[0] != ws[0]
    ensures DropFront(ws, phrase) == ws
  {
  }

  /** A filler followed by a word that no rule removes. */
  lemma StripNu(ws: seq<string>)
    requires |ws| >= 2 && ws[0] == "ну" && ws[|ws| - 1] == "свет" && ws[1] in {"ну", "свет"}
    ensures Strip(ws) == ws[1..]
  {
    var p := Phrases();
    DropFrontSkips(ws, p[0]);
    DropFrontSkips(ws, p[1]);
    DropFrontSkips(ws, p[2]);
    DropFrontSkips(ws, p[3]);
    assert DropFront(ws, p[4]) == ws[1..];
    DropFrontSkips(ws[1..], p[5]);
    DropFrontSkips(ws[1..], p[6]);
    DropEachUnfolds(ws, p, 0);
    DropEachUnfolds(ws, p, 1);
    DropEachUnfolds(ws, p, 2);
    DropEachUnfolds(ws, p, 3);
    DropEachUnfolds(ws, p, 4);
    DropEachUnfolds(ws[1..], p, 5);
    DropEachUnfolds(ws[1..], p, 6);
    assert p[7..] == [] && p[0..] == p;
  }

  lemma DropEachUnfolds(ws: seq<string>, phrases: seq<seq<string>>, k: nat)
    requires k < |phrases|
    ensures DropEach(ws, phrases[k..]) == DropEach(DropFront(ws, phrases[k]), phrases[k + 1..])
  {
    assert phrases[k..][1..] == phrases[k + 1..];
  }

  /** Default cleaning is not idempotent: each prefix rule runs once. */
  lemma NotIdempotent()
    ensures Clean("ну ну свет") == "ну свет" && Clean(Clean("ну ну свет")) == "свет"
  {
    var s, t, u := ["ну", "ну", "свет"], ["ну", "свет"], ["свет"];
    assert Sentence(u) == "свет";
    assert t[1..] == u && Sentence(t) == "ну свет";
    assert s[1..] == t && Sentence(s) == "ну ну свет";
    assert AreWords(s);
    FieldsOfSentence(s);
    StripNu(s);
    StripNu(t);
    CleanAgain("ну ну свет");
  }

  // ---------- The default rules are accepted ----------

  /** A number that tells the default rule IDs apart: length, last and eighth-last character. */
  ghost function Mark(id: string): int
    requires |id| >= 8
  {
    |id| * 16384 + id[|id| - 1] as int * 128 + id[|id| - 8] as int
  }

  /** The number of each default rule's ID. */
  ghost function Marks(): seq<int> {
    [308831, 374367, 424441, 473593, 539129, 408057, 457209, 522745, 457198,
     506350, 571886, 342520, 391666, 457202, 391913, 441065, 506601, 389865,
     439017, 504553, 390889, 440041, 505577, 340728, 276067, 341603]
  }

  ghost predicate Marked(rules: seq<Rule>, k: nat)
    requires k < |rules| && k < |Marks()|
  {
    |rules[k].id| >= 8 && Mark(rules[k].id) == Marks()[k]
  }

  lemma MarksOfFirstRules()
    ensures |DefaultRules()| == 26 && forall k | 0 <= k < 13 :: Marked(DefaultRules(), k)
  {
  }

  lemma MarksOfLastRules()
    ensures |DefaultRules()| == 26 && forall k | 13 <= k < 26 :: Marked(DefaultRules(), k)
  {
  }

  lemma MarkedIdsAreUnique(rules: seq<Rule>)
    requires |rules| == 26 && forall k | 0 <= k < 26 :: Marked(rules, k)
    ensures UniqueIds(rules) && forall k | 0 <= k < 26 :: rules[k].id != ""
  {
    assert forall i, j | 0 <= i < j < 26 :: Marks()[i] != Marks()[j];
    forall i, j | 0 <= i < j < 26 ensures rules[i].id != rules[j].id {
      assert Marked(rules, i) && Marked(rules, j);
    }
    forall k | 0 <= k < 26 ensures rules[k].id != "" { assert Marked(rules, k); }
  }

  lemma DefaultShapes()
    ensures forall k | 0 <= k < 26 :: ShapeOk(DefaultRules()[k])
  {
  }

  /** The default rules pass the validation of `New`. */
  lemma DefaultRulesAreValid()
    ensures ValidRules(DefaultRules())
  {
    MarksOfFirstRules();
    MarksOfLastRules();
    DefaultShapes();
    MarkedIdsAreUnique(DefaultRules());
  }
}
