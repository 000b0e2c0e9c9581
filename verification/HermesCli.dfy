/** The stdout parser of the Hermes CLI adapter (internal/backend/hermes_cli.go). */
module HermesCli {
  import opened Text

  const NL := "\n"
  const CRLF := "\r\n"
  const SESSION_PREFIX := "session_id:"

  predicate IsSessionLine(line: string) {
    SESSION_PREFIX <= TrimSpace(line)
  }

  function SessionValue(line: string): string
    requires IsSessionLine(line)
  {
    TrimSpace(TrimSpace(line)[|SESSION_PREFIX|..])
  }

  /** The lines that are not session lines, in order. */
  function Kept(lines: seq<string>): (kept: seq<string>)
    ensures forall k | 0 <= k < |kept| :: kept[k] in lines && !IsSessionLine(kept[k])
  {
    if lines == [] then []
    else (if IsSessionLine(lines[0]) then [] else [lines[0]]) + Kept(lines[1..])
  }

  /** The value of the last session line, or `current` if there is none. */
  function LastSession(lines: seq<string>, current: string): string {
    if lines == [] then current
    else LastSession(lines[1..], if IsSessionLine(lines[0]) then SessionValue(lines[0]) else current)
  }

  function Lines(stdout: string): seq<string> {
    Split(ReplaceAll(stdout, CRLF, NL), NL)
  }

  function Answer(stdout: string): string {
    TrimSpace(Join(Kept(Lines(stdout)), NL))
  }

  function Session(stdout: string): string {
    LastSession(Lines(stdout), "")
  }

  lemma UnfoldAt(lines: seq<string>, i: nat, before: seq<string>)
    requires i < |lines|
    ensures before + Kept(lines[i..])
         == if IsSessionLine(lines[i]) then before + Kept(lines[i + 1..])
            else before + [lines[i]] + Kept(lines[i + 1..])
    ensures forall current ::
              LastSession(lines[i..], current)
              == LastSession(lines[i + 1..], if IsSessionLine(lines[i]) then SessionValue(lines[i]) else current)
  {
    assert lines[i..][1..] == lines[i + 1..];
  }

  method ParseHermesCLIStdout(stdout: string) returns (answer: string, sessionID: string)
    ensures answer == Answer(stdout)
    ensures sessionID == Session(stdout)
  {
    var lines := Split(ReplaceAll(stdout, CRLF, NL), NL);
    var answerLines: seq<string> := [];
    sessionID := "";
    assert lines[0..] == lines;
    for i := 0 to |lines|
      invariant answerLines + Kept(lines[i..]) == Kept(lines)
      invariant LastSession(lines[i..], sessionID) == Session(stdout)
    {
      var line := lines[i];
      var trimmed := TrimSpace(line);
      UnfoldAt(lines, i, answerLines);
      if SESSION_PREFIX <= trimmed {
        sessionID := TrimSpace(trimmed[|SESSION_PREFIX|..]);
        continue;
      }
      answerLines := answerLines + [line];
    }
    assert answerLines == Kept(lines);
    answer := TrimSpace(Join(answerLines, NL));
  }

  // ---------- Lines and trimming ----------

  /**
   `y` is `x` without some blank lines at either end, the first and last remaining line possibly
   trimmed, all lines between them untouched. `lo` lines are missing in front.
   */
  ghost predicate EdgeTrimmed(x: seq<string>, y: seq<string>, lo: nat) {
    && lo + |y| <= |x| && y != []
    && (forall k | 0 <= k < lo :: IsBlank(x[k]))
    && (forall k | lo + |y| <= k < |x| :: IsBlank(x[k]))
    && (forall k | 0 <= k < |y| :: TrimSpace(y[k]) == TrimSpace(x[lo + k]))
    && (forall k | 0 < k < |y| - 1 :: y[k] == x[lo + k])
    && (|y| > 1 ==> IsSuffix(y[0], x[lo]))
  }

  ghost predicate IsSuffix(t: string, s: string) {
    |t| <= |s| && s[|s| - |t|..] == t
  }

  lemma SplitCons(s: string)
    requires s != ""
    ensures Split(s, NL) == if s[0] == '\n' then [""] + Split(s[1..], NL)
                            else [[s[0]] + Split(s[1..], NL)[0]] + Split(s[1..], NL)[1..]
  {
  }

  /** Lines of a concatenation: the last line of the first part runs into the first of the second. */
  ghost function Glue(p: seq<string>, q: seq<string>): seq<string>
    requires p != [] && q != []
  {
    p[..|p| - 1] + [p[|p| - 1] + q[0]] + q[1..]
  }

  lemma GlueCons(c: char, p: seq<string>, q: seq<string>)
    requires p != [] && q != []
    ensures Glue([[c] + p[0]] + p[1..], q) == [[c] + Glue(p, q)[0]] + Glue(p, q)[1..]
    ensures Glue([""] + p, q) == [""] + Glue(p, q)
  {
    if |p| == 1 {
      assert ([c] + p[0]) + q[0] == [c] + (p[0] + q[0]);
    }
  }

  lemma {:induction false} SplitConcat(a: string, b: string)
    ensures Split(a + b, NL) == Glue(Split(a, NL), Split(b, NL))
  {
    if a == "" {
      assert a + b == b && "" + Split(b, NL)[0] == Split(b, NL)[0];
    } else {
      assert (a + b)[1..] == a[1..] + b;
      SplitCons(a);
      SplitCons(a + b);
      SplitConcat(a[1..], b);
      GlueCons(a[0], Split(a[1..], NL), Split(b, NL));
    }
  }

  lemma {:induction false} LinesOfSpace(s: string)
    requires AllSpace(s)
    ensures forall k | 0 <= k < |Split(s, NL)| :: AllSpace(Split(s, NL)[k])
  {
    if s != "" {
      SplitCons(s);
      LinesOfSpace(s[1..]);
    }
  }

  lemma {:induction false} TrimLeftPast(a: string, l: string)
    requires AllSpace(a)
    ensures TrimLeft(a + l) == TrimLeft(l)
  {
    if a == "" {
      assert a + l == l;
    } else {
      assert (a + l)[1..] == a[1..] + l;
      TrimLeftPast(a[1..], l);
    }
  }

  lemma {:induction false} TrimRightPast(l: string, b: string)
    requires AllSpace(b)
    ensures TrimRight(l + b) == TrimRight(l)
  {
    if b == "" {
      assert l + b == l;
    } else {
      assert (l + b)[..|l + b| - 1] == l + b[..|b| - 1];
      TrimRightPast(l, b[..|b| - 1]);
    }
  }

  /** White space around a line does not matter to trimming. */
  lemma TrimSpacePast(a: string, l: string, b: string)
    requires AllSpace(a) && AllSpace(b)
    ensures TrimSpace(a + l + b) == TrimSpace(l)
  {
    assert a + l + b == a + (l + b);
    TrimLeftPast(a, l + b);
    if AllSpace(l) {
      BlankIsAllSpace(l);
      BlankIsAllSpace(l + b);
    } else {
      var n := TrimLeftSplits(l);
      assert l + b == l[..n] + (l[n..] + b);
      TrimLeftPast(l[..n], l[n..] + b);
      TrimRightPast(l[n..], b);
    }
  }

  /** The three stretches of a trimmed text, as lists of lines. */
  lemma GlueEdges(p: seq<string>, m: seq<string>, q: seq<string>, k: nat) returns (a: string, b: string)
    requires p != [] && m != [] && q != [] && k < |m|
    requires AllSpace(p[|p| - 1]) && AllSpace(q[0])
    ensures |Glue(p, Glue(m, q))| == |p| + |m| + |q| - 2
    ensures AllSpace(a) && AllSpace(b) && Glue(p, Glue(m, q))[|p| - 1 + k] == a + m[k] + b
    ensures 0 < k < |m| - 1 ==> Glue(p, Glue(m, q))[|p| - 1 + k] == m[k]
  {
    a := if k == 0 then p[|p| - 1] else "";
    b := if k == |m| - 1 then q[0] else "";
    assert Glue(m, q)[k] == m[k] + b;
    assert p[|p| - 1] + (m[0] + b) == p[|p| - 1] + m[0] + b;
    assert "" + m[k] + "" == m[k];
  }

  /** The lines of a text cut in three are glued from the lines of its parts. */
  lemma SplitThree(a: string, m: string, b: string)
    ensures Split(a + m + b, NL) == Glue(Split(a, NL), Glue(Split(m, NL), Split(b, NL)))
  {
    assert a + m + b == a + (m + b);
    SplitConcat(m, b);
    SplitConcat(a, m + b);
  }

  lemma TrimSpaceLines(s: string) returns (lo: nat)
    ensures EdgeTrimmed(Split(s, NL), Split(TrimSpace(s), NL), lo)
  {
    var i, j := TrimSpaceSplits(s);
    var a, m, b := s[..i], s[i..j], s[j..];
    assert s == a + m + b;
    SplitThree(a, m, b);
    LinesOfSpace(a);
    LinesOfSpace(b);
    lo := |Split(a, NL)| - 1;
    GlueIsEdgeTrimmed(Split(a, NL), Split(m, NL), Split(b, NL));
  }

  lemma GlueIsEdgeTrimmed(p: seq<string>, m: seq<string>, q: seq<string>)
    requires p != [] && m != [] && q != []
    requires forall k | 0 <= k < |p| :: AllSpace(p[k])
    requires forall k | 0 <= k < |q| :: AllSpace(q[k])
    ensures EdgeTrimmed(Glue(p, Glue(m, q)), m, |p| - 1)
  {
    var x, lo := Glue(p, Glue(m, q)), |p| - 1;
    var _, _ := GlueEdges(p, m, q, 0);
    forall k | 0 <= k < lo ensures IsBlank(x[k]) {
      assert x[k] == p[k];
      BlankIsAllSpace(x[k]);
    }
    forall k | lo + |m| <= k < |x| ensures IsBlank(x[k]) {
      assert x[k] == Glue(m, q)[k - lo] == q[k - lo - |m| + 1];
      BlankIsAllSpace(x[k]);
    }
    forall k | 0 <= k < |m| ensures TrimSpace(m[k]) == TrimSpace(x[lo + k]) {
      var a, b := GlueEdges(p, m, q, k);
      TrimSpacePast(a, m[k], b);
    }
    forall k | 0 < k < |m| - 1 ensures m[k] == x[lo + k] {
      var a, b := GlueEdges(p, m, q, k);
    }
  }

  // ---------- Split and Join are inverse on lines ----------

  ghost predicate NoChar(s: string, c: char) {
    forall k | 0 <= k < |s| :: s[k] != c
  }

  ghost predicate NoCharIn(parts: seq<string>, c: char) {
    forall k | 0 <= k < |parts| :: NoChar(parts[k], c)
  }

  lemma {:induction false} SplitHasNoNewline(s: string)
    ensures NoCharIn(Split(s, NL), '\n')
  {
    if s != "" {
      SplitCons(s);
      SplitHasNoNewline(s[1..]);
    }
  }

  lemma {:induction false} SplitPrefix(a: string, b: string)
    requires NoChar(a, '\n')
    ensures Split(a + NL + b, NL) == [a] + Split(b, NL)
  {
    var s := a + NL + b;
    SplitCons(s);
    if a == "" {
      assert s[1..] == b;
    } else {
      assert s[1..] == a[1..] + NL + b;
      SplitPrefix(a[1..], b);
      assert [a[0]] + a[1..] == a;
    }
  }

  lemma {:induction false} SplitLine(a: string)
    requires NoChar(a, '\n')
    ensures Split(a, NL) == [a]
  {
    if a != "" {
      SplitCons(a);
      SplitLine(a[1..]);
      assert [a[0]] + a[1..] == a;
    }
  }

  lemma {:induction false} SplitJoin(parts: seq<string>)
    requires parts != [] && NoCharIn(parts, '\n')
    ensures Split(Join(parts, NL), NL) == parts
  {
    if |parts| == 1 {
      SplitLine(parts[0]);
    } else {
      SplitPrefix(parts[0], Join(parts[1..], NL));
      SplitJoin(parts[1..]);
    }
  }

  /** Kept lines of a list that has no session line. */
  lemma {:induction false} KeptAll(lines: seq<string>)
    requires forall k | 0 <= k < |lines| :: !IsSessionLine(lines[k])
    ensures Kept(lines) == lines && forall current :: LastSession(lines, current) == current
  {
    if lines != [] {
      KeptAll(lines[1..]);
    }
  }

  // ---------- What the parser delivers ----------

  /** The answer's lines are the non-session lines of stdout, in order, up to trimming at the edges. */
  lemma AnswerIsKeptLines(stdout: string) returns (lo: nat)
    ensures var kept := Kept(Lines(stdout));
      if kept == [] then Answer(stdout) == "" else EdgeTrimmed(kept, Split(Answer(stdout), NL), lo)
  {
    var kept := Kept(Lines(stdout));
    lo := TrimSpaceLines(Join(kept, NL));
    SplitHasNoNewline(ReplaceAll(stdout, CRLF, NL));
    if kept != [] {
      SplitJoin(kept);
    }
  }

  /** No line of the answer is a session line. */
  lemma AnswerHasNoSessionLine(stdout: string)
    ensures forall k | 0 <= k < |Split(Answer(stdout), NL)| :: !IsSessionLine(Split(Answer(stdout), NL)[k])
  {
    var lo := AnswerIsKeptLines(stdout);
    assert TrimSpace("") == "";
  }

  /** The session is the value of the last session line, or empty if there is none. */
  lemma {:induction false} LastSessionWins(lines: seq<string>, current: string)
    ensures || (LastSession(lines, current) == current && forall k | 0 <= k < |lines| :: !IsSessionLine(lines[k]))
            || (exists k :: 0 <= k < |lines| && IsSessionLine(lines[k])
                            && LastSession(lines, current) == SessionValue(lines[k])
                            && forall j | k < j < |lines| :: !IsSessionLine(lines[j]))
  {
    if lines != [] {
      var next := if IsSessionLine(lines[0]) then SessionValue(lines[0]) else current;
      var rest := lines[1..];
      LastSessionWins(rest, next);
      if k :| 0 <= k < |rest| && IsSessionLine(rest[k]) && LastSession(rest, next) == SessionValue(rest[k])
              && forall j | k < j < |rest| :: !IsSessionLine(rest[j]) {
        assert IsSessionLine(lines[k + 1]);
        forall j | k + 1 < j < |lines| ensures !IsSessionLine(lines[j]) { assert lines[j] == rest[j - 1]; }
      } else {
        forall j | 0 < j < |lines| ensures !IsSessionLine(lines[j]) { assert lines[j] == rest[j - 1]; }
      }
    }
  }

  // ---------- Session lines, spelt out ----------

  /** The line is the label, after nothing but white space, and then `rest`. */
  ghost predicate Labelled(line: string, space: string, rest: string) {
    AllSpace(space) && line == space + "session_id:" + rest
  }

  ghost predicate HasLabel(line: string) {
    exists space, rest :: Labelled(line, space, rest)
  }

  lemma {:induction false} TrimRightKeeps(head: string, rest: string)
    requires head != "" && !IsSpace(head[|head| - 1])
    ensures TrimRight(head + rest) == head + TrimRight(rest)
  {
    if rest != "" && IsSpace(rest[|rest| - 1]) {
      assert (head + rest)[..|head + rest| - 1] == head + rest[..|rest| - 1];
      TrimRightKeeps(head, rest[..|rest| - 1]);
    } else if rest == "" {
      assert head + rest == head;
    }
  }

  lemma TrimAfterTrimRight(s: string)
    ensures TrimSpace(TrimRight(s)) == TrimSpace(s)
  {
    var n := TrimRightSplits(s);
    assert s == "" + s[..n] + s[n..];
    TrimSpacePast("", s[..n], s[n..]);
  }

  /** The value of a labelled line is what follows the label, trimmed. */
  lemma LabelledValue(line: string, space: string, rest: string)
    requires Labelled(line, space, rest)
    ensures IsSessionLine(line) && SessionValue(line) == TrimSpace(rest)
  {
    var tag := "session_id:";
    assert line == space + (tag + rest) + "";
    TrimSpacePast(space, tag + rest, "");
    assert tag[0] == 's' && tag[|tag| - 1] == ':';
    assert TrimLeft(tag + rest) == tag + rest;
    TrimRightKeeps(tag, rest);
    assert TrimSpace(line) == tag + TrimRight(rest);
    assert TrimSpace(line)[|tag|..] == TrimRight(rest);
    TrimAfterTrimRight(rest);
  }

  lemma SessionLineIff(line: string)
    ensures IsSessionLine(line) <==> HasLabel(line)
  {
    if IsSessionLine(line) {
      var lo, hi := TrimSpaceSplits(line);
      assert line[lo..hi][..11] == line[lo..lo + 11];
      assert line == line[..lo] + line[lo..lo + 11] + line[lo + 11..];
      assert Labelled(line, line[..lo], line[lo + 11..]);
    }
    if space, rest :| Labelled(line, space, rest) {
      LabelledValue(line, space, rest);
    }
  }

  lemma {:induction false} LastSessionAt(lines: seq<string>, current: string, k: nat)
    requires k < |lines| && IsSessionLine(lines[k]) && forall j | k < j < |lines| :: !IsSessionLine(lines[j])
    ensures LastSession(lines, current) == SessionValue(lines[k])
  {
    var next := if IsSessionLine(lines[0]) then SessionValue(lines[0]) else current;
    if k == 0 {
      KeptAll(lines[1..]);
    } else {
      LastSessionAt(lines[1..], next, k - 1);
    }
  }

  /** The session is what follows the label on the last labelled line of stdout. */
  lemma SessionIsLastLabelled(stdout: string, k: nat, space: string, rest: string)
    requires var lines := Split(ReplaceAll(stdout, "\r\n", "\n"), "\n");
      && k < |lines| && Labelled(lines[k], space, rest)
      && forall j | k < j < |lines| :: !HasLabel(lines[j])
    ensures Session(stdout) == TrimSpace(rest)
  {
    var lines := Lines(stdout);
    LabelledValue(lines[k], space, rest);
    forall j | k < j < |lines| ensures !IsSessionLine(lines[j]) { SessionLineIff(lines[j]); }
    LastSessionAt(lines, "", k);
  }

  ghost predicate NoneLabelled(lines: seq<string>) {
    forall k | 0 <= k < |lines| :: !HasLabel(lines[k])
  }

  /** Without a labelled line there is no session. */
  lemma NoLabelNoSession(stdout: string)
    requires NoneLabelled(Split(ReplaceAll(stdout, "\r\n", "\n"), "\n"))
    ensures Session(stdout) == ""
  {
    var lines := Lines(stdout);
    forall k | 0 <= k < |lines| ensures !IsSessionLine(lines[k]) { SessionLineIff(lines[k]); }
    KeptAll(lines);
  }

  ghost predicate Lists(ps: seq<nat>, k: nat) {
    exists i :: 0 <= i < |ps| && ps[i] == k
  }

  ghost predicate InOrder(ps: seq<nat>) {
    forall i, j | 0 <= i < j < |ps| :: ps[i] < ps[j]
  }

  ghost predicate PointTo(lines: seq<string>, kept: seq<string>, ps: seq<nat>, keep: string -> bool) {
    |ps| == |kept| && forall i | 0 <= i < |ps| :: ps[i] < |lines| && kept[i] == lines[ps[i]] && keep(kept[i])
  }

  ghost predicate CoverAll(lines: seq<string>, ps: seq<nat>, keep: string -> bool) {
    forall k: nat | k < |lines| && keep(lines[k]) :: Lists(ps, k)
  }

  /** The lines at `ps`, in increasing order, are `kept`, and they are all the lines that `keep` admits. */
  ghost predicate Picks(lines: seq<string>, kept: seq<string>, ps: seq<nat>, keep: string -> bool) {
    InOrder(ps) && PointTo(lines, kept, ps, keep) && CoverAll(lines, ps, keep)
  }

  function Shifted(ps: seq<nat>): (qs: seq<nat>)
    ensures |qs| == |ps| && forall i | 0 <= i < |ps| :: qs[i] == ps[i] + 1
  {
    seq(|ps|, i requires 0 <= i < |ps| => ps[i] + 1)
  }

  lemma ListsShifted(ps: seq<nat>, k: nat)
    requires Lists(ps, k)
    ensures Lists(Shifted(ps), k + 1) && Lists([0] + Shifted(ps), k + 1)
  {
    var i :| 0 <= i < |ps| && ps[i] == k;
    assert Shifted(ps)[i] == k + 1 && ([0] + Shifted(ps))[i + 1] == k + 1;
  }

  lemma InOrderShifted(ps: seq<nat>)
    requires InOrder(ps)
    ensures InOrder(Shifted(ps)) && InOrder([0] + Shifted(ps))
  {
  }

  lemma PointToShifted(line: string, rest: seq<string>, kept: seq<string>, ps: seq<nat>, keep: string -> bool)
    requires PointTo(rest, kept, ps, keep)
    ensures PointTo([line] + rest, kept, Shifted(ps), keep)
    ensures keep(line) ==> PointTo([line] + rest, [line] + kept, [0] + Shifted(ps), keep)
  {
  }

  lemma CoverAllShifted(line: string, rest: seq<string>, ps: seq<nat>, keep: string -> bool)
    requires CoverAll(rest, ps, keep)
    ensures CoverAll([line] + rest, [0] + Shifted(ps), keep)
    ensures !keep(line) ==> CoverAll([line] + rest, Shifted(ps), keep)
  {
    var lines := [line] + rest;
    forall k: nat | 0 < k < |lines| && keep(lines[k]) ensures Lists(Shifted(ps), k) && Lists([0] + Shifted(ps), k) {
      assert lines[k] == rest[k - 1];
      ListsShifted(ps, k - 1);
    }
    assert ([0] + Shifted(ps))[0] == 0;
  }

  /** The picks of a list with one more line in front, which is picked or not. */
  lemma PickAlso(line: string, rest: seq<string>, kept: seq<string>, ps: seq<nat>, keep: string -> bool)
    requires Picks(rest, kept, ps, keep)
    ensures if keep(line) then Picks([line] + rest, [line] + kept, [0] + Shifted(ps), keep)
            else Picks([line] + rest, kept, Shifted(ps), keep)
  {
    InOrderShifted(ps);
    PointToShifted(line, rest, kept, ps, keep);
    CoverAllShifted(line, rest, ps, keep);
  }

  ghost function Unlabelled(): string -> bool {
    (line: string) => !HasLabel(line)
  }

  /** The kept lines are exactly the lines without the label, each once and in order. */
  lemma {:induction false} KeptAreUnlabelled(lines: seq<string>) returns (ps: seq<nat>)
    ensures Picks(lines, Kept(lines), ps, Unlabelled())
  {
    ps := [];
    if lines != [] {
      var rest := KeptAreUnlabelled(lines[1..]);
      SessionLineIff(lines[0]);
      assert lines == [lines[0]] + lines[1..];
      PickAlso(lines[0], lines[1..], Kept(lines[1..]), rest, Unlabelled());
      assert IsSessionLine(lines[0]) ==> Kept(lines) == Kept(lines[1..]);
      ps := if IsSessionLine(lines[0]) then Shifted(rest) else [0] + Shifted(rest);
    }
  }

  lemma {:induction false} ReplaceAbsent(s: string, old_: string, new_: string)
    requires old_ != "" && !Contains(s, old_)
    ensures ReplaceAll(s, old_, new_) == s
  {
    if |s| >= |old_| {
      ReplaceAbsent(s[1..], old_, new_);
    }
  }

  lemma {:induction false} ReplaceShrinks(s: string)
    ensures |ReplaceAll(s, CRLF, NL)| <= |s|
    ensures Contains(s, CRLF) ==> |ReplaceAll(s, CRLF, NL)| < |s|
  {
    if |s| >= 2 {
      ReplaceShrinks(if CRLF <= s then s[2..] else s[1..]);
    }
  }

  ghost function TotalLength(lines: seq<string>): nat {
    if lines == [] then 0 else |lines[0]| + 1 + TotalLength(lines[1..])
  }

  lemma {:induction false} JoinLength(lines: seq<string>)
    ensures |Join(lines, NL)| == if lines == [] then 0 else TotalLength(lines) - 1
  {
    if lines != [] {
      JoinLength(lines[1..]);
    }
  }

  lemma {:induction false} KeptIsShorter(lines: seq<string>)
    ensures TotalLength(Kept(lines)) <= TotalLength(lines)
  {
    if lines != [] {
      KeptIsShorter(lines[1..]);
      if !IsSessionLine(lines[0]) {
        assert Kept(lines)[1..] == Kept(lines[1..]);
      } else {
        assert Kept(lines) == Kept(lines[1..]);
      }
    }
  }

  lemma AnswerLength(stdout: string)
    ensures |Answer(stdout)| <= |ReplaceAll(stdout, CRLF, NL)|
  {
    var lines := Lines(stdout);
    JoinLength(lines);
    JoinLength(Kept(lines));
    KeptIsShorter(lines);
    JoinSplit(ReplaceAll(stdout, CRLF, NL), NL);
    var lo, hi := TrimSpaceSplits(Join(Kept(lines), NL));
  }

  /** Parsing an answer again changes nothing exactly when it holds no carriage return before a newline. */
  lemma ReparseIff(stdout: string)
    ensures var a := Answer(stdout);
      Answer(a) == a && Session(a) == "" <==> !Contains(a, CRLF)
  {
    var a := Answer(stdout);
    if Contains(a, CRLF) {
      ReplaceShrinks(a);
      AnswerLength(a);
    } else {
      ReplaceAbsent(a, CRLF, NL);
      AnswerHasNoSessionLine(stdout);
      KeptAll(Split(a, NL));
      JoinSplit(a, NL);
      TrimIsTrimmed(Join(Kept(Lines(stdout)), NL));
    }
  }

  predicate EndsInReturn(line: string) {
    line != "" && line[|line| - 1] == '\r'
  }

  /** Some line other than the last ends in a carriage return. */
  ghost predicate ReturnBeforeLast(lines: seq<string>) {
    exists j :: 0 <= j < |lines| - 1 && EndsInReturn(lines[j])
  }

  lemma ReturnsAfterNewline(r: seq<string>)
    ensures ReturnBeforeLast([""] + r) <==> ReturnBeforeLast(r)
  {
    var lines := [""] + r;
    assert forall j | 0 <= j < |r| :: lines[j + 1] == r[j];
    if j :| 0 <= j < |r| - 1 && EndsInReturn(r[j]) { assert EndsInReturn(lines[j + 1]); }
    if j :| 0 <= j < |lines| - 1 && EndsInReturn(lines[j]) { assert EndsInReturn(r[j - 1]); }
  }

  lemma ReturnsAfterOther(c: char, r: seq<string>)
    requires r != []
    ensures ReturnBeforeLast([[c] + r[0]] + r[1..]) <==> ReturnBeforeLast(r) || (c == '\r' && r[0] == "" && |r| > 1)
  {
    var lines := [[c] + r[0]] + r[1..];
    assert lines[0] == [c] + r[0] && forall j | 0 < j < |r| :: lines[j] == r[j];
    assert EndsInReturn(lines[0]) <==> EndsInReturn(r[0]) || (c == '\r' && r[0] == "");
  }

  lemma FirstLineEmptyIff(s: string)
    ensures var r := Split(s, NL); r[0] == "" && |r| > 1 <==> s != "" && s[0] == '\n'
  {
    if s != "" { SplitCons(s); }
  }

  lemma {:induction false} ContainsCrlfIff(s: string)
    ensures Contains(s, CRLF) <==> ReturnBeforeLast(Split(s, NL))
  {
    if s != "" {
      var rest, r := s[1..], Split(s[1..], NL);
      SplitCons(s);
      ContainsCrlfIff(rest);
      FirstLineEmptyIff(rest);
      assert CRLF <= s <==> s[0] == '\r' && rest != "" && rest[0] == '\n';
      if s[0] == '\n' { ReturnsAfterNewline(r); } else { ReturnsAfterOther(s[0], r); }
    }
  }

  lemma NotBlankAt(line: string, k: nat)
    requires k < |line| && !IsSpace(line[k])
    ensures !IsBlank(line)
  {
    BlankIsAllSpace(line);
  }

  lemma LastLineEndsIn(t: string)
    requires t != "" && t[|t| - 1] != '\n'
    ensures var y := Split(t, NL); var last := y[|y| - 1]; last != "" && last[|last| - 1] == t[|t| - 1]
  {
    var n := |t| - 1;
    assert t == t[..n] + [t[n]];
    SplitConcat(t[..n], [t[n]]);
    SplitLine([t[n]]);
  }

  /** A trimmed text neither starts nor ends with a blank line. */
  lemma EndLinesAreNotBlank(t: string)
    requires Trimmed(t) && t != ""
    ensures !IsBlank(Split(t, NL)[0]) && !IsBlank(Split(t, NL)[|Split(t, NL)| - 1])
  {
    var y := Split(t, NL);
    SplitCons(t);
    NotBlankAt(y[0], 0);
    LastLineEndsIn(t);
    NotBlankAt(y[|y| - 1], |y[|y| - 1]| - 1);
  }

  /** Between two lines that are not blank, or in the first of them, some line ends in a carriage return. */
  ghost predicate InnerReturn(lines: seq<string>) {
    exists i, j, k :: 0 <= i <= j < k < |lines| && !IsBlank(lines[i]) && EndsInReturn(lines[j]) && !IsBlank(lines[k])
  }

  lemma EdgeTrimmedReturns(x: seq<string>, y: seq<string>, lo: nat)
    requires EdgeTrimmed(x, y, lo) && !IsBlank(y[0]) && !IsBlank(y[|y| - 1])
    ensures ReturnBeforeLast(y) <==> InnerReturn(x)
  {
    var last := |y| - 1;
    assert TrimSpace("") == "";
    forall j | 0 <= j < last ensures EndsInReturn(y[j]) <==> EndsInReturn(x[lo + j]) {}
    assert !IsBlank(x[lo]) && !IsBlank(x[lo + last]);
    if j :| 0 <= j < last && EndsInReturn(y[j]) {
      assert EndsInReturn(x[lo + j]);
    }
    if i, j, k :| 0 <= i <= j < k < |x| && !IsBlank(x[i]) && EndsInReturn(x[j]) && !IsBlank(x[k]) {
      assert lo <= i && k <= lo + last;
      assert EndsInReturn(y[j - lo]);
    }
  }

  lemma NothingKeptNoReturn(lines: seq<string>)
    requires lines == [] || exists lo :: EdgeTrimmed(lines, [""], lo)
    ensures !InnerReturn(lines)
  {
    if lo :| lines != [] && EdgeTrimmed(lines, [""], lo) {
      assert TrimSpace("") == "";
      forall k | 0 <= k < |lines| ensures IsBlank(lines[k]) {
        assert k == lo ==> TrimSpace([""][0]) == TrimSpace(lines[lo + 0]);
      }
    }
  }

  /**
   Parsing the answer again changes nothing exactly if, among the lines of stdout that are no session
   lines, no line between non-blank ones ends in a carriage return of its own.
   */
  lemma ReparseIffLines(stdout: string)
    ensures Answer(Answer(stdout)) == Answer(stdout) && Session(Answer(stdout)) == ""
       <==> !InnerReturn(Kept(Lines(stdout)))
  {
    ReparseIff(stdout);
    ContainsCrlfIff(Answer(stdout));
    var x, y, lo := AnswerLines(stdout);
    TrimmedReturnsIff(x, y, lo);
  }

  /** The kept lines, those of the answer, and how many are missing in front; no answer has a blank end. */
  lemma AnswerLines(stdout: string) returns (x: seq<string>, y: seq<string>, lo: nat)
    ensures x == Kept(Lines(stdout)) && y == Split(Answer(stdout), NL) && y != []
    ensures if x == [] then y == [""] else EdgeTrimmed(x, y, lo)
    ensures y == [""] || (!IsBlank(y[0]) && !IsBlank(y[|y| - 1]))
  {
    x, y := Kept(Lines(stdout)), Split(Answer(stdout), NL);
    lo := AnswerIsKeptLines(stdout);
    AnswerEnds(stdout);
    SplitEmpty();
  }

  lemma SplitEmpty()
    ensures Split("", NL) == [""]
  {
  }

  lemma AnswerEnds(stdout: string)
    ensures var y := Split(Answer(stdout), NL); y == [""] || (!IsBlank(y[0]) && !IsBlank(y[|y| - 1]))
  {
    var a := Answer(stdout);
    TrimIsTrimmed(Join(Kept(Lines(stdout)), NL));
    if a != "" { EndLinesAreNotBlank(a); }
  }

  lemma TrimmedReturnsIff(x: seq<string>, y: seq<string>, lo: nat)
    requires y != [] && if x == [] then y == [""] else EdgeTrimmed(x, y, lo)
    requires y == [""] || (!IsBlank(y[0]) && !IsBlank(y[|y| - 1]))
    ensures ReturnBeforeLast(y) <==> InnerReturn(x)
  {
    if y == [""] {
      NothingKeptNoReturn(x);
    } else {
      EdgeTrimmedReturns(x, y, lo);
    }
  }

  lemma {:induction false} KeptReturns(lines: seq<string>)
    requires ReturnBeforeLast(Kept(lines))
    ensures ReturnBeforeLast(lines)
  {
    var kept, rest := Kept(lines), Kept(lines[1..]);
    var j :| 0 <= j < |kept| - 1 && EndsInReturn(kept[j]);
    if !IsSessionLine(lines[0]) && j == 0 {
      assert lines[0] == kept[0] && |lines| >= 2;
    } else {
      assert EndsInReturn(rest[if IsSessionLine(lines[0]) then j else j - 1]);
      KeptReturns(lines[1..]);
      var i :| 0 <= i < |lines[1..]| - 1 && EndsInReturn(lines[1..][i]);
      assert EndsInReturn(lines[i + 1]);
    }
  }

  const CRCRLF := "\r\r\n"

  /** A carriage return before a newline after replacing was one of two before. */
  lemma {:induction false} ReplacedCrlf(s: string)
    requires Contains(ReplaceAll(s, CRLF, NL), CRLF)
    ensures Contains(s, CRCRLF)
  {
    var t := ReplaceAll(s, CRLF, NL);
    if CRLF <= s {
      assert t[1..] == ReplaceAll(s[2..], CRLF, NL) && t[0] == '\n';
      ReplacedCrlf(s[2..]);
      assert s[1..][1..] == s[2..];
    } else {
      var u := ReplaceAll(s[1..], CRLF, NL);
      assert t[1..] == u && t[0] == s[0];
      if Contains(u, CRLF) {
        ReplacedCrlf(s[1..]);
      } else {
        assert s[0] == '\r' && u[0] == '\n';
        assert CRLF <= s[1..];
        assert s[0] == CRCRLF[0] && s[1] == CRCRLF[1] && s[2] == CRCRLF[2];
      }
    }
  }

  /** For output without a doubled carriage return before a newline, parsing the answer again changes nothing. */
  lemma ReparseWithoutDoubledReturns(stdout: string)
    requires !Contains(stdout, CRCRLF)
    ensures Answer(Answer(stdout)) == Answer(stdout) && Session(Answer(stdout)) == ""
  {
    ReparseIffLines(stdout);
    if InnerReturn(Kept(Lines(stdout))) {
      KeptReturns(Lines(stdout));
      ContainsCrlfIff(ReplaceAll(stdout, CRLF, NL));
      ReplacedCrlf(stdout);
    }
  }

  lemma Crlf(s: string, t: string)
    requires (s == "a\r\r\nb" && t == "a\r\nb") || (s == "a\r\nb" && t == "a\nb")
    ensures ReplaceAll(s, CRLF, NL) == t
  {
    var n := |s| - 3;
    assert s[n..] == "\r\nb" && s[n..][2..] == "b";
    assert ReplaceAll(s[n..], CRLF, NL) == "\nb";
    if n == 2 {
      assert s[1..][1..] == s[2..];
      assert ReplaceAll(s[1..], CRLF, NL) == "\r\nb";
    }
  }

  lemma StartsOtherwise(line: string)
    requires line != "" && !IsSpace(line[0]) && line[0] != 's'
    ensures !IsSessionLine(line)
  {
    SessionLineIff(line);
    forall space, rest ensures !Labelled(line, space, rest) {
      assert "session_id:"[0] == 's';
      assert (space + "session_id:" + rest)[0] == if space == "" then 's' else space[0];
    }
  }

  lemma JoinTwo(a: string, b: string)
    ensures Join([a, b], NL) == a + NL + b
  {
    assert [a, b][1..] == [b];
  }

  lemma TwoLines(a: string, b: string)
    requires a in {"a", "a\r"} && b == "b"
    ensures TrimSpace(Join(Kept(Split(a + NL + b, NL)), NL)) == a + NL + b
  {
    SplitPrefix(a, b);
    SplitLine(b);
    StartsOtherwise(a);
    StartsOtherwise(b);
    KeptAll([a, b]);
    JoinTwo(a, b);
    assert Split(a + NL + b, NL) == [a, b];
    assert Trimmed(a + NL + b);
    TrimmedIsFixed(a + NL + b);
  }

  lemma ParseTwoLines(stdout: string, a: string, b: string)
    requires a in {"a", "a\r"} && b == "b"
    requires ReplaceAll(stdout, CRLF, NL) == a + NL + b
    ensures Answer(stdout) == a + NL + b
  {
    TwoLines(a, b);
  }

  /** A doubled carriage return survives one parse and is changed by the next. */
  lemma ReparseCounterexample()
    ensures Answer("a\r\r\nb") == "a\r\nb" && Answer("a\r\nb") == "a\nb"
  {
    assert "a\r" + NL + "b" == "a\r\nb" && "a" + NL + "b" == "a\nb";
    Crlf("a\r\r\nb", "a\r\nb");
    ParseTwoLines("a\r\r\nb", "a\r", "b");
    Crlf("a\r\nb", "a\nb");
    ParseTwoLines("a\r\nb", "a", "b");
  }
}
