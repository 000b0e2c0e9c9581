/**
 Text as Go's `strings` and `unicode` packages see it: sequences of code points.

 Every string operation of the program that the other modules use is defined here once,
 together with the two theories that carry the proofs: words (`Fields` and `Join`) and
 lines (`Split` and `Join`).
 */
module Text {

  // ---------- White space ----------

  /** The code points with the Unicode property White_Space. */
  predicate IsSpace(c: char) {
    var n := c as int;
    || 0x9 <= n <= 0xD || n == 0x20 || n == 0x85 || n == 0xA0 || n == 0x1680
    || 0x2000 <= n <= 0x200A || n == 0x2028 || n == 0x2029 || n == 0x202F || n == 0x205F || n == 0x3000
  }

  ghost predicate AllSpace(s: string) {
    forall k | 0 <= k < |s| :: IsSpace(s[k])
  }

  ghost predicate NoSpace(s: string) {
    forall k | 0 <= k < |s| :: !IsSpace(s[k])
  }

  function TrimLeft(s: string): string {
    if s != "" && IsSpace(s[0]) then TrimLeft(s[1..]) else s
  }

  function TrimRight(s: string): string {
    if s != "" && IsSpace(s[|s| - 1]) then TrimRight(s[..|s| - 1]) else s
  }

  function TrimSpace(s: string): string {
    TrimRight(TrimLeft(s))
  }

  predicate IsBlank(s: string) {
    TrimSpace(s) == ""
  }

  /** No white space at either end. */
  ghost predicate Trimmed(s: string) {
    s != "" ==> !IsSpace(s[0]) && !IsSpace(s[|s| - 1])
  }

  /** All code points from `lo` up to `hi` are white space. */
  ghost predicate SpaceIn(s: string, lo: nat, hi: nat) {
    forall k | lo <= k < hi && k < |s| :: IsSpace(s[k])
  }

  lemma {:induction false} TrimLeftSplits(s: string) returns (n: nat)
    ensures n <= |s| && SpaceIn(s, 0, n) && TrimLeft(s) == s[n..]
    ensures n < |s| ==> !IsSpace(s[n])
  {
    if s != "" && IsSpace(s[0]) {
      var m := TrimLeftSplits(s[1..]);
      n := m + 1;
      assert s[1..][m..] == s[n..];
      forall k | 0 <= k < n ensures IsSpace(s[k]) { assert k > 0 ==> s[k] == s[1..][k - 1]; }
    } else {
      n := 0;
    }
  }

  lemma {:induction false} TrimRightSplits(s: string) returns (n: nat)
    ensures n <= |s| && SpaceIn(s, n, |s|) && TrimRight(s) == s[..n]
    ensures n > 0 ==> !IsSpace(s[n - 1])
  {
    if s != "" && IsSpace(s[|s| - 1]) {
      var t := s[..|s| - 1];
      n := TrimRightSplits(t);
      assert s[..n] == t[..n];
      forall k | n <= k < |s| ensures IsSpace(s[k]) { assert k < |t| ==> s[k] == t[k]; }
    } else {
      n := |s|;
    }
  }

  /** Trimming removes exactly a blank prefix and a blank suffix. */
  lemma TrimSpaceSplits(s: string) returns (lo: nat, hi: nat)
    ensures lo <= hi <= |s| && TrimSpace(s) == s[lo..hi]
    ensures AllSpace(s[..lo]) && AllSpace(s[hi..])
    ensures Trimmed(s[lo..hi])
  {
    lo := TrimLeftSplits(s);
    var t := s[lo..];
    var m := TrimRightSplits(t);
    hi := lo + m;
    assert s[lo..hi] == t[..m];
    forall k | hi <= k < |s| ensures IsSpace(s[k]) { assert s[k] == t[k - lo]; }
  }

  lemma TrimmedIsFixed(s: string)
    requires Trimmed(s)
    ensures TrimSpace(s) == s
  {
  }

  lemma TrimIsTrimmed(s: string)
    ensures Trimmed(TrimSpace(s)) && TrimSpace(TrimSpace(s)) == TrimSpace(s)
  {
    var lo, hi := TrimSpaceSplits(s);
    TrimmedIsFixed(TrimSpace(s));
  }

  lemma BlankIsAllSpace(s: string)
    ensures IsBlank(s) <==> AllSpace(s)
  {
    var lo, hi := TrimSpaceSplits(s);
    assert s == s[..lo] + s[lo..hi] + s[hi..];
    assert lo < hi ==> s[lo] == TrimSpace(s)[0];
  }

  // ---------- Join, split, replace ----------

  /** Go's strings.Join. */
  function Join(parts: seq<string>, sep: string): string {
    if |parts| == 0 then ""
    else if |parts| == 1 then parts[0]
    else parts[0] + sep + Join(parts[1..], sep)
  }

  /** Go's strings.Split for a non-empty separator. */
  function Split(s: string, sep: string): (r: seq<string>)
    requires sep != ""
    ensures |r| >= 1
  {
    if |s| < |sep| then [s]
    else if sep <= s then [""] + Split(s[|sep|..], sep)
    else
      var r := Split(s[1..], sep);
      [[s[0]] + r[0]] + r[1..]
  }

  /** Go's strings.ReplaceAll; the empty pattern matches before every code point and at the end. */
  function ReplaceAll(s: string, old_: string, new_: string): string {
    if old_ == "" then
      if s == "" then new_ else new_ + [s[0]] + ReplaceAll(s[1..], old_, new_)
    else if |s| < |old_| then s
    else if old_ <= s then new_ + ReplaceAll(s[|old_|..], old_, new_)
    else [s[0]] + ReplaceAll(s[1..], old_, new_)
  }

  predicate Contains(s: string, sub: string)
    requires sub != ""
  {
    |s| >= |sub| && (sub <= s || Contains(s[1..], sub))
  }

  lemma {:induction false} JoinAppend(a: seq<string>, b: seq<string>, sep: string)
    requires a != [] && b != []
    ensures Join(a + b, sep) == Join(a, sep) + sep + Join(b, sep)
  {
    assert (a + b)[1..] == a[1..] + b;
    if |a| > 1 {
      JoinAppend(a[1..], b, sep);
    } else {
      assert a[1..] + b == b;
    }
  }

  lemma JoinPrepend(c: char, parts: seq<string>, sep: string)
    requires parts != []
    ensures Join([[c] + parts[0]] + parts[1..], sep) == [c] + Join(parts, sep)
  {
    assert ([[c] + parts[0]] + parts[1..])[1..] == parts[1..];
  }

  /** Splitting loses nothing. */
  lemma {:induction false} JoinSplit(s: string, sep: string)
    requires sep != ""
    ensures Join(Split(s, sep), sep) == s
  {
    if |s| < |sep| {
    } else if sep <= s {
      JoinSplit(s[|sep|..], sep);
      assert Split(s, sep)[1..] == Split(s[|sep|..], sep);
      assert s == sep + s[|sep|..];
    } else {
      JoinSplit(s[1..], sep);
      JoinPrepend(s[0], Split(s[1..], sep), sep);
    }
  }

  /** Replacing is splitting on the pattern and joining with the replacement. */
  lemma {:induction false} ReplaceIsSplitJoin(s: string, old_: string, new_: string)
    requires old_ != ""
    ensures ReplaceAll(s, old_, new_) == Join(Split(s, old_), new_)
  {
    if |s| < |old_| {
    } else if old_ <= s {
      ReplaceIsSplitJoin(s[|old_|..], old_, new_);
      assert Split(s, old_)[1..] == Split(s[|old_|..], old_);
    } else {
      ReplaceIsSplitJoin(s[1..], old_, new_);
      JoinPrepend(s[0], Split(s[1..], old_), new_);
    }
  }

  /** Containing is having the pattern start at some position. */
  lemma {:induction false} ContainsIff(s: string, sub: string)
    requires sub != ""
    ensures Contains(s, sub) <==> exists i :: 0 <= i <= |s| && sub <= s[i..]
  {
    if |s| >= |sub| && !(sub <= s) {
      ContainsIff(s[1..], sub);
      if i :| 0 <= i <= |s[1..]| && sub <= s[1..][i..] { assert s[1..][i..] == s[i + 1..]; }
      assert s[0..] == s;
      if i :| 0 < i <= |s| && sub <= s[i..] {
        assert s[i..] == s[1..][i - 1..];
      }
    } else if |s| >= |sub| {
      assert s[0..] == s;
    }
  }

  /** The separator does not start within the first `n` code points. */
  ghost predicate LacksUpTo(s: string, sep: string, n: nat) {
    forall i | 0 <= i < n && i <= |s| :: !(sep <= s[i..])
  }

  lemma LacksCons(s: string, sep: string, n: nat)
    requires s != "" && !(sep <= s) && LacksUpTo(s[1..], sep, n)
    ensures LacksUpTo(s, sep, n + 1)
  {
    forall i | 0 <= i < n + 1 && i <= |s| ensures !(sep <= s[i..]) {
      if i > 0 { assert s[i..] == s[1..][i - 1..]; } else { assert s[0..] == s; }
    }
  }

  /** The first part ends where the separator first occurs; the rest is split in the same way. */
  lemma {:induction false} SplitAtFirst(s: string, sep: string)
    requires sep != ""
    ensures var r := Split(s, sep);
      && LacksUpTo(s, sep, |r[0]|)
      && (if |r| == 1 then r[0] == s && !Contains(s, sep)
          else
            && |r[0]| + |sep| <= |s| && s == r[0] + sep + s[|r[0]| + |sep|..]
            && r[1..] == Split(s[|r[0]| + |sep|..], sep))
  {
    var r := Split(s, sep);
    if |s| < |sep| {
      forall i | 0 <= i <= |s| ensures !(sep <= s[i..]) {}
    } else if sep <= s {
      assert r[1..] == Split(s[|sep|..], sep);
    } else {
      SplitAtFirst(s[1..], sep);
      LacksCons(s, sep, |Split(s[1..], sep)[0]|);
      SplitAtFirstCons(s, Split(s[1..], sep), sep);
    }
  }

  lemma SplitAtFirstCons(s: string, q: seq<string>, sep: string)
    requires s != "" && q != []
    requires |q| > 1 ==> |q[0]| + |sep| <= |s[1..]| && s[1..] == q[0] + sep + s[1..][|q[0]| + |sep|..]
    requires |q| == 1 ==> q[0] == s[1..]
    ensures var r := [[s[0]] + q[0]] + q[1..];
      && r[1..] == q[1..] && (|q| == 1 ==> r[0] == s)
      && (|q| > 1 ==> |r[0]| + |sep| <= |s| && s[|r[0]| + |sep|..] == s[1..][|q[0]| + |sep|..]
                      && s == r[0] + sep + s[|r[0]| + |sep|..])
  {
  }

  lemma PrefixLacks(s: string, n: nat, sep: string)
    requires sep != "" && n <= |s| && LacksUpTo(s, sep, n)
    ensures !Contains(s[..n], sep)
  {
    var a := s[..n];
    ContainsIff(a, sep);
    forall i | 0 <= i <= |a| ensures !(sep <= a[i..]) {
      assert a[i..] == s[i..][..n - i];
      assert i < n ==> !(sep <= s[i..]);
    }
  }

  lemma FirstPartLacks(s: string, sep: string)
    requires sep != ""
    ensures !Contains(Split(s, sep)[0], sep)
  {
    var first := Split(s, sep)[0];
    SplitAtFirst(s, sep);
    assert first == s[..|first|];
    PrefixLacks(s, |first|, sep);
  }

  /** No part contains the separator. */
  lemma {:induction false} SplitPartsLackSeparator(s: string, sep: string)
    requires sep != ""
    ensures forall k | 0 <= k < |Split(s, sep)| :: !Contains(Split(s, sep)[k], sep)
    decreases |s|
  {
    var r := Split(s, sep);
    SplitAtFirst(s, sep);
    FirstPartLacks(s, sep);
    if |r| > 1 {
      SplitPartsLackSeparator(s[|r[0]| + |sep|..], sep);
      forall k | 0 <= k < |r| ensures !Contains(r[k], sep) {
        if k > 0 { assert r[k] == r[1..][k - 1]; }
      }
    }
  }

  // ---------- Words ----------

  ghost predicate IsWord(w: string) {
    w != "" && NoSpace(w)
  }

  ghost predicate AreWords(ws: seq<string>) {
    forall k | 0 <= k < |ws| :: IsWord(ws[k])
  }

  /** Length of the longest prefix without white space. */
  function WordEnd(s: string): (n: nat)
    ensures n <= |s| && NoSpace(s[..n]) && (n < |s| ==> IsSpace(s[n]))
  {
    if s == "" || IsSpace(s[0]) then 0
    else
      var n := WordEnd(s[1..]);
      assert s[..n + 1] == [s[0]] + s[1..][..n];
      n + 1
  }

  /** Go's strings.Fields. */
  function Fields(s: string): seq<string>
    decreases |s|
  {
    if s == "" then []
    else if IsSpace(s[0]) then Fields(s[1..])
    else [s[..WordEnd(s)]] + Fields(s[WordEnd(s)..])
  }

  /** The words of a text joined by single spaces. */
  function Sentence(ws: seq<string>): string {
    Join(ws, " ")
  }

  lemma {:induction false} FieldsAreWords(s: string)
    ensures AreWords(Fields(s))
    decreases |s|
  {
    if s == "" {
    } else if IsSpace(s[0]) {
      FieldsAreWords(s[1..]);
    } else {
      FieldsAreWords(s[WordEnd(s)..]);
    }
  }

  lemma WordEndIs(s: string, n: nat)
    requires n <= |s| && NoSpace(s[..n]) && (n < |s| ==> IsSpace(s[n]))
    ensures WordEnd(s) == n
  {
    var m := WordEnd(s);
    forall k | 0 <= k < n ensures !IsSpace(s[k]) { assert s[..n][k] == s[k]; }
    forall k | 0 <= k < m ensures !IsSpace(s[k]) { assert s[..m][k] == s[k]; }
  }

  /** A word before white space or the end comes off in front. */
  lemma FieldsOfWordThen(w: string, rest: string)
    requires IsWord(w) && (rest == "" || IsSpace(rest[0]))
    ensures Fields(w + rest) == [w] + Fields(rest)
  {
    var s := w + rest;
    assert s[..|w|] == w && s[|w|..] == rest && s[0] == w[0];
    WordEndIs(s, |w|);
  }

  lemma FirstWord(s: string) returns (w: string, rest: string)
    requires s != "" && !IsSpace(s[0])
    ensures s == w + rest && IsWord(w) && (rest == "" || IsSpace(rest[0]))
  {
    var n := WordEnd(s);
    w, rest := s[..n], s[n..];
  }

  lemma FieldsOfWordAnd(w: string, rest: string, b: string)
    requires IsWord(w) && (rest == "" || IsSpace(rest[0])) && (rest + b == "" || IsSpace((rest + b)[0]))
    requires Fields(rest + b) == Fields(rest) + Fields(b)
    ensures Fields(w + (rest + b)) == Fields(w + rest) + Fields(b)
  {
    FieldsOfWordThen(w, rest);
    FieldsOfWordThen(w, rest + b);
  }

  /** Words do not run across a white-space boundary. */
  lemma {:induction false} FieldsConcat(a: string, b: string)
    requires a == "" || b == "" || IsSpace(a[|a| - 1]) || IsSpace(b[0])
    ensures Fields(a + b) == Fields(a) + Fields(b)
    decreases |a|
  {
    if a == "" || b == "" {
      assert a + b == if a == "" then b else a;
      assert Fields("") == [];
    } else if IsSpace(a[0]) {
      assert (a + b)[1..] == a[1..] + b;
      FieldsConcat(a[1..], b);
    } else {
      var w, rest := FirstWord(a);
      assert a + b == w + (rest + b);
      FieldsConcat(rest, b);
      FieldsOfWordAnd(w, rest, b);
    }
  }

  lemma FieldsOfWord(w: string)
    requires IsWord(w)
    ensures Fields(w) == [w]
  {
    assert w[..|w|] == w;
    WordEndIs(w, |w|);
    assert w[|w|..] == "";
  }

  /** Joining words and splitting again gives the words back. */
  lemma {:induction false} FieldsOfSentence(ws: seq<string>)
    requires AreWords(ws)
    ensures Fields(Sentence(ws)) == ws
  {
    if |ws| == 0 {
    } else if |ws| == 1 {
      FieldsOfWord(ws[0]);
    } else {
      var rest := Sentence(ws[1..]);
      FieldsOfSentence(ws[1..]);
      FieldsOfWord(ws[0]);
      assert Sentence(ws) == ws[0] + (" " + rest);
      assert (" " + rest)[1..] == rest;
      FieldsConcat(ws[0], " " + rest);
    }
  }

  lemma {:induction false} FieldsOfSpaces(s: string)
    requires AllSpace(s)
    ensures Fields(s) == []
  {
    if s != "" {
      FieldsOfSpaces(s[1..]);
    }
  }

  /** Trimming does not change the words. */
  lemma FieldsOfTrim(s: string)
    ensures Fields(TrimSpace(s)) == Fields(s)
  {
    var lo, hi := TrimSpaceSplits(s);
    var a, m, b := s[..lo], s[lo..hi], s[hi..];
    FieldsOfSpaces(a);
    FieldsOfSpaces(b);
    assert s == a + (m + b);
    FieldsConcat(m, b);
    FieldsConcat(a, m + b);
  }

  /** A text is blank exactly when it has no words. */
  lemma BlankHasNoFields(s: string)
    ensures IsBlank(s) <==> Fields(s) == []
  {
    TrimIsTrimmed(s);
    FieldsOfTrim(s);
  }

  lemma {:induction false} SentenceIsTrimmed(ws: seq<string>)
    requires AreWords(ws)
    ensures Trimmed(Sentence(ws))
    ensures Sentence(ws) == "" <==> ws == []
  {
    if |ws| > 1 {
      SentenceIsTrimmed(ws[1..]);
      assert IsWord(ws[0]);
    } else if |ws| == 1 {
      assert IsWord(ws[0]);
    }
  }
}
