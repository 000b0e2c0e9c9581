/** Task IDs: normalisation and the default IDs of internal/dispatch, and task paths of internal/devclient. */
module TaskIds {
  import opened Text
  import opened Wrappers
  import Decimal

  // ---------- Normalisation ----------

  function PathSafe(c: char): char {
    if c == '/' || c == '\\' || IsSpace(c) then '-' else c
  }

  /** strings.Map with PathSafe. */
  function MapSafe(s: string): (r: string)
    ensures |r| == |s| && forall k | 0 <= k < |s| :: r[k] == PathSafe(s[k])
  {
    if s == "" then "" else [PathSafe(s[0])] + MapSafe(s[1..])
  }

  function Normalize(id: string): string {
    MapSafe(TrimSpace(id))
  }

  /** No separator, no white space. */
  ghost predicate Safe(id: string) {
    forall k | 0 <= k < |id| :: id[k] != '/' && id[k] != '\\' && !IsSpace(id[k])
  }

  lemma SafeIsFixed(id: string)
    requires Safe(id)
    ensures TrimSpace(id) == id && Normalize(id) == id
  {
    TrimmedIsFixed(id);
  }

  /**
   Normalised IDs are the trimmed ones with a dash in place of each separator and white space; they are
   safe, blank ones become empty, and normalising again changes nothing.
   */
  lemma NormalizeIsSafe(id: string)
    ensures |Normalize(id)| == |TrimSpace(id)|
    ensures forall k, c | 0 <= k < |TrimSpace(id)| && c == TrimSpace(id)[k] ::
              Normalize(id)[k] == if c == '/' || c == '\\' || IsSpace(c) then '-' else c
    ensures Safe(Normalize(id))
    ensures Normalize(id) == "" <==> IsBlank(id)
    ensures Normalize(Normalize(id)) == Normalize(id) && TrimSpace(Normalize(id)) == Normalize(id)
  {
    SafeIsFixed(Normalize(id));
  }

  // ---------- Default IDs ----------

  /** The counter is a uint64: adding one wraps around. */
  const WRAP: nat := 0x1_0000_0000_0000_0000

  function Bump(counter: nat): nat {
    (counter + 1) % WRAP
  }

  function DefaultTaskID(requestID: string, n: nat): string {
    if Normalize(requestID) != "" then Normalize(requestID) + "-task-" + Decimal.Print(n)
    else "task-" + Decimal.Print(n)
  }

  lemma SafeConcat(a: string, b: string)
    requires Safe(a) && Safe(b)
    ensures Safe(a + b)
  {
  }

  lemma DefaultIsSafe(requestID: string, n: nat)
    ensures Safe(DefaultTaskID(requestID, n)) && DefaultTaskID(requestID, n) != ""
  {
    NormalizeIsSafe(requestID);
    assert Safe("-task-") && Safe("task-") && Safe(Decimal.Print(n));
    SafeConcat("task-", Decimal.Print(n));
    SafeConcat("-task-", Decimal.Print(n));
    SafeConcat(Normalize(requestID), "-task-" + Decimal.Print(n));
    assert DefaultTaskID(requestID, n) == if Normalize(requestID) != ""
      then Normalize(requestID) + ("-task-" + Decimal.Print(n)) else "task-" + Decimal.Print(n);
  }

  /** A default ID is the normalised request ID, if any, then "task", then the counter in decimal. */
  lemma DefaultIdShape(requestID: string, n: nat) returns (head: string, digits: string)
    ensures DefaultTaskID(requestID, n) == head + "task-" + digits
    ensures head == "" <==> Normalize(requestID) == ""
    ensures head != "" ==> head == Normalize(requestID) + "-"
    ensures Decimal.Parse(digits) == n && digits != "" && (n > 0 ==> digits[0] != '0')
    ensures forall k | 0 <= k < |digits| :: '0' <= digits[k] <= '9'
  {
    digits := Decimal.Print(n);
    Decimal.ParsePrint(n);
    if n > 0 { Decimal.NoLeadingZero(n); }
    head := if Normalize(requestID) == "" then "" else Normalize(requestID) + "-";
    assert "-task-" == "-" + "task-";
    assert Normalize(requestID) + "-task-" == Normalize(requestID) + "-" + "task-";
    assert "" + "task-" == "task-";
  }

  /** The part after the last dash. */
  function AfterDash(s: string): string {
    if s == "" || s[|s| - 1] == '-' then "" else AfterDash(s[..|s| - 1]) + [s[|s| - 1]]
  }

  lemma {:induction false} AfterDashOf(head: string, tail: string)
    requires forall k | 0 <= k < |tail| :: tail[k] != '-'
    ensures AfterDash(head + "-" + tail) == tail
  {
    var s := head + "-" + tail;
    if tail != "" {
      assert s[..|s| - 1] == head + "-" + tail[..|tail| - 1];
      AfterDashOf(head, tail[..|tail| - 1]);
    }
  }

  lemma AfterTaskDash(head: string, tail: string)
    requires forall k | 0 <= k < |tail| :: tail[k] != '-'
    ensures AfterDash(head + "-task-" + tail) == tail && AfterDash("task-" + tail) == tail
  {
    AfterDashOf(head + "-task", tail);
    AfterDashOf("task", tail);
    assert head + "-task-" == head + "-task" + "-";
    assert "task-" == "task" + "-";
  }

  lemma DefaultEndsInCounter(requestID: string, n: nat)
    ensures AfterDash(DefaultTaskID(requestID, n)) == Decimal.Print(n)
  {
    var head, tail := Normalize(requestID), Decimal.Print(n);
    AfterTaskDash(head, tail);
    assert DefaultTaskID(requestID, n) == if head != "" then head + "-task-" + tail else "task-" + tail;
  }

  /** Different counter values give different default IDs, whatever the request IDs are. */
  lemma DefaultIdsDiffer(r1: string, r2: string, m: nat, n: nat)
    requires m != n
    ensures DefaultTaskID(r1, m) != DefaultTaskID(r2, n)
  {
    DefaultEndsInCounter(r1, m);
    DefaultEndsInCounter(r2, n);
    if DefaultTaskID(r1, m) == DefaultTaskID(r2, n) {
      Decimal.PrintInjective(m, n);
    }
  }

  /** The counter after `k` increments. */
  function Bumped(counter: nat, k: nat): nat {
    if k == 0 then counter else Bump(Bumped(counter, k - 1))
  }

  lemma {:induction false} BumpedFirst(counter: nat, k: nat)
    ensures Bumped(Bump(counter), k) == Bumped(counter, k + 1)
  {
    if k > 0 {
      BumpedFirst(counter, k - 1);
    }
  }

  lemma BumpOfRemainder(x: nat)
    ensures Bump(x % WRAP) == (x + 1) % WRAP
  {
    var q, m := x / WRAP, x % WRAP;
    assert x + 1 == WRAP * q + (m + 1);
    if m + 1 == WRAP { assert x + 1 == WRAP * (q + 1); }
  }

  lemma {:induction false} BumpedIs(counter: nat, k: nat)
    requires counter < WRAP
    ensures Bumped(counter, k) == (counter + k) % WRAP
  {
    if k > 0 {
      BumpedIs(counter, k - 1);
      BumpOfRemainder(counter + k - 1);
    }
  }

  lemma RemaindersDiffer(x: nat, y: nat)
    requires x < y < x + WRAP
    ensures x % WRAP != y % WRAP
  {
    var p, q := x / WRAP, y / WRAP;
    assert y - x == WRAP * (q - p) + (y % WRAP - x % WRAP);
    assert q == p || q - p >= 1;
  }

  /** Over any stretch of fewer than 2^64 fallbacks, from any counter value, no default ID repeats. */
  lemma DefaultIdsDistinct(counter: nat, requests: seq<string>, i: nat, j: nat)
    requires counter < WRAP && i < j < |requests| && j - i < WRAP
    ensures DefaultTaskID(requests[i], Bumped(counter, i + 1)) != DefaultTaskID(requests[j], Bumped(counter, j + 1))
  {
    BumpedIs(counter, i + 1);
    BumpedIs(counter, j + 1);
    RemaindersDiffer(counter + i + 1, counter + j + 1);
    DefaultIdsDiffer(requests[i], requests[j], Bumped(counter, i + 1), Bumped(counter, j + 1));
  }

  // ---------- Task paths ----------

  const TASK_PREFIX := "/v1/dev/tasks/"

  predicate HasSlash(s: string) {
    exists k | 0 <= k < |s| :: s[k] == '/'
  }

  function TaskIDFromPath(path: string): Option<string> {
    if !(TASK_PREFIX <= path) then None
    else
      var id := path[|TASK_PREFIX|..];
      if id == "" || HasSlash(id) then None else Some(id)
  }

  /** A path yields an ID exactly if it is the task prefix followed by that non-empty, slash-free ID. */
  lemma PathRoundTrip(path: string, id: string)
    ensures TaskIDFromPath(path) == Some(id) <==> path == "/v1/dev/tasks/" + id && id != "" && !HasSlash(id)
  {
    if TASK_PREFIX <= path {
      assert path == TASK_PREFIX + path[|TASK_PREFIX|..];
    }
    assert (TASK_PREFIX + id)[|TASK_PREFIX|..] == id;
  }
}
