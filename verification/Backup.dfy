/**
 BackupFile of internal/registry/backup.go: the first free name, over a file system that is a
 finite map from paths to bytes with exclusive creation.
 */
module Backup {
  import opened Text
  import opened Wrappers
  import Decimal

  type Bytes = seq<bv8>

  class FileSystem {
    var files: map<string, Bytes>

    constructor (files: map<string, Bytes>)
      ensures this.files == files
    {
      this.files := files;
    }

    /** os.OpenFile with O_CREATE|O_EXCL: a new empty file, or nothing if the path is taken. */
    method CreateExclusive(path: string) returns (created: bool)
      modifies this
      ensures created == (path !in old(files))
      ensures files == if created then old(files)[path := []] else old(files)
    {
      created := path !in files;
      if created {
        files := files[path := []];
      }
    }

    method Write(path: string, content: Bytes)
      requires path in files
      modifies this
      ensures files == old(files)[path := content]
    {
      files := files[path := content];
    }

    method Remove(path: string)
      modifies this
      ensures files == old(files) - {path}
    {
      files := files - {path};
    }
  }

  // ---------- Names ----------

  /** Position of the last `c` in `s`, or -1. */
  function LastIndex(s: string, c: char): (i: int)
    ensures -1 <= i < |s| && (i >= 0 ==> s[i] == c)
    ensures forall k | i < k < |s| :: s[k] != c
  {
    if s == "" then -1
    else if s[|s| - 1] == c then |s| - 1
    else LastIndex(s[..|s| - 1], c)
  }

  function StripSlashes(s: string): string {
    if s != "" && s[|s| - 1] == '/' then StripSlashes(s[..|s| - 1]) else s
  }

  ghost predicate NoSlash(s: string) {
    forall k | 0 <= k < |s| :: s[k] != '/'
  }

  /** filepath.Base */
  function BaseName(path: string): (name: string)
    ensures StripSlashes(path) != "" ==> NoSlash(name)
  {
    if path == "" then "."
    else if StripSlashes(path) == "" then "/"
    else StripSlashes(path)[LastIndex(StripSlashes(path), '/') + 1..]
  }

  /** filepath.Ext: from the last dot of the last element on. */
  function Ext(path: string): (ext: string)
    ensures NoSlash(ext)
  {
    var dot := LastIndex(path, '.');
    if dot > LastIndex(path, '/') then path[dot..] else ""
  }

  function TrimSuffix(s: string, suffix: string): string {
    if |suffix| <= |s| && s[|s| - |suffix|..] == suffix then s[..|s| - |suffix|] else s
  }

  function BackupBase(sourcePath: string): (base: string)
    ensures StripSlashes(sourcePath) != "" ==> NoSlash(base)
  {
    TrimSuffix(BaseName(sourcePath), Ext(sourcePath))
  }

  function BackupExt(sourcePath: string): (ext: string)
    ensures ext != "" && NoSlash(ext)
  {
    if Ext(sourcePath) == "" then ".bak" else Ext(sourcePath)
  }

  ghost predicate NoDot(s: string) {
    forall k | 0 <= k < |s| :: s[k] != '.'
  }

  lemma LastIndexIs(s: string, c: char, i: int)
    requires -1 <= i < |s| && (i >= 0 ==> s[i] == c) && forall k | i < k < |s| :: s[k] != c
    ensures LastIndex(s, c) == i
  {
    var j := LastIndex(s, c);
    assert j >= 0 ==> s[j] == c;
  }

  /** A path whose last element starts at `n` and does not end in a slash. */
  ghost predicate LastElementAt(path: string, n: nat) {
    n < |path| && (n == 0 || path[n - 1] == '/') && forall k | n <= k < |path| :: path[k] != '/'
  }

  lemma BaseNameIs(path: string, n: nat)
    requires LastElementAt(path, n)
    ensures BaseName(path) == path[n..] && LastIndex(path, '/') == n - 1
  {
    LastIndexIs(path, '/', n - 1);
    assert StripSlashes(path) == path;
  }

  lemma TrimSuffixOf(path: string, n: nat, m: nat)
    requires n <= m <= |path|
    ensures TrimSuffix(path[n..], path[m..]) == path[n..m]
  {
    assert path[n..][|path[n..]| - |path[m..]|..] == path[m..];
  }

  /** The last element is cut in front of its last dot. */
  lemma CutAtDot(path: string, n: nat, m: nat)
    requires LastElementAt(path, n) && n <= m < |path| && path[m] == '.' && forall k | m < k < |path| :: path[k] != '.'
    ensures BackupBase(path) == path[n..m] && BackupExt(path) == path[m..]
  {
    BaseNameIs(path, n);
    LastIndexIs(path, '.', m);
    TrimSuffixOf(path, n, m);
  }

  /** An element without a dot is kept whole, and gets the extension of a backup. */
  lemma NoDotNoCut(path: string, n: nat)
    requires LastElementAt(path, n) && forall k | n <= k < |path| :: path[k] != '.'
    ensures BackupBase(path) == path[n..] && BackupExt(path) == ".bak"
  {
    BaseNameIs(path, n);
    var dot := LastIndex(path, '.');
    assert dot < n;
    assert Ext(path) == "";
    TrimSuffixOf(path, n, |path|);
    assert path[|path|..] == "" && path[n..|path|] == path[n..];
  }

  /** The parts of a file name with an extension, in any directory. */
  lemma PartsWithExtension(dir: string, base: string, ext: string)
    requires (dir == "" || dir[|dir| - 1] == '/') && NoSlash(base) && NoSlash(ext)
    requires ext != "" && ext[0] == '.' && forall k | 0 < k < |ext| :: ext[k] != '.'
    ensures BackupBase(dir + base + ext) == base && BackupExt(dir + base + ext) == ext
  {
    var path, n, m := dir + base + ext, |dir|, |dir| + |base|;
    assert path[n..m] == base && path[m..] == ext;
    assert forall k | m <= k < |path| :: path[k] == ext[k - m];
    assert forall k | n <= k < m :: path[k] == base[k - n];
    CutAtDot(path, n, m);
  }

  /** The parts of a file name without an extension. */
  lemma PartsWithoutExtension(dir: string, base: string)
    requires (dir == "" || dir[|dir| - 1] == '/') && base != "" && NoSlash(base) && NoDot(base)
    ensures BackupBase(dir + base) == base && BackupExt(dir + base) == ".bak"
  {
    var path := dir + base;
    assert path[|dir|..] == base && forall k | |dir| <= k < |path| :: path[k] == base[k - |dir|];
    NoDotNoCut(path, |dir|);
  }

  /** The name tried in round `i`. */
  function Name(base: string, stamp: string, ext: string, i: nat): string {
    if i == 0 then base + "-" + stamp + ext else base + "-" + stamp + "-" + Decimal.PrintPadded(i) + ext
  }

  function Candidate(sourcePath: string, stamp: string, i: nat): string {
    Name(BackupBase(sourcePath), stamp, BackupExt(sourcePath), i)
  }

  /** No two rounds try the same name. */
  lemma NamesDiffer(base: string, stamp: string, ext: string, i: nat, j: nat)
    requires i != j
    ensures Name(base, stamp, ext, i) != Name(base, stamp, ext, j)
  {
    var stem := base + "-" + stamp;
    var a, b := Name(base, stamp, ext, i), Name(base, stamp, ext, j);
    if i > 0 && j > 0 && a == b {
      var p, q := Decimal.PrintPadded(i), Decimal.PrintPadded(j);
      assert a == (stem + "-") + p + ext && b == (stem + "-") + q + ext;
      assert |p| == |q|;
      assert p == a[|stem| + 1..|stem| + 1 + |p|] && q == b[|stem| + 1..|stem| + 1 + |q|];
      Decimal.PrintPaddedInjective(i, j);
    }
  }

  lemma Regroup(a: string, b: string, c: string, d: string)
    ensures a + b + c + d == a + (b + c) + d
  {
  }

  /** The first name carries no number; the others carry their number in at least two digits. */
  lemma NameShape(base: string, stamp: string, ext: string, i: nat) returns (digits: string)
    ensures i == 0 ==> Name(base, stamp, ext, i) == base + "-" + stamp + ext
    ensures i > 0 ==> |digits| >= 2 && Decimal.Parse(digits) == i && (|digits| > 2 ==> digits[0] != '0')
    ensures i > 0 ==> Name(base, stamp, ext, i) == base + "-" + stamp + ("-" + digits) + ext
  {
    digits := "";
    if i > 0 {
      digits := Decimal.PrintPadded(i);
      Decimal.ParsePrintPadded(i);
      Decimal.PaddedIs(i);
      Regroup(base + "-" + stamp, "-", digits, ext);
    }
  }

  // ---------- The loop ----------

  /** The files that lie directly in a directory, given as the cleaned path with its separator. */
  ghost function InDirectory(files: map<string, Bytes>, dir: string): set<string> {
    set path | path in files && dir <= path && NoSlash(path[|dir|..])
  }

  lemma ConcatNoSlash(a: string, b: string)
    requires NoSlash(a) && NoSlash(b)
    ensures NoSlash(a + b)
  {
  }

  lemma DigitsHaveNoSlash(i: nat)
    ensures NoSlash(Decimal.PrintPadded(i))
  {
    var digits := Decimal.Print(i);
    assert NoSlash(digits);
    ConcatNoSlash("0", digits);
  }

  lemma FourPlainParts(a: string, b: string, c: string, d: string)
    requires NoSlash(a) && NoSlash(b) && NoSlash(c) && NoSlash(d)
    ensures NoSlash(a + b + d) && NoSlash(a + b + c + d)
  {
    ConcatNoSlash(a, b);
    ConcatNoSlash(a + b, c);
    ConcatNoSlash(a + b, d);
    ConcatNoSlash(a + b + c, d);
  }

  lemma NameIsPlain(base: string, stamp: string, ext: string, i: nat)
    requires NoSlash(base) && NoSlash(stamp) && NoSlash(ext)
    ensures NoSlash(Name(base, stamp, ext, i))
  {
    var digits := Decimal.PrintPadded(i);
    DigitsHaveNoSlash(i);
    FourPlainParts(base, "-", "", stamp);
    FourPlainParts(base + "-" + stamp, "-", digits, ext);
    ConcatNoSlash(base + "-" + stamp, ext);
  }

  /** Whatever name is tried, it lies directly in the directory. */
  lemma PathsAreInDirectory(files: map<string, Bytes>, dir: string, sourcePath: string, stamp: string)
    requires NoSlash(stamp) && StripSlashes(sourcePath) != ""
    ensures var f := Paths(dir, sourcePath, stamp); forall i: nat :: dir <= f(i) && NoSlash(f(i)[|dir|..])
    ensures Covers(files, Paths(dir, sourcePath, stamp), InDirectory(files, dir))
  {
    var f := Paths(dir, sourcePath, stamp);
    forall i: nat ensures dir <= f(i) && NoSlash(f(i)[|dir|..]) {
      NameIsPlain(BackupBase(sourcePath), stamp, BackupExt(sourcePath), i);
      assert f(i)[|dir|..] == Candidate(sourcePath, stamp, i);
    }
  }

  /** The path tried in round `i`. */
  function Paths(dir: string, sourcePath: string, stamp: string): nat -> string {
    (i: nat) => dir + Candidate(sourcePath, stamp, i)
  }

  ghost predicate Injective(f: nat -> string) {
    forall i: nat, j: nat | i != j :: f(i) != f(j)
  }

  lemma PathsAreInjective(dir: string, sourcePath: string, stamp: string)
    ensures Injective(Paths(dir, sourcePath, stamp))
  {
    var f := Paths(dir, sourcePath, stamp);
    forall i: nat, j: nat | i != j ensures f(i) != f(j) {
      NamesDiffer(BackupBase(sourcePath), stamp, BackupExt(sourcePath), i, j);
      assert f(i)[|dir|..] == Candidate(sourcePath, stamp, i);
      assert f(j)[|dir|..] == Candidate(sourcePath, stamp, j);
    }
  }

  /** The first `n` values of `f` are all taken. */
  ghost predicate Taken(files: map<string, Bytes>, f: nat -> string, n: nat) {
    forall i: nat | i < n :: f(i) in files
  }

  ghost function Tried(f: nat -> string, n: nat): set<string> {
    if n == 0 then {} else Tried(f, n - 1) + {f(n - 1)}
  }

  lemma {:induction false} TriedAre(f: nat -> string, n: nat, path: string)
    ensures path in Tried(f, n) <==> exists i: nat :: i < n && path == f(i)
  {
    if n > 0 {
      TriedAre(f, n - 1, path);
    }
  }

  lemma {:induction false} TriedCount(f: nat -> string, n: nat)
    requires Injective(f)
    ensures |Tried(f, n)| == n
  {
    if n > 0 {
      TriedCount(f, n - 1);
      TriedAre(f, n - 1, f(n - 1));
    }
  }

  /** Pigeonhole: if the first `n` candidates are all among the existing files, there are at least `n` of these. */
  lemma TakenNeedsFiles(files: map<string, Bytes>, f: nat -> string, existing: set<string>, n: nat)
    requires Injective(f) && Covers(files, f, existing) && Taken(files, f, n)
    ensures n <= |existing|
  {
    TriedCount(f, n);
    forall path | path in Tried(f, n) ensures path in existing { TriedAre(f, n, path); }
    SubsetIsSmaller(Tried(f, n), existing);
  }

  /** Every candidate that is taken is among the existing files. */
  ghost predicate Covers(files: map<string, Bytes>, f: nat -> string, existing: set<string>) {
    forall i: nat :: f(i) in files ==> f(i) in existing
  }

  lemma {:induction false} SubsetIsSmaller(a: set<string>, b: set<string>)
    requires a <= b
    ensures |a| <= |b|
  {
    if a != {} {
      var x :| x in a;
      SubsetIsSmaller(a - {x}, b - {x});
    }
  }

  /** The faults the environment may produce. */
  datatype Fault = NoFault | MkdirFault | OpenFault | CopyFault | CloseFault

  datatype BackupError = SourceRequired | SourceMissing | Failed(fault: Fault)

  /** The loop: it stops because every round that fails uses up one more existing file. */
  method CopyToFirstFree(fs: FileSystem, f: nat -> string, source: Bytes, fault: Fault, ghost existing: set<string>)
    returns (result: Result<string, BackupError>, skipped: nat)
    requires Injective(f) && Covers(fs.files, f, existing)
    modifies fs
    ensures skipped <= |existing| && Taken(old(fs.files), f, skipped)
    ensures result.Ok? <==> fault == NoFault || fault == MkdirFault
    ensures result.Err? ==> result.error == Failed(fault) && fs.files == old(fs.files)
    ensures result.Ok? ==> result.value == f(skipped) && f(skipped) !in old(fs.files)
    ensures result.Ok? ==> fs.files == old(fs.files)[f(skipped) := source]
  {
    skipped := 0;
    ghost var before := fs.files;
    while true
      invariant fs.files == before
      invariant skipped <= |existing| && Taken(before, f, skipped)
      decreases |existing| - skipped
    {
      var backupPath := f(skipped);
      if fault == OpenFault && backupPath !in fs.files {
        return Err(Failed(OpenFault)), skipped;
      }
      var created := fs.CreateExclusive(backupPath);
      if created {
        fs.Write(backupPath, source);
        if fault == CopyFault || fault == CloseFault {
          fs.Remove(backupPath);
          return Err(Failed(fault)), skipped;
        }
        return Ok(backupPath), skipped;
      }
      TakenNeedsFiles(before, f, existing, skipped + 1);
      skipped := skipped + 1;
    }
  }

  /**
   BackupFile, given the backup directory as a cleaned prefix and the formatted time stamp: the
   bytes of the source land under the first free candidate, every other file stays as it was, and
   the number of candidates found taken is at most the number of files lying in that very directory.
   A source of slashes only is the root, which is no file; it is the one name that is not a plain one.
   */
  method BackupFile(fs: FileSystem, sourcePath: string, dir: string, stamp: string, fault: Fault)
    returns (result: Result<string, BackupError>, skipped: nat)
    requires NoSlash(stamp)
    modifies fs
    ensures result.Err? ==> fs.files == old(fs.files)
    ensures result == if IsBlank(sourcePath) then Err(SourceRequired)
                      else if sourcePath !in old(fs.files) then Err(SourceMissing)
                      else if fault != NoFault then Err(Failed(fault))
                      else Ok(Paths(dir, sourcePath, stamp)(skipped))
    ensures Taken(old(fs.files), Paths(dir, sourcePath, stamp), skipped)
    ensures StripSlashes(sourcePath) != "" ==> skipped <= |InDirectory(old(fs.files), dir)|
    ensures result.Ok? ==>
              && result.value !in old(fs.files)
              && fs.files == old(fs.files)[result.value := old(fs.files)[sourcePath]]
  {
    var f := Paths(dir, sourcePath, stamp);
    if IsBlank(sourcePath) {
      return Err(SourceRequired), 0;
    }
    if sourcePath !in fs.files {
      return Err(SourceMissing), 0;
    }
    if fault == MkdirFault {
      return Err(Failed(MkdirFault)), 0;
    }
    PathsAreInjective(dir, sourcePath, stamp);
    ghost var existing := fs.files.Keys;
    if StripSlashes(sourcePath) != "" {
      PathsAreInDirectory(fs.files, dir, sourcePath, stamp);
      existing := InDirectory(fs.files, dir);
    }
    result, skipped := CopyToFirstFree(fs, f, fs.files[sourcePath], fault, existing);
  }
}
