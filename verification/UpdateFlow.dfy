/** Updating a configuration directory from a release: copy what changed after backing it up, then append
    the user's overrides to the agent files. */
module UpdateFlow {
  import opened Text
  import opened Personalizations

  /** The directories, directly inside the configuration directory, that the update treats specially. */
  datatype Top = AtRoot | Overrides | Agents | Backups | Elsewhere(name: string)

  /** `sub` holds the directories between the top one and the file. */
  datatype Path = Path(top: Top, sub: seq<string>, name: string)

  type Files = map<Path, string>

  /** SHA-256, taken to be injective. */
  datatype Digest = Digest(content: string)

  datatype Record = Record(sha: Digest, installedFrom: string)

  type Manifest = map<Path, Record>

  datatype ReleaseFile = ReleaseFile(path: Path, content: string)

  datatype Backup = Backup(original: Path, copy: Path)

  // ---------------------------------------------------------------- backup names

  const JSON := ".json"

  function Stem(name: string): string {
    if EndsWith(name, JSON) then name[..|name| - |JSON|] else name
  }

  function BackupName(name: string, stamp: string): string {
    Stem(name) + ("-" + stamp + JSON)
  }

  /** `backupFile` puts all copies into one directory, under a name made from the base name only. */
  function BackupPath(top: Top, sub: seq<string>, path: Path, stamp: string): Path {
    Path(top, sub, BackupName(path.name, stamp))
  }

  lemma CancelRight(a: string, b: string, s: string, t: string)
    requires |s| == |t|
    ensures a + s == b + t ==> a == b
  {
    if a + s == b + t {
      assert (a + s)[..|a|] == a && (b + t)[..|b|] == b;
    }
  }

  /** Two files share a backup exactly when their names agree up to a final `.json`. */
  lemma BackupNamesCollide(a: string, b: string, stamp: string)
    ensures BackupName(a, stamp) == BackupName(b, stamp) <==> Stem(a) == Stem(b)
  {
    CancelRight(Stem(a), Stem(b), "-" + stamp + JSON, "-" + stamp + JSON);
  }

  /** In other words: the names are the same, or one of them is the other with `.json` behind it. */
  lemma CollidingNames(a: string, b: string, stamp: string)
    ensures BackupName(a, stamp) == BackupName(b, stamp) <==>
            a == b || (a == b + ".json" && !EndsWith(b, ".json")) || (b == a + ".json" && !EndsWith(a, ".json"))
  {
    BackupNamesCollide(a, b, stamp);
    StemExactly(a);
    StemExactly(b);
  }

  lemma StemExactly(name: string)
    ensures EndsWith(name, ".json") ==> name == Stem(name) + ".json"
    ensures !EndsWith(name, ".json") ==> Stem(name) == name
    ensures forall other :: name == other + ".json" ==> EndsWith(name, ".json") && Stem(name) == other
  {
    forall other | name == other + ".json"
      ensures EndsWith(name, ".json") && Stem(name) == other
    {
      assert name[..|other|] == other;
    }
  }

  // ---------------------------------------------------------------- the copy loop

  /** What one run knows from the start: the manifest of the last one, its options, its timestamp. */
  datatype Run = Run(last: Manifest, force: bool, stamp: string, version: string)

  datatype Counts = Counts(updated: nat, skipped: nat, created: nat)

  datatype Copied = Copied(files: Files, counts: Counts, backups: seq<Backup>, manifest: Manifest)

  /** `overrides/`, which an update never writes to. */
  predicate IsProtected(path: Path) {
    path.top.Overrides?
  }

  predicate IsUnchanged(run: Run, file: ReleaseFile) {
    file.path in run.last && run.last[file.path].sha == Digest(file.content) && !run.force
  }

  predicate IsWritten(run: Run, file: ReleaseFile) {
    !IsProtected(file.path) && !IsUnchanged(run, file)
  }

  function RunBackup(run: Run, path: Path): Path {
    BackupPath(Backups, [], path, run.stamp)
  }

  function Write(files: Files, run: Run, file: ReleaseFile): Files {
    var saved := if file.path in files then files[RunBackup(run, file.path) := files[file.path]] else files;
    saved[file.path := file.content]
  }

  function CopyOne(c: Copied, run: Run, file: ReleaseFile): Copied {
    if IsProtected(file.path) then c
    else if IsUnchanged(run, file) then
      c.(counts := c.counts.(skipped := c.counts.skipped + 1), manifest := c.manifest[file.path := run.last[file.path]])
    else
      Copied(Write(c.files, run, file),
             if file.path in c.files then c.counts.(updated := c.counts.updated + 1)
             else c.counts.(created := c.counts.created + 1),
             if file.path in c.files then c.backups + [Backup(file.path, RunBackup(run, file.path))] else c.backups,
             c.manifest[file.path := Record(Digest(file.content), run.version)])
  }

  function CopyAll(files: Files, run: Run, release: seq<ReleaseFile>): Copied {
    if release == [] then Copied(files, Counts(0, 0, 0), [], map[])
    else CopyOne(CopyAll(files, run, release[..|release| - 1]), run, release[|release| - 1])
  }

  /** The files of a directory tree have different paths. */
  predicate IsRelease(release: seq<ReleaseFile>) {
    forall i, j :: 0 <= i < j < |release| ==> release[i].path != release[j].path
  }

  /** A path that a backup of this run could have. */
  predicate IsStamped(path: Path, stamp: string) {
    path.top.Backups? && path.sub == [] && EndsWith(path.name, "-" + stamp + JSON)
  }

  /** The timestamp is new: no file there or in the release carries it. */
  predicate IsFresh(files: Files, release: seq<ReleaseFile>, stamp: string) {
    && (forall path :: path in files ==> !IsStamped(path, stamp))
    && (forall k :: 0 <= k < |release| ==> !IsStamped(release[k].path, stamp))
  }

  lemma BackupIsStamped(run: Run, path: Path)
    ensures IsStamped(RunBackup(run, path), run.stamp)
  {
    var suffix := "-" + run.stamp + JSON;
    assert (Stem(path.name) + suffix)[|Stem(path.name)|..] == suffix;
  }

  /** Where the backup of a file with a given stem is. */
  lemma BackupPlace(run: Run, path: Path, stem: string)
    requires !EndsWith(stem, ".json") && (path.name == stem || path.name == stem + ".json")
    ensures RunBackup(run, path) == Path(Backups, [], stem + "-" + run.stamp + ".json")
  {
    StemExactly(path.name);
    Regroup("-", run.stamp, ".json");
    Regroup(stem, "-", run.stamp);
    Regroup(stem, "-" + run.stamp, ".json");
  }

  // ---------------------------------------------------------------- what the copy loop leaves on disk

  lemma {:induction false} NotInRelease(files: Files, run: Run, release: seq<ReleaseFile>, path: Path)
    requires !IsStamped(path, run.stamp)
    requires forall k :: 0 <= k < |release| && IsWritten(run, release[k]) ==> release[k].path != path
    ensures Get(CopyAll(files, run, release).files, path) == Get(files, path)
  {
    if release != [] {
      var file := release[|release| - 1];
      NotInRelease(files, run, release[..|release| - 1], path);
      BackupIsStamped(run, file.path);
    }
  }

  lemma {:induction false} InRelease(files: Files, run: Run, release: seq<ReleaseFile>, k: nat)
    requires IsRelease(release) && k < |release| && IsWritten(run, release[k])
    requires !IsStamped(release[k].path, run.stamp)
    ensures Get(CopyAll(files, run, release).files, release[k].path) == Some(release[k].content)
  {
    var file := release[|release| - 1];
    if k < |release| - 1 {
      InRelease(files, run, release[..|release| - 1], k);
      BackupIsStamped(run, file.path);
    }
  }

  /** After the loop, every file of the release that was not skipped is there with the released content,
      and every other file except this run's backups is what it was, `overrides/` in particular. */
  lemma CopyInstallsTheRelease(files: Files, run: Run, release: seq<ReleaseFile>, path: Path)
    requires IsRelease(release) && IsFresh(files, release, run.stamp) && !IsStamped(path, run.stamp)
    ensures forall k :: 0 <= k < |release| && release[k].path == path && IsWritten(run, release[k]) ==>
              Get(CopyAll(files, run, release).files, path) == Some(release[k].content)
    ensures (forall k :: 0 <= k < |release| && release[k].path == path ==> !IsWritten(run, release[k])) ==>
              Get(CopyAll(files, run, release).files, path) == Get(files, path)
  {
    if k :| 0 <= k < |release| && release[k].path == path && IsWritten(run, release[k]) {
      InRelease(files, run, release, k);
    } else {
      NotInRelease(files, run, release, path);
    }
  }

  /** A file of the release is installed afterwards if and only if it was written or was there before with
      the released content; what the manifest says about it is no proof of that. */
  lemma InstalledExactlyWhen(files: Files, run: Run, release: seq<ReleaseFile>, k: nat)
    requires IsRelease(release) && IsFresh(files, release, run.stamp) && k < |release|
    ensures Get(CopyAll(files, run, release).files, release[k].path) == Some(release[k].content) <==>
            IsWritten(run, release[k]) || Get(files, release[k].path) == Some(release[k].content)
  {
    CopyInstallsTheRelease(files, run, release, release[k].path);
  }

  /** A file that the manifest records as current and that has been deleted is not installed again. */
  lemma DeletedFileStaysMissing(path: Path, content: string, stamp: string, version: string)
    requires !IsProtected(path) && !IsStamped(path, stamp)
    ensures var release := [ReleaseFile(path, content)];
            var run := Run(map[path := Record(Digest(content), version)], false, stamp, version);
            Get(CopyAll(map[], run, release).files, path) == None
  {
    var release := [ReleaseFile(path, content)];
    var run := Run(map[path := Record(Digest(content), version)], false, stamp, version);
    NotInRelease(map[], run, release, path);
  }

  // ---------------------------------------------------------------- counts and backups of the copy loop

  function Outside(release: seq<ReleaseFile>): nat {
    if release == [] then 0
    else Outside(release[..|release| - 1]) + if IsProtected(release[|release| - 1].path) then 0 else 1
  }

  /** Every file outside `overrides/` is counted once, and every update has its backup. */
  lemma {:induction false} CopyCountsEveryFile(files: Files, run: Run, release: seq<ReleaseFile>)
    ensures var c := CopyAll(files, run, release);
            && c.counts.updated + c.counts.skipped + c.counts.created == Outside(release)
            && |c.backups| == c.counts.updated
  {
    if release != [] {
      CopyCountsEveryFile(files, run, release[..|release| - 1]);
    }
  }

  ghost function Writing(run: Run): ReleaseFile -> bool {
    (file: ReleaseFile) => IsWritten(run, file)
  }

  ghost function Replacing(files: Files, run: Run): ReleaseFile -> bool {
    (file: ReleaseFile) => IsWritten(run, file) && file.path in files
  }

  ghost function LeavingAlone(run: Run): ReleaseFile -> bool {
    (file: ReleaseFile) => file.path.top != Overrides && !IsWritten(run, file)
  }

  lemma CountsOfLast(before: Copied, run: Run, file: ReleaseFile)
    ensures var b, a := before.counts, CopyOne(before, run, file).counts;
            && a.updated == b.updated + (if IsWritten(run, file) && file.path in before.files then 1 else 0)
            && a.created == b.created + (if IsWritten(run, file) && file.path !in before.files then 1 else 0)
            && a.skipped == b.skipped + (if file.path.top != Overrides && !IsWritten(run, file) then 1 else 0)
  {
  }

  /** The counters count what they say: files written over an existing one, files written anew, and files left
      alone. */
  lemma {:induction false} CopyCounts(files: Files, run: Run, release: seq<ReleaseFile>, n: nat)
    requires n <= |release| && IsRelease(release) && IsFresh(files, release, run.stamp)
    ensures var c := CopyAll(files, run, release[..n]).counts;
            && c.updated == |Where(release, n, Replacing(files, run))|
            && c.updated + c.created == |Where(release, n, Writing(run))|
            && c.skipped == |Where(release, n, LeavingAlone(run))|
  {
    if n > 0 {
      var file, c := release[n - 1], CopyAll(files, run, release[..n - 1]);
      CopyCounts(files, run, release, n - 1);
      assert release[..n][..n - 1] == release[..n - 1];
      NotYetTouched(release[..n], files, run);
      CountsOfLast(c, run, file);
      assert file.path in c.files <==> file.path in files;
      WhereOneMore(release, n, Writing(run));
      WhereOneMore(release, n, Replacing(files, run));
      WhereOneMore(release, n, LeavingAlone(run));
    }
  }

  /** A file of the release that replaces one on disk. */
  predicate IsOverwritten(files: Files, run: Run, file: ReleaseFile) {
    IsWritten(run, file) && file.path in files
  }

  lemma NotYetTouched(release: seq<ReleaseFile>, files: Files, run: Run)
    requires release != [] && IsRelease(release) && IsFresh(files, release, run.stamp)
    ensures Get(CopyAll(files, run, release[..|release| - 1]).files, release[|release| - 1].path)
         == Get(files, release[|release| - 1].path)
  {
    NotInRelease(files, run, release[..|release| - 1], release[|release| - 1].path);
  }

  /** The records that are returned: one for each overwritten file. */
  lemma {:induction false} BackupsAreOfOverwrittenFiles(files: Files, run: Run, release: seq<ReleaseFile>,
                                                        backup: Backup)
    requires IsRelease(release) && IsFresh(files, release, run.stamp)
    ensures backup in CopyAll(files, run, release).backups <==>
            exists k :: 0 <= k < |release| && IsOverwritten(files, run, release[k])
                        && backup == Backup(release[k].path, RunBackup(run, release[k].path))
  {
    if release != [] {
      var front, file := release[..|release| - 1], release[|release| - 1];
      BackupsAreOfOverwrittenFiles(files, run, front, backup);
      NotYetTouched(release, files, run);
      assert release == front + [file];
      assert IsOverwritten(files, run, file) <==> IsWritten(run, file) && file.path in CopyAll(files, run, front).files;
      if k :|
        && 0 <= k < |front| && IsOverwritten(files, run, front[k])
        && backup == Backup(front[k].path, RunBackup(run, front[k].path))
      {
        assert release[k] == front[k];
      }
      assert release[|release| - 1] == file;
    }
  }

  /** A backup holds the previous content of the last overwritten file that goes under its name. */
  lemma {:induction false} BackupHoldsLast(files: Files, run: Run, release: seq<ReleaseFile>, k: nat)
    requires IsRelease(release) && IsFresh(files, release, run.stamp)
    requires k < |release| && IsOverwritten(files, run, release[k])
    requires forall j :: k < j < |release| && IsOverwritten(files, run, release[j]) ==>
               RunBackup(run, release[j].path) != RunBackup(run, release[k].path)
    ensures Get(CopyAll(files, run, release).files, RunBackup(run, release[k].path)) == Get(files, release[k].path)
  {
    var file := release[|release| - 1];
    NotYetTouched(release, files, run);
    BackupIsStamped(run, release[k].path);
    if k < |release| - 1 {
      BackupHoldsLast(files, run, release[..|release| - 1], k);
    }
  }

  lemma LastUnderName(files: Files, run: Run, release: seq<ReleaseFile>, k: nat) returns (last: nat)
    requires k < |release| && IsOverwritten(files, run, release[k])
    ensures k <= last < |release| && IsOverwritten(files, run, release[last])
    ensures RunBackup(run, release[last].path) == RunBackup(run, release[k].path)
    ensures forall j :: last < j < |release| && IsOverwritten(files, run, release[j]) ==>
              RunBackup(run, release[j].path) != RunBackup(run, release[k].path)
  {
    last := k;
    for j := k + 1 to |release|
      invariant k <= last < j && IsOverwritten(files, run, release[last])
      invariant RunBackup(run, release[last].path) == RunBackup(run, release[k].path)
      invariant forall i :: last < i < j && IsOverwritten(files, run, release[i]) ==>
                  RunBackup(run, release[i].path) != RunBackup(run, release[k].path)
    {
      if IsOverwritten(files, run, release[j]) && RunBackup(run, release[j].path) == RunBackup(run, release[k].path) {
        last := j;
      }
    }
  }

  /** Every overwritten content survives under its backup name. */
  predicate NothingLost(files: Files, run: Run, release: seq<ReleaseFile>) {
    forall k :: 0 <= k < |release| && IsOverwritten(files, run, release[k]) ==>
      Get(CopyAll(files, run, release).files, RunBackup(run, release[k].path)) == Get(files, release[k].path)
  }

  /** Overwritten files whose names agree up to a final `.json` had equal contents. */
  predicate NamesTellApart(files: Files, run: Run, release: seq<ReleaseFile>) {
    forall j, k :: 0 <= j < |release| && 0 <= k < |release|
                   && IsOverwritten(files, run, release[j]) && IsOverwritten(files, run, release[k])
                   && Stem(release[j].path.name) == Stem(release[k].path.name) ==>
      files[release[j].path] == files[release[k].path]
  }

  /** Exactly when nothing is lost: the names of the overwritten files tell their contents apart. */
  lemma NothingLostExactlyWhen(files: Files, run: Run, release: seq<ReleaseFile>)
    requires IsRelease(release) && IsFresh(files, release, run.stamp)
    ensures NothingLost(files, run, release) <==> NamesTellApart(files, run, release)
  {
    if NothingLost(files, run, release) {
      forall j, k | 0 <= j < |release| && 0 <= k < |release|
                    && IsOverwritten(files, run, release[j]) && IsOverwritten(files, run, release[k])
                    && Stem(release[j].path.name) == Stem(release[k].path.name)
        ensures files[release[j].path] == files[release[k].path]
      {
        assert RunBackup(run, release[j].path) == RunBackup(run, release[k].path);
        assert Get(files, release[j].path) == Get(files, release[k].path);
      }
    } else {
      var k :| 0 <= k < |release| && IsOverwritten(files, run, release[k])
               && Get(CopyAll(files, run, release).files, RunBackup(run, release[k].path))
                  != Get(files, release[k].path);
      var last := LastUnderName(files, run, release, k);
      BackupHoldsLast(files, run, release, last);
      BackupNamesCollide(release[last].path.name, release[k].path.name, run.stamp);
      assert files[release[last].path] != files[release[k].path];
    }
  }

  /** Two `SKILL.md` in different directories share a backup: the first one's content is gone. */
  lemma TwoSkillFiles(a: string, b: string, before: string, after: string, shipped: string, stamp: string,
                      version: string)
    requires a != b && before != after
    ensures var p := Path(Elsewhere("skills"), [a], "SKILL.md");
            var q := Path(Elsewhere("skills"), [b], "SKILL.md");
            var files: Files := map[p := before, q := after];
            var run := Run(map[], false, stamp, version);
            var release := [ReleaseFile(p, shipped), ReleaseFile(q, shipped)];
            && IsRelease(release) && IsFresh(files, release, stamp)
            && !NothingLost(files, run, release)
  {
    var p := Path(Elsewhere("skills"), [a], "SKILL.md");
    var q := Path(Elsewhere("skills"), [b], "SKILL.md");
    assert [a][0] != [b][0];
    var files: Files := map[p := before, q := after];
    var run := Run(map[], false, stamp, version);
    var release := [ReleaseFile(p, shipped), ReleaseFile(q, shipped)];
    NothingLostExactlyWhen(files, run, release);
    assert IsOverwritten(files, run, release[0]) && IsOverwritten(files, run, release[1]);
    assert files[release[0].path] != files[release[1].path];
  }

  // ---------------------------------------------------------------- the manifest, and a second copy

  /** The manifest records every file outside `overrides/` with its digest as released. */
  lemma {:induction false} ManifestHasRelease(files: Files, run: Run, release: seq<ReleaseFile>, k: nat)
    requires IsRelease(release) && k < |release| && !IsProtected(release[k].path)
    ensures var manifest := CopyAll(files, run, release).manifest;
            release[k].path in manifest && manifest[release[k].path].sha == Digest(release[k].content)
  {
    if k < |release| - 1 {
      ManifestHasRelease(files, run, release[..|release| - 1], k);
    }
  }

  /** The manifest records nothing else. */
  lemma {:induction false} ManifestHasNothingElse(files: Files, run: Run, release: seq<ReleaseFile>, path: Path)
    requires forall k :: 0 <= k < |release| && !IsProtected(release[k].path) ==> release[k].path != path
    ensures path !in CopyAll(files, run, release).manifest
  {
    if release != [] {
      ManifestHasNothingElse(files, run, release[..|release| - 1], path);
    }
  }

  lemma {:induction false} ManifestRecord(files: Files, run: Run, release: seq<ReleaseFile>, k: nat)
    requires IsRelease(release) && k < |release|
    ensures Get(CopyAll(files, run, release).manifest, release[k].path) ==
            if IsProtected(release[k].path) then None
            else if IsUnchanged(run, release[k]) then Some(run.last[release[k].path])
            else Some(Record(Digest(release[k].content), run.version))
  {
    if k < |release| - 1 {
      ManifestRecord(files, run, release[..|release| - 1], k);
    } else {
      ManifestHasNothingElse(files, run, release[..k], release[k].path);
    }
  }

  /** File by file: what is under `overrides/` is left out; what the manifest records with the released content is
      left alone, unless the update is forced; and everything else is written, and recorded for this version. */
  lemma CopyFileByFile(files: Files, run: Run, release: seq<ReleaseFile>, k: nat)
    requires IsRelease(release) && IsFresh(files, release, run.stamp) && k < |release|
    ensures var c, path, content := CopyAll(files, run, release), release[k].path, release[k].content;
            if path.top == Overrides then
              Get(c.files, path) == Get(files, path) && path !in c.manifest
            else if !run.force && path in run.last && run.last[path].sha == Digest(content) then
              Get(c.files, path) == Get(files, path) && Get(c.manifest, path) == Some(run.last[path])
            else
              Get(c.files, path) == Some(content) && Get(c.manifest, path) == Some(Record(Digest(content), run.version))
  {
    CopyInstallsTheRelease(files, run, release, release[k].path);
    ManifestRecord(files, run, release, k);
  }

  predicate KnowsRelease(run: Run, release: seq<ReleaseFile>) {
    forall k :: 0 <= k < |release| && !IsProtected(release[k].path) ==> IsUnchanged(run, release[k])
  }

  lemma {:induction false} NothingToCopy(files: Files, run: Run, release: seq<ReleaseFile>)
    requires KnowsRelease(run, release)
    ensures var c := CopyAll(files, run, release);
            && c.files == files && c.counts == Counts(0, Outside(release), 0) && c.backups == []
            && (forall path :: path in c.manifest ==> path in run.last && c.manifest[path] == run.last[path])
            && (forall k :: 0 <= k < |release| && !IsProtected(release[k].path) ==> release[k].path in c.manifest)
  {
    if release != [] {
      NothingToCopy(files, run, release[..|release| - 1]);
    }
  }

  /** The second copy of the same release, unless forced, does nothing, whatever is on disk by then. */
  lemma SecondCopyDoesNothing(files: Files, run: Run, release: seq<ReleaseFile>, later: Files, again: Run)
    requires IsRelease(release)
    requires !again.force && again.last == CopyAll(files, run, release).manifest
    ensures CopyAll(later, again, release) == Copied(later, Counts(0, Outside(release), 0), [], again.last)
  {
    forall k | 0 <= k < |release| && !IsProtected(release[k].path)
      ensures IsUnchanged(again, release[k])
    {
      ManifestHasRelease(files, run, release, k);
    }
    NothingToCopy(later, again, release);
    var c := CopyAll(later, again, release);
    forall path | path !in c.manifest
      ensures path !in again.last
    {
      ManifestHasNothingElse(files, run, release, path);
    }
    SameMap(c.manifest, again.last);
  }

  // ---------------------------------------------------------------- appending the overrides

  datatype Appended = Appended(files: Files, merged: nat, skipped: nat, orphaned: nat)

  const BACKUP_DIR := "opencode-bak"
  const MD := ".md"
  const README := "readme.md"

  /** `.md` files other than `README.md`, in any case. */
  predicate IsOverrideName(name: string) {
    EndsWith(name, MD) && !(|name| == |README| && forall i :: 0 <= i < |name| ==> LowerChar(name[i]) == README[i])
  }

  function AgentPath(name: string): Path {
    Path(Agents, [], name)
  }

  function OverridePath(name: string): Path {
    Path(Overrides, [], name)
  }

  function AgentBackup(name: string, stamp: string): Path {
    BackupPath(Agents, [BACKUP_DIR], AgentPath(name), stamp)
  }

  /** Whether this override is left alone: not an override, an orphan, unreadable, empty or there already. */
  predicate IsSettled(files: Files, name: string) {
    || !IsOverrideName(name) || AgentPath(name) !in files || OverridePath(name) !in files
    || IsBlank(Body(files[OverridePath(name)]))
    || AlreadyMerged(files[AgentPath(name)], Body(files[OverridePath(name)]))
  }

  function Append(files: Files, name: string, stamp: string): Files
    requires !IsSettled(files, name)
  {
    var agent := files[AgentPath(name)];
    files[AgentBackup(name, stamp) := agent][AgentPath(name) := MergedContent(agent, Body(files[OverridePath(name)]))]
  }

  function AppendOne(a: Appended, name: string, stamp: string): Appended {
    if !IsOverrideName(name) then a
    else if AgentPath(name) !in a.files then a.(orphaned := a.orphaned + 1)
    else if OverridePath(name) !in a.files then a
    else if IsSettled(a.files, name) then a.(skipped := a.skipped + 1)
    else a.(files := Append(a.files, name, stamp), merged := a.merged + 1)
  }

  /** `stamps` are the times at which the overrides are reached, one for each. */
  function AppendAll(files: Files, names: seq<string>, stamps: seq<string>): Appended
    requires |stamps| == |names|
  {
    if names == [] then Appended(files, 0, 0, 0)
    else
      AppendOne(AppendAll(files, names[..|names| - 1], stamps[..|names| - 1]), names[|names| - 1], stamps[|names| - 1])
  }

  predicate HasAgents(files: Files) {
    exists path :: path in files && path.top.Agents?
  }

  /** `mergePersonalizations`; `agentsDir` says whether there is an `agents/` directory, empty or not. */
  function AppendOverrides(files: Files, agentsDir: bool, names: seq<string>, stamps: seq<string>): Appended
    requires |stamps| == |names|
  {
    if agentsDir then AppendAll(files, names, stamps) else Appended(files, 0, 0, 0)
  }

  predicate BringsAgents(release: seq<ReleaseFile>) {
    exists k :: 0 <= k < |release| && release[k].path.top == Agents
  }

  /** The copy loop deletes nothing, and what is new comes from the release or is a backup. */
  lemma {:induction false} AgentsAfterCopy(files: Files, run: Run, release: seq<ReleaseFile>)
    ensures var after := CopyAll(files, run, release).files;
            && (HasAgents(files) ==> HasAgents(after))
            && (HasAgents(after) ==> HasAgents(files) || BringsAgents(release))
  {
    if release != [] {
      var front, file := release[..|release| - 1], release[|release| - 1];
      var before, after := CopyAll(files, run, front).files, CopyAll(files, run, release).files;
      AgentsAfterCopy(files, run, front);
      assert forall path :: path in before ==> path in after;
      assert forall path :: path in after && path.top == Agents ==> path in before || path == file.path;
      if HasAgents(after) && !HasAgents(before) {
        assert release[|release| - 1].path.top == Agents;
      }
      if BringsAgents(front) {
        var k :| 0 <= k < |front| && front[k].path.top == Agents;
        assert release[k].path.top == Agents;
      }
    }
  }

  /** Nothing outside `agents/` is written, `overrides/` in particular. */
  lemma {:induction false} AppendTouchesAgentsOnly(files: Files, names: seq<string>, stamps: seq<string>, path: Path)
    requires |stamps| == |names| && !path.top.Agents?
    ensures Get(AppendAll(files, names, stamps).files, path) == Get(files, path)
  {
    if names != [] {
      AppendTouchesAgentsOnly(files, names[..|names| - 1], stamps[..|names| - 1], path);
    }
  }

  lemma SettledAfter(a: Appended, name: string, stamp: string)
    ensures IsSettled(AppendOne(a, name, stamp).files, name)
  {
    if !IsSettled(a.files, name) {
      var agent, body := a.files[AgentPath(name)], Body(a.files[OverridePath(name)]);
      AppendedOnce(agent, body);
      var after := AppendOne(a, name, stamp).files;
      assert after[AgentPath(name)] == MergedContent(agent, body);
      assert after[OverridePath(name)] == a.files[OverridePath(name)];
    }
  }

  lemma SettledKept(a: Appended, other: string, stamp: string, name: string)
    requires IsSettled(a.files, name) && other != name
    ensures IsSettled(AppendOne(a, other, stamp).files, name)
  {
    var after := AppendOne(a, other, stamp).files;
    assert Get(after, AgentPath(name)) == Get(a.files, AgentPath(name));
    assert Get(after, OverridePath(name)) == Get(a.files, OverridePath(name));
  }

  lemma {:induction false} AllSettledAfter(files: Files, names: seq<string>, stamps: seq<string>, k: nat)
    requires |stamps| == |names| && Distinct(names) && k < |names|
    ensures IsSettled(AppendAll(files, names, stamps).files, names[k])
  {
    var last := |names| - 1;
    var before := AppendAll(files, names[..last], stamps[..last]);
    if k == last {
      SettledAfter(before, names[last], stamps[last]);
    } else {
      AllSettledAfter(files, names[..last], stamps[..last], k);
      SettledKept(before, names[last], stamps[last], names[k]);
    }
  }

  lemma {:induction false} NothingToAppend(files: Files, names: seq<string>, stamps: seq<string>)
    requires |stamps| == |names| && forall k :: 0 <= k < |names| ==> IsSettled(files, names[k])
    ensures AppendAll(files, names, stamps).files == files && AppendAll(files, names, stamps).merged == 0
  {
    if names != [] {
      NothingToAppend(files, names[..|names| - 1], stamps[..|names| - 1]);
    }
  }

  /** Appending the overrides a second time does nothing. */
  lemma SecondAppendDoesNothing(files: Files, agentsDir: bool, names: seq<string>, stamps: seq<string>,
                                laterDir: bool, later: seq<string>)
    requires |stamps| == |names| == |later| && Distinct(names) && (HasAgents(files) ==> agentsDir)
    ensures var once := AppendOverrides(files, agentsDir, names, stamps).files;
            && AppendOverrides(once, laterDir, names, later).files == once
            && AppendOverrides(once, laterDir, names, later).merged == 0
  {
    var once := AppendOverrides(files, agentsDir, names, stamps).files;
    forall k | 0 <= k < |names|
      ensures IsSettled(once, names[k])
    {
      if agentsDir {
        AllSettledAfter(files, names, stamps, k);
      }
    }
    NothingToAppend(once, names, later);
  }

  // ---------------------------------------------------------------- what appending leaves on disk

  /** Timestamps have one length, so a backup's name determines the agent file it is of. */
  predicate AreStamps(stamps: seq<string>) {
    forall i, j :: 0 <= i < |stamps| && 0 <= j < |stamps| ==> |stamps[i]| == |stamps[j]|
  }

  lemma AgentBackupsDiffer(a: string, b: string, s: string, t: string)
    requires IsOverrideName(a) && IsOverrideName(b) && a != b && |s| == |t|
    ensures AgentBackup(a, s) != AgentBackup(b, t)
  {
    assert a[|a| - 1] == MD[2] && b[|b| - 1] == MD[2] && JSON[4] != MD[2];
    assert Stem(a) == a && Stem(b) == b;
    CancelRight(a, b, "-" + s + JSON, "-" + t + JSON);
  }

  lemma AppendOneLeavesOthers(a: Appended, name: string, stamp: string, path: Path)
    requires path != AgentPath(name) && (IsOverrideName(name) ==> path != AgentBackup(name, stamp))
    ensures Get(AppendOne(a, name, stamp).files, path) == Get(a.files, path)
  {
  }

  lemma {:induction false} AppendLeavesOthers(files: Files, names: seq<string>, stamps: seq<string>, path: Path)
    requires |stamps| == |names|
    requires forall k :: 0 <= k < |names| ==> path != AgentPath(names[k])
    requires forall k :: 0 <= k < |names| && IsOverrideName(names[k]) ==> path != AgentBackup(names[k], stamps[k])
    ensures Get(AppendAll(files, names, stamps).files, path) == Get(files, path)
  {
    if names != [] {
      var last := |names| - 1;
      AppendLeavesOthers(files, names[..last], stamps[..last], path);
      AppendOneLeavesOthers(AppendAll(files, names[..last], stamps[..last]), names[last], stamps[last], path);
    }
  }

  lemma SameInputsSameChoice(files: Files, later: Files, name: string)
    requires Get(files, AgentPath(name)) == Get(later, AgentPath(name))
    requires Get(files, OverridePath(name)) == Get(later, OverridePath(name))
    ensures IsSettled(files, name) == IsSettled(later, name)
    ensures (AgentPath(name) in files) == (AgentPath(name) in later)
    ensures (OverridePath(name) in files) == (OverridePath(name) in later)
  {
  }

  /** An agent file is as it was, or has its override appended and its previous content backed up. */
  predicate IsAppendedOrLeft(files: Files, after: Files, name: string, stamp: string) {
    if IsSettled(files, name) then Get(after, AgentPath(name)) == Get(files, AgentPath(name))
    else
      && Get(after, AgentPath(name)) == Some(MergedContent(files[AgentPath(name)], Body(files[OverridePath(name)])))
      && Get(after, AgentBackup(name, stamp)) == Some(files[AgentPath(name)])
  }

  lemma AppendedOrLeftByLast(files: Files, before: Appended, name: string, stamp: string)
    requires Get(before.files, AgentPath(name)) == Get(files, AgentPath(name))
    requires Get(before.files, OverridePath(name)) == Get(files, OverridePath(name))
    ensures IsAppendedOrLeft(files, AppendOne(before, name, stamp).files, name, stamp)
  {
    SameInputsSameChoice(files, before.files, name);
  }

  lemma AppendedOrLeftByOther(files: Files, before: Appended, name: string, stamp: string, other: string,
                              otherStamp: string)
    requires IsAppendedOrLeft(files, before.files, name, stamp) && other != name && |otherStamp| == |stamp|
    ensures IsAppendedOrLeft(files, AppendOne(before, other, otherStamp).files, name, stamp)
  {
    if !IsSettled(before.files, other) && !IsSettled(files, name) {
      AgentBackupsDiffer(name, other, stamp, otherStamp);
    }
  }

  /** Each agent file ends up as it was or with its override appended, whatever the other overrides do, and
      what it was before is then in its backup. */
  lemma {:induction false} AppendedOrLeft(files: Files, names: seq<string>, stamps: seq<string>, k: nat)
    requires |stamps| == |names| && Distinct(names) && AreStamps(stamps) && k < |names|
    ensures IsAppendedOrLeft(files, AppendAll(files, names, stamps).files, names[k], stamps[k])
  {
    var last := |names| - 1;
    var before := AppendAll(files, names[..last], stamps[..last]);
    if k == last {
      AppendLeavesOthers(files, names[..last], stamps[..last], AgentPath(names[k]));
      AppendTouchesAgentsOnly(files, names[..last], stamps[..last], OverridePath(names[k]));
      AppendedOrLeftByLast(files, before, names[k], stamps[k]);
    } else {
      AppendedOrLeft(files, names[..last], stamps[..last], k);
      AppendedOrLeftByOther(files, before, names[k], stamps[k], names[last], stamps[last]);
    }
  }

  lemma OverrideNames(name: string)
    ensures IsOverrideName(name) <==> EndsWith(name, ".md") && !EqualUpToCase(name, "readme.md")
  {
    if |name| == |README| {
      forall i | 0 <= i < |name|
        ensures LowerChar(name[i]) == README[i] <==> IsCaseOf(name[i], README[i])
      {
        assert README[i] in "readme.";
      }
    }
  }

  /** Every override with an agent file and a body that is not blank is in force afterwards: its agent file ends
      in the body, because it did before or because the body has been appended as a paragraph of its own, and then
      the file as it was is in its backup. No other agent file changes. */
  lemma OverridesAreInForce(files: Files, names: seq<string>, stamps: seq<string>, k: nat, body: string)
    requires |stamps| == |names| && Distinct(names) && AreStamps(stamps) && k < |names|
    requires OverridePath(names[k]) in files ==> IsBodyOf(files[OverridePath(names[k])], body)
    ensures var name, after := names[k], AppendAll(files, names, stamps).files;
            var agent, override, copy :=
              Path(Agents, [], name), Path(Overrides, [], name),
              Path(Agents, ["opencode-bak"], name + ("-" + stamps[k] + ".json"));
            if && EndsWith(name, ".md") && !EqualUpToCase(name, "readme.md")
               && agent in files && override in files
               && !IsBlank(body) && !EndsWith(ChopNewlines(files[agent]), ChopNewlines(body))
            then
              && Get(after, agent) == Some((if EndsWith(files[agent], "\n") then files[agent] else files[agent] + "\n")
                                           + "\n" + ChopNewlines(body) + "\n")
              && Get(after, copy) == Some(files[agent])
            else Get(after, agent) == Get(files, agent)
  {
    var name := names[k];
    OverrideNames(name);
    AppendedOrLeft(files, names, stamps, k);
    if IsOverrideName(name) && AgentPath(name) in files && OverridePath(name) in files {
      BodyExactly(files[OverridePath(name)], body);
      if !IsBlank(body) {
        DigestTestIsRedundant(files[AgentPath(name)], body);
        MergedShape(files[AgentPath(name)], body);
        StemOfOverride(name);
      }
    }
  }

  lemma StemOfOverride(name: string)
    requires IsOverrideName(name)
    ensures Stem(name) == name
  {
    assert name[|name| - 1] == MD[2] && JSON[4] != MD[2];
  }

  predicate IsOrphan(files: Files, name: string) {
    IsOverrideName(name) && AgentPath(name) !in files
  }

  predicate IsApplicable(files: Files, name: string) {
    IsOverrideName(name) && AgentPath(name) in files && OverridePath(name) in files
  }

  ghost function Orphaned(files: Files): string -> bool {
    (name: string) => IsOrphan(files, name)
  }

  ghost function Applicable(files: Files): string -> bool {
    (name: string) => IsApplicable(files, name)
  }

  ghost function Unsettled(files: Files): string -> bool {
    (name: string) => !IsSettled(files, name)
  }

  lemma AppendCountsOfLast(before: Appended, name: string, stamp: string)
    ensures var after, files := AppendOne(before, name, stamp), before.files;
            && after.orphaned == before.orphaned + (if IsOrphan(files, name) then 1 else 0)
            && after.merged == before.merged + (if IsSettled(files, name) then 0 else 1)
            && after.merged + after.skipped == before.merged + before.skipped
               + (if IsApplicable(files, name) then 1 else 0)
  {
  }

  /** The counters of the appending: overrides without an agent file, those that are appended, and the rest. */
  lemma {:induction false} AppendCounts(files: Files, names: seq<string>, stamps: seq<string>, n: nat)
    requires |stamps| == |names| && Distinct(names) && n <= |names|
    ensures var a := AppendAll(files, names[..n], stamps[..n]);
            && a.orphaned == |Where(names, n, Orphaned(files))|
            && a.merged == |Where(names, n, Unsettled(files))|
            && a.merged + a.skipped == |Where(names, n, Applicable(files))|
  {
    if n > 0 {
      var last := n - 1;
      var name, before := names[last], AppendAll(files, names[..last], stamps[..last]);
      AppendCounts(files, names, stamps, last);
      assert names[..n][..last] == names[..last] && stamps[..n][..last] == stamps[..last];
      AppendLeavesOthers(files, names[..last], stamps[..last], AgentPath(name));
      AppendTouchesAgentsOnly(files, names[..last], stamps[..last], OverridePath(name));
      SameInputsSameChoice(files, before.files, name);
      AppendCountsOfLast(before, name, stamps[last]);
      WhereOneMore(names, n, Orphaned(files));
      WhereOneMore(names, n, Unsettled(files));
      WhereOneMore(names, n, Applicable(files));
    }
  }

  /** The number of merged overrides is the number of agent files that change. */
  lemma MergedCountsChanges(files: Files, names: seq<string>, stamps: seq<string>)
    requires |stamps| == |names| && Distinct(names) && AreStamps(stamps)
    ensures var a := AppendAll(files, names, stamps);
            a.merged ==
            |set k | 0 <= k < |names| && Get(a.files, AgentPath(names[k])) != Get(files, AgentPath(names[k]))|
  {
    var a := AppendAll(files, names, stamps);
    AppendCounts(files, names, stamps, |names|);
    assert names[..|names|] == names && stamps[..|stamps|] == stamps;
    forall k | 0 <= k < |names|
      ensures !IsSettled(files, names[k]) <==>
              Get(a.files, AgentPath(names[k])) != Get(files, AgentPath(names[k]))
    {
      AppendedOrLeft(files, names, stamps, k);
    }
    assert Where(names, |names|, Unsettled(files)) ==
           set k | 0 <= k < |names| && Get(a.files, AgentPath(names[k])) != Get(files, AgentPath(names[k]));
  }

  // ---------------------------------------------------------------- the dry run of the overrides

  /** The same loop without any write. */
  function PreviewAll(files: Files, names: seq<string>): Appended {
    if names == [] then Appended(files, 0, 0, 0)
    else AppendOne(PreviewAll(files, names[..|names| - 1]).(files := files), names[|names| - 1], "").(files := files)
  }

  /** The dry run counts what the real run will do. */
  lemma {:induction false} DryRunPredicts(files: Files, names: seq<string>, stamps: seq<string>)
    requires |stamps| == |names| && Distinct(names)
    ensures PreviewAll(files, names) == AppendAll(files, names, stamps).(files := files)
  {
    if names != [] {
      var last := |names| - 1;
      var before := AppendAll(files, names[..last], stamps[..last]);
      DryRunPredicts(files, names[..last], stamps[..last]);
      AppendLeavesOthers(files, names[..last], stamps[..last], AgentPath(names[last]));
      AppendTouchesAgentsOnly(files, names[..last], stamps[..last], OverridePath(names[last]));
      SameInputsSameChoice(files, before.files, names[last]);
    }
  }
}
