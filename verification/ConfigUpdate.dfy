/** The update of one configuration directory as a whole: the object that it changes, and what two updates
    in a row leave behind. */
module ConfigUpdate {
  import opened Text
  import opened Personalizations
  import opened UpdateFlow

  datatype InstallType = Homedir | Project | Unknown

  /** `.neuralgentics-state.json`. */
  datatype State = State(installedVersion: string, manifest: Manifest, hasBackup: bool, installType: InstallType)

  datatype Result = Result(installType: InstallType, counts: Counts, backups: seq<Backup>,
                           fromVersion: Option<string>, toVersion: string)

  /** What an update is given: the release, the names of the files in `overrides/`, whether there is an
      `agents/` directory before it, the options, and the readings of the clock. */
  datatype Input = Input(
    release: seq<ReleaseFile>, names: seq<string>, agentsDir: bool, version: string,
    force: bool, stamp: string, stamps: seq<string>)

  predicate IsInput(input: Input) {
    IsRelease(input.release) && Distinct(input.names) && |input.stamps| == |input.names| && AreStamps(input.stamps)
  }

  function LastManifest(state: Option<State>): Manifest {
    if state.Some? then state.value.manifest else map[]
  }

  function LastType(state: Option<State>): InstallType {
    if state.Some? then state.value.installType else Unknown
  }

  function RunOf(state: Option<State>, input: Input): Run {
    Run(LastManifest(state), input.force, input.stamp, input.version)
  }

  function CopyPart(files: Files, state: Option<State>, input: Input): Copied {
    CopyAll(files, RunOf(state, input), input.release)
  }

  /** Whether there is an `agents/` directory after the copy loop, which makes one for every file of the
      release that goes there, also for a skipped one. */
  predicate HasAgentsDir(files: Files, input: Input) {
    input.agentsDir || HasAgents(files) || exists k :: 0 <= k < |input.release| && input.release[k].path.top.Agents?
  }

  function AppendPart(files: Files, state: Option<State>, input: Input): Appended
    requires IsInput(input)
  {
    var copied := CopyPart(files, state, input).files;
    AppendOverrides(copied, HasAgentsDir(copied, input), input.names, input.stamps)
  }

  function NewState(files: Files, state: Option<State>, input: Input): State {
    var c := CopyPart(files, state, input);
    State(input.version, c.manifest, c.backups != [], if LastType(state).Unknown? then Project else LastType(state))
  }

  class ConfigDir {
    var files: Files
    var state: Option<State>

    constructor (files: Files, state: Option<State>)
      ensures this.files == files && this.state == state
    {
      this.files, this.state := files, state;
    }

    /** `backupFile`, into the directory `top/sub`. */
    method BackupFile(top: Top, sub: seq<string>, path: Path, stamp: string) returns (backup: Option<Backup>)
      modifies this`files
      ensures path !in old(files) ==> backup == None && files == old(files)
      ensures path in old(files) ==>
                backup == Some(Backup(path, BackupPath(top, sub, path, stamp)))
                && files == old(files)[BackupPath(top, sub, path, stamp) := old(files)[path]]
    {
      if path !in files {
        return None;
      }
      var copy := BackupPath(top, sub, path, stamp);
      files := files[copy := files[path]];
      return Some(Backup(path, copy));
    }

    /** One round of the copy loop, after the test for `overrides/`. */
    method CopyFile(run: Run, file: ReleaseFile, before: Copied) returns (after: Copied)
      requires before.files == files && !IsProtected(file.path)
      modifies this`files
      ensures after == CopyOne(before, run, file) && files == after.files
    {
      if file.path in run.last && run.last[file.path].sha == Digest(file.content) && !run.force {
        return before.(counts := before.counts.(skipped := before.counts.skipped + 1),
                       manifest := before.manifest[file.path := run.last[file.path]]);
      }
      var counts, backups := before.counts, before.backups;
      if file.path in files && !run.force {
        var backup := BackupFile(Backups, [], file.path, run.stamp);
        if backup.Some? {
          backups := backups + [backup.value];
        }
        counts := counts.(updated := counts.updated + 1);
      } else if file.path !in files {
        counts := counts.(created := counts.created + 1);
      } else {
        var backup := BackupFile(Backups, [], file.path, run.stamp);
        if backup.Some? {
          backups := backups + [backup.value];
        }
        counts := counts.(updated := counts.updated + 1);
      }
      files := files[file.path := file.content];
      after := Copied(files, counts, backups,
                      before.manifest[file.path := Record(Digest(files[file.path]), run.version)]);
    }

    /** `mergePersonalizations`. */
    method MergePersonalizations(agentsDir: bool, names: seq<string>, stamps: seq<string>, dryRun: bool)
      returns (merged: nat, skipped: nat, orphaned: nat)
      requires Distinct(names) && |stamps| == |names|
      modifies this`files
      ensures Appended(if dryRun then AppendOverrides(old(files), agentsDir, names, stamps).files else files,
                       merged, skipped, orphaned)
           == AppendOverrides(old(files), agentsDir, names, stamps)
      ensures dryRun ==> files == old(files)
    {
      merged, skipped, orphaned := 0, 0, 0;
      if !agentsDir {
        return;
      }
      for i := 0 to |names|
        invariant !dryRun ==>
                    Appended(files, merged, skipped, orphaned) == AppendAll(old(files), names[..i], stamps[..i])
        invariant dryRun ==>
                    && Appended(files, merged, skipped, orphaned) == PreviewAll(old(files), names[..i])
                    && files == old(files)
      {
        assert names[..i + 1][..i] == names[..i] && stamps[..i + 1][..i] == stamps[..i];
        merged, skipped, orphaned := AppendOverride(names[i], stamps[i], dryRun, merged, skipped, orphaned);
      }
      assert names[..|names|] == names && stamps[..|names|] == stamps;
      DryRunPredicts(old(files), names, stamps);
    }

    /** One round of that loop. */
    method AppendOverride(name: string, stamp: string, dryRun: bool, m: nat, s: nat, o: nat)
      returns (merged: nat, skipped: nat, orphaned: nat)
      modifies this`files
      ensures !dryRun ==>
                Appended(files, merged, skipped, orphaned) == AppendOne(Appended(old(files), m, s, o), name, stamp)
      ensures dryRun ==> files == old(files)
                         && Appended(files, merged, skipped, orphaned)
                            == AppendOne(Appended(files, m, s, o), name, "").(files := files)
    {
      merged, skipped, orphaned := m, s, o;
      if !IsOverrideName(name) {
        return;
      }
      if AgentPath(name) !in files {
        orphaned := o + 1;
        return;
      }
      if OverridePath(name) !in files {
        return;
      }
      var body := StripYamlFrontmatter(files[OverridePath(name)]);
      TrimBlank(body);
      if |Trim(body)| == 0 {
        skipped := s + 1;
        return;
      }
      var onDisk := files[AgentPath(name)];
      if Digest(onDisk) == Digest(MergedContent(onDisk, body)) || EndsWith(ChopNewlines(onDisk), ChopNewlines(body)) {
        skipped := s + 1;
        return;
      }
      if dryRun {
        merged := m + 1;
        return;
      }
      var _ := BackupFile(Agents, [BACKUP_DIR], AgentPath(name), stamp);
      files := files[AgentPath(name) := MergedContent(onDisk, body)];
      merged := m + 1;
    }

    /** `updateConfigDir`. */
    method UpdateConfigDir(input: Input, dryRun: bool) returns (result: Result)
      requires IsInput(input)
      modifies this
      ensures dryRun ==> files == old(files) && state == old(state)
                         && result.counts == Counts(0, 0, 0) && result.backups == []
      ensures !dryRun ==>
                && files == AppendPart(old(files), old(state), input).files
                && state == Some(NewState(old(files), old(state), input))
                && result.counts == CopyPart(old(files), old(state), input).counts
                && result.backups == CopyPart(old(files), old(state), input).backups
      ensures result.installType == LastType(old(state)) && result.toVersion == input.version
      ensures result.fromVersion == if old(state).Some? then Some(old(state).value.installedVersion) else None
    {
      var fromVersion := if state.Some? then Some(state.value.installedVersion) else None;
      var installType := LastType(state);
      if dryRun {
        return Result(installType, Counts(0, 0, 0), [], fromVersion, input.version);
      }
      var run := RunOf(state, input);
      var copied := Copied(files, Counts(0, 0, 0), [], map[]);
      for i := 0 to |input.release|
        invariant copied == CopyAll(old(files), run, input.release[..i]) && files == copied.files
        invariant state == old(state)
      {
        assert input.release[..i + 1][..i] == input.release[..i];
        if !IsProtected(input.release[i].path) {
          copied := CopyFile(run, input.release[i], copied);
        }
      }
      assert input.release[..|input.release|] == input.release;
      var _, _, _ := MergePersonalizations(HasAgentsDir(files, input), input.names, input.stamps, dryRun);
      state := Some(State(input.version, copied.manifest, copied.backups != [],
                          if installType.Unknown? then Project else installType));
      return Result(installType, copied.counts, copied.backups, fromVersion, input.version);
    }
  }

  // ---------------------------------------------------------------- one update

  /** Outside `agents/` and `overrides/`, every file of the release has the released content afterwards, except
      that one which the state records with that content is left as it is, unless the update is forced. */
  lemma UpdateFileByFile(files: Files, state: Option<State>, input: Input, k: nat)
    requires IsInput(input) && IsFresh(files, input.release, input.stamp) && k < |input.release|
    requires !input.release[k].path.top.Agents?
    ensures var path, content := input.release[k].path, input.release[k].content;
            var recorded :=
              state.Some? && path in state.value.manifest && state.value.manifest[path].sha == Digest(content);
            Get(AppendPart(files, state, input).files, path) ==
            if path.top.Overrides? || (recorded && !input.force) then Get(files, path) else Some(content)
  {
    CopyFileByFile(files, RunOf(state, input), input.release, k);
    AppendTouchesAgentsOnly(CopyPart(files, state, input).files, input.names, input.stamps, input.release[k].path);
  }

  /** After every update, forced or not, each override that is not blank and has an agent file, old or new, is in
      force. */
  lemma UpdateAppliesOverrides(files: Files, state: Option<State>, input: Input, k: nat, body: string)
    requires IsInput(input) && k < |input.names|
    requires var name := input.names[k];
             && EndsWith(name, ".md") && !EqualUpToCase(name, "readme.md")
             && Path(Overrides, [], name) in files && IsBodyOf(files[Path(Overrides, [], name)], body) && !IsBlank(body)
             && Path(Agents, [], name) in CopyPart(files, state, input).files
    ensures var agent, after := Path(Agents, [], input.names[k]), AppendPart(files, state, input).files;
            agent in after && EndsWith(ChopNewlines(after[agent]), ChopNewlines(body))
  {
    var name, copied := input.names[k], CopyPart(files, state, input).files;
    NotInRelease(files, RunOf(state, input), input.release, OverridePath(name));
    assert Get(copied, OverridePath(name)) == Get(files, OverridePath(name));
    assert HasAgents(copied);
    OverridesAreInForce(copied, input.names, input.stamps, k, body);
    MergedShape(copied[AgentPath(name)], body);
  }

  /** The overrides are gone through if and only if there is an `agents/` directory: an empty one from before, one
      with a file in it, or one that the release brings. */
  lemma OverridesNeedAgents(files: Files, state: Option<State>, input: Input)
    requires IsInput(input)
    ensures AppendPart(files, state, input) ==
            var copied := CopyPart(files, state, input).files;
            if || input.agentsDir
               || (exists path :: path in files && path.top == Agents)
               || (exists k :: 0 <= k < |input.release| && input.release[k].path.top == Agents)
            then AppendAll(copied, input.names, input.stamps)
            else Appended(copied, 0, 0, 0)
  {
    AgentsAfterCopy(files, RunOf(state, input), input.release);
    if path :| path in files && path.top == Agents {
      assert HasAgents(files);
    }
    if HasAgents(files) {
      var path :| path in files && path.top.Agents?;
      assert path.top == Agents;
    }
  }

  /** The state that is written: this version, the manifest of the release, whether a file was overwritten, and
      the type of the installation, which is `Project` from now on if it was not known. */
  lemma StateAfterwards(files: Files, state: Option<State>, input: Input)
    ensures var new' := NewState(files, state, input);
            && new'.installedVersion == input.version
            && new'.manifest == CopyPart(files, state, input).manifest
            && (new'.hasBackup <==> CopyPart(files, state, input).counts.updated > 0)
            && new'.installType ==
               if state.None? || state.value.installType == Unknown then Project else state.value.installType
  {
    CopyCountsEveryFile(files, RunOf(state, input), input.release);
  }

  // ---------------------------------------------------------------- two updates in a row

  /** The same release once more, without force: nothing is updated, created, backed up or appended, no
      file changes and the manifest stays. The first update may have been forced, and the clock, the
      version label and what was on disk before do not matter. */
  lemma SecondUpdateDoesNothing(files: Files, state: Option<State>, input: Input, again: Input)
    requires IsInput(input) && IsInput(again) && !again.force
    requires again.release == input.release && again.names == input.names
    ensures var files1 := AppendPart(files, state, input).files;
            var state1 := Some(NewState(files, state, input));
            && CopyPart(files1, state1, again).counts == Counts(0, Outside(input.release), 0)
            && CopyPart(files1, state1, again).backups == []
            && AppendPart(files1, state1, again).merged == 0
            && AppendPart(files1, state1, again).files == files1
            && NewState(files1, state1, again).manifest == state1.value.manifest
  {
    var files1 := AppendPart(files, state, input).files;
    var state1 := Some(NewState(files, state, input));
    SecondCopyDoesNothing(files, RunOf(state, input), input.release, files1, RunOf(state1, again));
    var copied := CopyPart(files, state, input).files;
    SecondAppendDoesNothing(copied, HasAgentsDir(copied, input), input.names, input.stamps,
                            HasAgentsDir(files1, again), again.stamps);
  }

  // ---------------------------------------------------------------- nothing of the user's is lost

  /** No override's timestamp is on a backup yet. */
  predicate AreFreshStamps(files: Files, input: Input)
    requires IsInput(input)
  {
    forall path, k :: path in files && 0 <= k < |input.names| && IsOverrideName(input.names[k]) ==>
      path != AgentBackup(input.names[k], input.stamps[k])
  }

  /** Where the previous content of a file can be after an update: in place, or in one of two backups. */
  predicate SurvivesAt(path: Path, where: Path, input: Input)
    requires IsInput(input)
  {
    || where == path
    || where == BackupPath(Backups, [], path, input.stamp)
    || exists k ::
         && 0 <= k < |input.names| && AgentPath(input.names[k]) == path
         && where == AgentBackup(input.names[k], input.stamps[k])
  }

  lemma AppendKeepsContent(files: Files, agentsDir: bool, input: Input, path: Path)
    requires IsInput(input) && AreFreshStamps(files, input) && path in files
    ensures var after := AppendOverrides(files, agentsDir, input.names, input.stamps).files;
            exists where :: where in after && after[where] == files[path]
                            && (where == path || (path.top.Agents? && SurvivesAt(path, where, input)))
  {
    var after := AppendOverrides(files, agentsDir, input.names, input.stamps).files;
    if agentsDir {
      if k :| 0 <= k < |input.names| && AgentPath(input.names[k]) == path {
        AppendedOrLeft(files, input.names, input.stamps, k);
        assert IsAppendedOrLeft(files, after, input.names[k], input.stamps[k]);
        var where := if IsSettled(files, input.names[k]) then path else AgentBackup(input.names[k], input.stamps[k]);
        assert Get(after, where) == Get(files, path);
      } else {
        AppendLeavesOthers(files, input.names, input.stamps, path);
        assert Get(after, path) == Get(files, path);
      }
    }
  }

  /** The whole update: every byte that any file held is still there afterwards. */
  lemma UpdateLosesNothing(files: Files, state: Option<State>, input: Input, path: Path)
    requires IsInput(input) && path in files
    requires IsFresh(files, input.release, input.stamp) && AreFreshStamps(CopyPart(files, state, input).files, input)
    requires NamesTellApart(files, RunOf(state, input), input.release)
    ensures var after := AppendPart(files, state, input).files;
            exists where :: where in after && after[where] == files[path] && SurvivesAt(path, where, input)
  {
    var run, copied := RunOf(state, input), CopyPart(files, state, input).files;
    var after := AppendPart(files, state, input).files;
    if k :| 0 <= k < |input.release| && input.release[k].path == path && IsWritten(run, input.release[k]) {
      NothingLostExactlyWhen(files, run, input.release);
      var copy := RunBackup(run, path);
      assert Get(copied, copy) == Get(files, path);
      AppendKeepsContent(copied, HasAgentsDir(copied, input), input, copy);
    } else {
      NotInRelease(files, run, input.release, path);
      assert Get(copied, path) == Get(files, path);
      AppendKeepsContent(copied, HasAgentsDir(copied, input), input, path);
    }
  }

  /** `overrides/` is only read. */
  lemma UpdateNeverWritesOverrides(files: Files, state: Option<State>, input: Input, path: Path)
    requires IsInput(input) && path.top == Overrides
    ensures Get(AppendPart(files, state, input).files, path) == Get(files, path)
  {
    NotInRelease(files, RunOf(state, input), input.release, path);
    AppendTouchesAgentsOnly(CopyPart(files, state, input).files, input.names, input.stamps, path);
  }
}
