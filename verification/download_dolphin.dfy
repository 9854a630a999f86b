/** The emulator install and upgrade procedure of src/main/downloadDolphin.ts: picking the release
    asset built for the running platform, downloading it once into the temporary directory,
    installing it over the previous installation while keeping the user's `User` folder and
    `user.json`, and the decision of `assertDolphinInstallation` between doing nothing and
    downloading and installing again. GitHub's "latest release" answers, the executable lookup,
    the installed version and the archive contents are inputs. */
module DownloadDolphin {
  import opened Wrappers
  import Seqs
  import opened FileTree
  import opened DolphinTypes

  /** `process.platform`. */
  datatype Platform = Win32 | Darwin | Linux | OtherPlatform(name: string)

  /** A semantic version, ordered lexicographically on its three numbers. */
  datatype Version = Version(major: nat, minor: nat, patch: nat)

  /** semver `lt(a, b)`: `a` is strictly older than `b`. */
  predicate Lt(a: Version, b: Version)
  {
    || a.major < b.major
    || (a.major == b.major && a.minor < b.minor)
    || (a.major == b.major && a.minor == b.minor && a.patch < b.patch)
  }

  datatype Asset = Asset(name: string, url: string)

  /** A GitHub release: its tag, the version the tag denotes, and its downloadable assets. */
  datatype Release = Release(tagName: string, version: Version, assets: seq<Asset>)

  datatype InstallError =
    | ReleaseUnavailable(repo: string)
    | NoMatchingAsset(platform: Platform)
    | DownloadFailed(url: string)
    | FsFailure(error: FsError)
    | UnsupportedPlatform(platform: Platform)

  const Owner: string := "project-slippi"

  /** Permission bits `"755"`, read as octal. */
  const ExecutableMode: nat := 493

  /** `matchesPlatform(releaseName)`: the asset built for the platform is recognised by the end
      of its file name. */
  function MatchesPlatform(platform: Platform, releaseName: string): (r: bool)
    ensures platform == Win32 ==> (r <==> exists prefix :: releaseName == prefix + "Win.zip")
    ensures platform == Darwin ==> (r <==> exists prefix :: releaseName == prefix + "Mac.zip")
    ensures platform == Linux ==> (r <==> exists prefix :: releaseName == prefix + ".AppImage")
    ensures platform.OtherPlatform? ==> !r
  {
    match platform
    case Win32 => Seqs.EndsWith(releaseName, "Win.zip")
    case Darwin => Seqs.EndsWith(releaseName, "Mac.zip")
    case Linux => Seqs.EndsWith(releaseName, ".AppImage")
    case OtherPlatform(_) => false
  }

  /** The repository of `getLatestReleaseData`: the netplay build is released from `Ishiiruka`,
      the playback build from `Ishiiruka-Playback`. */
  function ReleaseRepo(t: LaunchType): (repo: string)
    ensures Seqs.StartsWith(repo, "Ishiiruka")
    ensures t == Netplay ==> repo == "Ishiiruka"
    ensures t == Playback ==> repo == "Ishiiruka-Playback"
  {
    if t == Playback then "Ishiiruka" + "-Playback" else "Ishiiruka"
  }

  /** The two builds never share a repository. */
  lemma ReleaseReposDistinct(t: LaunchType, u: LaunchType)
    ensures ReleaseRepo(t) == ReleaseRepo(u) ==> t == u
  {
    assert |ReleaseRepo(Netplay)| != |ReleaseRepo(Playback)|;
  }

  /** `getLatestDolphinAsset(type)`. `github` holds the latest release of each repository of
      `Owner` that answers; a missing repository stands for a failed request. */
  function LatestDolphinAsset(github: map<string, Release>, platform: Platform, t: LaunchType): (r: Result<Asset, InstallError>)
    ensures ReleaseRepo(t) !in github ==> r == Err(ReleaseUnavailable(ReleaseRepo(t)))
    ensures r.Ok? ==>
      var assets := github[ReleaseRepo(t)].assets;
      && ReleaseRepo(t) in github
      && MatchesPlatform(platform, r.value.name)
      && exists i :: 0 <= i < |assets| && assets[i] == r.value
                   && forall j :: 0 <= j < i ==> !MatchesPlatform(platform, assets[j].name)
    ensures ReleaseRepo(t) in github && r.Err? ==>
      && r.error == NoMatchingAsset(platform)
      && forall a :: a in github[ReleaseRepo(t)].assets ==> !MatchesPlatform(platform, a.name)
  {
    var repo := ReleaseRepo(t);
    if repo !in github then Err(ReleaseUnavailable(repo))
    else
      var assets := github[repo].assets;
      match Seqs.FindFirst(assets, (a: Asset) => MatchesPlatform(platform, a.name))
      case None => Err(NoMatchingAsset(platform))
      case Some(i) => Ok(assets[i])
  }

  /** `compareDolphinVersion`, as written: `lt(latestVersion, installedVersion)`. The
      installation counts as outdated exactly when the installed version is strictly newer than
      the latest release. */
  function CompareDolphinVersion(installed: Version, latest: Version): (outdated: bool)
    ensures outdated <==> latest != installed && !Lt(installed, latest)
  {
    Lt(latest, installed)
  }

  /** The consequence of the argument order: a newer release, or the same one, never counts as
      an update. */
  lemma NewerReleaseNotOutdated(installed: Version, latest: Version)
    ensures Lt(installed, latest) || installed == latest ==> !CompareDolphinVersion(installed, latest)
  {
  }

  /** `path.join(app.getPath("userData"), type)`. */
  function DolphinPath(userData: Path, t: LaunchType): Path
  {
    userData + [LaunchTypeName(t)]
  }

  /** `dolphinPath + "_old"`. */
  function BackupLocation(userData: Path, t: LaunchType): Path
  {
    userData + [LaunchTypeName(t) + "_old"]
  }

  /** The folder of the macOS application bundle that holds the user's files. */
  function MacResources(dolphinPath: Path): Path
  {
    dolphinPath + ["Slippi Dolphin.app", "Contents", "Resources"]
  }

  /** `path.basename`. */
  function Basename(p: Path): string
  {
    if p == [] then "" else p[|p| - 1]
  }

  const UserFolder: string := "User"
  const UserJson: string := "user.json"

  /** The installation and its backup are sibling folders that do not contain each other. */
  lemma InstallFoldersApart(userData: Path, t: LaunchType)
    ensures Apart(DolphinPath(userData, t), BackupLocation(userData, t))
    ensures Apart(MacResources(DolphinPath(userData, t)), BackupLocation(userData, t))
    ensures Under(MacResources(DolphinPath(userData, t)), DolphinPath(userData, t))
  {
    var d := DolphinPath(userData, t);
    var b := BackupLocation(userData, t);
    assert d[|userData|] != b[|userData|] by {
      assert |d[|userData|]| < |b[|userData|]|;
    }
    var m := MacResources(d);
    assert m[|userData|] == d[|userData|];
  }

  /** The state of the file system after a step, and whether the step threw. */
  datatype Run = Run(tree: Tree, outcome: Outcome<InstallError>)

  /** A primitive's outcome: the new tree, or the old one and the error. */
  function Lift(t: Tree, res: Result<Tree, FsError>): (r: Run)
    ensures res.Ok? ==> r == Run(res.value, Pass)
    ensures res.Err? ==> r == Run(t, Fail(FsFailure(res.error)))
  {
    match res
    case Ok(t2) => Run(t2, Pass)
    case Err(e) => Run(t, Fail(FsFailure(e)))
  }

  /** `backupUser(backupLocation, toBackup)`: an existing `toBackup` is moved to the backup
      location; nothing happens otherwise. */
  function BackupUserRun(t: Tree, backup: Path, toBackup: Path): (r: Run)
    ensures !Exists(t, toBackup) ==> r == Run(t, Pass)
    ensures Exists(t, toBackup) && !Exists(t, backup) && Apart(toBackup, backup) ==>
      r == Run(Moved(t, toBackup, backup), Pass)
    ensures Exists(t, toBackup) && Exists(t, backup) && !Under(backup, toBackup) ==>
      r == Run(t, Fail(FsFailure(DestinationExists(backup))))
  {
    if Exists(t, toBackup) then Lift(t, MoveResult(t, toBackup, backup)) else Run(t, Pass)
  }

  /** One `move` of `restoreUser`: done only when its source exists. */
  function RestoreStep(t: Tree, from: Path, to: Path): (r: Run)
    ensures !Exists(t, from) ==> r == Run(t, Pass)
    ensures Exists(t, from) && !Exists(t, to) && !Under(to, from) ==> r == Run(Moved(t, from, to), Pass)
  {
    if Exists(t, from) then Lift(t, MoveResult(t, from, to)) else Run(t, Pass)
  }

  /** `restoreUser(backupLocation, restoreLocation)`: only when the restore location exists, the
      backed-up `User` folder and then `user.json` are moved into it when present, and the backup
      is removed; the first failing move stops the sequence. */
  function RestoreUserRun(t: Tree, backup: Path, restore: Path): (r: Run)
    ensures !Exists(t, restore) ==> r == Run(t, Pass)
    ensures r.outcome.Pass? && Exists(t, restore) ==> !Exists(r.tree, backup)
  {
    if !Exists(t, restore) then Run(t, Pass)
    else
      var first := RestoreStep(t, backup + [UserFolder], restore + [UserFolder]);
      if first.outcome.Fail? then first
      else
        var second := RestoreStep(first.tree, backup + [UserJson], restore + [UserJson]);
        if second.outcome.Fail? then second
        else Run(Removed(second.tree, backup), Pass)
  }

  /** The win32 and darwin branches of `installDolphin`: back up `userDir`, extract the archive
      over `dolphinPath`, restore the user's files into `userDir`. */
  function ZipInstallRun(t: Tree, dolphinPath: Path, backup: Path, userDir: Path, assetPath: Path, entries: Tree): (r: Run)
    ensures r.outcome.Pass? && Exists(r.tree, userDir) ==> !Exists(r.tree, backup)
  {
    var saved := BackupUserRun(t, backup, userDir);
    if saved.outcome.Fail? then saved
    else
      match ExtractResult(saved.tree, assetPath, entries, dolphinPath)
      case Err(e) => Run(saved.tree, Fail(FsFailure(e)))
      case Ok(extracted) =>
        var r := RestoreUserRun(extracted, backup, userDir);
        assert r.outcome.Pass? && Exists(r.tree, userDir) ==> Exists(extracted, userDir);
        r
  }

  /** The linux branch of `installDolphin`: an existing executable is deleted, the AppImage is
      renamed into the installation folder and made executable. `exe` is what
      `findDolphinExecutable` returns (None when it throws); `sameDevice` says whether the
      temporary folder and the installation folder are on one file system. */
  function LinuxInstallRun(t: Tree, dolphinPath: Path, assetPath: Path, exe: Option<Path>, sameDevice: bool): (r: Run)
    ensures !Exists(t, assetPath) ==> r.outcome == Fail(FsFailure(NoSuchPath(assetPath)))
  {
    var cleared := if exe.Some? && Exists(t, exe.value) then Removed(t, exe.value) else t;
    var target := dolphinPath + [Basename(assetPath)];
    match RenameResult(cleared, assetPath, target, sameDevice)
    case Err(e) => Run(cleared, Fail(FsFailure(e)))
    case Ok(renamed) => Lift(renamed, ChmodResult(renamed, target, ExecutableMode))
  }

  /** `installDolphin(type, assetPath)`. `entries` is the content of the archive at
      `assetPath`. */
  function InstallRun(t: Tree, platform: Platform, lt: LaunchType, userData: Path, assetPath: Path,
                      entries: Tree, exe: Option<Path>, sameDevice: bool): (r: Run)
    ensures platform.OtherPlatform? ==> r == Run(t, Fail(UnsupportedPlatform(platform)))
  {
    var dolphinPath := DolphinPath(userData, lt);
    var backup := BackupLocation(userData, lt);
    match platform
    case Win32 => ZipInstallRun(t, dolphinPath, backup, dolphinPath, assetPath, entries)
    case Darwin => ZipInstallRun(t, dolphinPath, backup, MacResources(dolphinPath), assetPath, entries)
    case Linux => LinuxInstallRun(t, dolphinPath, assetPath, exe, sameDevice)
    case OtherPlatform(_) => Run(t, Fail(UnsupportedPlatform(platform)))
  }

  /** A restore move whose destination is free: afterwards whatever was beneath `from` is
      beneath `to`, nothing is left beneath `from`, entries outside `from` stay, and a subtree
      apart from both ends is untouched. */
  lemma RestoreStepMoves(t: Tree, from: Path, to: Path, p: Path)
    requires !Exists(t, to) && Apart(from, to)
    ensures var s := RestoreStep(t, from, to);
      && s.outcome == Pass
      && Subtree(s.tree, to) == Subtree(t, from)
      && !Exists(s.tree, from)
      && (forall q :: q in t && !Under(q, from) ==> q in s.tree && s.tree[q] == t[q])
      && (Apart(p, from) && Apart(p, to) ==> Subtree(s.tree, p) == Subtree(t, p))
  {
    if Exists(t, from) {
      MovedSubtreeAt(t, from, to, from);
      assert to + from[|from|..] == to;
      if Apart(p, from) && Apart(p, to) {
        MovedSubtreeApart(t, from, to, p);
      }
    } else {
      ExistsIffSubtree(t, from);
      ExistsIffSubtree(t, to);
    }
  }

  /** The backup stage of a zip install: the user's files now sit in the backup location, and
      nothing is left at `userDir`. */
  lemma BackupStage(t: Tree, backup: Path, userDir: Path, assetPath: Path)
    requires Apart(backup, userDir) && Apart(assetPath, userDir) && !Exists(t, backup)
    requires assetPath in t && t[assetPath].File?
    ensures var s := BackupUserRun(t, backup, userDir);
      && s.outcome == Pass
      && !Exists(s.tree, userDir)
      && Subtree(s.tree, backup + [UserFolder]) == Subtree(t, userDir + [UserFolder])
      && Subtree(s.tree, backup + [UserJson]) == Subtree(t, userDir + [UserJson])
      && assetPath in s.tree && s.tree[assetPath] == t[assetPath]
  {
    if Exists(t, userDir) {
      assert (userDir + [UserFolder])[|userDir|..] == [UserFolder];
      assert (userDir + [UserJson])[|userDir|..] == [UserJson];
      MovedSubtreeAt(t, userDir, backup, userDir + [UserFolder]);
      MovedSubtreeAt(t, userDir, backup, userDir + [UserJson]);
    } else {
      NothingBelow(t, backup, [UserFolder]);
      NothingBelow(t, backup, [UserJson]);
      NothingBelow(t, userDir, [UserFolder]);
      NothingBelow(t, userDir, [UserJson]);
    }
  }

  /** The extract stage: the archive lands inside `dolphinPath`, away from the backup, and adds
      nothing at the user's `User` folder or `user.json`. */
  lemma ExtractStage(t: Tree, dolphinPath: Path, backup: Path, userDir: Path, entries: Tree)
    requires Apart(backup, dolphinPath) && !Exists(t, userDir)
    requires exists k :: k in entries && Under(dolphinPath + k, userDir)
    requires forall k :: k in entries ==>
      !Under(dolphinPath + k, userDir + [UserFolder]) && !Under(dolphinPath + k, userDir + [UserJson])
    ensures var x := Grafted(t, dolphinPath, entries);
      && Exists(x, userDir)
      && Subtree(x, backup + [UserFolder]) == Subtree(t, backup + [UserFolder])
      && Subtree(x, backup + [UserJson]) == Subtree(t, backup + [UserJson])
      && !Exists(x, userDir + [UserFolder]) && !Exists(x, userDir + [UserJson])
  {
    var x := Grafted(t, dolphinPath, entries);
    var w :| w in entries && Under(dolphinPath + w, userDir);
    assert dolphinPath + w in x;
    forall k, name | k in entries && (name == UserFolder || name == UserJson)
      ensures !Under(dolphinPath + k, backup + [name])
    {
      ApartExtend(dolphinPath, backup, k, [name]);
    }
    GraftedSubtreeApart(t, dolphinPath, entries, backup + [UserFolder]);
    GraftedSubtreeApart(t, dolphinPath, entries, backup + [UserJson]);
    GraftedSubtreeApart(t, dolphinPath, entries, userDir + [UserFolder]);
    GraftedSubtreeApart(t, dolphinPath, entries, userDir + [UserJson]);
    NothingBelow(t, userDir, [UserFolder]);
    NothingBelow(t, userDir, [UserJson]);
    ExistsIffSubtree(x, userDir + [UserFolder]);
    ExistsIffSubtree(x, userDir + [UserJson]);
  }

  /** The restore stage: `User` and `user.json` come back from the backup into a fresh
      installation, the backup disappears, and everything outside the backup stays. */
  lemma RestoreStage(t: Tree, backup: Path, userDir: Path)
    requires Apart(backup, userDir) && Exists(t, userDir)
    requires !Exists(t, userDir + [UserFolder]) && !Exists(t, userDir + [UserJson])
    ensures var r := RestoreUserRun(t, backup, userDir);
      && r.outcome == Pass
      && !Exists(r.tree, backup)
      && Subtree(r.tree, userDir + [UserFolder]) == Subtree(t, backup + [UserFolder])
      && Subtree(r.tree, userDir + [UserJson]) == Subtree(t, backup + [UserJson])
      && forall q :: q in t && !Under(q, backup) ==> q in r.tree && r.tree[q] == t[q]
  {
    var oldUser, newUser := backup + [UserFolder], userDir + [UserFolder];
    var oldJson, newJson := backup + [UserJson], userDir + [UserJson];
    ApartExtend(backup, userDir, [UserFolder], [UserFolder]);
    ApartExtend(backup, userDir, [UserJson], [UserJson]);
    ApartExtend(backup, userDir, [UserJson], [UserFolder]);
    ApartExtend(backup, userDir, [UserFolder], [UserJson]);
    SiblingsApart(backup, UserJson, UserFolder);
    SiblingsApart(userDir, UserJson, UserFolder);
    RestoreStepMoves(t, oldUser, newUser, newJson);
    RestoreStepMoves(t, oldUser, newUser, oldJson);
    var first := RestoreStep(t, oldUser, newUser);
    ExistsIffSubtree(t, newJson);
    ExistsIffSubtree(first.tree, newJson);
    RestoreStepMoves(first.tree, oldJson, newJson, newUser);
    var second := RestoreStep(first.tree, oldJson, newJson);
    forall q | q in t && !Under(q, backup) ensures !Under(q, oldUser) && !Under(q, oldJson) {
      UnderTrans(q, oldUser, backup);
      UnderTrans(q, oldJson, backup);
    }
    assert Apart(newUser, backup) && Apart(newJson, backup) by {
      ApartExtend(userDir, backup, [UserFolder], []);
      ApartExtend(userDir, backup, [UserJson], []);
      assert backup + [] == backup;
    }
    RemovedSubtreeApart(second.tree, backup, newUser);
    RemovedSubtreeApart(second.tree, backup, newJson);
  }

  /** A restore that throws leaves the backup folder on disk: the move that failed had its
      source beneath the backup, and the backup is removed only after both moves. */
  lemma RestoreFailureKeepsBackup(t: Tree, backup: Path, restore: Path)
    ensures var r := RestoreUserRun(t, backup, restore);
      r.outcome.Fail? ==> Exists(r.tree, backup)
  {
    if Exists(t, restore) {
      var first := RestoreStep(t, backup + [UserFolder], restore + [UserFolder]);
      if first.outcome.Fail? {
        StepFailureKeepsSource(t, backup, UserFolder, restore + [UserFolder]);
      } else {
        StepFailureKeepsSource(first.tree, backup, UserJson, restore + [UserJson]);
      }
    }
  }

  /** A restore step that throws was moving an existing entry of `backup`, which stays. */
  lemma StepFailureKeepsSource(t: Tree, backup: Path, name: string, to: Path)
    ensures var s := RestoreStep(t, backup + [name], to);
      s.outcome.Fail? ==> s.tree == t && Exists(t, backup)
  {
    var from := backup + [name];
    if Exists(t, from) {
      var q :| q in t && Under(q, from);
      UnderTrans(q, from, backup);
    }
  }

  /** A restore that throws loses nothing of the user's data: the backed-up `user.json` is
      untouched, and the backed-up `User` folder is either untouched or already moved,
      unchanged, into the restore location. */
  lemma RestoreFailureKeepsUserData(t: Tree, backup: Path, restore: Path)
    requires Apart(backup, restore)
    ensures var r := RestoreUserRun(t, backup, restore);
      r.outcome.Fail? ==>
        && Subtree(r.tree, backup + [UserJson]) == Subtree(t, backup + [UserJson])
        && (|| Subtree(r.tree, backup + [UserFolder]) == Subtree(t, backup + [UserFolder])
            || Subtree(r.tree, restore + [UserFolder]) == Subtree(t, backup + [UserFolder]))
  {
    var oldUser, newUser := backup + [UserFolder], restore + [UserFolder];
    var oldJson, newJson := backup + [UserJson], restore + [UserJson];
    if Exists(t, restore) {
      var first := RestoreStep(t, oldUser, newUser);
      StepFailureKeepsSource(t, backup, UserFolder, newUser);
      if first.outcome.Pass? && first.tree != t {
        // the `User` move happened
        assert first.tree == Moved(t, oldUser, newUser);
        MovedSubtreeAt(t, oldUser, newUser, oldUser);
        assert newUser + oldUser[|oldUser|..] == newUser;
        SiblingsApart(backup, UserJson, UserFolder);
        ApartExtend(backup, restore, [UserJson], [UserFolder]);
        MovedSubtreeApart(t, oldUser, newUser, oldJson);
      }
      StepFailureKeepsSource(first.tree, backup, UserJson, newJson);
    }
  }

  /** A zip install whose backup and extraction succeeded but whose restore threw leaves the
      backup on disk, for the user to recover by hand. */
  lemma ZipInstallFailureKeepsBackup(t: Tree, dolphinPath: Path, backup: Path, userDir: Path, assetPath: Path, entries: Tree)
    ensures var saved := BackupUserRun(t, backup, userDir);
      var r := ZipInstallRun(t, dolphinPath, backup, userDir, assetPath, entries);
      saved.outcome.Pass? && ExtractResult(saved.tree, assetPath, entries, dolphinPath).Ok? && r.outcome.Fail? ==>
        Exists(r.tree, backup)
  {
    var saved := BackupUserRun(t, backup, userDir);
    if saved.outcome.Pass? && ExtractResult(saved.tree, assetPath, entries, dolphinPath).Ok? {
      RestoreFailureKeepsBackup(ExtractResult(saved.tree, assetPath, entries, dolphinPath).value, backup, userDir);
    }
  }

  /** Reinstalling from an archive on win32 or darwin keeps the user's `User` folder and
      `user.json` exactly as they were, leaves no backup behind, and puts every file of the new
      release in place, provided the archive brings no `User` folder or `user.json` of its own,
      no earlier backup is lying around, and the archive sits outside the installation. */
  lemma ZipInstallKeepsUserData(t: Tree, dolphinPath: Path, backup: Path, userDir: Path, assetPath: Path, entries: Tree)
    requires Under(userDir, dolphinPath) && Apart(backup, dolphinPath) && Apart(assetPath, dolphinPath)
    requires assetPath in t && t[assetPath].File? && !Exists(t, backup)
    requires exists k :: k in entries && Under(dolphinPath + k, userDir)
    requires forall k :: k in entries ==>
      !Under(dolphinPath + k, userDir + [UserFolder]) && !Under(dolphinPath + k, userDir + [UserJson])
    ensures var r := ZipInstallRun(t, dolphinPath, backup, userDir, assetPath, entries);
      && r.outcome == Pass
      && !Exists(r.tree, backup)
      && Subtree(r.tree, userDir + [UserFolder]) == Subtree(t, userDir + [UserFolder])
      && Subtree(r.tree, userDir + [UserJson]) == Subtree(t, userDir + [UserJson])
      && forall k :: k in entries ==> dolphinPath + k in r.tree && r.tree[dolphinPath + k] == entries[k]
  {
    ApartBelow(backup, dolphinPath, userDir);
    ApartBelow(assetPath, dolphinPath, userDir);
    BackupStage(t, backup, userDir, assetPath);
    var saved := BackupUserRun(t, backup, userDir);
    ExtractStage(saved.tree, dolphinPath, backup, userDir, entries);
    var extracted := Grafted(saved.tree, dolphinPath, entries);
    assert ExtractResult(saved.tree, assetPath, entries, dolphinPath) == Ok(extracted);
    RestoreStage(extracted, backup, userDir);
    forall k | k in entries ensures !Under(dolphinPath + k, backup) {
      ApartExtend(dolphinPath, backup, k, []);
      assert backup + [] == backup;
    }
  }

  /** `installDolphin` on win32 and darwin keeps the user's files across a reinstall: the
      `User` folder and `user.json` of the installation (of the application bundle's resources
      on darwin) are as before, and the backup folder is gone. */
  lemma InstallKeepsUserData(t: Tree, platform: Platform, lt: LaunchType, userData: Path, assetPath: Path, entries: Tree,
                             sameDevice: bool)
    requires platform == Win32 || platform == Darwin
    requires Apart(assetPath, DolphinPath(userData, lt))
    requires assetPath in t && t[assetPath].File? && !Exists(t, BackupLocation(userData, lt))
    requires var userDir := if platform == Win32 then DolphinPath(userData, lt) else MacResources(DolphinPath(userData, lt));
      && (exists k :: k in entries && Under(DolphinPath(userData, lt) + k, userDir))
      && forall k :: k in entries ==>
           && !Under(DolphinPath(userData, lt) + k, userDir + [UserFolder])
           && !Under(DolphinPath(userData, lt) + k, userDir + [UserJson])
    ensures var userDir := if platform == Win32 then DolphinPath(userData, lt) else MacResources(DolphinPath(userData, lt));
      var r := InstallRun(t, platform, lt, userData, assetPath, entries, None, sameDevice);
      && r.outcome == Pass
      && !Exists(r.tree, BackupLocation(userData, lt))
      && Subtree(r.tree, userDir + [UserFolder]) == Subtree(t, userDir + [UserFolder])
      && Subtree(r.tree, userDir + [UserJson]) == Subtree(t, userDir + [UserJson])
  {
    var d := DolphinPath(userData, lt);
    InstallFoldersApart(userData, lt);
    var userDir := if platform == Win32 then d else MacResources(d);
    ZipInstallKeepsUserData(t, d, BackupLocation(userData, lt), userDir, assetPath, entries);
  }

  /** `installDolphin` on linux, into an installation folder that exists, on the file system
      of the temporary folder, with no directory where the AppImage goes: the AppImage ends up,
      with its contents and mode 755, at the installation folder joined with its file name; it
      is gone from the temporary directory; and a previous executable apart from the new one is
      deleted. */
  lemma LinuxInstallPlacesAppImage(t: Tree, dolphinPath: Path, assetPath: Path, exe: Option<Path>, sameDevice: bool)
    requires assetPath in t && t[assetPath].File? && Apart(assetPath, dolphinPath)
    requires dolphinPath in t && t[dolphinPath] == Dir && sameDevice
    requires !IsDir(t, dolphinPath + [Basename(assetPath)])
    requires exe.Some? ==> Apart(exe.value, assetPath) && !Under(dolphinPath, exe.value)
    ensures var target := dolphinPath + [Basename(assetPath)];
      var r := LinuxInstallRun(t, dolphinPath, assetPath, exe, sameDevice);
      && r.outcome == Pass
      && target in r.tree && r.tree[target] == File(t[assetPath].data, ExecutableMode)
      && !Exists(r.tree, assetPath)
      && (exe.Some? && Apart(exe.value, target) ==> !Exists(r.tree, exe.value))
  {
    var target := dolphinPath + [Basename(assetPath)];
    var cleared := if exe.Some? && Exists(t, exe.value) then Removed(t, exe.value) else t;
    assert assetPath in cleared && cleared[assetPath] == t[assetPath];
    LinuxTargetFree(t, cleared, dolphinPath, Basename(assetPath), exe);
    ApartBelow(assetPath, dolphinPath, target);
    var renamed := Moved(Removed(cleared, target), assetPath, target);
    assert RenameResult(cleared, assetPath, target, sameDevice) == Ok(renamed);
    assert assetPath + [] == assetPath && target + [] == target;
    assert target in renamed && renamed[target] == t[assetPath];
    if exe.Some? && Apart(exe.value, target) {
      assert !Exists(cleared, exe.value);
      forall q | q in renamed ensures !Under(q, exe.value) {
        PrefixesCompare(q, exe.value, target);
      }
    }
  }

  /** Deleting the old executable keeps the installation folder, and leaves no directory at
      the target. */
  lemma LinuxTargetFree(t: Tree, cleared: Tree, dolphinPath: Path, name: string, exe: Option<Path>)
    requires dolphinPath in t && t[dolphinPath] == Dir && !IsDir(t, dolphinPath + [name])
    requires exe.Some? ==> !Under(dolphinPath, exe.value)
    requires cleared == if exe.Some? && Exists(t, exe.value) then Removed(t, exe.value) else t
    ensures ParentIsDir(cleared, dolphinPath + [name]) && !IsDir(cleared, dolphinPath + [name])
  {
    var target := dolphinPath + [name];
    assert target[..|target| - 1] == dolphinPath;
    assert dolphinPath in cleared && Under(dolphinPath, dolphinPath);
    if exe.Some? && Exists(t, exe.value) && Exists(cleared, target) {
      var q :| q in cleared && Under(q, target);
      UnderTrans(q, target, exe.value);
      assert target in cleared;
    }
  }

  /** On linux, when the installation folder does not exist, the install fails: the AppImage
      cannot be renamed into it. */
  lemma LinuxInstallNeedsFolder(t: Tree, dolphinPath: Path, assetPath: Path, exe: Option<Path>, sameDevice: bool)
    requires Exists(t, assetPath) && Apart(assetPath, dolphinPath) && !Exists(t, dolphinPath)
    requires exe.Some? ==> Apart(exe.value, assetPath)
    ensures LinuxInstallRun(t, dolphinPath, assetPath, exe, sameDevice).outcome == Fail(FsFailure(NoSuchPath(dolphinPath)))
  {
    var target := dolphinPath + [Basename(assetPath)];
    var cleared := if exe.Some? && Exists(t, exe.value) then Removed(t, exe.value) else t;
    var q :| q in t && Under(q, assetPath);
    if exe.Some? {
      PrefixesCompare(q, assetPath, exe.value);
    }
    assert q in cleared;
    ApartBelow(assetPath, dolphinPath, target);
    assert target[..|target| - 1] == dolphinPath;
  }

  /** On linux, when the temporary folder is on another file system, the install fails even
      where it would otherwise succeed: `fs.rename` does not cross file systems. */
  lemma LinuxInstallAcrossDevices(t: Tree, dolphinPath: Path, assetPath: Path, exe: Option<Path>)
    requires assetPath in t && t[assetPath].File? && Apart(assetPath, dolphinPath)
    requires dolphinPath in t && t[dolphinPath] == Dir
    requires !IsDir(t, dolphinPath + [Basename(assetPath)])
    requires exe.Some? ==> Apart(exe.value, assetPath) && !Under(dolphinPath, exe.value)
    ensures LinuxInstallRun(t, dolphinPath, assetPath, exe, false).outcome ==
      Fail(FsFailure(CrossDevice(assetPath, dolphinPath + [Basename(assetPath)])))
  {
    var target := dolphinPath + [Basename(assetPath)];
    var cleared := if exe.Some? && Exists(t, exe.value) then Removed(t, exe.value) else t;
    assert assetPath in cleared;
    LinuxTargetFree(t, cleared, dolphinPath, Basename(assetPath), exe);
    ApartBelow(assetPath, dolphinPath, target);
  }

  /** What the outside world answers during one installation check of one build: the platform,
      the latest release of each repository that answers, the temporary and user-data folders,
      whether a focused window exists, what a download delivers (None when it fails), the
      entries of the downloaded archive, what `findDolphinExecutable` returns (None when it
      throws), the version the installed executable reports, and whether the temporary folder
      and the user-data folder are on one file system. */
  datatype Env = Env(
    platform: Platform,
    github: map<string, Release>,
    tmp: Path,
    userData: Path,
    hasWindow: bool,
    fetched: Option<string>,
    entries: Tree,
    exe: Option<Path>,
    installed: Version,
    sameDevice: bool)

  /** The file system after a download attempt, and the location or the error. */
  datatype Downloaded = Downloaded(tree: Tree, location: Result<Path, InstallError>)

  /** `downloadLatestDolphin(type)`: the asset is saved as `temp/<asset name>` unless a file is
      already there or no window is focused; the location is returned either way. */
  function DownloadRun(t: Tree, env: Env, lt: LaunchType): (d: Downloaded)
    ensures LatestDolphinAsset(env.github, env.platform, lt).Err? ==>
      d == Downloaded(t, Err(LatestDolphinAsset(env.github, env.platform, lt).error))
    ensures d.location.Ok? ==> d.location.value == env.tmp + [LatestDolphinAsset(env.github, env.platform, lt).value.name]
    ensures d.location.Ok? ==> Exists(d.tree, d.location.value) || !env.hasWindow
    ensures d.tree != t ==>
      var loc := env.tmp + [LatestDolphinAsset(env.github, env.platform, lt).value.name];
      && !Exists(t, loc) && env.hasWindow && env.fetched.Some?
      && d.tree == t[loc := File(env.fetched.value, NewFileMode)]
  {
    match LatestDolphinAsset(env.github, env.platform, lt)
    case Err(e) => Downloaded(t, Err(e))
    case Ok(asset) =>
      var loc := env.tmp + [asset.name];
      if Exists(t, loc) || !env.hasWindow then Downloaded(t, Ok(loc))
      else if env.fetched.None? then Downloaded(t, Err(DownloadFailed(asset.url)))
      else
        var t2 := t[loc := File(env.fetched.value, NewFileMode)];
        assert loc in t2 && Under(loc, loc);
        Downloaded(t2, Ok(loc))
  }

  /** Downloading again after a successful download changes nothing and gives the same
      location. */
  lemma DownloadIdempotent(t: Tree, env: Env, lt: LaunchType)
    ensures var d := DownloadRun(t, env, lt);
      d.location.Ok? ==> DownloadRun(d.tree, env, lt) == d
  {
  }

  /** A download followed by an install of what was downloaded. */
  function FetchInstallRun(t: Tree, env: Env, lt: LaunchType): (r: Run)
    ensures DownloadRun(t, env, lt).location.Err? ==>
      r == Run(DownloadRun(t, env, lt).tree, Fail(DownloadRun(t, env, lt).location.error))
  {
    var d := DownloadRun(t, env, lt);
    match d.location
    case Err(e) => Run(d.tree, Fail(e))
    case Ok(loc) => InstallRun(d.tree, env.platform, lt, env.userData, loc, env.entries, env.exe, env.sameDevice)
  }

  /** A primitive's outcome as the install procedure reports it. */
  function Wrap(o: Outcome<FsError>): Outcome<InstallError>
  {
    match o
    case Pass => Pass
    case Fail(e) => Fail(FsFailure(e))
  }

  method DownloadLatestDolphin(host: Host, env: Env, lt: LaunchType) returns (r: Result<Path, InstallError>)
    modifies host
    ensures Downloaded(host.nodes, r) == DownloadRun(old(host.nodes), env, lt)
  {
    var asset := LatestDolphinAsset(env.github, env.platform, lt);
    if asset.Err? {
      return Err(asset.error);
    }
    var location := env.tmp + [asset.value.name];
    var present := host.PathExists(location);
    if !present && env.hasWindow {
      if env.fetched.None? {
        return Err(DownloadFailed(asset.value.url));
      }
      host.WriteFile(location, env.fetched.value);
    }
    r := Ok(location);
  }

  method BackupUser(host: Host, backup: Path, toBackup: Path) returns (r: Outcome<InstallError>)
    modifies host
    ensures Run(host.nodes, r) == BackupUserRun(old(host.nodes), backup, toBackup)
  {
    var alreadyInstalled := host.PathExists(toBackup);
    r := Pass;
    if alreadyInstalled {
      var moved := host.Move(toBackup, backup);
      r := Wrap(moved);
    }
  }

  method RestoreUser(host: Host, backup: Path, restore: Path) returns (r: Outcome<InstallError>)
    modifies host
    ensures Run(host.nodes, r) == RestoreUserRun(old(host.nodes), backup, restore)
  {
    var alreadyInstalled := host.PathExists(restore);
    if !alreadyInstalled {
      return Pass;
    }
    var oldUserFolder, newUserFolder := backup + [UserFolder], restore + [UserFolder];
    var oldUserJson, newUserJson := backup + [UserJson], restore + [UserJson];
    var hasFolder := host.PathExists(oldUserFolder);
    if hasFolder {
      var moved := host.Move(oldUserFolder, newUserFolder);
      if moved.Fail? {
        return Wrap(moved);
      }
    }
    var hasJson := host.PathExists(oldUserJson);
    if hasJson {
      var moved := host.Move(oldUserJson, newUserJson);
      if moved.Fail? {
        return Wrap(moved);
      }
    }
    host.Remove(backup);
    r := Pass;
  }

  method InstallDolphin(host: Host, env: Env, lt: LaunchType, assetPath: Path) returns (r: Outcome<InstallError>)
    modifies host
    ensures Run(host.nodes, r) == InstallRun(old(host.nodes), env.platform, lt, env.userData, assetPath, env.entries, env.exe, env.sameDevice)
  {
    var dolphinPath := DolphinPath(env.userData, lt);
    var backupLocation := BackupLocation(env.userData, lt);
    match env.platform {
      case Win32 =>
        r := ZipInstall(host, dolphinPath, backupLocation, dolphinPath, assetPath, env.entries);
      case Darwin =>
        r := ZipInstall(host, dolphinPath, backupLocation, MacResources(dolphinPath), assetPath, env.entries);
      case Linux =>
        if env.exe.Some? {
          var found := host.PathExists(env.exe.value);
          if found {
            host.Remove(env.exe.value);
          }
        }
        var targetLocation := dolphinPath + [Basename(assetPath)];
        var renamed := host.Rename(assetPath, targetLocation, env.sameDevice);
        if renamed.Fail? {
          return Wrap(renamed);
        }
        var changed := host.Chmod(targetLocation, ExecutableMode);
        r := Wrap(changed);
      case OtherPlatform(_) =>
        r := Fail(UnsupportedPlatform(env.platform));
    }
  }

  /** The shared body of the win32 and darwin branches of `installDolphin`. */
  method ZipInstall(host: Host, dolphinPath: Path, backup: Path, userDir: Path, assetPath: Path, entries: Tree)
    returns (r: Outcome<InstallError>)
    modifies host
    ensures Run(host.nodes, r) == ZipInstallRun(old(host.nodes), dolphinPath, backup, userDir, assetPath, entries)
  {
    r := BackupUser(host, backup, userDir);
    if r.Fail? {
      return;
    }
    var extracted := host.Extract(assetPath, entries, dolphinPath);
    if extracted.Fail? {
      return Wrap(extracted);
    }
    r := RestoreUser(host, backup, userDir);
  }

  /** Download the latest release and install it: the block `assertDolphinInstallation` runs in
      each of its three branches. */
  method DownloadAndInstall(host: Host, env: Env, lt: LaunchType) returns (r: Outcome<InstallError>)
    modifies host
    ensures Run(host.nodes, r) == FetchInstallRun(old(host.nodes), env, lt)
  {
    var downloaded := DownloadLatestDolphin(host, env, lt);
    if downloaded.Err? {
      return Fail(downloaded.error);
    }
    r := InstallDolphin(host, env, lt, downloaded.value);
  }

  /** `assertDolphinInstallation(type, log, force)`; `installs` counts the download-and-install
      sequences started. Forced: one. Otherwise, when the executable is found and the release
      answers, nothing happens unless the installation is outdated, and then a failed first
      install is retried once from where it stopped (the catch block runs after the error). When
      the executable is missing or the release request fails: one. */
  method AssertDolphinInstallation(host: Host, env: Env, lt: LaunchType, force: bool)
    returns (r: Outcome<InstallError>, installs: nat)
    modifies host
    ensures var once := FetchInstallRun(old(host.nodes), env, lt);
      force ==> Run(host.nodes, r) == once && installs == 1
    ensures var repo := ReleaseRepo(lt);
      var once := FetchInstallRun(old(host.nodes), env, lt);
      !force && env.exe.Some? && repo in env.github ==>
        if !CompareDolphinVersion(env.installed, env.github[repo].version) then
          r == Pass && host.nodes == old(host.nodes) && installs == 0
        else if once.outcome.Pass? then
          Run(host.nodes, r) == once && installs == 1
        else
          Run(host.nodes, r) == FetchInstallRun(once.tree, env, lt) && installs == 2
    ensures var once := FetchInstallRun(old(host.nodes), env, lt);
      !force && (env.exe.None? || ReleaseRepo(lt) !in env.github) ==>
        Run(host.nodes, r) == once && installs == 1
  {
    if force {
      r := DownloadAndInstall(host, env, lt);
      return r, 1;
    }
    installs := 0;
    var repo := ReleaseRepo(lt);
    if env.exe.Some? && repo in env.github {
      var isOutdated := CompareDolphinVersion(env.installed, env.github[repo].version);
      if !isOutdated {
        return Pass, 0;
      }
      r := DownloadAndInstall(host, env, lt);
      installs := 1;
      if r.Pass? {
        return;
      }
    }
    r := DownloadAndInstall(host, env, lt);
    installs := installs + 1;
  }
}
