/** The renderer's settings store (src/renderer/store/settings/index.ts): the persisted settings
    (ISO path and its modification time, replay folder, the two emulator folders) and the flags
    that track the ISO and emulator-folder checks. The file system, the ISO verifier and the
    emulator lookup are oracle inputs. */
module SettingsStore {
  import opened Wrappers
  import opened DolphinTypes

  /** The part of the state that is persisted under the "settings" key. */
  datatype Settings = Settings(
    isoPath: Option<string>,
    isoModTime: Option<string>,
    rootSlpPath: string,
    netplayPath: Option<string>,
    playbackPath: Option<string>)

  datatype StoreState = StoreState(
    settings: Settings,
    verifyingIso: bool,
    validIsoPath: Option<bool>,
    verifyingDolphinPath: bool,
    validDolphinPath: Option<bool>)

  /** What was read back from the settings file: every key may be missing (None). */
  datatype Restored = Restored(
    isoPath: Option<Option<string>>,
    isoModTime: Option<Option<string>>,
    rootSlpPath: Option<string>,
    netplayPath: Option<Option<string>>,
    playbackPath: Option<Option<string>>)

  /** The platform defaults: the default replay folder and the default emulator folders. */
  datatype Defaults = Defaults(rootSlpPath: string, netplayPath: Option<string>, playbackPath: Option<string>)

  /** A settings file with no settings in it. */
  const NothingRestored := Restored(None, None, None, None, None)

  function Or<T>(o: Option<T>, default: T): (r: T)
    ensures o.Some? ==> r == o.value
    ensures o.None? ==> r == default
  {
    match o
    case Some(v) => v
    case None => default
  }

  /** `initialState`: every restored key overrides its default; the ISO has not been judged
      yet and the emulator folder is taken to be valid. */
  function InitialState(restored: Restored, defaults: Defaults): (s: StoreState)
    ensures s.settings.isoPath == (if restored.isoPath.Some? then restored.isoPath.value else None)
    ensures s.settings.isoModTime == (if restored.isoModTime.Some? then restored.isoModTime.value else None)
    ensures restored.rootSlpPath.Some? ==> s.settings.rootSlpPath == restored.rootSlpPath.value
    ensures restored.rootSlpPath.None? ==> s.settings.rootSlpPath == defaults.rootSlpPath
    ensures restored.netplayPath.Some? ==> s.settings.netplayPath == restored.netplayPath.value
    ensures restored.netplayPath.None? ==> s.settings.netplayPath == defaults.netplayPath
    ensures restored.playbackPath.Some? ==> s.settings.playbackPath == restored.playbackPath.value
    ensures restored.playbackPath.None? ==> s.settings.playbackPath == defaults.playbackPath
    ensures !s.verifyingIso && s.validIsoPath == None
    ensures !s.verifyingDolphinPath && s.validDolphinPath == Some(true)
  {
    var settings := Settings(
      Or(restored.isoPath, None),
      Or(restored.isoModTime, None),
      Or(restored.rootSlpPath, defaults.rootSlpPath),
      Or(restored.netplayPath, defaults.netplayPath),
      Or(restored.playbackPath, defaults.playbackPath));
    StoreState(settings, false, None, false, Some(true))
  }

  /** What the settings subscription writes to the settings file: every key. */
  function Persist(s: Settings): (r: Restored)
    ensures r.isoPath.Some? && r.isoModTime.Some? && r.rootSlpPath.Some?
    ensures r.netplayPath.Some? && r.playbackPath.Some?
  {
    Restored(Some(s.isoPath), Some(s.isoModTime), Some(s.rootSlpPath), Some(s.netplayPath), Some(s.playbackPath))
  }

  /** Starting again from the written settings file gives back exactly the settings that were
      written, whatever the platform defaults are. */
  lemma RestorePersisted(s: Settings, defaults: Defaults)
    ensures InitialState(Persist(s), defaults).settings == s
  {
  }

  /** With nothing restored, the settings are the defaults and no ISO is set. */
  lemma FirstStartDefaults(defaults: Defaults)
    ensures InitialState(NothingRestored, defaults).settings ==
      Settings(None, None, defaults.rootSlpPath, defaults.netplayPath, defaults.playbackPath)
  {
  }

  /** `settings[dolphinType].path`. */
  function DolphinPath(s: Settings, t: LaunchType): Option<string>
  {
    match t
    case Netplay => s.netplayPath
    case Playback => s.playbackPath
  }

  /** `draft.settings[dolphinType].path = dolphinPath`: the folder of that build is the new one,
      the other build's folder and every other setting are as they were. */
  function WithDolphinPath(s: Settings, t: LaunchType, path: Option<string>): (r: Settings)
    ensures DolphinPath(r, t) == path
    ensures forall u :: u != t ==> DolphinPath(r, u) == DolphinPath(s, u)
    ensures r.isoPath == s.isoPath && r.isoModTime == s.isoModTime && r.rootSlpPath == s.rootSlpPath
  {
    match t
    case Netplay => s.(netplayPath := path)
    case Playback => s.(playbackPath := path)
  }

  /** Setting a folder twice keeps only the second; setting the folder it already has changes
      nothing. */
  lemma {:induction false} WithDolphinPathLaws(s: Settings, t: LaunchType, p: Option<string>, q: Option<string>)
    ensures WithDolphinPath(WithDolphinPath(s, t, p), t, q) == WithDolphinPath(s, t, q)
    ensures WithDolphinPath(s, t, DolphinPath(s, t)) == s
  {
    match t
    case Netplay =>
    case Playback =>
  }

  /** The first `set` of `verifyIsoPath`: checking, and no verdict yet. */
  function IsoCheckStarted(s: StoreState): (r: StoreState)
    ensures r.verifyingIso && r.validIsoPath == None
    ensures r.settings == s.settings
    ensures r.verifyingDolphinPath == s.verifyingDolphinPath && r.validDolphinPath == s.validDolphinPath
  {
    s.(verifyingIso := true, validIsoPath := None)
  }

  /** The state `verifyIsoPath(isoPath)` leaves, given what `stat` reports as the file's
      modification time (None when it fails) and what `verifyISO` answers (None when it fails;
      it is only asked when the modification time changed). */
  function IsoVerified(s: StoreState, isoPath: string, mtime: Option<string>, verdict: Option<bool>): (r: StoreState)
    ensures !r.verifyingIso
    ensures r.verifyingDolphinPath == s.verifyingDolphinPath && r.validDolphinPath == s.validDolphinPath
    ensures mtime.None? ==> r.validIsoPath == Some(false) && r.settings == s.settings
    ensures mtime.Some? && s.settings.isoModTime == mtime ==>
      r.validIsoPath == Some(true) && r.settings == s.settings
    ensures mtime.Some? && s.settings.isoModTime != mtime && verdict.Some? ==>
      && r.validIsoPath == verdict
      && r.settings == s.settings.(isoPath := Some(isoPath), isoModTime := mtime)
    ensures mtime.Some? && s.settings.isoModTime != mtime && verdict.None? ==>
      r.validIsoPath == Some(false) && r.settings == s.settings
  {
    var checking := IsoCheckStarted(s);
    var judged :=
      match mtime
      case None => checking.(validIsoPath := Some(false))
      case Some(current) =>
        if checking.settings.isoModTime != Some(current) then
          match verdict
          case None => checking.(validIsoPath := Some(false))
          case Some(valid) =>
            var withVerdict := checking.(validIsoPath := Some(valid));
            var withPath := withVerdict.(settings := withVerdict.settings.(isoPath := Some(isoPath)));
            withPath.(settings := withPath.settings.(isoModTime := Some(current)))
        else checking.(validIsoPath := Some(true));
    judged.(verifyingIso := false)
  }

  /** Only the modification time is remembered, not the verdict: once an ISO has been judged,
      accepted or rejected, checking it again while its file is unchanged reports it valid
      without asking the verifier, and changes no setting. */
  lemma {:induction false} IsoCheckCached(s: StoreState, isoPath: string, mtime: string, first: Option<bool>, second: Option<bool>)
    requires first.Some?
    ensures var judged := IsoVerified(s, isoPath, Some(mtime), first);
      var again := IsoVerified(judged, isoPath, Some(mtime), second);
      again.validIsoPath == Some(true) && again.settings == judged.settings
  {
    var judged := IsoVerified(s, isoPath, Some(mtime), first);
    assert judged.settings.isoModTime == Some(mtime);
  }

  /** A rejected ISO is still stored, with its modification time, so the next check of the
      unchanged file reports it valid. */
  lemma IsoRejectedThenValid(s: StoreState, isoPath: string, mtime: string, second: Option<bool>)
    requires s.settings.isoModTime != Some(mtime)
    ensures var judged := IsoVerified(s, isoPath, Some(mtime), Some(false));
      var again := IsoVerified(judged, isoPath, Some(mtime), second);
      && judged.validIsoPath == Some(false)
      && judged.settings.isoPath == Some(isoPath)
      && again.validIsoPath == Some(true)
  {
    IsoCheckCached(s, isoPath, mtime, Some(false), second);
  }

  /** The ISO is reported valid only when its file is unchanged since the last check, or the
      verifier accepted it. */
  lemma IsoValidOnlyIfAccepted(s: StoreState, isoPath: string, mtime: Option<string>, verdict: Option<bool>)
    requires IsoVerified(s, isoPath, mtime, verdict).validIsoPath == Some(true)
    ensures mtime.Some?
    ensures s.settings.isoModTime == mtime || verdict == Some(true)
  {
  }

  /** The first `set` of `verifyAndSetDolphinPath`. */
  function DolphinCheckStarted(s: StoreState): (r: StoreState)
    ensures r.verifyingDolphinPath && r.validDolphinPath == None
    ensures r.settings == s.settings
    ensures r.verifyingIso == s.verifyingIso && r.validIsoPath == s.validIsoPath
  {
    s.(verifyingDolphinPath := true, validDolphinPath := None)
  }

  /** The state `verifyAndSetDolphinPath(t, path)` leaves, given whether the emulator lookup for
      build `t` succeeds. */
  function DolphinPathVerified(s: StoreState, t: LaunchType, path: string, found: bool): (r: StoreState)
    ensures !r.verifyingDolphinPath && r.validDolphinPath == Some(found)
    ensures r.verifyingIso == s.verifyingIso && r.validIsoPath == s.validIsoPath
    ensures found ==> DolphinPath(r.settings, t) == Some(path)
    ensures !found ==> r.settings == s.settings
    ensures forall u :: u != t ==> DolphinPath(r.settings, u) == DolphinPath(s.settings, u)
    ensures r.settings.isoPath == s.settings.isoPath && r.settings.isoModTime == s.settings.isoModTime
    ensures r.settings.rootSlpPath == s.settings.rootSlpPath
  {
    var checking := DolphinCheckStarted(s);
    var judged :=
      if found then
        var valid := checking.(validDolphinPath := Some(true));
        valid.(settings := WithDolphinPath(valid.settings, t, Some(path)))
      else checking.(validDolphinPath := Some(false));
    judged.(verifyingDolphinPath := false)
  }

  /** The two checks are independent: they touch disjoint flags, and the ISO check never
      changes an emulator folder nor the emulator check the ISO settings. */
  lemma {:induction false} ChecksCommute(s: StoreState, isoPath: string, mtime: Option<string>, verdict: Option<bool>,
                                         t: LaunchType, path: string, found: bool)
    ensures IsoVerified(DolphinPathVerified(s, t, path, found), isoPath, mtime, verdict)
         == DolphinPathVerified(IsoVerified(s, isoPath, mtime, verdict), t, path, found)
  {
    match t
    case Netplay =>
    case Playback =>
  }

  /** The store. `saved` is what the settings file holds: the subscription writes the settings
      each time they change. */
  class Store {
    var state: StoreState
    var saved: Restored
    const defaults: Defaults

    /** A restart would give back the current settings. */
    predicate Restartable()
      reads this
    {
      InitialState(saved, defaults).settings == state.settings
    }

    constructor(restored: Restored, defaults: Defaults)
      ensures state == InitialState(restored, defaults)
      ensures saved == restored && this.defaults == defaults
      ensures Restartable()
    {
      state := InitialState(restored, defaults);
      saved := restored;
      this.defaults := defaults;
    }

    /** Replaces the settings. The store's subscription writes them to the settings file only
        when they changed: an update that leaves every value as it was produces the same state,
        and subscribers are not called. */
    method Commit(settings: Settings)
      requires Restartable()
      modifies this
      ensures state == old(state).(settings := settings)
      ensures saved == if settings == old(state).settings then old(saved) else Persist(settings)
      ensures Restartable()
    {
      if settings != state.settings {
        state := state.(settings := settings);
        saved := Persist(settings);
        RestorePersisted(settings, defaults);
      }
    }

    method SetIsoPath(isoPath: Option<string>)
      requires Restartable()
      modifies this
      ensures state == old(state).(settings := old(state).settings.(isoPath := isoPath))
      ensures saved == if state.settings == old(state).settings then old(saved) else Persist(state.settings)
      ensures Restartable()
    {
      Commit(state.settings.(isoPath := isoPath));
    }

    method SetIsoModTime(isoModTime: Option<string>)
      requires Restartable()
      modifies this
      ensures state == old(state).(settings := old(state).settings.(isoModTime := isoModTime))
      ensures saved == if state.settings == old(state).settings then old(saved) else Persist(state.settings)
      ensures Restartable()
    {
      Commit(state.settings.(isoModTime := isoModTime));
    }

    method SetReplayDirectory(dir: string)
      requires Restartable()
      modifies this
      ensures state == old(state).(settings := old(state).settings.(rootSlpPath := dir))
      ensures saved == if state.settings == old(state).settings then old(saved) else Persist(state.settings)
      ensures Restartable()
    {
      Commit(state.settings.(rootSlpPath := dir));
    }

    method SetDolphinFolderPath(t: LaunchType, path: Option<string>)
      requires Restartable()
      modifies this
      ensures state == old(state).(settings := WithDolphinPath(old(state).settings, t, path))
      ensures saved == if state.settings == old(state).settings then old(saved) else Persist(state.settings)
      ensures Restartable()
    {
      Commit(WithDolphinPath(state.settings, t, path));
    }

    /** `verifyIsoPath(isoPath)`, with `stat`'s modification time and `verifyISO`'s verdict as
        oracles (None when the call throws). */
    method VerifyIsoPath(isoPath: string, mtime: Option<string>, verdict: Option<bool>)
      requires Restartable()
      modifies this
      ensures state == IsoVerified(old(state), isoPath, mtime, verdict)
      ensures saved == if state.settings == old(state).settings then old(saved) else Persist(state.settings)
      ensures Restartable()
    {
      state := state.(verifyingIso := true, validIsoPath := None);
      var storedModTime := state.settings.isoModTime;
      match mtime {
        case None =>
          state := state.(validIsoPath := Some(false));
        case Some(current) =>
          if storedModTime != Some(current) {
            match verdict {
              case None =>
                state := state.(validIsoPath := Some(false));
              case Some(valid) =>
                state := state.(validIsoPath := Some(valid));
                SetIsoPath(Some(isoPath));
                SetIsoModTime(Some(current));
            }
          } else {
            state := state.(validIsoPath := Some(true));
          }
      }
      state := state.(verifyingIso := false);
    }

    /** `verifyAndSetDolphinPath(t, path)`, with the emulator lookup's success as an oracle. */
    method VerifyAndSetDolphinPath(t: LaunchType, path: string, found: bool)
      requires Restartable()
      modifies this
      ensures state == DolphinPathVerified(old(state), t, path, found)
      ensures saved == if state.settings == old(state).settings then old(saved) else Persist(state.settings)
      ensures Restartable()
    {
      state := state.(verifyingDolphinPath := true, validDolphinPath := None);
      if found {
        state := state.(validDolphinPath := Some(true));
        SetDolphinFolderPath(t, Some(path));
      } else {
        state := state.(validDolphinPath := Some(false));
      }
      state := state.(verifyingDolphinPath := false);
    }
  }
}
