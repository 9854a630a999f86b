/** The instance manager of src/dolphin/manager.ts: a map from window id to playback instance,
    a nullable netplay slot, and the listeners that untrack an instance when it closes. The
    asynchronous "close" and "error" events become the methods OnClose and OnError. */
module DolphinManager {
  import opened Wrappers
  import opened DolphinTypes

  /** The key under which a playback emulator opened for configuration is tracked. */
  const ConfigureKey: string := "configure"
  const DolphinClosed: string := "dolphin-closed"

  class Manager {
    /** `playbackDolphinInstances`: window id to instance. */
    var playback: map<string, Handle>
    /** `netplayDolphinInstance`, or None for null. */
    var netplay: Option<Handle>
    /** Every instance created and not yet closed, with the listeners it carries. */
    var instances: map<Handle, Instance>
    /** Handles at or above this one have never been given out. */
    var nextHandle: Handle
    var effects: seq<Effect>

    /** Every tracked slot holds a live instance whose "close" listener untracks that slot, so
        no entry outlives its process. */
    ghost predicate Valid()
      reads this
    {
      && (forall h :: h in instances ==> h < nextHandle)
      && (forall id :: id in playback ==>
            playback[id] in instances && instances[playback[id]].onClose == DeletePlayback(id))
      && (netplay.Some? ==> netplay.value in instances && instances[netplay.value].onClose == ClearNetplay)
    }

    constructor ()
      ensures Valid()
      ensures playback == map[] && netplay == None && instances == map[] && effects == []
    {
      playback := map[];
      netplay := None;
      instances := map[];
      nextHandle := 0;
      effects := [];
    }

    /** Creates an instance with the next unused handle. */
    method Register(inst: Instance) returns (h: Handle)
      requires Valid()
      modifies this`instances, this`nextHandle
      ensures h == old(nextHandle) && h !in old(instances)
      ensures instances == old(instances)[h := inst] && nextHandle == h + 1
    {
      h := nextHandle;
      instances := instances[h := inst];
      nextHandle := nextHandle + 1;
    }

    /** Runs a listener: emit and delete a playback key, or clear the netplay slot. */
    method Run(cb: Callback)
      modifies this`playback, this`netplay, this`effects
      ensures cb.DeletePlayback? ==>
        playback == old(playback) - {cb.id} && netplay == old(netplay)
        && effects == old(effects) + [Emit(DolphinClosed, cb.id)]
      ensures cb.ClearNetplay? ==>
        netplay == None && playback == old(playback) && effects == old(effects)
    {
      match cb
      case DeletePlayback(id) =>
        effects := effects + [Emit(DolphinClosed, id)];
        playback := playback - {id};
      case ClearNetplay =>
        netplay := None;
    }

    /** `launchPlaybackDolphin(id, replayComm)`: reuses the instance tracked under `id`, or
        creates one and tracks it under `id`; either way the instance is asked to play. A live
        configuring instance only draws a warning. `exe` is what `findDolphinExecutable`
        resolves to (None when it throws); `isoPath` is the configured ISO path. */
    method LaunchPlaybackDolphin(id: string, comm: ReplayCommunication, exe: Option<string>, isoPath: Option<string>)
      returns (r: Outcome<ManagerError>)
      requires Valid()
      modifies this
      ensures Valid()
      ensures exe.None? ==>
        r == Fail(ExecutableNotFound(Playback))
        && playback == old(playback) && netplay == old(netplay) && instances == old(instances)
        && effects == old(effects)
      ensures exe.Some? ==> r == Pass && netplay == old(netplay)
      ensures exe.Some? && id in old(playback) ==>
        playback == old(playback) && instances == old(instances)
        && effects == old(effects) + Warning(old(playback)) + [Play(old(playback)[id], comm)]
      ensures exe.Some? && id !in old(playback) ==>
        && old(nextHandle) !in old(instances)
        && playback == old(playback)[id := old(nextHandle)]
        && instances == old(instances)[old(nextHandle) :=
             Instance(PlaybackInstance, exe.value, isoPath, DeletePlayback(id), None)]
        && effects == old(effects) + Warning(old(playback)) + [Play(old(nextHandle), comm)]
    {
      if exe.None? {
        return Fail(ExecutableNotFound(Playback));
      }
      effects := effects + Warning(playback);
      var h: Handle;
      if id in playback {
        h := playback[id];
      } else {
        h := Register(Instance(PlaybackInstance, exe.value, isoPath, DeletePlayback(id), None));
        playback := playback[id := h];
      }
      effects := effects + [Play(h, comm)];
      r := Pass;
    }

    /** The warning logged when a configuring emulator is open. */
    static function Warning(playback: map<string, Handle>): seq<Effect>
    {
      if ConfigureKey in playback then [Warn("cannot open dolphin if a configuring dolphin is open")] else []
    }

    /** `launchNetplayDolphin()`: refuses while a netplay instance is live; otherwise creates
        one, fills the netplay slot with it and starts it. */
    method LaunchNetplayDolphin(exe: Option<string>, isoPath: Option<string>) returns (r: Outcome<ManagerError>)
      requires Valid()
      modifies this
      ensures Valid()
      ensures exe.None? || old(netplay).Some? ==>
        playback == old(playback) && netplay == old(netplay) && instances == old(instances)
        && effects == old(effects)
      ensures exe.None? ==> r == Fail(ExecutableNotFound(Netplay))
      ensures exe.Some? && old(netplay).Some? ==> r == Fail(AlreadyOpen("Netplay dolphin is already open!"))
      ensures exe.Some? && old(netplay).None? ==>
        && r == Pass
        && old(nextHandle) !in old(instances)
        && netplay == Some(old(nextHandle)) && playback == old(playback)
        && instances == old(instances)[old(nextHandle) := Instance(PlainInstance, exe.value, isoPath, ClearNetplay, None)]
        && effects == old(effects) + [Start(old(nextHandle))]
    {
      if exe.None? {
        return Fail(ExecutableNotFound(Netplay));
      }
      if netplay.Some? {
        return Fail(AlreadyOpen("Netplay dolphin is already open!"));
      }
      var h := Register(Instance(PlainInstance, exe.value, isoPath, ClearNetplay, None));
      netplay := Some(h);
      effects := effects + [Start(h)];
      r := Pass;
    }

    /** `configureDolphin(launchType)`: opens an emulator for configuration, without an ISO. A
        netplay one fills the netplay slot only when it is null; a playback one is tracked
        under "configure" only when no playback instance is tracked. Otherwise nothing happens.
        The configuring instance untracks itself on "close" and on "error". */
    method ConfigureDolphin(launchType: LaunchType, exe: Option<string>) returns (r: Outcome<ManagerError>)
      requires Valid()
      modifies this
      ensures Valid()
      ensures r == (if exe.None? then Fail(ExecutableNotFound(launchType)) else Pass)
      ensures exe.None? || !CanConfigure(launchType, old(playback), old(netplay)) ==>
        playback == old(playback) && netplay == old(netplay) && instances == old(instances)
        && effects == old(effects)
      ensures exe.Some? && CanConfigure(launchType, old(playback), old(netplay)) ==>
        && old(nextHandle) !in old(instances)
        && effects == old(effects) + [Start(old(nextHandle))]
        && (launchType == Netplay ==>
              && netplay == Some(old(nextHandle)) && playback == old(playback)
              && instances == old(instances)[old(nextHandle) :=
                   Instance(PlainInstance, exe.value, None, ClearNetplay, Some(ClearNetplay))])
        && (launchType == Playback ==>
              && playback == map[ConfigureKey := old(nextHandle)] && netplay == old(netplay)
              && instances == old(instances)[old(nextHandle) :=
                   Instance(PlaybackInstance, exe.value, None, DeletePlayback(ConfigureKey), Some(DeletePlayback(ConfigureKey)))])
    {
      if exe.None? {
        return Fail(ExecutableNotFound(launchType));
      }
      r := Pass;
      if launchType == Netplay && netplay.None? {
        var h := Register(Instance(PlainInstance, exe.value, None, ClearNetplay, Some(ClearNetplay)));
        netplay := Some(h);
        effects := effects + [Start(h)];
      } else if launchType == Playback && |playback| == 0 {
        var h := Register(Instance(PlaybackInstance, exe.value, None, DeletePlayback(ConfigureKey), Some(DeletePlayback(ConfigureKey))));
        playback := playback[ConfigureKey := h];
        effects := effects + [Start(h)];
      }
    }

    /** Configuration is possible when no instance of that launch type is tracked. */
    static predicate CanConfigure(launchType: LaunchType, playback: map<string, Handle>, netplay: Option<Handle>)
    {
      match launchType
      case Netplay => netplay.None?
      case Playback => |playback| == 0
    }

    /** `reinstallDolphin(launchType)`: requests a forced download and install only when no
        instance of that launch type is tracked; otherwise only warns. */
    method ReinstallDolphin(launchType: LaunchType)
      requires Valid()
      modifies this`effects
      ensures CanConfigure(launchType, playback, netplay) ==>
        effects == old(effects) + [Reinstall(launchType, true)]
      ensures launchType == Netplay && netplay.Some? ==>
        effects == old(effects) + [Warn("A netplay dolphin is open")]
      ensures launchType == Playback && |playback| > 0 ==>
        effects == old(effects) + [Warn("A playback dolphin is open")]
    {
      match launchType {
        case Netplay =>
          if netplay.Some? {
            effects := effects + [Warn("A netplay dolphin is open")];
            return;
          }
        case Playback =>
          if |playback| > 0 {
            effects := effects + [Warn("A playback dolphin is open")];
            return;
          }
      }
      effects := effects + [Reinstall(launchType, true)];
    }

    /** The process behind `h` exited: its "close" listener runs and the instance is gone.
        A handle that is not live (already closed) is ignored. */
    method OnClose(h: Handle)
      requires Valid()
      modifies this
      ensures Valid()
      ensures nextHandle == old(nextHandle)
      ensures h !in old(instances) ==>
        playback == old(playback) && netplay == old(netplay) && instances == old(instances)
        && effects == old(effects)
      ensures h in old(instances) ==> instances == old(instances) - {h} && h !in playback.Values
      ensures h in old(instances) && old(instances)[h].onClose.DeletePlayback? ==>
        var id := old(instances)[h].onClose.id;
        playback == old(playback) - {id} && netplay == old(netplay)
        && effects == old(effects) + [Emit(DolphinClosed, id)]
      ensures h in old(instances) && old(instances)[h].onClose.ClearNetplay? ==>
        netplay == None && playback == old(playback) && effects == old(effects)
    {
      if h in instances {
        Run(instances[h].onClose);
        instances := instances - {h};
      }
    }

    /** The process behind `h` raised "error": its "error" listener, if it has one, runs and
        the error is logged; the instance stays live until it closes. */
    method OnError(h: Handle)
      requires Valid()
      modifies this
      ensures Valid()
      ensures instances == old(instances) && nextHandle == old(nextHandle)
      ensures h !in old(instances) || old(instances)[h].onError.None? ==>
        playback == old(playback) && netplay == old(netplay) && effects == old(effects)
      ensures h in old(instances) && old(instances)[h].onError.Some? && old(instances)[h].onError.value.DeletePlayback? ==>
        var id := old(instances)[h].onError.value.id;
        playback == old(playback) - {id} && netplay == old(netplay)
        && effects == old(effects) + [Emit(DolphinClosed, id), LogError(h)]
      ensures h in old(instances) && old(instances)[h].onError == Some(ClearNetplay) ==>
        netplay == None && playback == old(playback) && effects == old(effects) + [LogError(h)]
    {
      if h in instances && instances[h].onError.Some? {
        Run(instances[h].onError.value);
        effects := effects + [LogError(h)];
      }
    }
  }
}
