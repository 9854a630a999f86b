/** The older instance manager of src/main/dolphin/manager.ts. It keeps the same playback map
    and netplay slot as src/dolphin/manager.ts but differs in three ways: a second netplay launch
    only warns, a netplay launch never starts its instance, and no instance carries an "error"
    listener. */
module MainDolphinManager {
  import opened Wrappers
  import opened DolphinTypes

  const ConfigureKey: string := "configure"
  const DolphinClosed: string := "dolphin-closed"

  class Manager {
    var playback: map<string, Handle>
    var netplay: Option<Handle>
    var instances: map<Handle, Instance>
    var nextHandle: Handle
    var effects: seq<Effect>

    /** Every tracked slot holds a live instance whose "close" listener untracks that slot, and
        no instance has an "error" listener. */
    ghost predicate Valid()
      reads this
    {
      && (forall h :: h in instances ==> h < nextHandle && instances[h].onError.None?)
      && (forall id :: id in playback ==>
            playback[id] in instances && instances[playback[id]].onClose == DeletePlayback(id))
      && (netplay.Some? ==> netplay.value in instances && instances[netplay.value].onClose == ClearNetplay)
    }

    constructor ()
      ensures Valid()
      ensures playback == map[] && netplay == None && instances == map[] && effects == []
    {
      playback := map[];
      netplay := None;
      instances := map[];
      nextHandle := 0;
      effects := [];
    }

    method Register(inst: Instance) returns (h: Handle)
      requires Valid() && inst.onError.None?
      modifies this`instances, this`nextHandle
      ensures h == old(nextHandle) && h !in old(instances)
      ensures instances == old(instances)[h := inst] && nextHandle == h + 1
    {
      h := nextHandle;
      instances := instances[h := inst];
      nextHandle := nextHandle + 1;
    }

    /** `launchPlaybackDolphin(id, replayComm)`: reuses or creates the instance tracked under
        `id` and asks it to play; a live configuring instance only draws a warning. */
    method LaunchPlaybackDolphin(id: string, comm: ReplayCommunication, exe: Option<string>, isoPath: Option<string>)
      returns (r: Outcome<ManagerError>)
      requires Valid()
      modifies this
      ensures Valid()
      ensures exe.None? ==>
        r == Fail(ExecutableNotFound(Playback))
        && playback == old(playback) && netplay == old(netplay) && instances == old(instances)
        && effects == old(effects)
      ensures exe.Some? ==> r == Pass && netplay == old(netplay)
      ensures exe.Some? && id in old(playback) ==>
        playback == old(playback) && instances == old(instances)
        && effects == old(effects) + Warning(old(playback)) + [Play(old(playback)[id], comm)]
      ensures exe.Some? && id !in old(playback) ==>
        && old(nextHandle) !in old(instances)
        && playback == old(playback)[id := old(nextHandle)]
        && instances == old(instances)[old(nextHandle) :=
             Instance(PlaybackInstance, exe.value, isoPath, DeletePlayback(id), None)]
        && effects == old(effects) + Warning(old(playback)) + [Play(old(nextHandle), comm)]
    {
      if exe.None? {
        return Fail(ExecutableNotFound(Playback));
      }
      effects := effects + Warning(playback);
      var h: Handle;
      if id in playback {
        h := playback[id];
      } else {
        h := Register(Instance(PlaybackInstance, exe.value, isoPath, DeletePlayback(id), None));
        playback := playback[id := h];
      }
      effects := effects + [Play(h, comm)];
      r := Pass;
    }

    static function Warning(playback: map<string, Handle>): seq<Effect>
    {
      if ConfigureKey in playback then [Warn("cannot open dolphin if a configuring dolphin is open")] else []
    }

    /** `launchNetplayDolphin()`: while a netplay instance is live it only warns; otherwise it
        creates an instance and fills the slot, but does not start it. */
    method LaunchNetplayDolphin(exe: Option<string>, isoPath: Option<string>) returns (r: Outcome<ManagerError>)
      requires Valid()
      modifies this
      ensures Valid()
      ensures r == (if exe.None? then Fail(ExecutableNotFound(Netplay)) else Pass)
      ensures playback == old(playback)
      ensures exe.None? ==>
        netplay == old(netplay) && instances == old(instances) && effects == old(effects)
      ensures exe.Some? && old(netplay).Some? ==>
        netplay == old(netplay) && instances == old(instances)
        && effects == old(effects) + [Warn("cannot open netplay dolphin twice")]
      ensures exe.Some? && old(netplay).None? ==>
        && old(nextHandle) !in old(instances)
        && netplay == Some(old(nextHandle))
        && instances == old(instances)[old(nextHandle) := Instance(PlainInstance, exe.value, isoPath, ClearNetplay, None)]
        && effects == old(effects)
    {
      if exe.None? {
        return Fail(ExecutableNotFound(Netplay));
      }
      r := Pass;
      if netplay.None? {
        var h := Register(Instance(PlainInstance, exe.value, isoPath, ClearNetplay, None));
        netplay := Some(h);
      } else {
        effects := effects + [Warn("cannot open netplay dolphin twice")];
      }
    }

    /** `configureDolphin(launchType)`: as in src/dolphin/manager.ts, but the configuring
        instance has only a "close" listener. */
    method ConfigureDolphin(launchType: LaunchType, exe: Option<string>) returns (r: Outcome<ManagerError>)
      requires Valid()
      modifies this
      ensures Valid()
      ensures r == (if exe.None? then Fail(ExecutableNotFound(launchType)) else Pass)
      ensures exe.None? || !CanConfigure(launchType, old(playback), old(netplay)) ==>
        playback == old(playback) && netplay == old(netplay) && instances == old(instances)
        && effects == old(effects)
      ensures exe.Some? && CanConfigure(launchType, old(playback), old(netplay)) ==>
        && old(nextHandle) !in old(instances)
        && effects == old(effects) + [Start(old(nextHandle))]
        && (launchType == Netplay ==>
              && netplay == Some(old(nextHandle)) && playback == old(playback)
              && instances == old(instances)[old(nextHandle) :=
                   Instance(PlainInstance, exe.value, None, ClearNetplay, None)])
        && (launchType == Playback ==>
              && playback == map[ConfigureKey := old(nextHandle)] && netplay == old(netplay)
              && instances == old(instances)[old(nextHandle) :=
                   Instance(PlaybackInstance, exe.value, None, DeletePlayback(ConfigureKey), None)])
    {
      if exe.None? {
        return Fail(ExecutableNotFound(launchType));
      }
      r := Pass;
      if launchType == Netplay && netplay.None? {
        var h := Register(Instance(PlainInstance, exe.value, None, ClearNetplay, None));
        netplay := Some(h);
        effects := effects + [Start(h)];
      } else if launchType == Playback && |playback| == 0 {
        var h := Register(Instance(PlaybackInstance, exe.value, None, DeletePlayback(ConfigureKey), None));
        playback := playback[ConfigureKey := h];
        effects := effects + [Start(h)];
      }
    }

    static predicate CanConfigure(launchType: LaunchType, playback: map<string, Handle>, netplay: Option<Handle>)
    {
      match launchType
      case Netplay => netplay.None?
      case Playback => |playback| == 0
    }

    /** `reinstallDolphin(launchType)`: refused, with a warning, while an instance of that
        launch type is tracked. */
    method ReinstallDolphin(launchType: LaunchType)
      requires Valid()
      modifies this`effects
      ensures CanConfigure(launchType, playback, netplay) ==>
        effects == old(effects) + [Reinstall(launchType, true)]
      ensures launchType == Netplay && netplay.Some? ==>
        effects == old(effects) + [Warn("A netplay dolphin is open")]
      ensures launchType == Playback && |playback| > 0 ==>
        effects == old(effects) + [Warn("A playback dolphin is open")]
    {
      match launchType {
        case Netplay =>
          if netplay.Some? {
            effects := effects + [Warn("A netplay dolphin is open")];
            return;
          }
        case Playback =>
          if |playback| > 0 {
            effects := effects + [Warn("A playback dolphin is open")];
            return;
          }
      }
      effects := effects + [Reinstall(launchType, true)];
    }

    /** The process behind `h` exited: its "close" listener runs and the instance is gone. */
    method OnClose(h: Handle)
      requires Valid()
      modifies this
      ensures Valid()
      ensures nextHandle == old(nextHandle)
      ensures h !in old(instances) ==>
        playback == old(playback) && netplay == old(netplay) && instances == old(instances)
        && effects == old(effects)
      ensures h in old(instances) ==> instances == old(instances) - {h} && h !in playback.Values
      ensures h in old(instances) && old(instances)[h].onClose.DeletePlayback? ==>
        var id := old(instances)[h].onClose.id;
        playback == old(playback) - {id} && netplay == old(netplay)
        && effects == old(effects) + [Emit(DolphinClosed, id)]
      ensures h in old(instances) && old(instances)[h].onClose.ClearNetplay? ==>
        netplay == None && playback == old(playback) && effects == old(effects)
    {
      if h in instances {
        match instances[h].onClose {
          case DeletePlayback(id) =>
            effects := effects + [Emit(DolphinClosed, id)];
            playback := playback - {id};
          case ClearNetplay =>
            netplay := None;
        }
        instances := instances - {h};
      }
    }
  }
}
