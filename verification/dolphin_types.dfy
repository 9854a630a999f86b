/** Types shared by the emulator ("Dolphin") instance managers: the two emulator builds, the
    replay command payload, process handles, and the listeners an instance carries. */
module DolphinTypes {
  import opened Wrappers

  /** `DolphinLaunchType`: the netplay build or the playback build of the emulator. */
  datatype LaunchType = Netplay | Playback

  /** The enum's string value, used as a settings key and as the installation folder name. */
  function LaunchTypeName(t: LaunchType): string
  {
    match t
    case Netplay => "netplay"
    case Playback => "playback"
  }

  /** A running emulator process, treated as an opaque identifier. */
  type Handle = nat

  datatype ReplayMode = NormalMode | MirrorMode | QueueMode

  datatype RollbackDisplayMethod = Off | NormalDisplay | Visible

  datatype ReplayQueueItem = ReplayQueueItem(
    path: string,
    startFrame: Option<int>,
    endFrame: Option<int>,
    gameStartAt: Option<string>,
    gameStation: Option<string>)

  /** The command payload handed to a playback emulator; every optional field may be absent. */
  datatype ReplayCommunication = ReplayCommunication(
    mode: ReplayMode,
    replay: Option<string>,
    startFrame: Option<int>,
    endFrame: Option<int>,
    commandId: Option<string>,
    outputOverlayFiles: Option<bool>,
    isRealTimeMode: Option<bool>,
    shouldResync: Option<bool>,
    rollbackDisplayMethod: Option<RollbackDisplayMethod>,
    queue: Option<seq<ReplayQueueItem>>)

  /** What a listener registered on an instance does to the manager when it runs: emit
      "dolphin-closed" with `id` and delete `id` from the playback map, or set the netplay slot
      back to null. */
  datatype Callback = DeletePlayback(id: string) | ClearNetplay

  /** `DolphinInstance` or its subclass `PlaybackDolphinInstance`. */
  datatype InstanceKind = PlainInstance | PlaybackInstance

  /** A live instance as the manager sees it: how it was constructed and the listeners it
      carries for its "close" event and, optionally, its "error" event. */
  datatype Instance = Instance(
    kind: InstanceKind,
    exePath: string,
    isoPath: Option<string>,
    onClose: Callback,
    onError: Option<Callback>)

  /** The manager's observable actions, in order: log warnings, events emitted to its
      listeners, calls on instances, error logs, and requests to download and install. */
  datatype Effect =
    | Warn(message: string)
    | Emit(event: string, id: string)
    | Play(handle: Handle, comm: ReplayCommunication)
    | Start(handle: Handle)
    | LogError(handle: Handle)
    | Reinstall(launchType: LaunchType, force: bool)

  datatype ManagerError =
    | ExecutableNotFound(launchType: LaunchType)
    | AlreadyOpen(message: string)
}
