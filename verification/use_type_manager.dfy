/** The per-use-type instance manager of src/main/dolphinManager.ts: one slot each for
    playback, netplay and config, a list of spectate instances keyed by `index`, and a command
    file per playback or spectate instance. Spawned processes are opaque handles; the
    temporary directory, the random bytes, the configured ISO path and the located executable
    are inputs. The "close" event of a process becomes the method OnClose. */
module UseTypeManager {
  import opened Wrappers
  import opened DolphinTypes
  import Seqs

  type Byte = x: nat | x < 256

  /** `dolphinUseType`; any other string a caller passes lands in `OtherUse`. */
  datatype UseType = PlaybackUse | SpectateUse | ConfigUse | NetplayUse | OtherUse(name: string)

  function UseTypeName(u: UseType): string
  {
    match u
    case PlaybackUse => "playback"
    case SpectateUse => "spectate"
    case ConfigUse => "config"
    case NetplayUse => "netplay"
    case OtherUse(name) => name
  }

  // ---------------------------------------------------------------------------------------
  // Command file names

  /** The lower-case hexadecimal digit for `d`, as Buffer's "hex" encoding writes it. */
  function HexDigit(d: nat): (c: char)
    requires d < 16
  {
    if d < 10 then '0' + d as char else 'a' + (d - 10) as char
  }

  predicate IsHexChar(c: char)
  {
    '0' <= c <= '9' || 'a' <= c <= 'f'
  }

  /** `Buffer.from(bytes).toString("hex")`: two digits per byte, high nibble first. */
  function Hex(bytes: seq<Byte>): (s: string)
    ensures |s| == 2 * |bytes|
    ensures forall i :: 0 <= i < |s| ==> IsHexChar(s[i])
  {
    if bytes == [] then []
    else [HexDigit(bytes[0] / 16), HexDigit(bytes[0] % 16)] + Hex(bytes[1..])
  }

  lemma HexDigitInjective(a: nat, b: nat)
    requires a < 16 && b < 16 && HexDigit(a) == HexDigit(b)
    ensures a == b
  {
  }

  /** Distinct byte strings have distinct hexadecimal encodings. */
  lemma {:induction false} HexInjective(a: seq<Byte>, b: seq<Byte>)
    requires Hex(a) == Hex(b)
    ensures a == b
  {
    if a != [] {
      assert |b| == |a|;
      assert Hex(a)[0] == Hex(b)[0] && Hex(a)[1] == Hex(b)[1];
      HexDigitInjective(a[0] / 16, b[0] / 16);
      HexDigitInjective(a[0] % 16, b[0] % 16);
      assert Hex(a)[2..] == Hex(a[1..]) && Hex(b)[2..] == Hex(b[1..]);
      HexInjective(a[1..], b[1..]);
    }
  }

  /** `path.join(dir, name)` for a plain file name, with '/' as the separator. */
  function JoinPath(dir: string, name: string): (p: string)
    ensures Seqs.EndsWith(p, name)
  {
    if dir == [] then (assert name == [] + name; name)
    else if dir[|dir| - 1] == '/' then dir + name
    else dir + "/" + name
  }

  /** The command file's name: `slippi-<useType>-<24 hex digits>.txt` from 12 random bytes. */
  function CommFileName(useType: UseType, bytes: seq<Byte>): (name: string)
    requires |bytes| == 12
  {
    "slippi-" + UseTypeName(useType) + "-" + Hex(bytes) + ".txt"
  }

  /** `generateCommunicationFilePath(dolphinUseType)`: the temporary directory joined with the
      command file's name. */
  function CommFilePath(tmpDir: string, useType: UseType, bytes: seq<Byte>): (p: string)
    requires |bytes| == 12
  {
    JoinPath(tmpDir, CommFileName(useType, bytes))
  }

  /** The name is the fixed prefix, the use type, a dash, exactly 24 hexadecimal digits and
      ".txt"; it is non-empty, so the source's truthiness test on the path always passes. */
  lemma CommFileNameShape(useType: UseType, bytes: seq<Byte>)
    requires |bytes| == 12
    ensures var name := CommFileName(useType, bytes);
      var n := |UseTypeName(useType)|;
      && |name| == 7 + n + 1 + 24 + 4
      && name[..7] == "slippi-" && name[7..7 + n] == UseTypeName(useType) && name[7 + n] == '-'
      && (forall i :: 8 + n <= i < 32 + n ==> IsHexChar(name[i]))
      && name[32 + n..] == ".txt"
  {
    var name := CommFileName(useType, bytes);
    var n := |UseTypeName(useType)|;
    assert name[8 + n..32 + n] == Hex(bytes);
  }

  /** Different random bytes give different command file names for the same use type. */
  lemma CommFileNameInjective(useType: UseType, a: seq<Byte>, b: seq<Byte>)
    requires |a| == 12 && |b| == 12 && a != b
    ensures CommFileName(useType, a) != CommFileName(useType, b)
  {
    var n := |UseTypeName(useType)|;
    if CommFileName(useType, a) == CommFileName(useType, b) {
      assert CommFileName(useType, a)[8 + n..32 + n] == Hex(a);
      assert CommFileName(useType, b)[8 + n..32 + n] == Hex(b);
      HexInjective(a, b);
    }
  }

  // ---------------------------------------------------------------------------------------
  // Spawn arguments

  /** The ISO flags: `-b -e <path>` exactly when the configured ISO path is a non-empty
      string, nothing otherwise. */
  function IsoParams(isoPath: Option<string>): (params: seq<string>)
    ensures params != [] <==> isoPath.Some? && isoPath.value != ""
    ensures params != [] ==> params == ["-b", "-e", isoPath.value]
  {
    if isoPath.Some? && isoPath.value != "" then ["-b", "-e", isoPath.value] else []
  }

  /** The argument list `startDolphin` spawns the executable with: the netplay build gets only
      the extra parameters; the playback build gets `-i <command file>` first. */
  function StartArgs(dolphinType: LaunchType, commFilePath: string, additional: seq<string>): (args: seq<string>)
    ensures dolphinType == Netplay ==> args == additional
    ensures dolphinType == Playback ==>
      |args| == 2 + |additional| && args[..2] == ["-i", commFilePath] && args[2..] == additional
  {
    if dolphinType == Netplay then additional else ["-i", commFilePath] + additional
  }

  // ---------------------------------------------------------------------------------------
  // The manager

  /** A tracked playback instance: its process and its command file. */
  datatype PlaybackSlot = PlaybackSlot(handle: Handle, commFilePath: string)

  /** A tracked spectate instance: the broadcast source index it shows, its process and its
      command file. */
  datatype SpectateEntry = SpectateEntry(index: int, handle: Handle, commFilePath: string)

  /** What a process's "close" listener does: unlink the command file and clear the playback
      slot, unlink the command file and drop every spectate entry with the index, or clear the
      netplay slot. */
  datatype CloseAction =
    | ClosePlayback(commFilePath: string)
    | CloseSpectate(commFilePath: string, index: int)
    | CloseNetplay

  /** One call to `spawn`: the handle it returned, the executable and the arguments. */
  datatype Spawn = Spawn(handle: Handle, exePath: string, args: seq<string>)

  datatype LaunchError = ExecutableMissing(dolphinType: LaunchType) | UnsupportedUseType

  /** `lodash.find(list, ["index", index])` looks for the first entry with this index. */
  function HasIndex(index: int): SpectateEntry -> bool
  {
    (e: SpectateEntry) => e.index == index
  }

  /** The spectate entry `lodash.find` returns for `index`: the first one with that index,
      if the list exists and has one. */
  function FindSpectate(spectate: Option<seq<SpectateEntry>>, index: int): (r: Option<SpectateEntry>)
    ensures r.None? <==> spectate.None? || forall k :: 0 <= k < |spectate.value| ==> spectate.value[k].index != index
    ensures r.Some? ==> r.value in spectate.value && r.value.index == index
    ensures r.Some? ==>
      exists k :: 0 <= k < |spectate.value| && spectate.value[k] == r.value
                  && forall j :: 0 <= j < k ==> spectate.value[j].index != index
  {
    if spectate.None? then None
    else
      match Seqs.FindFirst(spectate.value, HasIndex(index))
      case None => None
      case Some(k) => Some(spectate.value[k])
  }

  /** The spectate entries whose index differs, as lodash `remove` leaves the list. */
  function WithoutIndex(index: int): SpectateEntry -> bool
  {
    (e: SpectateEntry) => e.index != index
  }

  class Manager {
    var playback: Option<PlaybackSlot>
    /** None stands for the initial `null`; the list is created by the first spectate launch. */
    var spectate: Option<seq<SpectateEntry>>
    var netplay: Option<Handle>
    var config: Option<Handle>
    /** Command files on disk and the payload last written to each (None when the caller
        passed no payload). */
    var files: map<string, Option<ReplayCommunication>>
    /** The "close" listener of every process spawned and not yet closed. */
    var listeners: map<Handle, CloseAction>
    var spawns: seq<Spawn>
    var errors: seq<string>
    var nextHandle: Handle

    /** Handles are never reused, spectate entries never have index 0, and nothing ever fills
        the config slot. */
    ghost predicate Valid()
      reads this
    {
      && (forall h :: h in listeners ==> h < nextHandle)
      && (forall k :: 0 <= k < |spawns| ==> spawns[k].handle < nextHandle)
      && (playback.Some? ==> playback.value.handle < nextHandle)
      && (netplay.Some? ==> netplay.value < nextHandle)
      && (spectate.Some? ==> forall k :: 0 <= k < |spectate.value| ==> spectate.value[k].index != 0)
      && config == None
    }

    constructor ()
      ensures Valid()
      ensures playback == None && spectate == None && netplay == None && config == None
      ensures files == map[] && listeners == map[] && spawns == [] && errors == []
    {
      playback, spectate, netplay, config := None, None, None, None;
      files, listeners, spawns, errors := map[], map[], [], [];
      nextHandle := 0;
    }

    /** `startDolphin`: spawns the executable of the given build with StartArgs and registers
        the close listener, under the next unused handle. */
    method StartDolphin(exe: string, dolphinType: LaunchType, commFilePath: string, isoParams: seq<string>, onClose: CloseAction)
      returns (h: Handle)
      requires Valid()
      modifies this`spawns, this`listeners, this`nextHandle
      ensures h == old(nextHandle) && h !in old(listeners) && nextHandle == h + 1
      ensures spawns == old(spawns) + [Spawn(h, exe, StartArgs(dolphinType, commFilePath, isoParams))]
      ensures listeners == old(listeners)[h := onClose]
      ensures Valid()
    {
      h := nextHandle;
      spawns := spawns + [Spawn(h, exe, StartArgs(dolphinType, commFilePath, isoParams))];
      listeners := listeners[h := onClose];
      nextHandle := nextHandle + 1;
    }

    /** The "playback" branch of `launchDolphin`: the slot is created (command file named,
        process spawned with `-i <file>` and the ISO flags) only when empty, and every call then
        writes the payload to the slot's command file. */
    twostate predicate PlaybackLaunched(new r: Outcome<LaunchError>, comm: Option<ReplayCommunication>,
                                        isoSetting: Option<string>, exe: Option<string>, tmpDir: string, bytes: seq<Byte>)
      reads this
      requires |bytes| == 12
    {
      && netplay == old(netplay) && spectate == old(spectate) && errors == old(errors)
      && (old(playback).Some? ==>
            && r == Pass && playback == old(playback)
            && files == old(files)[old(playback).value.commFilePath := comm]
            && spawns == old(spawns) && listeners == old(listeners))
      && (old(playback).None? && exe.None? ==>
            && r == Fail(ExecutableMissing(Playback)) && playback == None
            && files == old(files) && spawns == old(spawns) && listeners == old(listeners))
      && (old(playback).None? && exe.Some? ==>
            var path := CommFilePath(tmpDir, PlaybackUse, bytes);
            var h := old(nextHandle);
            && r == Pass && h !in old(listeners)
            && playback == Some(PlaybackSlot(h, path))
            && spawns == old(spawns) + [Spawn(h, exe.value, ["-i", path] + IsoParams(isoSetting))]
            && listeners == old(listeners)[h := ClosePlayback(path)]
            && files == old(files)[path := comm])
    }

    /** The "spectate" branch: a falsy index (0) only logs; otherwise the first entry with the
        index is reused, or a new one is spawned and appended (creating the list when null),
        and the payload is written to the entry's command file. */
    twostate predicate SpectateLaunched(new r: Outcome<LaunchError>, index: int, comm: Option<ReplayCommunication>,
                                        isoSetting: Option<string>, exe: Option<string>, tmpDir: string, bytes: seq<Byte>)
      reads this
      requires |bytes| == 12
    {
      && playback == old(playback) && netplay == old(netplay)
      && (index == 0 ==>
            && r == Pass && spectate == old(spectate) && files == old(files)
            && spawns == old(spawns) && listeners == old(listeners)
            && errors == old(errors) + ["that's illegal"])
      && (index != 0 ==> errors == old(errors))
      && (index != 0 && FindSpectate(old(spectate), index).Some? ==>
            var entry := FindSpectate(old(spectate), index).value;
            && r == Pass && spectate == old(spectate)
            && files == old(files)[entry.commFilePath := comm]
            && spawns == old(spawns) && listeners == old(listeners))
      && (index != 0 && FindSpectate(old(spectate), index).None? && exe.None? ==>
            && r == Fail(ExecutableMissing(Playback)) && spectate == old(spectate)
            && files == old(files) && spawns == old(spawns) && listeners == old(listeners))
      && (index != 0 && FindSpectate(old(spectate), index).None? && exe.Some? ==>
            var path := CommFilePath(tmpDir, SpectateUse, bytes);
            var h := old(nextHandle);
            && r == Pass && h !in old(listeners)
            && spectate == Some((if old(spectate).None? then [] else old(spectate).value)
                                + [SpectateEntry(index, h, path)])
            && spawns == old(spawns) + [Spawn(h, exe.value, ["-i", path] + IsoParams(isoSetting))]
            && listeners == old(listeners)[h := CloseSpectate(path, index)]
            && files == old(files)[path := comm])
    }

    /** The "netplay" branch: spawned at most once, with the ISO flags only; later calls do
        nothing. */
    twostate predicate NetplayLaunched(new r: Outcome<LaunchError>, isoSetting: Option<string>, exe: Option<string>)
      reads this
    {
      && playback == old(playback) && spectate == old(spectate) && files == old(files)
      && errors == old(errors)
      && (old(netplay).Some? || exe.None? ==>
            && r == (if old(netplay).Some? then Pass else Fail(ExecutableMissing(Netplay)))
            && netplay == old(netplay) && spawns == old(spawns) && listeners == old(listeners))
      && (old(netplay).None? && exe.Some? ==>
            var h := old(nextHandle);
            && r == Pass && netplay == Some(h) && h !in old(listeners)
            && spawns == old(spawns) + [Spawn(h, exe.value, IsoParams(isoSetting))]
            && listeners == old(listeners)[h := CloseNetplay])
    }

    /** `launchDolphin(dolphinUseType, index, replayComm)`. `isoSetting` is the configured ISO
        path, `exe` the executable `findDolphinExecutable` locates for the build the use type
        needs (None when it throws), `tmpDir` and `bytes` the temporary directory and the random
        bytes a new command file is named from. "config" and any other use type are refused. */
    method LaunchDolphin(useType: UseType, index: int, comm: Option<ReplayCommunication>,
                         isoSetting: Option<string>, exe: Option<string>, tmpDir: string, bytes: seq<Byte>)
      returns (r: Outcome<LaunchError>)
      requires Valid()
      requires |bytes| == 12
      modifies this
      ensures Valid()
      ensures config == old(config)
      ensures useType == PlaybackUse ==> PlaybackLaunched(r, comm, isoSetting, exe, tmpDir, bytes)
      ensures useType == SpectateUse ==> SpectateLaunched(r, index, comm, isoSetting, exe, tmpDir, bytes)
      ensures useType == NetplayUse ==> NetplayLaunched(r, isoSetting, exe)
      ensures useType.ConfigUse? || useType.OtherUse? ==>
        && r == Fail(UnsupportedUseType)
        && playback == old(playback) && spectate == old(spectate) && netplay == old(netplay)
        && files == old(files) && spawns == old(spawns) && listeners == old(listeners)
        && errors == old(errors)
    {
      match useType {
        case PlaybackUse =>
          r := LaunchPlayback(comm, isoSetting, exe, tmpDir, bytes);
        case SpectateUse =>
          r := LaunchSpectate(index, comm, isoSetting, exe, tmpDir, bytes);
        case NetplayUse =>
          r := LaunchNetplay(isoSetting, exe);
        case ConfigUse =>
          r := Fail(UnsupportedUseType);
        case OtherUse(_) =>
          r := Fail(UnsupportedUseType);
      }
    }

    method LaunchPlayback(comm: Option<ReplayCommunication>, isoSetting: Option<string>, exe: Option<string>,
                          tmpDir: string, bytes: seq<Byte>)
      returns (r: Outcome<LaunchError>)
      requires Valid()
      requires |bytes| == 12
      modifies this
      ensures Valid() && config == old(config)
      ensures PlaybackLaunched(r, comm, isoSetting, exe, tmpDir, bytes)
    {
      if playback.None? {
        var path := CommFilePath(tmpDir, PlaybackUse, bytes);
        if exe.None? {
          return Fail(ExecutableMissing(Playback));
        }
        var h := StartDolphin(exe.value, Playback, path, IsoParams(isoSetting), ClosePlayback(path));
        playback := Some(PlaybackSlot(h, path));
      }
      files := files[playback.value.commFilePath := comm];
      r := Pass;
    }

    method LaunchSpectate(index: int, comm: Option<ReplayCommunication>, isoSetting: Option<string>, exe: Option<string>,
                          tmpDir: string, bytes: seq<Byte>)
      returns (r: Outcome<LaunchError>)
      requires Valid()
      requires |bytes| == 12
      modifies this
      ensures Valid() && config == old(config)
      ensures SpectateLaunched(r, index, comm, isoSetting, exe, tmpDir, bytes)
    {
      if index == 0 {
        errors := errors + ["that's illegal"];
        return Pass;
      }
      var found := FindSpectate(spectate, index);
      var entry: SpectateEntry;
      if found.Some? {
        entry := found.value;
      } else {
        var path := CommFilePath(tmpDir, SpectateUse, bytes);
        if exe.None? {
          return Fail(ExecutableMissing(Playback));
        }
        var h := StartDolphin(exe.value, Playback, path, IsoParams(isoSetting), CloseSpectate(path, index));
        entry := SpectateEntry(index, h, path);
        if spectate.None? {
          assert [] + [entry] == [entry];
          spectate := Some([entry]);
        } else {
          spectate := Some(spectate.value + [entry]);
        }
      }
      files := files[entry.commFilePath := comm];
      r := Pass;
    }

    method LaunchNetplay(isoSetting: Option<string>, exe: Option<string>) returns (r: Outcome<LaunchError>)
      requires Valid()
      modifies this
      ensures Valid() && config == old(config)
      ensures NetplayLaunched(r, isoSetting, exe)
    {
      if netplay.None? {
        if exe.None? {
          return Fail(ExecutableMissing(Netplay));
        }
        var h := StartDolphin(exe.value, Netplay, "", IsoParams(isoSetting), CloseNetplay);
        netplay := Some(h);
      }
      r := Pass;
    }

    /** The process behind `h` exited and its "close" listener runs. Unlinking a command file
        that is not there rejects, and the listener then stops before it untracks anything. */
    method OnClose(h: Handle)
      requires Valid()
      modifies this
      ensures Valid()
      ensures spawns == old(spawns) && errors == old(errors) && config == old(config)
      ensures listeners == old(listeners) - {h}
      ensures h !in old(listeners) ==>
        playback == old(playback) && spectate == old(spectate) && netplay == old(netplay)
        && files == old(files)
      ensures h in old(listeners) && old(listeners)[h].ClosePlayback? ==>
        var path := old(listeners)[h].commFilePath;
        && spectate == old(spectate) && netplay == old(netplay)
        && (path in old(files) ==> files == old(files) - {path} && playback == None)
        && (path !in old(files) ==> files == old(files) && playback == old(playback))
      ensures h in old(listeners) && old(listeners)[h].CloseSpectate? ==>
        var path := old(listeners)[h].commFilePath;
        var index := old(listeners)[h].index;
        && playback == old(playback) && netplay == old(netplay)
        && (path in old(files) ==>
              && files == old(files) - {path}
              && spectate == (if old(spectate).None? then None
                              else Some(Seqs.Filter(old(spectate).value, WithoutIndex(index)))))
        && (path !in old(files) ==> files == old(files) && spectate == old(spectate))
      ensures h in old(listeners) && old(listeners)[h].CloseNetplay? ==>
        playback == old(playback) && spectate == old(spectate) && netplay == None
        && files == old(files)
    {
      if h !in listeners {
        return;
      }
      var action := listeners[h];
      listeners := listeners - {h};
      match action {
        case ClosePlayback(path) =>
          if path in files {
            files := files - {path};
            playback := None;
          }
        case CloseSpectate(path, index) =>
          if path in files {
            files := files - {path};
            if spectate.Some? {
              spectate := Some(Seqs.Filter(spectate.value, WithoutIndex(index)));
            }
          }
        case CloseNetplay =>
          netplay := None;
      }
    }
  }

  /** `DolphinManager.getInstance()`: the process-wide manager, created on first use. */
  class Singleton {
    var instance: Manager?

    constructor ()
      ensures instance == null
    {
      instance := null;
    }

    method GetInstance() returns (m: Manager)
      modifies this
      ensures instance == m
      ensures old(instance) != null ==> m == old(instance)
      ensures old(instance) == null ==>
        && fresh(m) && m.Valid()
        && m.playback == None && m.spectate == None && m.netplay == None && m.listeners == map[]
    {
      if instance == null {
        instance := new Manager();
      }
      m := instance;
    }
  }
}
