# Slippi desktop app: emulator management, installation and replay-browser rules in Dafny

This project models the core logic of the Slippi desktop app. Each piece is modelled in the same form the code uses:

- **Emulator managers.** The app launches, tracks and closes "Dolphin" emulator processes. It has three diverging manager classes:
  - `DolphinManager` in `dolphin_manager.dfy`;
  - `MainDolphinManager` in `main_dolphin_manager.dfy`;
  - `UseTypeManager` in `use_type_manager.dfy`.

  Each is a class whose fields are the tracked instances. The asynchronous "close" and "error" events are explicit methods.
- **Install and upgrade.** This covers:
  - picking the release asset for the platform;
  - downloading it once into the temporary folder;
  - installing it over the previous installation while keeping the user's `User` folder and `user.json`;
  - the "install or not" decision of `assertDolphinInstallation`.

  It lives in `download_dolphin.dfy`. It runs over the abstract file system of `filesystem.dfy`, where a tree is a map from paths to nodes. The primitives are fs-extra's `move`/`remove`/`pathExists`, `fs.rename`, `fs.chmod` and the zip extraction. Each primitive is a pure function on trees and a method of the mutable `FileTree.Host`.
- **Replay browser.** These are the list rules of the browser in `file_loader.dfy`:
  - toggling a selection;
  - the duration filter and the filtered-files notice;
  - the file-name search with its 100-result cap;
  - batch paging.
- **Kill table.** The table of the stats page is in `kill_table.dfy`. It shows which stocks a player took and which punish ended each one.
- **Settings store.** The renderer's settings store is in `settings_store.dfy`. It covers the persisted settings, the setters, and the ISO and emulator-folder checks with their flags. The ISO check remembers only the file's modification time, not the verdict. The path and time of a rejected ISO are stored too, so a later check of the unchanged file reports it valid (`SettingsStore.IsoRejectedThenValid`). The model keeps this behaviour as written.

`wrappers.dfy` holds `Option`/`Result`/`Outcome`. `seqs.dfy` holds the sequence helpers: `filter`, `find`, `indexOf`, `slice`, `endsWith` and `includes`, with their properties. `dolphin_types.dfy` holds the types the managers share.

The following outside calls become inputs to the model:

- process spawning;
- the GitHub release request;
- the executable lookup;
- the version the installed executable reports;
- the archive's contents;
- the temporary and user-data folders;
- random bytes;
- `stat` and the ISO verifier.

A failing call is `None`.

`compareDolphinVersion` is modelled as the code writes it: `lt(latestVersion, installedVersion)`. The installation therefore counts as outdated only when the installed build is *newer* than the latest release, and a newer release never triggers an update (`DownloadDolphin.NewerReleaseNotOutdated`). The surrounding code expects the opposite: the result is stored as `isOutdated`, and the log line at src/main/downloadDolphin.ts:38-40 says the installation "is outdated" before downloading the latest release, which reads as "the installed version is older". The model follows the code as written.

## Model

| member | source | states |
|---|---|---|
| DolphinManager.Manager.constructor | src/dolphin/manager.ts:15-16 | starts with no playback instances, an empty netplay slot and the tracking invariant |
| DolphinManager.Manager.LaunchPlaybackDolphin | src/dolphin/manager.ts:18-39 | an id already tracked reuses its instance, leaves the map unchanged and asks it to play; a new id adds exactly that key with a fresh instance whose close listener deletes it; a live "configure" entry only adds a warning; a failed executable lookup changes nothing |
| DolphinManager.Manager.LaunchNetplayDolphin | src/dolphin/manager.ts:41-55 | with a live netplay instance it fails with "Netplay dolphin is already open!" and changes nothing; otherwise the slot holds a fresh started instance whose close clears the slot |
| DolphinManager.Manager.ConfigureDolphin | src/dolphin/manager.ts:57-91 | netplay fills the slot only when it is empty; playback tracks "configure" only when the map is empty; otherwise nothing changes; the configuring instance untracks itself on close and on error |
| DolphinManager.Manager.ReinstallDolphin | src/dolphin/manager.ts:93-112 | requests a forced download-and-install exactly when no instance of the launch type is tracked; otherwise it only warns |
| DolphinManager.Manager.OnClose | src/dolphin/manager.ts:29-80 | the closed instance's listener runs: a playback key is deleted and "dolphin-closed" is emitted with it, or the netplay slot is cleared; no other key changes; an unknown handle changes nothing |
| DolphinManager.Manager.OnError | src/dolphin/manager.ts:66-88 | a configuring instance's error listener untracks it (emitting "dolphin-closed" for "configure") and logs; instances without an error listener change nothing |
| MainDolphinManager.Manager.constructor | src/main/dolphin/manager.ts:18-19 | starts with no playback instances and an empty netplay slot |
| MainDolphinManager.Manager.LaunchPlaybackDolphin | src/main/dolphin/manager.ts:21-42 | same reuse-or-add rule as the newer manager: exactly one key is added for a new id, and none for a known id |
| MainDolphinManager.Manager.LaunchNetplayDolphin | src/main/dolphin/manager.ts:44-55 | a live netplay instance only draws a warning; otherwise the slot holds a fresh instance that is never started |
| MainDolphinManager.Manager.ConfigureDolphin | src/main/dolphin/manager.ts:57-77 | as in the newer manager, but no error listeners are registered |
| MainDolphinManager.Manager.ReinstallDolphin | src/main/dolphin/manager.ts:79-98 | reinstall only when no instance of the type is tracked |
| MainDolphinManager.Manager.OnClose | src/main/dolphin/manager.ts:32-74 | the close listener deletes exactly its key (emitting "dolphin-closed") or clears the netplay slot |
| UseTypeManager.Hex | src/main/dolphinManager.ts:55 | the hex encoding has two lower-case hex digits per byte |
| UseTypeManager.HexInjective | src/main/dolphinManager.ts:55 | distinct byte strings have distinct hex encodings |
| UseTypeManager.JoinPath | src/main/dolphinManager.ts:57 | the joined path ends with the file name |
| UseTypeManager.CommFileNameShape | src/main/dolphinManager.ts:54-57 | the command file name is `slippi-`, the use type, `-`, exactly 24 hex digits and `.txt` |
| UseTypeManager.CommFileNameInjective | src/main/dolphinManager.ts:51-60 | different random bytes give different command file names |
| UseTypeManager.IsoParams | src/main/dolphinManager.ts:88-92 | `-b -e <path>` exactly when the configured ISO path is a non-empty string |
| UseTypeManager.StartArgs | src/main/dolphinManager.ts:188-196 | the netplay build gets only the extra parameters; the playback build gets `-i <command file>` followed by them |
| UseTypeManager.FindSpectate | src/main/dolphinManager.ts:124 | none exactly when the list is null or holds no entry with the index; otherwise the first entry of the list with that index |
| UseTypeManager.Manager.constructor | src/main/dolphinManager.ts:68-73 | every slot is null and nothing is tracked |
| UseTypeManager.Manager.StartDolphin | src/main/dolphinManager.ts:181-197 | one spawn with `StartArgs` under a handle never used before, and its close listener registered |
| UseTypeManager.Manager.LaunchDolphin | src/main/dolphinManager.ts:82-179 | dispatches on the use type; "config" and unknown use types fail with "Unsupported use type" and change nothing; the config slot is never filled |
| UseTypeManager.Manager.LaunchPlayback | src/main/dolphinManager.ts:95-117 | the playback slot is created only when empty (a fresh command file, spawned with `-i` and the ISO flags); every call writes the payload to the slot's command file |
| UseTypeManager.Manager.LaunchSpectate | src/main/dolphinManager.ts:119-154 | index 0 only logs "that's illegal"; the first entry with the index is reused; otherwise one entry is spawned and appended, creating the list when null; the payload goes to the entry's command file |
| UseTypeManager.Manager.LaunchNetplay | src/main/dolphinManager.ts:156-170 | spawned at most once, with only the ISO flags; later calls change nothing |
| UseTypeManager.Manager.OnClose | src/main/dolphinManager.ts:106-166 | a playback close unlinks its file and clears the slot; a spectate close unlinks its file and removes every entry with its index; a netplay close clears the slot; a missing command file stops the listener before it untracks anything |
| UseTypeManager.Singleton.GetInstance | src/main/dolphinManager.ts:75-80 | returns the existing manager, or creates a fresh empty one the first time |
| FileTree.Subtree | src/main/downloadDolphin.ts:224-228 | the entries beneath a path, keyed relative to it |
| FileTree.Removed | src/main/downloadDolphin.ts:243 | `remove`: the path and everything beneath it are gone; every other entry is unchanged |
| FileTree.Grafted | src/main/downloadDolphin.ts:154 | extraction with overwrite: every archive entry lands beneath the folder, and nothing else changes |
| FileTree.Moved | src/main/downloadDolphin.ts:213 | the subtree reappears at the destination with the same relative keys; entries outside the source stay; nothing remains at the source |
| FileTree.MoveResult | src/main/downloadDolphin.ts:213 | `move` succeeds exactly when the source exists, the destination is not beneath it and does not exist; otherwise it fails with the matching error |
| FileTree.MoveBack | src/main/downloadDolphin.ts:213 | moving a subtree to a free place apart from it and back restores the tree exactly |
| FileTree.RenameResult | src/main/downloadDolphin.ts:192 | renaming a path to itself succeeds and changes nothing; otherwise `rename` succeeds exactly when the source exists, neither path is beneath the other, the destination's folder exists and is a directory, both are on one file system, and the kinds agree (a file replaces a file or nothing, a directory replaces nothing or an empty directory); each failure names its error (ENOENT, EINVAL, ENOTDIR, EXDEV, EISDIR, ENOTEMPTY); on success the destination is replaced by the source subtree and the source is gone |
| FileTree.ChmodResult | src/main/downloadDolphin.ts:196 | fails exactly on a missing path; a file takes the new mode |
| FileTree.ExtractResult | src/main/downloadDolphin.ts:153-154 | fails exactly when the archive is not a file; otherwise it grafts the entries |
| FileTree.Host.PathExists | src/main/downloadDolphin.ts:210 | the answer is whether the path or something beneath it exists |
| FileTree.Host.Move | src/main/downloadDolphin.ts:213 | the tree becomes `MoveResult`'s tree on success and is unchanged on failure |
| FileTree.Host.Remove | src/main/downloadDolphin.ts:180 | the tree becomes `Removed` |
| FileTree.Host.Rename | src/main/downloadDolphin.ts:192 | the tree and the outcome follow `RenameResult`, given whether the two paths share a file system |
| FileTree.Host.Chmod | src/main/downloadDolphin.ts:196 | the tree follows `ChmodResult` |
| FileTree.Host.Extract | src/main/downloadDolphin.ts:153-154 | the tree follows `ExtractResult` |
| FileTree.Host.WriteFile | src/main/downloadDolphin.ts:126-130 | the downloaded file appears at its path with the default mode |
| DownloadDolphin.MatchesPlatform | src/main/downloadDolphin.ts:97-112 | win32, darwin and linux accept exactly the names ending in `Win.zip`, `Mac.zip` and `.AppImage`; any other platform accepts none |
| DownloadDolphin.ReleaseRepo | src/main/downloadDolphin.ts:88-95 | netplay comes from `Ishiiruka`, playback from `Ishiiruka-Playback` |
| DownloadDolphin.ReleaseReposDistinct | src/main/downloadDolphin.ts:89-93 | the two builds never share a repository |
| DownloadDolphin.LatestDolphinAsset | src/main/downloadDolphin.ts:79-86 | the first asset of the latest release that matches the platform; fails when the release request fails or no asset matches |
| DownloadDolphin.CompareDolphinVersion | src/main/downloadDolphin.ts:68-72 | outdated exactly when the latest version differs from the installed one and is not newer than it |
| DownloadDolphin.NewerReleaseNotOutdated | src/main/downloadDolphin.ts:71 | a newer or equal release never counts as outdated |
| DownloadDolphin.InstallFoldersApart | src/main/downloadDolphin.ts:146-147 | the installation and `<installation>_old` do not contain each other; the macOS resources folder is inside the installation |
| DownloadDolphin.BackupUserRun | src/main/downloadDolphin.ts:205-215 | nothing happens when the folder is missing; otherwise it is moved to the backup location, failing when a backup already exists |
| DownloadDolphin.RestoreUserRun | src/main/downloadDolphin.ts:217-245 | nothing happens when the restore location is missing; a successful restore leaves no backup; a failed one keeps it (`RestoreFailureKeepsBackup`) |
| DownloadDolphin.RestoreFailureKeepsBackup | src/main/downloadDolphin.ts:230-243 | a restore that throws leaves the backup folder on disk, since the removal comes only after both moves |
| DownloadDolphin.RestoreFailureKeepsUserData | src/main/downloadDolphin.ts:230-243 | a restore that throws loses no user data: the backed-up `user.json` is untouched, and the backed-up `User` folder is either untouched or already moved, unchanged, into the restore location |
| DownloadDolphin.ZipInstallRun | src/main/downloadDolphin.ts:149-172 | a successful zip install whose user folder exists leaves no backup; see `ZipInstallKeepsUserData` for success and `ZipInstallFailureKeepsBackup` for a failed restore |
| DownloadDolphin.ZipInstallFailureKeepsBackup | src/main/downloadDolphin.ts:149-172 | when the backup and the extraction succeeded but the restore threw, the backup is still on disk |
| DownloadDolphin.LinuxInstallRun | src/main/downloadDolphin.ts:173-198 | a missing AppImage fails the rename with ENOENT |
| DownloadDolphin.InstallRun | src/main/downloadDolphin.ts:141-203 | any platform other than win32, darwin or linux fails and changes nothing |
| DownloadDolphin.RestoreStepMoves | src/main/downloadDolphin.ts:230-242 | a restore move carries the whole subtree across, leaves nothing at the source and touches nothing outside both ends |
| DownloadDolphin.BackupStage | src/main/downloadDolphin.ts:150 | after the backup, the user's `User` and `user.json` sit in the backup and nothing is left in the installation |
| DownloadDolphin.ExtractStage | src/main/downloadDolphin.ts:153-154 | extraction recreates the installation folder without touching the backup or adding a `User` folder or `user.json` |
| DownloadDolphin.RestoreStage | src/main/downloadDolphin.ts:217-245 | `User` and `user.json` come back unchanged, the backup is gone, and every entry outside the backup stays |
| DownloadDolphin.ZipInstallKeepsUserData | src/main/downloadDolphin.ts:149-159 | backup, then extract, then restore keeps the user's `User` folder and `user.json` exactly as they were, leaves no backup, and places every archive entry |
| DownloadDolphin.InstallKeepsUserData | src/main/downloadDolphin.ts:141-172 | the same preservation for `installDolphin` on win32 (installation folder) and darwin (the bundle's resources) |
| DownloadDolphin.LinuxInstallPlacesAppImage | src/main/downloadDolphin.ts:173-198 | when the installation folder exists as a directory, holds no directory under the AppImage's name and is on the temporary folder's file system: the AppImage ends up there with its contents and mode 755, is gone from the temporary folder, and an old executable elsewhere is deleted |
| DownloadDolphin.LinuxInstallNeedsFolder | src/main/downloadDolphin.ts:187-192 | when the installation folder does not exist, the install fails with ENOENT on that folder |
| DownloadDolphin.LinuxInstallAcrossDevices | src/main/downloadDolphin.ts:187-192 | when the temporary folder is on another file system, an install that would otherwise succeed fails with EXDEV |
| DownloadDolphin.DownloadRun | src/main/downloadDolphin.ts:114-139 | the location is always `temp/<asset name>`; the tree changes only by writing that file, when it was missing and a window exists; an asset error is passed on |
| DownloadDolphin.FetchInstallRun | src/main/downloadDolphin.ts:27-29 | a failed download stops before installing |
| DownloadDolphin.DownloadLatestDolphin | src/main/downloadDolphin.ts:114-139 | the file system and result are exactly `DownloadRun` |
| DownloadDolphin.BackupUser | src/main/downloadDolphin.ts:205-215 | the file system and outcome are exactly `BackupUserRun` |
| DownloadDolphin.RestoreUser | src/main/downloadDolphin.ts:217-245 | the file system and outcome are exactly `RestoreUserRun` |
| DownloadDolphin.InstallDolphin | src/main/downloadDolphin.ts:141-203 | the file system and outcome are exactly `InstallRun` |
| DownloadDolphin.ZipInstall | src/main/downloadDolphin.ts:149-172 | backup, extract and restore, stopping at the first failure: exactly `ZipInstallRun` |
| DownloadDolphin.DownloadAndInstall | src/main/downloadDolphin.ts:27-29 | download, then install what was downloaded: exactly `FetchInstallRun` |
| DownloadDolphin.AssertDolphinInstallation | src/main/downloadDolphin.ts:20-54 | forced: one download-and-install; executable found and release known: nothing unless outdated, then one install, plus a second from where the first stopped if it failed; executable missing or release unavailable: one install |
| FileLoader.Toggled | app/components/FileLoader.js:117-135 | the file is selected afterwards exactly when it was not before; other files keep their membership; a new file is appended at the end; a removal keeps, in order, as many entries as there are entries other than the file (so every other entry, repeats included) |
| FileLoader.NewSelections | app/components/FileLoader.js:118-130 | the copy loop with its `wasSeen` flag computes exactly `Toggled` |
| FileLoader.ToggleTwice | app/components/FileLoader.js:117-135 | selecting and deselecting a file restores the selection |
| FileLoader.ToggleKeepsDistinct | app/components/FileLoader.js:117-135 | a selection without repeats stays without repeats |
| FileLoader.SelectedOrdinal | app/components/FileLoader.js:494 | 0 exactly for an unselected file; otherwise the 1-based position of its first occurrence |
| FileLoader.OrdinalAfterToggle | app/components/FileLoader.js:494 | a newly selected file shows the last ordinal; a deselected one shows 0 |
| FileLoader.UnfilteredFiles | app/components/FileLoader.js:201-211 | with filtering on, exactly the files with no metadata or at least 1800 frames, in order and with as many entries as pass the test; with it off, every file |
| FileLoader.FilteredNotice | app/components/FileLoader.js:213-242 | no notice while loading or when nothing is hidden; the total is the duration-filtered count, which is the number of files known to be shorter than 1800 frames when filtering is on, plus the corrupt count; the text depends on which counts are positive; the button shows exactly when the duration filter hid something and is on |
| FileLoader.SearchResults | app/components/FileLoader.js:325-373 | none when there is no text or the category is unknown; otherwise the leading (at most 100) matches of the category's test, in order |
| FileLoader.FilenameSearchFinds | app/components/FileLoader.js:360-362 | below the cap, a file-name search returns exactly the candidates whose lower-cased name contains the lower-cased text |
| FileLoader.BatchEnd | app/components/FileLoader.js:503 | the batch end is at most 50 past the start and at most the list's length, and it advances whenever files remain |
| FileLoader.BatchExtendsPrefix | app/components/FileLoader.js:508-511 | appending the next batch to the leading files gives the leading files up to the batch end |
| FileLoader.Browser.constructor | app/components/FileLoader.js:27-29 | empty selection, filtering on, nothing rendered yet |
| FileLoader.Browser.OnSelect | app/components/FileLoader.js:117-135 | the selection becomes `Toggled` and nothing else changes |
| FileLoader.Browser.QueueClear | app/components/FileLoader.js:166-170 | the selection is emptied |
| FileLoader.Browser.QueueFiles | app/components/FileLoader.js:172-177 | the selection is handed to the queue, then emptied |
| FileLoader.Browser.ShowAnyway | app/components/FileLoader.js:243-254 | the rendered files and selection are cleared and the duration filter is switched off |
| FileLoader.Browser.OnDropdownInputChange | app/components/FileLoader.js:305-313 | only the category changes |
| FileLoader.Browser.OnTextInputChange | app/components/FileLoader.js:315-323 | only the search text changes |
| FileLoader.Browser.OnSearchClick | app/components/FileLoader.js:325-380 | the results replace the rendered files and the offset is their count; otherwise nothing changes |
| FileLoader.Browser.BufferMoreFiles | app/components/FileLoader.js:501-516 | past half-way with files left, or before the first load, the next batch is appended and the offset moves to its end; the rendered files stay the leading files of the filtered list |
| KillTable.OpponentStocks | src/renderer/containers/ReplayFileStats/KillTable.tsx:148-150 | exactly the stocks the player took, as a subsequence in order |
| KillTable.OpponentStocksUnique | src/renderer/containers/ReplayFileStats/KillTable.tsx:148-150 | any ordered subsequence holding all and only the player's takes is that list |
| KillTable.KillingPunishes | src/renderer/containers/ReplayFileStats/KillTable.tsx:92-97 | exactly the player's punishes that killed, in order and with as many entries as there are such punishes |
| KillTable.KeyByEndFrame | src/renderer/containers/ReplayFileStats/KillTable.tsx:98 | an end frame is a key exactly when some punish ends on it |
| KillTable.KeyByKeepsLast | src/renderer/containers/ReplayFileStats/KillTable.tsx:98-99 | the punish stored under an end frame is the last one ending on it |
| KillTable.PunishThatEndedStock | src/renderer/containers/ReplayFileStats/KillTable.tsx:92-99 | none exactly when no killing punish of the player ends on the frame; otherwise the last one that does |
| KillTable.RenderKilledBy | src/renderer/containers/ReplayFileStats/KillTable.tsx:89-111 | "Self Destruct" exactly when no killing punish of the player ends on the stock's end frame; otherwise the killer is read from the LAST such punish in the player's killing punishes (lodash `keyBy` keeps the last): "Grab Release" when it has no moves, else its last move |
| KillTable.KilledByUniquePunish | src/renderer/containers/ReplayFileStats/KillTable.tsx:98-110 | when exactly one killing punish ends on the frame, it is the one named |
| KillTable.GenerateStockRow | src/renderer/containers/ReplayFileStats/KillTable.tsx:53-87 | the start is a dash exactly for a stock that began on the first frame; end, killer and direction are shown exactly when the end frame is truthy |
| KillTable.RenderStocksRows | src/renderer/containers/ReplayFileStats/KillTable.tsx:147-153 | one row per stock the player took, in order |
| SettingsStore.InitialState | src/renderer/store/settings/index.ts:46-65 | every restored key overrides its default; the ISO is unjudged (null), the emulator folder is valid, no check is running |
| SettingsStore.Persist | src/renderer/store/settings/index.ts:155-160 | every key of the settings is written |
| SettingsStore.RestorePersisted | src/renderer/store/settings/index.ts:46-60 | starting again from the written settings gives back exactly those settings |
| SettingsStore.FirstStartDefaults | src/renderer/store/settings/index.ts:48-58 | with nothing restored, the settings are the defaults with no ISO |
| SettingsStore.WithDolphinPath | src/renderer/store/settings/index.ts:125-131 | the build's folder is the new one; the other build's folder and every other setting are unchanged |
| SettingsStore.WithDolphinPathLaws | src/renderer/store/settings/index.ts:125-131 | setting twice keeps the second; setting the current value changes nothing |
| SettingsStore.IsoCheckStarted | src/renderer/store/settings/index.ts:95-98 | checking is on and the verdict is null; the settings are unchanged |
| SettingsStore.IsoVerified | src/renderer/store/settings/index.ts:93-123 | always ends with checking off. A `stat` failure gives false. An unchanged modification time gives true and leaves the settings as they were. A changed one stores the verifier's verdict, the path (even when invalid) and the new time. A verifier failure gives false with the settings unchanged |
| SettingsStore.IsoCheckCached | src/renderer/store/settings/index.ts:103-117 | checking a judged ISO again with an unchanged file reports it valid without the verifier and changes no setting, whatever the first verdict was |
| SettingsStore.IsoRejectedThenValid | src/renderer/store/settings/index.ts:106-116 | a rejected ISO is reported invalid but its path and time are stored, so the next check of the unchanged file reports it valid |
| SettingsStore.IsoValidOnlyIfAccepted | src/renderer/store/settings/index.ts:104-117 | the ISO is reported valid only when `stat` succeeded and either its time was unchanged or the verifier accepted it |
| SettingsStore.DolphinCheckStarted | src/renderer/store/settings/index.ts:134-137 | checking is on and the verdict is null |
| SettingsStore.DolphinPathVerified | src/renderer/store/settings/index.ts:132-151 | always ends with checking off and the verdict equal to the lookup's success; on success the build's folder is the new path; on failure the settings are unchanged; the other build, the ISO and the replay folder never change |
| SettingsStore.ChecksCommute | src/renderer/store/settings/index.ts:93-151 | the ISO check and the emulator check touch disjoint state, so their order does not matter |
| SettingsStore.Store.constructor | src/renderer/store/settings/index.ts:46-69 | the state is `InitialState` of what was restored |
| SettingsStore.Store.Commit | src/renderer/store/settings/index.ts:155-160 | the settings are replaced; the settings file is written exactly when they changed, since an update to equal values notifies no subscriber; a restart would restore the current settings |
| SettingsStore.Store.SetIsoPath | src/renderer/store/settings/index.ts:72-78 | only the ISO path changes, the settings file is written only when it changed, and a restart would restore the new settings |
| SettingsStore.Store.SetIsoModTime | src/renderer/store/settings/index.ts:79-85 | only the ISO modification time changes, and the settings file is written only when it changed |
| SettingsStore.Store.SetReplayDirectory | src/renderer/store/settings/index.ts:86-92 | only the replay folder changes, and the settings file is written only when it changed |
| SettingsStore.Store.SetDolphinFolderPath | src/renderer/store/settings/index.ts:125-131 | only that build's folder changes, and the settings file is written only when it changed |
| SettingsStore.Store.VerifyIsoPath | src/renderer/store/settings/index.ts:93-123 | the step-by-step `set` calls end in exactly `IsoVerified`; the settings file is rewritten only when the settings changed; a restart would restore the settings |
| SettingsStore.Store.VerifyAndSetDolphinPath | src/renderer/store/settings/index.ts:132-151 | the step-by-step `set` calls end in exactly `DolphinPathVerified`, and the settings file is rewritten only when the settings changed |
| Seqs.Filter | app/components/FileLoader.js:204 | keeps exactly the elements satisfying the test, as a subsequence in order, with length equal to their count |
| Seqs.FilterUnique | src/renderer/containers/ReplayFileStats/KillTable.tsx:149-150 | a subsequence holding all and only the satisfying elements is the filter's result |
| Seqs.EndsWith | src/main/downloadDolphin.ts:100 | `endsWith` holds exactly when the string is some prefix followed by the suffix |
| Seqs.IndexOf | app/components/FileLoader.js:494 | the first index of the element, or -1 exactly when it is absent |
| Seqs.Slice | app/components/FileLoader.js:508 | JavaScript `slice` with bounds clamped to the length: the exact slice within bounds, the rest of the sequence when the end passes the length, empty when the start is at or after the end or the length |

## Left out

- Process spawning, Electron (`app.getPath`, `BrowserWindow`, `electron-settings`, `electron-dl`), the GitHub HTTP call, `randomBytes` and `spawnSync` are not modelled. Their results are inputs.
- The `DolphinInstance` internals (`./instance`) are not part of this model. `play` and `start` are recorded as effects on opaque handles.
- Log messages other than the ones the managers emit as effects are not modelled.
- `clearCache` in src/dolphin/manager.ts is not modelled: it is a fire-and-forget folder removal.
- Semantic-version strings are not parsed. A version is a numeric triple ordered lexicographically, and the executable's `--version` output is assumed to parse.
- The zip format is not modelled. The archive's entries are an input.
- Path normalisation in `path.join` is not modelled. Paths are sequences of segments.
- A failing `writeFile` is not modelled.
- `FileTree.RenameResult`: whether the two paths share a file system is an input (`sameDevice`, the `Env.sameDevice` oracle of the install). Permission errors (EACCES, EPERM, EBUSY) are not modelled.
- Folders are implicit unless recorded as `Dir`: removing or moving the last entry of an unrecorded folder makes the folder vanish, where the real file system keeps it. `DownloadDolphin.LinuxInstallPlacesAppImage` therefore asks for the installation folder to be recorded as `Dir`.
- `findDolphinExecutable` is not part of this model. Its answer is the `exe` oracle. Any folder it creates as a side effect is not modelled, so `DownloadDolphin.LinuxInstallNeedsFolder` shows only what `installDolphin` itself does with a missing installation folder.
- `DownloadDolphin.DownloadRun`, `DownloadDolphin.InstallDolphin`, `DownloadDolphin.RestoreUserRun`, `DownloadDolphin.RestoreUser`: `fileExists` is modelled by the abstract `Exists`, which holds for a folder as well as a file. The checks concern the downloaded asset, the executable and the backed-up `user.json`. A folder named `user.json` in the backup would be moved by the model, where the source skips it.
- `FileLoader.Browser.ShowAnyway`: `storeFileLoadState` is assumed to merge the given fields into the stored state. `hasLoaded` and the other fields keep their values. The reducer is not part of this model.
- Directory permissions are not modelled.
- Download progress percentages and the percent column of the kill table are left out, because they are floating point.
- The scroll position is a boolean "past half-way".
- Character, stage, player, move-name and death-direction lookups from slippi-js are left out. The non-filename search categories are an oracle test passed in.
- Case folding is ASCII only.
- JavaScript object identity is modelled as value equality. Two equal replay-file records count as the same selection entry.
- `numFilteredFiles` is a natural number. The case where the store has no count (which makes the notice's total `NaN`) is not modelled.
- `FileLoader.FilenameSearchFinds`: stated only below the 100-result cap; above it, `SearchResults` states that the results are the leading matches.
- `UseTypeManager.Manager.LaunchDolphin`: the ISO path read from `electron-settings` is an input, as is `findDolphinExecutable`'s result. Both are the same for the whole call.
- `DownloadDolphin.AssertDolphinInstallation`: the retry after a failed install sees the same release data, archive and executable lookup as the first attempt. An exception thrown by the retry itself ends the procedure.
- `DownloadDolphin.DownloadRun`: a download that delivers nothing is a failure. The file name the downloader chooses is assumed to be the asset's name.
- `SettingsStore.Store.VerifyAndSetDolphinPath`: the emulator lookup is an oracle for the build type. As written, it checks the currently configured folder and not the new path.
- `SettingsStore.InitialState`: a restored `netplay` or `playback` object without a `path` key, and restored values of the wrong type, are not modelled.
- The asynchronous interleavings of the stores and managers are not modelled. Every method runs to completion.
- The verify-ISO and verify-folder reducers are atomic in the model. The intermediate "checking" states are stated by `IsoCheckStarted` and `DolphinCheckStarted`.
