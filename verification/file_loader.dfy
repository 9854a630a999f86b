/** The list rules of the replay browser (app/components/FileLoader.js): toggling a file in the
    play-queue selection, the minimum-duration filter and the notice that reports it, searching,
    and loading the file table in batches while the user scrolls. The component's own state and
    the slice of the store it reads and writes are the fields of one `Browser` object. */
module FileLoader {
  import opened Wrappers
  import opened Seqs

  const GameBatchSize: nat := 50
  const MinGameLengthSeconds: nat := 30
  const MinGameLengthFrames: nat := MinGameLengthSeconds * 60
  /** Search results beyond this many are dropped. */
  const SearchLimit: nat := 100

  /** A replay file as the store lists it; `lastFrame` is None when the file has no metadata. */
  datatype ReplayFile = ReplayFile(fullPath: string, fileName: string, lastFrame: Option<int>)

  /** The search bar: the category picked in the dropdown and the text typed, each absent until
      first changed. */
  datatype SearchData = SearchData(dropSelect: Option<string>, filterText: Option<string>)

  /** The text of the filtered-files notice. */
  datatype NoticeText =
    | ShortReplaysFiltered
    | CorruptAndShort(corrupt: nat)
    | CorruptOnly(corrupt: nat)

  /** The filtered-files notice: how many files are hidden, its text, and whether it offers
      to show them anyway. */
  datatype Notice = Notice(totalFiltered: nat, text: NoticeText, showHideButton: bool)

  /** "Every file except `f`". */
  function Other(f: ReplayFile): ReplayFile -> bool
  {
    (x: ReplayFile) => x != f
  }

  lemma FilterOtherAbsent(s: seq<ReplayFile>, f: ReplayFile)
    ensures f !in s ==> Filter(s, Other(f)) == s
  {
    if f !in s {
      FilterAll(s, Other(f));
    }
  }

  /** The selection after `onSelect(f)`: every occurrence of `f` is dropped and the others keep
      their order; a file that was not selected is appended at the end. */
  function Toggled(s: seq<ReplayFile>, f: ReplayFile): (r: seq<ReplayFile>)
    ensures f in r <==> f !in s
    ensures forall x :: x != f ==> (x in r <==> x in s)
    ensures f in s ==> IsSubseq(r, s) && |r| == Count(s, Other(f)) && |r| < |s|
    ensures f !in s ==> r == s + [f]
  {
    FilterOtherAbsent(s, f);
    if f in s then
      var kept := Filter(s, Other(f));
      assert !Other(f)(f);
      SubseqCountBound(kept, s, Other(f));
      CountMissesOne(s, Other(f), f);
      kept
    else
      s + [f]
  }

  /** When some element fails `p`, fewer than all elements satisfy it. */
  lemma {:induction false} CountMissesOne<T>(s: seq<T>, p: T -> bool, x: T)
    requires x in s && !p(x)
    ensures Count(s, p) < |s|
  {
    if s[0] != x {
      CountMissesOne(s[1..], p, x);
    }
  }

  /** Selecting a file that is not selected and then selecting it again restores the
      selection. */
  lemma ToggleTwice(s: seq<ReplayFile>, f: ReplayFile)
    requires f !in s
    ensures Toggled(Toggled(s, f), f) == s
  {
    FilterSnoc(s, f, Other(f));
    FilterOtherAbsent(s, f);
  }

  /** A selection without repeats stays without repeats. */
  lemma ToggleKeepsDistinct(s: seq<ReplayFile>, f: ReplayFile)
    requires Distinct(s)
    ensures Distinct(Toggled(s, f))
  {
    if f in s {
      SubseqDistinct(Toggled(s, f), s);
    }
  }

  /** The ordinal shown next to a file: its position in the selection counted from 1, or 0
      when it is not selected. */
  function SelectedOrdinal(selections: seq<ReplayFile>, f: ReplayFile): (n: nat)
    ensures n == 0 <==> f !in selections
    ensures n > 0 ==> n <= |selections| && selections[n - 1] == f && f !in selections[..n - 1]
  {
    IndexOf(selections, f) + 1
  }

  /** A newly selected file is shown last in the queue; a deselected one shows no ordinal. */
  lemma OrdinalAfterToggle(s: seq<ReplayFile>, f: ReplayFile)
    ensures f !in s ==> SelectedOrdinal(Toggled(s, f), f) == |s| + 1
    ensures f in s ==> SelectedOrdinal(Toggled(s, f), f) == 0
  {
    if f !in s {
      assert (s + [f])[..|s|] == s;
    }
  }

  /** The duration filter: with filtering on, a file is kept when it has no metadata or lasts
      at least `MinGameLengthFrames` frames. */
  function KeepFile(filterReplays: bool): ReplayFile -> bool
  {
    (f: ReplayFile) => !filterReplays || f.lastFrame.None? || f.lastFrame.value >= MinGameLengthFrames
  }

  /** `unfilteredFiles()`: the files that survive the duration filter, in store order. */
  function UnfilteredFiles(files: seq<ReplayFile>, filterReplays: bool): (r: seq<ReplayFile>)
    ensures IsSubseq(r, files) && |r| == Count(files, KeepFile(filterReplays))
    ensures filterReplays ==>
      forall f :: f in r <==> f in files && (f.lastFrame.None? || f.lastFrame.value >= MinGameLengthFrames)
    ensures !filterReplays ==> r == files
  {
    NoFilterKeepsAll(files);
    Filter(files, KeepFile(filterReplays))
  }

  /** A file the duration filter hides: filtering is on and the file is known to be short. */
  function HiddenFile(filterReplays: bool): ReplayFile -> bool
  {
    (f: ReplayFile) => filterReplays && f.lastFrame.Some? && f.lastFrame.value < MinGameLengthFrames
  }

  lemma NoFilterKeepsAll(files: seq<ReplayFile>)
    ensures Filter(files, KeepFile(false)) == files
  {
    FilterAll(files, KeepFile(false));
  }

  /** `renderFilteredFilesNotif()`: no notice while loading or when nothing is hidden; otherwise
      the number hidden by the duration filter plus the corrupt files, a text naming what was
      hidden, and the show-anyway button only when the duration filter hid something. */
  function FilteredNotice(isLoading: bool, files: seq<ReplayFile>, errorFileCount: nat, filterReplays: bool): (r: Option<Notice>)
    ensures var durationFilterCount := |files| - |UnfilteredFiles(files, filterReplays)|;
      && durationFilterCount == Count(files, HiddenFile(filterReplays))
      && (r.None? <==> isLoading || durationFilterCount + errorFileCount == 0)
      && (r.Some? ==>
            && r.value.totalFiltered == durationFilterCount + errorFileCount
            && (r.value.showHideButton <==> durationFilterCount > 0 && filterReplays)
            && (errorFileCount == 0 ==> r.value.text == ShortReplaysFiltered)
            && (errorFileCount > 0 && durationFilterCount > 0 ==> r.value.text == CorruptAndShort(errorFileCount))
            && (errorFileCount > 0 && durationFilterCount == 0 ==> r.value.text == CorruptOnly(errorFileCount)))
    ensures !filterReplays ==> r.None? || r.value.totalFiltered == errorFileCount
  {
    CountSplit(files, KeepFile(filterReplays), HiddenFile(filterReplays));
    if isLoading then None
    else
      var durationFilterCount := |files| - |UnfilteredFiles(files, filterReplays)|;
      var total := durationFilterCount + errorFileCount;
      if total == 0 then None
      else
        var text :=
          if errorFileCount > 0 then
            (if durationFilterCount > 0 then CorruptAndShort(errorFileCount) else CorruptOnly(errorFileCount))
          else ShortReplaysFiltered;
        Some(Notice(total, text, durationFilterCount > 0 && filterReplays))
  }

  /** ASCII lower-casing of one character. */
  function LowerChar(c: char): char
  {
    if 'A' <= c <= 'Z' then (c as int + 32) as char else c
  }

  function Lower(s: string): (r: string)
    ensures |r| == |s| && forall i :: 0 <= i < |s| ==> r[i] == LowerChar(s[i])
  {
    seq(|s|, i requires 0 <= i < |s| => LowerChar(s[i]))
  }

  /** The "filename" search: the lower-cased file name contains the lower-cased text. */
  function FilenameTest(text: string): ReplayFile -> bool
  {
    (f: ReplayFile) => Contains(Lower(f.fileName), Lower(text))
  }

  /** The category searched: the dropdown's value, "character" until one is picked. */
  function Category(search: SearchData): string
  {
    if search.dropSelect.None? || search.dropSelect.value == "" then "character" else search.dropSelect.value
  }

  /** The test of `onSearchClick` for a category. The character, player and stage tests look
      names up in a game library and are given as `libraryTest`. Unknown categories have none. */
  function SearchTest(category: string, text: string, libraryTest: ReplayFile -> bool): Option<ReplayFile -> bool>
  {
    if category == "character" || category == "player" || category == "stage" then Some(libraryTest)
    else if category == "filename" then Some(FilenameTest(text))
    else None
  }

  /** The files `onSearchClick` renders, or None when it returns without acting (no text, or an
      unknown category): the candidates that pass the test, in order, cut to the first
      `SearchLimit`. */
  function SearchResults(search: SearchData, candidates: seq<ReplayFile>, libraryTest: ReplayFile -> bool): (r: Option<seq<ReplayFile>>)
    ensures r.None? <==>
      || search.filterText.None? || search.filterText.value == ""
      || SearchTest(Category(search), search.filterText.value, libraryTest).None?
    ensures r.Some? ==>
      var test := SearchTest(Category(search), search.filterText.value, libraryTest).value;
      && |r.value| <= SearchLimit
      && IsSubseq(r.value, candidates)
      && (forall i :: 0 <= i < |r.value| ==> test(r.value[i]))
      && (|r.value| < SearchLimit ==> r.value == Filter(candidates, test))
      && r.value <= Filter(candidates, test)
  {
    if search.filterText.None? || search.filterText.value == "" then None
    else
      match SearchTest(Category(search), search.filterText.value, libraryTest)
      case None => None
      case Some(test) =>
        var hits := Filter(candidates, test);
        if |hits| > SearchLimit then
          SubseqPrefix(hits, candidates, SearchLimit);
          Some(hits[..SearchLimit])
        else Some(hits)
  }

  /** A "filename" search finds exactly the candidates whose name contains the text, ignoring
      ASCII case, as long as there are fewer than `SearchLimit` of them. */
  lemma FilenameSearchFinds(candidates: seq<ReplayFile>, text: string, libraryTest: ReplayFile -> bool, f: ReplayFile)
    requires text != ""
    requires var r := SearchResults(SearchData(Some("filename"), Some(text)), candidates, libraryTest);
      r.Some? && |r.value| < SearchLimit
    ensures var r := SearchResults(SearchData(Some("filename"), Some(text)), candidates, libraryTest);
      f in r.value <==> f in candidates && Contains(Lower(f.fileName), Lower(text))
  {
  }

  /** The next batch `bufferMoreFiles` appends: `allFiles.slice(start, end)` with
      `end = min(start + GameBatchSize, allFiles.length)`. */
  function BatchEnd(start: nat, length: nat): (end: nat)
    ensures end <= length && end <= start + GameBatchSize
    ensures start < length ==> start < end
    ensures end == start + GameBatchSize || end == length
  {
    if start + GameBatchSize < length then start + GameBatchSize else length
  }

  /** Appending the next batch to the files loaded so far keeps them the leading files of the
      list, and the offset their count. */
  lemma BatchExtendsPrefix(all: seq<ReplayFile>, start: nat)
    requires start <= |all|
    ensures all[..start] + Slice(all, start, BatchEnd(start, |all|)) == all[..BatchEnd(start, |all|)]
  {
    var end := BatchEnd(start, |all|);
    assert all[..end] == all[..start] + all[start..end];
  }

  /** The replay browser's state: the component state (selection, duration filter, search bar)
      and the file-loading slice of the store. `queued` records the selections handed to the
      playback queue. */
  class Browser {
    var selections: seq<ReplayFile>
    var filterReplays: bool
    var searchData: SearchData
    var files: seq<ReplayFile>
    var isLoading: bool
    var numFilteredFiles: nat
    var filesToRender: seq<ReplayFile>
    var filesOffset: nat
    var hasLoaded: bool
    var queued: seq<seq<ReplayFile>>

    /** The files rendered so far are the leading files of the filtered list. */
    predicate Paged()
      reads this
    {
      var all := UnfilteredFiles(files, filterReplays);
      filesOffset <= |all| && filesToRender == all[..filesOffset]
    }

    constructor (files: seq<ReplayFile>, numFilteredFiles: nat, isLoading: bool)
      ensures this.files == files && this.numFilteredFiles == numFilteredFiles && this.isLoading == isLoading
      ensures selections == [] && filterReplays && searchData == SearchData(None, None)
      ensures filesToRender == [] && filesOffset == 0 && !hasLoaded && queued == []
      ensures Paged()
    {
      this.files := files;
      this.numFilteredFiles := numFilteredFiles;
      this.isLoading := isLoading;
      selections := [];
      filterReplays := true;
      searchData := SearchData(None, None);
      filesToRender := [];
      filesOffset := 0;
      hasLoaded := false;
      queued := [];
    }

    /** `onSelect(selectedFile)`. */
    method OnSelect(selectedFile: ReplayFile)
      modifies this
      ensures selections == Toggled(old(selections), selectedFile)
      ensures unchanged(this`filterReplays, this`searchData, this`files, this`filesToRender, this`filesOffset)
      ensures unchanged(this`hasLoaded, this`queued, this`isLoading, this`numFilteredFiles)
    {
      selections := NewSelections(selections, selectedFile);
    }

    /** `queueClear()`. */
    method QueueClear()
      modifies this`selections
      ensures selections == []
    {
      selections := [];
    }

    /** `queueFiles()`: the current selection goes to the playback queue and is cleared. */
    method QueueFiles()
      modifies this`selections, this`queued
      ensures queued == old(queued) + [old(selections)]
      ensures selections == []
    {
      queued := queued + [selections];
      selections := [];
    }

    /** The notice's "Click to show all": the loaded files and the selection are cleared and the
        duration filter is switched off. */
    method ShowAnyway()
      modifies this`filesToRender, this`filesOffset, this`filterReplays, this`selections
      ensures filesToRender == [] && filesOffset == 0 && !filterReplays && selections == []
      ensures Paged()
    {
      filesToRender := [];
      filesOffset := 0;
      filterReplays := false;
      selections := [];
    }

    method OnDropdownInputChange(value: string)
      modifies this`searchData
      ensures searchData == old(searchData).(dropSelect := Some(value))
    {
      searchData := searchData.(dropSelect := Some(value));
    }

    method OnTextInputChange(value: string)
      modifies this`searchData
      ensures searchData == old(searchData).(filterText := Some(value))
    {
      searchData := searchData.(filterText := Some(value));
    }

    /** `onSearchClick()`: with text and a known category, the search results replace the
        loaded files and the offset becomes their count; otherwise nothing changes. */
    method OnSearchClick(libraryTest: ReplayFile -> bool)
      modifies this`filesToRender, this`filesOffset, this`hasLoaded
      ensures var r := SearchResults(searchData, UnfilteredFiles(files, filterReplays), libraryTest);
        && (r.None? ==> unchanged(this`filesToRender, this`filesOffset, this`hasLoaded))
        && (r.Some? ==> filesToRender == r.value && filesOffset == |r.value| && hasLoaded)
    {
      var r := SearchResults(searchData, UnfilteredFiles(files, filterReplays), libraryTest);
      if r.Some? {
        filesToRender := r.value;
        filesOffset := |r.value|;
        hasLoaded := true;
      }
    }

    /** `bufferMoreFiles`, run as the table scrolls: when scrolled past half-way with files left,
        or before anything was loaded, the next batch is appended and the offset moves to its
        end. A browser whose loaded files lead the filtered list stays so. */
    method BufferMoreFiles(pastHalfway: bool)
      modifies this`filesToRender, this`filesOffset, this`hasLoaded
      ensures var all := UnfilteredFiles(files, filterReplays);
        var start := old(filesOffset);
        var end := BatchEnd(start, |all|);
        if (pastHalfway && start < |all|) || !old(hasLoaded) then
          filesToRender == old(filesToRender) + Slice(all, start, end) && filesOffset == end && hasLoaded
        else
          unchanged(this`filesToRender, this`filesOffset, this`hasLoaded)
      ensures old(Paged()) ==> Paged()
    {
      var all := UnfilteredFiles(files, filterReplays);
      var start := filesOffset;
      var end := BatchEnd(start, |all|);
      if (pastHalfway && start < |all|) || !hasLoaded {
        if Paged() {
          BatchExtendsPrefix(all, start);
        }
        filesToRender := filesToRender + Slice(all, start, end);
        filesOffset := end;
        hasLoaded := true;
      }
    }
  }

  /** The `forEach` loop of `onSelect`: copies every file other than `selectedFile`, noting
      whether it was seen, and appends `selectedFile` when it was not. */
  method NewSelections(selections: seq<ReplayFile>, selectedFile: ReplayFile) returns (newSelections: seq<ReplayFile>)
    ensures newSelections == Toggled(selections, selectedFile)
  {
    newSelections := [];
    var wasSeen := false;
    for i := 0 to |selections|
      invariant newSelections == Filter(selections[..i], Other(selectedFile))
      invariant wasSeen <==> selectedFile in selections[..i]
    {
      var file := selections[i];
      assert selections[..i + 1] == selections[..i] + [file];
      FilterSnoc(selections[..i], file, Other(selectedFile));
      if file == selectedFile {
        wasSeen := true;
      } else {
        newSelections := newSelections + [file];
      }
    }
    assert selections[..|selections|] == selections;
    if !wasSeen {
      FilterOtherAbsent(selections, selectedFile);
      newSelections := newSelections + [selectedFile];
    }
  }
}
