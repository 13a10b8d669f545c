/** The parts of `wmain` that keep the table and the loads in step: the
    folder of the executable, the scan of the path given at startup or dropped
    on the window and the load it starts, and the next / previous / reload
    handling of every frame. Each is a step function on `App.ViewerState` and
    a method on an `App.Viewer` proved to match it; a started loader thread is
    a `Request` appended to the viewer's requests. */
module MainLoop {
  import opened Wrappers
  import opened CStrings
  import opened Extension
  import opened Folder
  import opened Alerts
  import opened App

  // ---------------------------------------------------------------------------
  // The folder of the executable.

  /** The index of the last backslash of `s`, or -1 when there is none. */
  function LastBackslash(s: seq<char>): (k: int)
    ensures -1 <= k < |s|
    ensures k >= 0 ==> s[k] == '\\'
    ensures forall j :: k < j < |s| ==> s[j] != '\\'
  {
    if s == [] then -1
    else if s[|s| - 1] == '\\' then |s| - 1
    else LastBackslash(s[..|s| - 1])
  }

  /** The walk over the executable's path: `one_past_slash` follows every
      backslash, and the length copied is one less than it (-1 when the path
      has no backslash). */
  method ExeFolderLength(exe: seq<char>) returns (n: int)
    requires NUL in exe
    ensures n == LastBackslash(CStr(exe))
  {
    var onePast := 0;
    var i := 0;
    while exe[i] != NUL
      invariant i <= StrLen(exe) && NUL !in exe[..i]
      invariant onePast - 1 == LastBackslash(exe[..i])
      decreases StrLen(exe) - i
    {
      var c := exe[i];
      assert exe[..i + 1] == exe[..i] + [c];
      i := i + 1;
      if c == '\\' {
        onePast := i;
      }
    }
    StrLenAt(exe, i);
    n := onePast - 1;
  }

  /** `EXE_FOLDER`: the path cut just before its last backslash. A path
      without one would give `memmove` a negative size; the model has no
      folder for it. */
  function ExeFolder(exe: seq<char>): (r: Option<seq<char>>)
    requires NUL in exe
  {
    var n := LastBackslash(CStr(exe));
    if n < 0 then None else Some(CStr(exe)[..n])
  }

  /** The folder and a backslash start the path, and no backslash follows. */
  lemma ExeFolderSpec(exe: seq<char>)
    requires NUL in exe
    ensures var p := CStr(exe);
      && (ExeFolder(exe).None? <==> forall j :: 0 <= j < |p| ==> p[j] != '\\')
      && (ExeFolder(exe).Some? ==>
            var f := ExeFolder(exe).value;
            |f| < |p| && p[..|f| + 1] == f + ['\\'] && forall j :: |f| < j < |p| ==> p[j] != '\\')
  {
    var p := CStr(exe);
    var n := LastBackslash(p);
    if n >= 0 {
      assert p[..n + 1] == p[..n] + ['\\'];
    }
  }

  // ---------------------------------------------------------------------------
  // Navigation.

  /** The keys released this frame: Right or the forward mouse button, Left
      or the back mouse button. */
  datatype Keys = Keys(forward: bool, back: bool)

  /** The path the main loop hands to the loader for row i. Past the table's
      count the array still holds whatever was stored there (`stray`), and
      `G->files[i]` reads it all the same. */
  function RowPath(s: ViewerState, i: int, stray: string): string {
    if 0 <= i < |s.files| then s.files[i].file.path else stray
  }

  /** The load the main loop starts for row i. */
  function RequestFor(s: ViewerState, i: int, stray: string): Request {
    Request(RowPath(s, i, stray), i, false)
  }

  /** The guard the loads evidently need: the table holds the current row. */
  predicate HasCurrentRow(s: ViewerState) {
    0 <= s.current < |s.files|
  }

  /** One row forward: the signal is cleared whether or not the move happens. */
  function NextStep(s: ViewerState, keys: Keys, stray: string): ViewerState {
    if (!s.sorting && keys.forward) || s.signals.nextImage then
      var s1 := s.(signals := s.signals.(nextImage := false));
      if s.current < |s.files| - 1
      then s1.(current := s.current + 1, loaded := false, requests := s.requests + [RequestFor(s, s.current + 1, stray)])
      else s1
    else s
  }

  /** One row back. */
  function PrevStep(s: ViewerState, keys: Keys, stray: string): ViewerState {
    if (!s.sorting && keys.back) || s.signals.prevImage then
      var s1 := s.(signals := s.signals.(prevImage := false));
      if s.current > 0
      then s1.(current := s.current - 1, loaded := false, requests := s.requests + [RequestFor(s, s.current - 1, stray)])
      else s1
    else s
  }

  /** The same row loaded again. */
  function ReloadStep(s: ViewerState, stray: string): ViewerState {
    if s.signals.reloadFile
    then s.(signals := s.signals.(reloadFile := false), requests := s.requests + [RequestFor(s, s.current, stray)])
    else s
  }

  /** The navigation block of a frame as written: it is skipped only on an
      empty table, whatever the current index is. */
  function NavigateAsWritten(s: ViewerState, keys: Keys, stray: string): ViewerState {
    if |s.files| == 0 then s
    else ReloadStep(PrevStep(NextStep(s, keys, stray), keys, stray), stray)
  }

  /** The navigation block with the guard it evidently needs: it runs only
      when the table holds the current row, and then never reads past the
      table (`NavigateInRange`), so the stray contents play no part. */
  function Navigate(s: ViewerState, keys: Keys): ViewerState {
    if HasCurrentRow(s) then NavigateAsWritten(s, keys, []) else s
  }

  /** A move forward happens exactly when it is asked for and the current row
      is before the last; it then issues one request for the new row.
      Otherwise nothing but the signal changes. */
  lemma NextSpec(s: ViewerState, keys: Keys, stray: string)
    ensures var r := NextStep(s, keys, stray);
      var asked := (!s.sorting && keys.forward) || s.signals.nextImage;
      && r.files == s.files && !r.signals.nextImage
      && (asked && s.current < |s.files| - 1 ==>
            r.current == s.current + 1 && !r.loaded
            && r.requests == s.requests + [Request(RowPath(s, r.current, stray), r.current, false)])
      && (!(asked && s.current < |s.files| - 1) ==>
            r == s.(signals := s.signals.(nextImage := s.signals.nextImage && !asked)))
  {
  }

  /** A move back happens exactly when it is asked for and the current index
      is above 0, whether or not the row before it is in the table. */
  lemma PrevSpec(s: ViewerState, keys: Keys, stray: string)
    ensures var r := PrevStep(s, keys, stray);
      var asked := (!s.sorting && keys.back) || s.signals.prevImage;
      && r.files == s.files && !r.signals.prevImage
      && (asked && s.current > 0 ==>
            r.current == s.current - 1 && !r.loaded
            && r.requests == s.requests + [Request(RowPath(s, r.current, stray), r.current, false)])
      && (!(asked && s.current > 0) ==>
            r == s.(signals := s.signals.(prevImage := s.signals.prevImage && !asked)))
  {
  }

  /** A reload requests the current index and keeps it. */
  lemma ReloadSpec(s: ViewerState, stray: string)
    ensures var r := ReloadStep(s, stray);
      && r.current == s.current && r.files == s.files && r.loaded == s.loaded && !r.signals.reloadFile
      && r.requests == s.requests + (if s.signals.reloadFile then [RequestFor(s, s.current, stray)] else [])
  {
  }

  /** What each of the three steps keeps: the table, the sorting flag, and
      the requests up to at most one more, for the index it ends on. */
  predicate StepKept(s: ViewerState, r: ViewerState, stray: string) {
    && r.files == s.files && r.sorting == s.sorting
    && (r.requests == s.requests || r.requests == s.requests + [RequestFor(r, r.current, stray)])
  }

  /** Forward: a current row stays current, and an index at or past the end
      of the table never moves, so this step never reads past the table from
      an index of 0 or more. */
  lemma NextKept(s: ViewerState, keys: Keys, stray: string)
    ensures var r := NextStep(s, keys, stray);
      && StepKept(s, r, stray) && !r.signals.nextImage
      && r.signals.prevImage == s.signals.prevImage && r.signals.reloadFile == s.signals.reloadFile
      && (HasCurrentRow(s) ==> HasCurrentRow(r))
      && (s.current >= |s.files| ==> r.current == s.current && r.requests == s.requests)
  {
  }

  /** Back: a current row stays current, but an index two or more past the
      end of the table is decremented and a row past the table is requested,
      with whatever the array holds there as its path. */
  lemma PrevKept(s: ViewerState, keys: Keys, stray: string)
    ensures var r := PrevStep(s, keys, stray);
      && StepKept(s, r, stray) && !r.signals.prevImage
      && r.signals.nextImage == s.signals.nextImage && r.signals.reloadFile == s.signals.reloadFile
      && (HasCurrentRow(s) ==> HasCurrentRow(r))
      && (s.current > |s.files| && ((!s.sorting && keys.back) || s.signals.prevImage) ==>
            r.current >= |r.files| && r.requests == s.requests + [Request(stray, r.current, false)])
  {
  }

  /** Reload: the index stays, and an index outside the table is requested
      with the stray contents as its path. */
  lemma ReloadKept(s: ViewerState, stray: string)
    ensures var r := ReloadStep(s, stray);
      && StepKept(s, r, stray) && !r.signals.reloadFile
      && r.signals.nextImage == s.signals.nextImage && r.signals.prevImage == s.signals.prevImage
      && (HasCurrentRow(s) ==> HasCurrentRow(r))
      && (!HasCurrentRow(s) && s.signals.reloadFile ==>
            r.requests == s.requests + [Request(stray, s.current, false)])
  {
  }

  /** The requests from position `from` on are each for a row of the table
      and carry that row's path. */
  predicate RowRequests(s: ViewerState, from: nat) {
    from <= |s.requests|
    && forall k :: from <= k < |s.requests| ==>
         0 <= s.requests[k].id < |s.files| && s.requests[k].path == s.files[s.requests[k].id].file.path
  }

  /** A step that keeps the table and ends on a row of it keeps the earlier
      requests and adds at most one for a row of the table. */
  lemma RowRequestsKept(s: ViewerState, r: ViewerState, t: ViewerState, from: nat, stray: string)
    requires RowRequests(s, from) && StepKept(s, r, stray) && HasCurrentRow(r) && from <= |t.requests|
    requires s.requests[..from] == t.requests[..from] && |s.requests| <= |t.requests| + 3
    ensures RowRequests(r, from) && r.requests[..from] == t.requests[..from]
    ensures |s.requests| <= |r.requests| <= |s.requests| + 1
  {
  }

  /** A frame as written keeps the table and clears the three signals, and
      on an empty table changes nothing. From a current row it ends on a
      row. */
  lemma {:induction false} NavigateSpec(s: ViewerState, keys: Keys, stray: string)
    ensures var r := NavigateAsWritten(s, keys, stray);
      && r.files == s.files
      && (|s.files| == 0 ==> r == s)
      && (|s.files| > 0 ==> !r.signals.nextImage && !r.signals.prevImage && !r.signals.reloadFile)
      && (HasCurrentRow(s) ==> HasCurrentRow(r))
  {
    if |s.files| > 0 {
      var s1 := NextStep(s, keys, stray);
      var s2 := PrevStep(s1, keys, stray);
      NextKept(s, keys, stray);
      PrevKept(s1, keys, stray);
      ReloadKept(s2, stray);
      PrevSpec(s1, keys, stray);
      ReloadSpec(s2, stray);
    }
  }

  /** From a current row the frame never reads past the table: what the
      array holds beyond its count makes no difference. */
  lemma {:induction false} NavigateInRange(s: ViewerState, keys: Keys, stray: string, other: string)
    requires HasCurrentRow(s)
    ensures NavigateAsWritten(s, keys, stray) == NavigateAsWritten(s, keys, other)
  {
    var s1 := NextStep(s, keys, stray);
    if s.current < |s.files| - 1 {
      assert RequestFor(s, s.current + 1, stray) == RequestFor(s, s.current + 1, other);
    }
    assert NextStep(s, keys, other) == s1 && HasCurrentRow(s1);
    var s2 := PrevStep(s1, keys, stray);
    if s1.current > 0 {
      assert RequestFor(s1, s1.current - 1, stray) == RequestFor(s1, s1.current - 1, other);
    }
    assert PrevStep(s1, keys, other) == s2 && HasCurrentRow(s2);
    assert RequestFor(s2, s2.current, stray) == RequestFor(s2, s2.current, other);
  }

  /** With the guard on the current row, a frame starts at most three loads,
      keeps the earlier requests, and every load it starts is for a row of
      the table, carrying that row's path. */
  lemma {:induction false} NavigateRequests(s: ViewerState, keys: Keys)
    ensures var r := Navigate(s, keys);
      && |s.requests| <= |r.requests| <= |s.requests| + 3
      && r.requests[..|s.requests|] == s.requests
      && RowRequests(r, |s.requests|)
  {
    if HasCurrentRow(s) {
      var s1 := NextStep(s, keys, []);
      var s2 := PrevStep(s1, keys, []);
      var n := |s.requests|;
      NextKept(s, keys, []);
      RowRequestsKept(s, s1, s, n, []);
      PrevKept(s1, keys, []);
      RowRequestsKept(s1, s2, s, n, []);
      ReloadKept(s2, []);
      RowRequestsKept(s2, ReloadStep(s2, []), s, n, []);
    }
  }

  /** A failed scan keeps the old current index over the rows collected
      before the blocking entry. When fewer rows were collected than that
      index, the table is not empty, so the frame's guard passes, and going
      back requests a row past the table. */
  lemma FailedScanReadsPastTable(s: ViewerState, path: string, fs: FolderInputs, k: nat, stray: string)
    requires Wf(s) && PlainEntries(fs.entries) && !s.sorting
    requires fs.baseValid && FirstBlocker(fs.entries, Location(path, fs).name) == Some(k)
    requires 0 < |Kept(fs.entries[..k])| < s.current
    ensures var (r, scan) := ScanStep(s, Some(path), fs);
      && scan == ScanFailed && |r.files| > 0 && r.current >= |r.files|
      && var n := NavigateAsWritten(r, Keys(false, true), stray);
      && |n.requests| > |r.requests|
      && n.requests[|r.requests|] == Request(stray, s.current - 1, false)
      && n.requests[|r.requests|].id >= |n.files|
  {
    var (r, scan) := ScanStep(s, Some(path), fs);
    var keys := Keys(false, true);
    var s1 := NextStep(r, keys, stray);
    NextKept(r, keys, stray);
    PrevKept(s1, keys, stray);
    var s2 := PrevStep(s1, keys, stray);
    ReloadSpec(s2, stray);
  }

  /** `next_image`. */
  method NextImage(v: Viewer, keys: Keys, stray: string)
    modifies v
    ensures v.State() == NextStep(old(v.State()), keys, stray)
  {
    if (!v.sorting && keys.forward) || v.signals.nextImage {
      v.signals := v.signals.(nextImage := false);
      if v.current < |v.files| - 1 {
        var i := v.current + 1;
        var p := if 0 <= i < |v.files| then v.files[i].file.path else stray;
        v.current, v.loaded, v.requests := i, false, v.requests + [Request(p, i, false)];
      }
    }
  }

  /** `prev_image`. */
  method PrevImage(v: Viewer, keys: Keys, stray: string)
    modifies v
    ensures v.State() == PrevStep(old(v.State()), keys, stray)
  {
    if (!v.sorting && keys.back) || v.signals.prevImage {
      v.signals := v.signals.(prevImage := false);
      if v.current > 0 {
        var i := v.current - 1;
        var p := if 0 <= i < |v.files| then v.files[i].file.path else stray;
        v.current, v.loaded, v.requests := i, false, v.requests + [Request(p, i, false)];
      }
    }
  }

  /** `reload_file`. */
  method ReloadFile(v: Viewer, stray: string)
    modifies v
    ensures v.State() == ReloadStep(old(v.State()), stray)
  {
    if v.signals.reloadFile {
      v.signals := v.signals.(reloadFile := false);
      var p := if 0 <= v.current < |v.files| then v.files[v.current].file.path else stray;
      v.requests := v.requests + [Request(p, v.current, false)];
    }
  }

  /** The navigation block of the main loop, as written. */
  method NavigateFrame(v: Viewer, keys: Keys, stray: string)
    modifies v
    ensures v.State() == NavigateAsWritten(old(v.State()), keys, stray)
  {
    if |v.files| > 0 {
      NextImage(v, keys, stray);
      PrevImage(v, keys, stray);
      ReloadFile(v, stray);
    }
  }

  // ---------------------------------------------------------------------------
  // The path given at startup and the path dropped on the window.

  /** The guard of the startup load as written: a path was given and the
      scan did not fail. */
  predicate StartGuardAsWritten(arg: Option<string>, scan: ScanResult) {
    arg.Some? && scan != ScanFailed
  }

  /** The guard of the dropped-path load as written. */
  predicate DropGuardAsWritten(scan: ScanResult) {
    scan != ScanFailed
  }

  /** Both guards pass on a scan that leaves the table empty: a folder whose
      base path is not valid scans as a folder with no rows, and the request
      is then built from a row that does not exist. */
  lemma EmptyTablePassesGuards(s: ViewerState, path: string, fs: FolderInputs)
    requires Wf(s) && PlainEntries(fs.entries) && !fs.baseValid
    ensures !ReadsMissingPath(s, Some(path), fs)
    ensures var (r, scan) := ScanStep(s, Some(path), fs);
      && StartGuardAsWritten(Some(path), scan) && DropGuardAsWritten(scan)
      && |r.files| == 0 && !HasCurrentRow(r)
  {
  }

  /** The same with a valid folder that holds no image: the scan succeeds
      and the table is empty. */
  lemma EmptyFolderPassesGuards(s: ViewerState, path: string, fs: FolderInputs)
    requires Wf(s) && fs.baseValid && fs.isDirectory && fs.entries == [] && (s.sorting || !s.settings.sortEnabled)
    ensures !ReadsMissingPath(s, Some(path), fs)
    ensures var (r, scan) := ScanStep(s, Some(path), fs);
      && scan == ScanDir && DropGuardAsWritten(scan) && StartGuardAsWritten(Some(path), scan)
      && |r.files| == 0 && !HasCurrentRow(r)
  {
  }

  /** Startup: the scan of `argv[1]` (None when no path was given) and the
      first load. */
  function StartStep(s: ViewerState, arg: Option<string>, fs: FolderInputs): ViewerState
    requires Wf(s) && PlainEntries(fs.entries)
  {
    var (s1, scan) := ScanStep(s, arg, fs);
    if StartGuardAsWritten(arg, scan) && HasCurrentRow(s1)
    then s1.(requests := s1.requests + [Request(arg.value, s1.current, false)])
    else s1
  }

  /** A dropped path: the scan and, for a folder, a load of its first row. */
  function DropStep(s: ViewerState, path: string, fs: FolderInputs): ViewerState
    requires Wf(s) && PlainEntries(fs.entries)
  {
    var (s1, scan) := ScanStep(s.(loadingDropped := true), Some(path), fs);
    DropLoad(s1, scan, path)
  }

  /** The load a drop starts after its scan. */
  function DropLoad(s: ViewerState, scan: ScanResult, path: string): ViewerState {
    if DropGuardAsWritten(scan) && HasCurrentRow(s)
    then
      var p := if scan == ScanDir then s.files[0].file.path else path;
      s.(loaded := false, requests := s.requests + [Request(p, s.current, true)])
    else s
  }

  /** With the corrected guard every request the startup or a drop issues is
      for a row of the table; a dropped folder loads its first row's path. */
  lemma StartAndDropRequestValid(s: ViewerState, arg: string, fs: FolderInputs)
    requires Wf(s) && PlainEntries(fs.entries)
    ensures var r := StartStep(s, Some(arg), fs);
      |r.requests| == |s.requests| + 1 ==> 0 <= r.requests[|s.requests|].id < |r.files|
    ensures var r := DropStep(s, arg, fs);
      |r.requests| == |s.requests| + 1 ==>
        && var q := r.requests[|s.requests|];
        && 0 <= q.id < |r.files| && q.dropped && !r.loaded
        && (fs.isDirectory ==> q.path == r.files[0].file.path)
  {
  }

  /** Startup. */
  method Start(v: Viewer, arg: Option<string>, fs: FolderInputs)
    requires v.Valid() && PlainEntries(fs.entries)
    modifies v, v.alert, v.alert.text
    ensures v.Valid() && v.State() == StartStep(old(v.State()), arg, fs)
  {
    var scan := v.ScanFolder(arg, fs);
    if StartGuardAsWritten(arg, scan) && 0 <= v.current < |v.files| {
      v.requests := v.requests + [Request(arg.value, v.current, false)];
    }
  }

  /** The handling of a dropped path. */
  method Drop(v: Viewer, path: string, fs: FolderInputs)
    requires v.Valid() && PlainEntries(fs.entries)
    modifies v, v.alert, v.alert.text
    ensures v.Valid() && v.State() == DropStep(old(v.State()), path, fs)
  {
    v.loadingDropped := true;
    var scan := v.ScanFolder(Some(path), fs);
    LoadDropped(v, scan, path);
  }

  /** The load started after the scan of a dropped path. */
  method LoadDropped(v: Viewer, scan: ScanResult, path: string)
    modifies v
    ensures v.State() == DropLoad(old(v.State()), scan, path)
  {
    if DropGuardAsWritten(scan) && 0 <= v.current < |v.files| {
      v.loaded := false;
      var p := if scan == ScanDir then v.files[0].file.path else path;
      v.requests := v.requests + [Request(p, v.current, true)];
    }
  }
}
