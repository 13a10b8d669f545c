/** What the loader steps of `App` promise: which row a failure marks, when a
    decoded image replaces the displayed one, the rows a load leaves alone,
    the loads that can never finish, and what a scan leaves as the current
    index. */
module ViewerFacts {
  import opened Wrappers
  import opened Bytes
  import opened Extension
  import opened CStrings
  import opened Folder
  import opened Alerts
  import opened App
  import Ppm
  import Arith

  /** The commit block installs the decoded image exactly when the load is
      still for the current index and fits the GPU; it raises the alert
      exactly when the image is too large; otherwise nothing changes. */
  lemma CommitRule(s: ViewerState, id: int, d: Decoded, n: int)
    requires Wf(s)
    ensures var r := Committed(s, id, d, n);
      && (Installs(s, id, d.w, d.h) ==> r == s.(image := MainImage(d.w, d.h, n, d.pixels),
                                                 signals := s.signals.(initStep2 := true)))
      && (!Installs(s, id, d.w, d.h) ==> r.image == s.image && r.signals == s.signals && r.loaded == s.loaded)
      && ((MAX_GPU < d.w || MAX_GPU < d.h) <==> r.alert != s.alert)
      && (id != s.current ==> r.anim == s.anim && r.image == s.image)
  {
  }

  /** A failed decode marks the CURRENT row failed, whichever row was being
      loaded; the loaded row only has its loading mark cleared, and every
      other row is left alone. */
  lemma FailureMarksCurrent(s: ViewerState, id: int)
    requires Wf(s) && 0 <= id < |s.files| && 0 <= s.current < |s.files|
    ensures var r := StbStep(s, id, None);
      && r.files[s.current].failed && r.loaded && !r.files[id].loading
      && r.image.w == NO_FILE_W && r.image.h == NO_FILE_H
      && (id != s.current ==> r.files[id].failed == s.files[id].failed)
      && forall k :: 0 <= k < |s.files| && k != id && k != s.current ==> r.files[k] == s.files[k]
  {
  }

  /** An image larger than the GPU takes is not marked failed: the rows keep
      their marks, the displayed image and the load state stay. */
  lemma TooLargeKeepsImage(s: ViewerState, id: int, d: Decoded)
    requires Wf(s) && 0 <= id < |s.files| && 0 <= s.current < |s.files|
    requires MAX_GPU < d.w || MAX_GPU < d.h
    ensures var r := StbStep(s, id, Some(d));
      && r.files == s.files[id := s.files[id].(loading := false)]
      && r.image == s.image && r.loaded == s.loaded && r.alert.timer == 1
  {
  }

  /** Rows a step leaves alone: every row but the loaded one and the current
      one. */
  predicate OtherRowsKept(s: ViewerState, r: ViewerState, id: int) {
    |r.files| == |s.files|
    && forall k :: 0 <= k < |s.files| && k != id && k != s.current ==> r.files[k] == s.files[k]
  }

  lemma FailedKeepsOtherRows(s: ViewerState, id: int, msg: string)
    requires Wf(s) && NUL !in msg
    ensures OtherRowsKept(s, LoadFailed(WithLoading(s, id, false), msg), id)
  {
  }

  lemma {:induction false} StillKeepsOtherRows(s: ViewerState, id: int, dec: Decoders, t: FileType, ext: string)
    requires Wf(s) && PlainMessages(dec, ext) && t in {StbImage, Misc, Ppm}
    ensures OtherRowsKept(s, Dispatched(s, id, t, ext, dec), id)
  {
    if t == StbImage {
      if dec.stb.None? { FailedKeepsOtherRows(s, id, LOAD_FAILED); }
    } else if t == Misc {
      if dec.wic.WicFailed? { FailedKeepsOtherRows(s, id, WicMessage(dec.wic.error, ext)); }
    }
  }

  lemma GifKeepsOtherRows(s: ViewerState, id: int, r: Option<AnimDecoded>)
    requires Wf(s)
    ensures OtherRowsKept(s, GifStep(s, id, r), id)
  {
  }

  lemma {:induction false} WebpKeepsOtherRows(s: ViewerState, id: int, r: WebpResult)
    requires Wf(s)
    ensures OtherRowsKept(s, WebpStep(s, id, r), id)
  {
    if r.Still? && r.still.None? {
      FailedKeepsOtherRows(s, id, LOAD_FAILED);
    }
  }

  lemma {:induction false} DispatchKeepsOtherRows(s: ViewerState, id: int, t: FileType, ext: string, dec: Decoders)
    requires Wf(s) && PlainMessages(dec, ext)
    ensures OtherRowsKept(s, Dispatched(s, id, t, ext, dec), id)
  {
    if t in {StbImage, Misc, Ppm} {
      StillKeepsOtherRows(s, id, dec, t, ext);
    } else if t == Gif {
      GifKeepsOtherRows(s, id, dec.gif);
    } else if t == Webp {
      WebpKeepsOtherRows(s, id, dec.webp);
    }
  }

  /** A load, as written or corrected, leaves the current index and every row
      other than the loaded one and the current one unchanged, whatever the
      two indices are. */
  lemma {:induction false} LoaderKeepsOtherRows(s: ViewerState, id: int, dec: Decoders, stray: FileData)
    requires Wf(s) && PlainMessages(dec, RowAt(s, id, stray).file.ext)
    ensures OtherRowsKept(s, LoaderStep(s, id, dec, stray), id)
    ensures OtherRowsKept(s, LoaderStepAsWritten(s, id, dec, stray), id)
  {
    var row := RowAt(s, id, stray);
    if !row.loading {
      DispatchKeepsOtherRows(LoadStarted(s), id, LoaderType(row.fileType), row.file.ext, dec);
      DispatchKeepsOtherRows(LoadStarted(s), id, row.fileType, row.file.ext, dec);
    }
  }

  /** A load whose index and the current index both lie past the table's
      count, as a request made over an empty table or after a failed scan
      can be, changes no row of the table. */
  lemma {:induction false} StaleLoadKeepsTable(s: ViewerState, id: int, dec: Decoders, stray: FileData)
    requires Wf(s) && PlainMessages(dec, RowAt(s, id, stray).file.ext)
    requires !(0 <= id < |s.files|) && !(0 <= s.current < |s.files|)
    ensures LoaderStep(s, id, dec, stray).files == s.files
    ensures LoaderStepAsWritten(s, id, dec, stray).files == s.files
  {
    LoaderKeepsOtherRows(s, id, dec, stray);
  }

  /** A row still marked loading is not loaded again: only the start of the
      loader runs. */
  lemma LoaderSkipsLoadingRow(s: ViewerState, id: int, dec: Decoders, stray: FileData)
    requires Wf(s) && PlainMessages(dec, RowAt(s, id, stray).file.ext)
    requires RowAt(s, id, stray).loading
    ensures var r := LoaderStep(s, id, dec, stray);
      r.files == s.files && r.image == s.image && r.anim == s.anim && r.alert.timer == 0
  {
  }

  /** A PPM file that does not open or does not parse leaves its row marked
      loading, so every later load of that row stops at the guard. */
  lemma PpmFailureSticks(s: ViewerState, id: int, file: Option<seq<byte>>, dec: Decoders, stray: FileData)
    requires Wf(s) && 0 <= id < |s.files| && 0 <= s.current < |s.files|
    requires file.None? || Ppm.ParsePpm(file.value).None?
    requires PlainMessages(dec, s.files[id].file.ext)
    ensures var s1 := PpmStep(s, id, file);
      && s1.files[id].loading && !s1.files[id].failed == !s.files[id].failed
      && LoaderStep(s1, id, dec, stray) == LoadStarted(s1)
  {
  }

  /** A 0x0 PPM file loaded for the current row is installed, and its sides
      are ones `reduced_fraction` has no result for. */
  lemma ZeroSidedPpmInstalled(s: ViewerState, id: int)
    requires Wf(s) && id == s.current
    ensures var r := PpmStep(s, id, Some(Ppm.ZERO_SIDES));
      && r.image == MainImage(0, 0, 4, []) && r.signals.initStep2
      && Arith.ReducedFraction(r.image.w, r.image.h).None?
  {
    Ppm.ZeroSidesAccepted();
  }

  /** A superseded animation still writes its canvas size over the displayed
      image, then unloads itself: the screen keeps the old pixels at the new
      size. */
  lemma SupersededAnimResizes(s: ViewerState, id: int, a: AnimDecoded)
    requires Wf(s) && 0 <= id < |s.files| && 0 <= s.current < |s.files|
    requires id != s.current
    ensures var r := GifStep(s, id, Some(a));
      && r.image == s.image.(w := a.w, h := a.h)
      && r.anim.frames == 0 && r.anim.buffer.None?
      && r.signals == s.signals
  {
  }

  /** The render step finishes a load: the load is marked done and both
      signals are cleared. */
  lemma InitFinishesLoad(s: ViewerState)
    requires s.signals.initStep2
    ensures var r := InitStep(s);
      r.loaded && !r.loadingDropped && !r.signals.initStep2 && !r.signals.updateOrientation
  {
  }

  /** An odd orientation read from the Exif data swaps width and height;
      nothing else changes the image. */
  lemma InitSwapsOddOrientation(s: ViewerState)
    ensures var swap := s.signals.initStep2 && s.signals.updateOrientation
                        && s.orientation > 0 && s.orientation % 2 == 1;
      InitStep(s).image == if swap then s.image.(w := s.image.h, h := s.image.w) else s.image
  {
  }

  /** Handling the signal twice changes nothing more. */
  lemma InitStepIdempotent(s: ViewerState)
    ensures InitStep(InitStep(s)) == InitStep(s)
  {
  }

  // ---------------------------------------------------------------------------
  // Animated WebP files reloaded.

  /** The first load of an animated WebP retags its row WebpAnim and leaves
      the loading mark as it was. */
  lemma WebpRetagged(s: ViewerState, id: int, a: Option<AnimDecoded>)
    requires Wf(s) && 0 <= id < |s.files| && 0 <= s.current < |s.files|
    ensures var r := WebpStep(s, id, Animation(a));
      r.files[id].fileType == WebpAnim && r.files[id].loading == s.files[id].loading
  {
    var s1 := s.(anim := Unloaded(s.anim), files := Retyped(s.files, id, WebpAnim));
    assert s1.files[id].fileType == WebpAnim && s1.files[id].loading == s.files[id].loading;
    if a.None? {
      assert LoadFailed(s1, ANIM_FAILED).files == FailedAt(s1.files, s.current);
    } else {
      assert AnimShown(s1, id, a.value).files == s1.files;
    }
  }

  /** As written, the switch of the loader has no WebpAnim case: a retagged
      row that is not loading is loaded to nothing. */
  lemma WebpAnimIgnoredAsWritten(s: ViewerState, id: int, dec: Decoders, stray: FileData)
    requires Wf(s) && PlainMessages(dec, RowAt(s, id, stray).file.ext)
    requires RowAt(s, id, stray).fileType == WebpAnim && !RowAt(s, id, stray).loading
    ensures LoaderStepAsWritten(s, id, dec, stray) == LoadStarted(s)
  {
  }

  /** The discrepancy: an animated WebP opened a second time shows nothing as
      written. */
  lemma WebpReloadLostAsWritten(s: ViewerState, id: int, a: AnimDecoded, dec: Decoders, stray: FileData)
    requires Wf(s) && 0 <= id < |s.files| && id == s.current && !s.files[id].loading
    requires PlainMessages(dec, s.files[id].file.ext)
    ensures var s1 := WebpStep(s, id, Animation(Some(a)));
      && s1.files[id].fileType == WebpAnim && !s1.files[id].loading
      && LoaderStepAsWritten(s1, id, dec, stray) == LoadStarted(s1)
  {
    WebpRetagged(s, id, Some(a));
    var s1 := WebpStep(s, id, Animation(Some(a)));
    WebpAnimIgnoredAsWritten(s1, id, dec, stray);
  }

  /** The corrected loader sends a retagged row back to the WebP loader, so
      the second opening shows the frames again. */
  lemma WebpReloadShown(s: ViewerState, id: int, a: AnimDecoded, dec: Decoders, stray: FileData)
    requires Wf(s) && 0 <= id < |s.files| && id == s.current && !s.files[id].loading
    requires PlainMessages(dec, s.files[id].file.ext)
    requires dec.webp == Animation(Some(a))
    ensures var s1 := WebpStep(s, id, Animation(Some(a)));
      && LoaderStep(s1, id, dec, stray).anim == Anim(a.frames, Some(a.pixels), 0, s.settings.autoplay)
      && LoaderStep(s1, id, dec, stray).signals.initStep2
      && LoaderStep(s1, id, dec, stray).image.w == a.w && LoaderStep(s1, id, dec, stray).image.h == a.h
  {
    WebpRetagged(s, id, Some(a));
  }

  // ---------------------------------------------------------------------------
  // Scanning, sorting and shuffling.

  /** A sort with the Explorer listing: the same number of rows, ordered by
      the listing's index, every transient mark cleared, and the current
      index on the last row with the name when there is one. */
  lemma SortStepSpec(s: ViewerState, name: string, ps: seq<string>)
    ensures var r := SortStep(s, name, Listing(ps));
      && |r.files| == |s.files| && !r.sorting
      && SortedByIndex(r.files)
      && (forall k :: 0 <= k < |r.files| ==> !r.files[k].loading && !r.files[k].failed)
      && (name in Names(r.files) ==> 0 <= r.current < |r.files| && r.files[r.current].file.name == name
                                     && name !in Names(r.files)[r.current + 1..])
      && (name !in Names(r.files) ==> r.current == s.current)
  {
    var sorted := SortByIndex(Reindexed(s.files, ps));
    SortByIndexSpec(Reindexed(s.files, ps));
    assert |multiset(sorted)| == |sorted|;
    SettledKeeps(sorted);
  }

  /** Without the shell objects the sort gives up with `sorting` left set, so
      no later scan sorts again. */
  lemma SortStuck(s: ViewerState, name: string)
    ensures var r := SortStep(s, name, NoShell);
      r.sorting && r.files == s.files && r.current == s.current
  {
  }

  /** A scan stopped by the file to open keeps the rows collected before it
      and the old current index, and raises the alert. */
  lemma ScanFailure(s: ViewerState, path: string, fs: FolderInputs, k: nat)
    requires Wf(s) && PlainEntries(fs.entries)
    requires fs.baseValid && FirstBlocker(fs.entries, Location(path, fs).name) == Some(k)
    ensures var (r, result) := ScanStep(s, Some(path), fs);
      && result == ScanFailed && k < |fs.entries|
      && fs.entries[k].name == Location(path, fs).name && Classify(fs.entries[k].ext) == Unknown
      && r.files == Kept(fs.entries[..k]) && r.current == s.current
      && r.alert.timer == 1 && r.alert.kind == Error
  {
  }

  /** After the entries are collected the table holds every kept entry, and
      the current index is the first row with the name to open when one has
      it. */
  lemma {:induction false} FolderListedSpec(s: ViewerState, name: string, listing: ShellListing)
    ensures var r := FolderListed(s, name, listing);
      && |r.files| == |s.files|
      && (name in Names(r.files) ==> FirstIndexOf(Names(r.files), name) == Some(r.current as nat))
  {
    if !s.sorting && s.settings.sortEnabled && listing.Listing? {
      SortStepSpec(s, name, listing.paths);
    }
  }

  /** Without the sort the table is the entries in directory order and, when
      no row has the name to open, the current index is 0. */
  lemma FolderListedUnsorted(s: ViewerState, name: string, listing: ShellListing)
    requires s.sorting || !s.settings.sortEnabled
    ensures var r := FolderListed(s, name, listing);
      r.files == s.files && (name !in Names(r.files) ==> r.current == 0)
  {
  }

  /** A scan that is not stopped ends as the collected listing above. */
  lemma ScanSelects(s: ViewerState, path: string, fs: FolderInputs)
    requires Wf(s) && PlainEntries(fs.entries)
    requires fs.baseValid && FirstBlocker(fs.entries, Location(path, fs).name).None?
    ensures ScanStep(s, Some(path), fs)
            == (FolderListed(s.(files := Kept(fs.entries)), Location(path, fs).name, fs.listing),
                if fs.isDirectory then ScanDir else ScanFile)
  {
  }

  /** As written, a folder scanned with sorting on reaches `wcslen` of a
      null full path unless it holds an unreadable file named "none":
      dropping such a folder on the window crashes the viewer. */
  lemma FolderSortNullAsWritten(s: ViewerState, path: string, fs: FolderInputs)
    requires Wf(s) && PlainEntries(fs.entries) && !s.sorting && s.settings.sortEnabled
    requires fs.isDirectory && fs.baseValid
    requires forall k :: 0 <= k < |fs.entries| ==> fs.entries[k].name != "none"
    ensures ScanStepAsWritten(s, Some(path), fs).None?
  {
  }

  /** With the folder's own path in place of the null one, the same scan
      sorts the table: every kept entry is listed, ordered by its position in
      the Explorer listing. */
  lemma FolderScanSorted(s: ViewerState, path: string, fs: FolderInputs, ps: seq<string>)
    requires Wf(s) && PlainEntries(fs.entries) && ReadsMissingPath(s, Some(path), fs)
    requires fs.listing == Listing(ps)
    ensures var (r, result) := ScanStep(s, Some(path), fs);
      && result == ScanDir && !r.sorting
      && |r.files| == |Kept(fs.entries)| && SortedByIndex(r.files)
  {
    var s1 := s.(files := Kept(fs.entries));
    ScanSelects(s, path, fs);
    SortStepSpec(s1, "none", ps);
    FolderListedSpec(s1, "none", fs.listing);
  }

  /** The shuffle keeps the rows and, with more than one row, restarts at the
      first and asks for a reload. */
  lemma ShuffleStepSpec(s: ViewerState, rolls: seq<nat>)
    requires |s.files| <= |rolls|
    ensures var r := ShuffleStep(s, rolls);
      && multiset(r.files) == multiset(s.files)
      && (|s.files| > 1 ==> r.current == 0 && r.signals.reloadFile)
      && (|s.files| <= 1 ==> r.current == s.current && r.signals == s.signals)
  {
    ShuffledPermutes(s.files, rolls);
  }
}
