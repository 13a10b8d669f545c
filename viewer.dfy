/** The viewer state the loading and directory code shares: the file table,
    the current index, the displayed image, the animation, the signals the
    render step handles, the loads the main loop has started, and the alert.

    Each operation is a pure step function on a snapshot of that state
    (`ViewerState`) and a method of class `Viewer` that performs it in place
    and is proved to match it. The decoding libraries, the file system and the
    Explorer window are inputs; the threads are flattened into calls, each
    reading the current index at the moment it commits. */
module App {
  import opened Wrappers
  import opened Bytes
  import opened Extension
  import opened CStrings
  import opened Folder
  import opened Alerts
  import Histogram
  import Ppm
  import Rotation

  /** The largest texture side the GPU takes. */
  const MAX_GPU: int := 16384
  /** The size `set_to_no_file` shows the "no file" placeholder at. */
  const NO_FILE_W: int := 50
  const NO_FILE_H: int := 53

  const LOAD_FAILED: string := "Loading the file failed"
  const TOO_LARGE: string := "Image is too large."
  const GIF_FAILED: string := "Loading GIF file failed"
  const ANIM_FAILED: string := "Loading animated WebP file failed"

  /** The alert of a scan stopped by the file to open. */
  function CannotOpen(ext: string): (r: string)
    ensures NUL !in ext ==> NUL !in r
  {
    "Cannot open files of the type '" + ext + "'."
  }

  datatype ScanResult = ScanFailed | ScanFile | ScanDir

  /** The image on screen: size, channel count and pixel bytes. */
  datatype MainImage = MainImage(w: int, h: int, n: int, pixels: seq<byte>)

  /** The animation fields: frame count, frame buffer, frame shown, playing. */
  datatype Anim = Anim(frames: nat, buffer: Option<seq<byte>>, index: nat, playing: bool)

  datatype AlertState = AlertState(text: seq<char>, timer: int, kind: AlertType, frames: nat)

  /** A started loader thread: the path, the index and whether the file was
      dropped on the window. `loader_thread` reads the row at the index, not
      the path, which only records what the main loop handed over. */
  datatype Request = Request(path: string, id: int, dropped: bool)

  /** The one-shot signals: set by one step, handled and cleared by another. */
  datatype Signals = Signals(initStep2: bool, updateOrientation: bool, updateTruescale: bool,
                             nextImage: bool, prevImage: bool, reloadFile: bool)

  /** The two settings the loaders and the scan read. */
  datatype Settings = Settings(autoplay: bool, sortEnabled: bool)

  datatype ViewerState = ViewerState(
    files: seq<FileData>, current: int, loaded: bool,
    image: MainImage, hasExif: bool, orientation: int, anim: Anim,
    signals: Signals, sorting: bool, loadingDropped: bool, settings: Settings,
    requests: seq<Request>, alert: AlertState)

  /** The alert buffer has its size and the timer its range. */
  predicate Wf(s: ViewerState) {
    |s.alert.text| == CAPACITY && 0 <= s.alert.timer < EXPIRY
  }

  // ---------------------------------------------------------------------------
  // What the decoders hand back.

  /** A decoded still image: size, channels in the file, RGBA bytes. */
  datatype Decoded = Decoded(w: int, h: int, channels: int, pixels: seq<byte>)
  /** A decoded animation: canvas size, frame count, frame bytes. */
  datatype AnimDecoded = AnimDecoded(w: int, h: int, frames: nat, pixels: seq<byte>)

  /** The failures the platform codecs report: two known codes and every other
      code with the system's text for it. */
  datatype WicError = ComponentNotFound | ComponentInitFailure | SystemError(message: string)
  /** The Exif step: not run (setting off or file not opened), parse failed, or
      the Orientation tag value. */
  datatype Exif = NotRead | ParseFailed | Parsed(tag: int)
  datatype WicResult = WicFailed(error: WicError) | WicDecoded(image: Decoded, exif: Exif)
  /** The WebP decoder: the file not opened, a still image, or an animation. */
  datatype WebpResult = Unopened | Still(still: Option<Decoded>) | Animation(animation: Option<AnimDecoded>)

  /** The answers every decoder would give for the file being loaded. The PPM
      loader reads the file's bytes itself (None: the file does not open). */
  datatype Decoders = Decoders(stb: Option<Decoded>, gif: Option<AnimDecoded>,
                               webp: WebpResult, ppm: Option<seq<byte>>, wic: WicResult)

  /** Every RGBA buffer the histogram is computed from holds whole pixels. */
  predicate WholePixels(dec: Decoders) {
    (dec.wic.WicDecoded? ==> |dec.wic.image.pixels| % 4 == 0)
    && (dec.webp.Still? && dec.webp.still.Some? ==> |dec.webp.still.value.pixels| % 4 == 0)
  }

  /** No message handed to the alert holds a NUL. */
  predicate PlainMessages(dec: Decoders, ext: string) {
    NUL !in ext && (dec.wic.WicFailed? && dec.wic.error.SystemError? ==> NUL !in dec.wic.error.message)
  }

  // ---------------------------------------------------------------------------
  // Steps of the loaders.

  /** `push_alert(msg)` with the default kind. */
  function AlertPushed(s: ViewerState, msg: string): (r: ViewerState)
    requires Wf(s) && NUL !in msg
    ensures Wf(r)
  {
    s.(alert := AlertState(Stored(s.alert.text, msg), 1, Error, s.alert.frames + EXTRA_FRAMES))
  }

  /** The row `files[i]` reads. Past the table's count the array still holds
      whatever was left there, `stray`. */
  function RowAt(s: ViewerState, i: int, stray: FileData): FileData {
    if 0 <= i < |s.files| then s.files[i] else stray
  }

  /** `files[id].loading = v`. A write past the table's count changes no row
      of the table. */
  function WithLoading(s: ViewerState, id: int, v: bool): (r: ViewerState)
    ensures |r.files| == |s.files| && Wf(s) == Wf(r)
  {
    if 0 <= id < |s.files| then s.(files := s.files[id := s.files[id].(loading := v)]) else s
  }

  /** `files[i].failed = true`, with the same reading past the count. */
  function FailedAt(files: seq<FileData>, i: int): (r: seq<FileData>)
    ensures |r| == |files|
  {
    if 0 <= i < |files| then files[i := files[i].(failed := true)] else files
  }

  /** `files[i].type = t`, with the same reading past the count. */
  function Retyped(files: seq<FileData>, i: int, t: FileType): (r: seq<FileData>)
    ensures |r| == |files|
  {
    if 0 <= i < |files| then files[i := files[i].(fileType := t)] else files
  }

  /** A failed decode: the alert, the CURRENT row (not the loaded one) marked
      failed, the load finished and the placeholder size set
      (`set_to_no_file`). */
  function LoadFailed(s: ViewerState, msg: string): (r: ViewerState)
    requires Wf(s) && NUL !in msg
    ensures Wf(r) && |r.files| == |s.files| && r.current == s.current
  {
    var a := AlertPushed(s, msg);
    a.(files := FailedAt(s.files, s.current), loaded := true,
       image := s.image.(w := NO_FILE_W, h := NO_FILE_H),
       signals := s.signals.(updateTruescale := true))
  }

  /** The decoded image replaces the displayed one only when the load is still
      for the current index. */
  predicate Installs(s: ViewerState, id: int, w: int, h: int) {
    id == s.current && w <= MAX_GPU && h <= MAX_GPU
  }

  /** The commit block shared by the still-image loaders. */
  function Committed(s: ViewerState, id: int, d: Decoded, n: int): (r: ViewerState)
    requires Wf(s)
    ensures Wf(r) && r.files == s.files && r.current == s.current
  {
    if MAX_GPU < d.w || MAX_GPU < d.h then AlertPushed(s, TOO_LARGE)
    else if id == s.current then s.(image := MainImage(d.w, d.h, n, d.pixels), signals := s.signals.(initStep2 := true))
    else s
  }

  /** `load_image_pre`. */
  function StbStep(s: ViewerState, id: int, r: Option<Decoded>): (next: ViewerState)
    requires Wf(s)
    ensures Wf(next) && next.current == s.current && |next.files| == |s.files|
  {
    var s1 := WithLoading(s, id, false);
    if r.None? then LoadFailed(s1, LOAD_FAILED) else Committed(s1, id, r.value, r.value.channels)
  }

  /** The alert text for a codec failure. */
  function WicMessage(e: WicError, ext: string): (r: string)
    ensures NUL !in ext && (e.SystemError? ==> NUL !in e.message) ==> NUL !in r
  {
    match e
    case ComponentNotFound => NotFoundMessage(ext)
    case ComponentInitFailure => InitFailureMessage(ext)
    case SystemError(m) => m
  }

  function NotFoundMessage(ext: string): (r: string)
    ensures NUL !in ext ==> NUL !in r
  {
    var head, tail := "Component not found: File type '", "' not supported.";
    assert NUL !in head && NUL !in tail;
    head + ext + tail
  }

  function InitFailureMessage(ext: string): (r: string)
    ensures NUL !in ext ==> NUL !in r
  {
    var head, tail := "Component initialization failed: Codec of '", "' is likely not installed.";
    assert NUL !in head && NUL !in tail;
    head + ext + tail
  }

  /** The Exif step of `load_image_wic_pre`: it runs before the commit and
      whatever the index. */
  function ExifRead(s: ViewerState, x: Exif): ViewerState {
    match x
    case NotRead => s
    case ParseFailed => s.(hasExif := false)
    case Parsed(tag) =>
      s.(hasExif := true, orientation := Rotation.ExifOrientation(tag, s.orientation),
         signals := s.signals.(updateOrientation := true))
  }

  /** `load_image_wic_pre`. */
  function WicStep(s: ViewerState, id: int, r: WicResult, ext: string): (next: ViewerState)
    requires Wf(s)
    requires NUL !in ext && (r.WicFailed? && r.error.SystemError? ==> NUL !in r.error.message)
    ensures Wf(next) && next.current == s.current && |next.files| == |s.files|
  {
    match r
    case WicFailed(e) => LoadFailed(WithLoading(s, id, false), WicMessage(e, ext))
    case WicDecoded(d, x) => Committed(WithLoading(ExifRead(s, x), id, false), id, d, 0)
  }

  /** `unload_anim_image`. */
  function Unloaded(a: Anim): Anim {
    a.(frames := 0, buffer := None)
  }

  /** The commit of an animation: size and animation fields are written
      first; a superseded load then unloads the animation but leaves the size. */
  function AnimShown(s: ViewerState, id: int, a: AnimDecoded): ViewerState {
    var s1 := s.(image := s.image.(w := a.w, h := a.h), anim := Anim(a.frames, Some(a.pixels), 0, s.settings.autoplay));
    if id != s.current then s1.(anim := Unloaded(s1.anim)) else s1.(signals := s1.signals.(initStep2 := true))
  }

  /** `load_webp_pre`. A file found to be animated is retagged WebpAnim. */
  function WebpStep(s: ViewerState, id: int, r: WebpResult): (next: ViewerState)
    requires Wf(s)
    ensures Wf(next) && next.current == s.current && |next.files| == |s.files|
  {
    match r
    case Unopened => s
    case Still(d) =>
      var s1 := WithLoading(s, id, false);
      if d.None? then LoadFailed(s1, LOAD_FAILED) else Committed(s1, id, d.value, 0)
    case Animation(a) => WebpAnimStep(s, id, a)
  }

  /** The animated branch of `load_webp_pre`: the row is retagged WebpAnim
      before the frames are shown. */
  function WebpAnimStep(s: ViewerState, id: int, a: Option<AnimDecoded>): (next: ViewerState)
    requires Wf(s)
    ensures Wf(next) && next.current == s.current && |next.files| == |s.files|
  {
    var s1 := s.(anim := Unloaded(s.anim), files := Retyped(s.files, id, WebpAnim));
    if a.None? then LoadFailed(s1, ANIM_FAILED) else AnimShown(s1, id, a.value)
  }

  /** `load_GIF_pre`. */
  function GifStep(s: ViewerState, id: int, r: Option<AnimDecoded>): (next: ViewerState)
    requires Wf(s)
    ensures Wf(next) && next.current == s.current && |next.files| == |s.files|
  {
    var s1 := WithLoading(s.(anim := Unloaded(s.anim)), id, false);
    if r.None? then LoadFailed(s1, GIF_FAILED) else AnimShown(s1, id, r.value)
  }

  /** `load_ppm_pre`: every early failure leaves the row marked loading, with
      no alert and no failure mark. */
  function PpmStep(s: ViewerState, id: int, file: Option<seq<byte>>): (r: ViewerState)
    requires Wf(s)
    ensures Wf(r) && r.current == s.current && |r.files| == |s.files|
  {
    var s1 := WithLoading(s, id, true);
    if file.None? then s1
    else match Ppm.ParsePpm(file.value)
      case None => s1
      case Some(img) => Committed(WithLoading(s1, id, false), id, Decoded(img.width, img.height, 4, img.rgba), 4)
  }

  /** The switch of `loader_thread` on the row's type; `ext` is the row's
      extension, which the codec loader's alerts quote. */
  function Dispatched(s: ViewerState, id: int, t: FileType, ext: string, dec: Decoders): (r: ViewerState)
    requires Wf(s) && PlainMessages(dec, ext)
    ensures Wf(r) && r.current == s.current && |r.files| == |s.files|
  {
    match t
    case StbImage => StbStep(s, id, dec.stb)
    case Gif => GifStep(s, id, dec.gif)
    case Webp => WebpStep(s, id, dec.webp)
    case Ppm => PpmStep(s, id, dec.ppm)
    case Misc => WicStep(s, id, dec.wic, ext)
    case Unknown => s
    case WebpAnim => s
  }

  /** What `loader_thread` does before the switch. */
  function LoadStarted(s: ViewerState): ViewerState {
    s.(alert := s.alert.(timer := 0), hasExif := false, orientation := 0)
  }

  /** `loader_thread` as written: a row tagged WebpAnim by an earlier load
      matches no case of the switch. */
  function LoaderStepAsWritten(s: ViewerState, id: int, dec: Decoders, stray: FileData): (r: ViewerState)
    requires Wf(s) && PlainMessages(dec, RowAt(s, id, stray).file.ext)
    ensures Wf(r) && r.current == s.current && |r.files| == |s.files|
  {
    var row := RowAt(s, id, stray);
    var s1 := LoadStarted(s);
    if row.loading then s1 else Dispatched(s1, id, row.fileType, row.file.ext, dec)
  }

  /** The type the switch of `loader_thread` dispatches on, with an animated
      WebP sent back to the WebP loader. */
  function LoaderType(t: FileType): FileType {
    if t == WebpAnim then Webp else t
  }

  /** `loader_thread` as evidently intended. */
  function LoaderStep(s: ViewerState, id: int, dec: Decoders, stray: FileData): (r: ViewerState)
    requires Wf(s) && PlainMessages(dec, RowAt(s, id, stray).file.ext)
    ensures Wf(r) && r.current == s.current && |r.files| == |s.files|
  {
    var row := RowAt(s, id, stray);
    var s1 := LoadStarted(s);
    if row.loading then s1 else Dispatched(s1, id, LoaderType(row.fileType), row.file.ext, dec)
  }

  /** The render step's handling of `init_step_2`: the width and height swap
      for an odd orientation when the Exif step asked for it, and the load is
      finished. */
  function InitStep(s: ViewerState): ViewerState {
    if !s.signals.initStep2 then s
    else
      var s1 := s.(signals := s.signals.(initStep2 := false, updateOrientation := false));
      var s2 := if s.signals.updateOrientation && s.orientation > 0 && s.orientation % 2 == 1
                then s1.(image := s1.image.(w := s1.image.h, h := s1.image.w))
                else s1;
      s2.(loaded := true, loadingDropped := false)
  }

  // ---------------------------------------------------------------------------
  // Scanning, sorting and shuffling.

  /** The Explorer listing the sort asks for: the shell objects could not be
      created, no window shows the file, or the window's items in order. */
  datatype ShellListing = NoShell | NoWindow | Listing(paths: seq<string>)

  /** What the file system and the shell answer during a scan. */
  datatype FolderInputs = FolderInputs(isDirectory: bool, cwd: string, relativeBase: bool,
                                       baseValid: bool, entries: seq<Entry>, listing: ShellListing)

  /** `folder_sort_thread`. Without the shell objects it returns early and
      leaves `sorting` set. */
  function SortStep(s: ViewerState, name: string, listing: ShellListing): (r: ViewerState)
    ensures r.alert == s.alert && r.requests == s.requests
  {
    match listing
    case NoShell => s.(sorting := true)
    case NoWindow => s.(sorting := false)
    case Listing(ps) =>
      var sorted := SortByIndex(Reindexed(s.files, ps));
      var last := LastIndexOf(Names(sorted), name);
      s.(files := Settled(sorted), current := if last.Some? then last.value else s.current, sorting := false)
  }

  /** The scan of a folder path that reaches the sort. `FullPath` is only
      built for a file path; for a folder it stays a null pointer, and the
      sort branch passes it to `wcslen`. */
  predicate ReadsMissingPath(s: ViewerState, path: Option<string>, fs: FolderInputs) {
    path.Some? && fs.isDirectory && fs.baseValid && FirstBlocker(fs.entries, "none").None?
    && !s.sorting && s.settings.sortEnabled
  }

  predicate PlainEntries(es: seq<Entry>) {
    forall k :: 0 <= k < |es| ==> NUL !in es[k].ext
  }

  /** Where the scan looks: the folder and the name to open. */
  function Location(path: string, fs: FolderInputs): Located {
    if fs.isDirectory then LocateFolder(path) else LocateFile(path, fs.cwd, fs.relativeBase)
  }

  /** The table and current index once the entries are collected into
      `s.files`. */
  function FolderListed(s: ViewerState, name: string, listing: ShellListing): (r: ViewerState)
    ensures r.alert == s.alert && r.requests == s.requests
  {
    var s2 := if !s.sorting && s.settings.sortEnabled then SortStep(s, name, listing) else s.(current := 0);
    match FirstIndexOf(Names(s2.files), name)
    case Some(i) => s2.(current := i)
    case None => s2
  }

  /** `scan_folder` as written: None where it dereferences the null full
      path of a folder, the scan below everywhere else. */
  function ScanStepAsWritten(s: ViewerState, path: Option<string>, fs: FolderInputs): (r: Option<(ViewerState, ScanResult)>)
    requires Wf(s) && PlainEntries(fs.entries)
    ensures r.Some? ==> r.value == ScanStep(s, path, fs)
  {
    if ReadsMissingPath(s, path, fs) then None else Some(ScanStep(s, path, fs))
  }

  /** `scan_folder`, with a folder sorted as a file is: the Explorer listing
      the sort reads is an input, whichever path it is matched against. */
  function ScanStep(s: ViewerState, path: Option<string>, fs: FolderInputs): (r: (ViewerState, ScanResult))
    requires Wf(s) && PlainEntries(fs.entries)
    ensures Wf(r.0) && r.0.requests == s.requests
  {
    if path.None? then (s.(files := []), ScanDir)
    else
      var loc := Location(path.value, fs);
      if !fs.baseValid then (s.(files := []), ScanDir)
      else EntriesScanned(s, loc.name, fs, if fs.isDirectory then ScanDir else ScanFile)
  }

  /** The scan once the folder is open: the entries before the first one
      that blocks are kept and that one is reported, or the whole table is
      listed and `found` returned. */
  function EntriesScanned(s: ViewerState, name: string, fs: FolderInputs, found: ScanResult): (r: (ViewerState, ScanResult))
    requires Wf(s) && PlainEntries(fs.entries)
    ensures Wf(r.0) && r.0.requests == s.requests
  {
    match FirstBlocker(fs.entries, name)
    case Some(k) => (AlertPushed(s.(files := Kept(fs.entries[..k])), CannotOpen(fs.entries[k].ext)), ScanFailed)
    case None => (FolderListed(s.(files := Kept(fs.entries)), name, fs.listing), found)
  }

  /** `shuffle_folder`, `rolls[k]` being what `rand()` returns at the step for
      position k. */
  function ShuffleStep(s: ViewerState, rolls: seq<nat>): ViewerState
    requires |s.files| <= |rolls|
  {
    var s1 := s.(files := Shuffled(s.files, rolls));
    if |s.files| > 1 then s1.(current := 0, signals := s1.signals.(reloadFile := true)) else s1
  }

  // ---------------------------------------------------------------------------
  // The state, in place.

  class Viewer {
    var files: seq<FileData>
    var current: int
    var loaded: bool
    var image: MainImage
    var hasExif: bool
    var orientation: int
    var anim: Anim
    var signals: Signals
    var sorting: bool
    var loadingDropped: bool
    var settings: Settings
    var requests: seq<Request>
    const alert: Alert
    const histo: Histogram.Histograms

    ghost predicate Valid()
      reads this, alert
    {
      alert.Valid() && histo.Valid()
    }

    function State(): ViewerState
      reads this, alert, alert.text
    {
      ViewerState(files, current, loaded, image, hasExif, orientation, anim,
                  signals, sorting, loadingDropped, settings, requests,
                  AlertState(alert.text[..], alert.timer, alert.kind, alert.forceLoopFrames))
    }

    constructor (autoplay: bool, sortEnabled: bool, histograms: bool)
      ensures Valid() && files == [] && current == 0 && !loaded && requests == []
      ensures settings == Settings(autoplay, sortEnabled) && histo.enabled == histograms
    {
      files := [];
      current := 0;
      loaded := false;
      image := MainImage(0, 0, 0, []);
      hasExif := false;
      orientation := 0;
      anim := Anim(0, None, 0, false);
      signals := Signals(false, false, false, false, false, false);
      sorting := false;
      loadingDropped := false;
      settings := Settings(autoplay, sortEnabled);
      requests := [];
      alert := new Alert();
      histo := new Histogram.Histograms(histograms);
    }

    method PushAlert(msg: string)
      requires Valid() && NUL !in msg
      modifies alert, alert.text
      ensures Valid() && State() == AlertPushed(old(State()), msg)
    {
      alert.Push(msg, Error);
    }

    method FailLoad(msg: string)
      requires Valid() && NUL !in msg
      modifies this, alert, alert.text
      ensures Valid() && State() == LoadFailed(old(State()), msg)
    {
      PushAlert(msg);
      if 0 <= current < |files| {
        files := files[current := files[current].(failed := true)];
      }
      loaded := true;
      image := image.(w := NO_FILE_W, h := NO_FILE_H);
      signals := signals.(updateTruescale := true);
    }

    method SetLoading(id: int, v: bool)
      modifies this
      ensures State() == WithLoading(old(State()), id, v)
    {
      if 0 <= id < |files| {
        files := files[id := files[id].(loading := v)];
      }
    }

    /** The commit block; with `histogram` the histogram of an installed image
        is computed, as the WebP and codec loaders do. */
    method Commit(id: int, d: Decoded, n: int, histogram: bool)
      requires Valid() && (histogram ==> |d.pixels| % 4 == 0)
      modifies this, alert, alert.text, histo, histo.red, histo.green, histo.blue, histo.total
      ensures Valid() && State() == Committed(old(State()), id, d, n)
      ensures histo.enabled == old(histo.enabled)
      ensures histogram && Installs(old(State()), id, d.w, d.h) && histo.enabled
              ==> histo.Computed(d.pixels, |d.pixels| / 4)
      ensures !(histogram && Installs(old(State()), id, d.w, d.h))
              ==> unchanged(histo, histo.red, histo.green, histo.blue, histo.total)
    {
      if MAX_GPU < d.w || MAX_GPU < d.h {
        PushAlert(TOO_LARGE);
      } else if id == current {
        Install(d, n, histogram);
      }
    }

    /** The image installed by the commit block, with its histogram when
        `histogram` is set. */
    method Install(d: Decoded, n: int, histogram: bool)
      requires Valid() && (histogram ==> |d.pixels| % 4 == 0)
      modifies this, histo, histo.red, histo.green, histo.blue, histo.total
      ensures Valid()
      ensures State() == old(State()).(image := MainImage(d.w, d.h, n, d.pixels), signals := old(signals).(initStep2 := true))
      ensures histo.enabled == old(histo.enabled)
      ensures histogram && histo.enabled ==> histo.Computed(d.pixels, |d.pixels| / 4)
      ensures !histogram ==> unchanged(histo, histo.red, histo.green, histo.blue, histo.total)
    {
      image := MainImage(d.w, d.h, n, d.pixels);
      if histogram {
        histo.Calculate(d.pixels);
      }
      signals := signals.(initStep2 := true);
    }

    method LoadImage(id: int, r: Option<Decoded>)
      requires Valid()
      modifies this, alert, alert.text, histo, histo.red, histo.green, histo.blue, histo.total
      ensures Valid() && State() == StbStep(old(State()), id, r)
    {
      SetLoading(id, false);
      if r.None? {
        FailLoad(LOAD_FAILED);
      } else {
        Commit(id, r.value, r.value.channels, false);
      }
    }

    method ReadExif(x: Exif)
      modifies this
      ensures State() == ExifRead(old(State()), x)
    {
      match x
      case NotRead =>
      case ParseFailed =>
        hasExif := false;
      case Parsed(tag) =>
        hasExif := true;
        orientation := Rotation.ExifOrientation(tag, orientation);
        signals := signals.(updateOrientation := true);
    }

    method LoadImageWic(id: int, r: WicResult, ext: string)
      requires Valid()
      requires NUL !in ext && (r.WicFailed? && r.error.SystemError? ==> NUL !in r.error.message)
      requires r.WicDecoded? ==> |r.image.pixels| % 4 == 0
      modifies this, alert, alert.text, histo, histo.red, histo.green, histo.blue, histo.total
      ensures Valid() && State() == WicStep(old(State()), id, r, ext)
      ensures r.WicDecoded? && Installs(old(State()), id, r.image.w, r.image.h) && histo.enabled
              ==> histo.Computed(r.image.pixels, |r.image.pixels| / 4)
    {
      match r
      case WicFailed(e) =>
        SetLoading(id, false);
        FailLoad(WicMessage(e, ext));
      case WicDecoded(d, x) =>
        ReadExif(x);
        SetLoading(id, false);
        Commit(id, d, 0, true);
    }

    /** The row's format tag is rewritten. */
    method Retag(id: int, t: FileType)
      modifies this
      ensures State() == old(State()).(files := Retyped(old(files), id, t))
    {
      if 0 <= id < |files| {
        files := files[id := files[id].(fileType := t)];
      }
    }

    method UnloadAnim()
      modifies this
      ensures State() == old(State()).(anim := Unloaded(old(anim)))
    {
      anim := Unloaded(anim);
    }

    method ShowAnim(id: int, a: AnimDecoded)
      modifies this
      ensures State() == AnimShown(old(State()), id, a)
    {
      image := image.(w := a.w, h := a.h);
      anim := Anim(a.frames, Some(a.pixels), 0, settings.autoplay);
      if id != current {
        UnloadAnim();
      } else {
        signals := signals.(initStep2 := true);
      }
    }

    method LoadWebp(id: int, r: WebpResult)
      requires Valid()
      requires r.Still? && r.still.Some? ==> |r.still.value.pixels| % 4 == 0
      modifies this, alert, alert.text, histo, histo.red, histo.green, histo.blue, histo.total
      ensures Valid() && State() == WebpStep(old(State()), id, r)
      ensures (r.Still? && r.still.Some? && Installs(old(State()), id, r.still.value.w, r.still.value.h)
               && histo.enabled) ==> histo.Computed(r.still.value.pixels, |r.still.value.pixels| / 4)
    {
      match r
      case Unopened =>
      case Still(d) =>
        SetLoading(id, false);
        if d.None? {
          FailLoad(LOAD_FAILED);
        } else {
          Commit(id, d.value, 0, true);
        }
      case Animation(a) =>
        LoadWebpAnim(id, a);
    }

    /** The animated branch of `load_webp_pre`. */
    method LoadWebpAnim(id: int, a: Option<AnimDecoded>)
      requires Valid()
      modifies this, alert, alert.text
      ensures Valid() && State() == WebpAnimStep(old(State()), id, a)
    {
      UnloadAnim();
      Retag(id, WebpAnim);
      if a.None? {
        FailLoad(ANIM_FAILED);
      } else {
        ShowAnim(id, a.value);
      }
    }

    method LoadGif(id: int, r: Option<AnimDecoded>)
      requires Valid()
      modifies this, alert, alert.text
      ensures Valid() && State() == GifStep(old(State()), id, r)
    {
      UnloadAnim();
      SetLoading(id, false);
      if r.None? {
        FailLoad(GIF_FAILED);
      } else {
        ShowAnim(id, r.value);
      }
    }

    method LoadPpm(id: int, file: Option<seq<byte>>)
      requires Valid()
      modifies this, alert, alert.text, histo, histo.red, histo.green, histo.blue, histo.total
      ensures Valid() && State() == PpmStep(old(State()), id, file)
    {
      SetLoading(id, true);
      if file.None? {
        return;
      }
      var img := Ppm.DecodePpm(file.value);
      if img.None? {
        return;
      }
      SetLoading(id, false);
      Commit(id, Decoded(img.value.width, img.value.height, 4, img.value.rgba), 4, false);
    }

    /** `loader_thread`, with the switch as evidently intended. */
    method LoaderThread(id: int, dec: Decoders, stray: FileData)
      requires Valid()
      requires PlainMessages(dec, (if 0 <= id < |files| then files[id] else stray).file.ext) && WholePixels(dec)
      modifies this, alert, alert.text, histo, histo.red, histo.green, histo.blue, histo.total
      ensures Valid() && State() == LoaderStep(old(State()), id, dec, stray)
    {
      var row := if 0 <= id < |files| then files[id] else stray;
      alert.Clear();
      hasExif := false;
      orientation := 0;
      if !row.loading {
        match LoaderType(row.fileType)
        case StbImage => LoadImage(id, dec.stb);
        case Gif => LoadGif(id, dec.gif);
        case Webp => LoadWebp(id, dec.webp);
        case Ppm => LoadPpm(id, dec.ppm);
        case Misc => LoadImageWic(id, dec.wic, row.file.ext);
        case Unknown =>
        case WebpAnim =>
      }
    }

    /** The `init_step_2` block of the render step. */
    method HandleInit()
      modifies this
      ensures State() == InitStep(old(State()))
    {
      if signals.initStep2 {
        if signals.updateOrientation && orientation > 0 && orientation % 2 == 1 {
          image := image.(w := image.h, h := image.w);
        }
        signals := signals.(initStep2 := false, updateOrientation := false);
        loaded := true;
        loadingDropped := false;
      }
    }

    /** `folder_sort_thread` with `sort_folder`. */
    method SortFolder(name: string, listing: ShellListing)
      modifies this
      ensures State() == SortStep(old(State()), name, listing)
    {
      sorting := true;
      match listing
      case NoShell =>
      case NoWindow =>
        sorting := false;
      case Listing(ps) =>
        var indexed := AssignIndices(files, ps);
        var settled, last := SettleRows(SortByIndex(indexed), name);
        files := settled;
        if last.Some? {
          current := last.value;
        }
        sorting := false;
    }

    /** `scan_folder`. */
    method ScanFolder(path: Option<string>, fs: FolderInputs) returns (result: ScanResult)
      requires Valid() && PlainEntries(fs.entries)
      modifies this, alert, alert.text
      ensures Valid() && (State(), result) == ScanStep(old(State()), path, fs)
    {
      if path.None? {
        files := [];
        return ScanDir;
      }
      var loc := Locate(path.value, fs);
      if !fs.baseValid {
        files := [];
        return ScanDir;
      }
      result := ScanEntries(loc.name, fs, if fs.isDirectory then ScanDir else ScanFile);
    }

    /** The entry loop of `scan_folder` and what follows it. */
    method ScanEntries(name: string, fs: FolderInputs, found: ScanResult) returns (result: ScanResult)
      requires Valid() && PlainEntries(fs.entries)
      modifies this, alert, alert.text
      ensures Valid() && (State(), result) == EntriesScanned(old(State()), name, fs, found)
    {
      var collected, blocker := Collect(fs.entries, name);
      files := collected;
      if blocker.Some? {
        PushAlert(CannotOpen(fs.entries[blocker.value].ext));
        return ScanFailed;
      }
      ListFolder(name, fs.listing);
      result := found;
    }

    /** The path handling at the head of `scan_folder`. */
    static method Locate(path: string, fs: FolderInputs) returns (loc: Located)
      ensures loc == Location(path, fs)
    {
      if fs.isDirectory {
        return LocateFolder(path);
      }
      var p := Without(path, STRIPPED);
      var n := FindSplit(p);
      var base, name := p[..n], p[n..];
      if base != [] && name == [] {
        loc := Located(fs.cwd + "\\", base);
      } else if fs.relativeBase {
        loc := Located(fs.cwd + "\\" + base, name);
      } else {
        loc := Located(base, name);
      }
    }

    /** The end of `scan_folder` after the entries are collected. */
    method ListFolder(name: string, listing: ShellListing)
      modifies this
      ensures State() == FolderListed(old(State()), name, listing)
    {
      if !sorting && settings.sortEnabled {
        SortFolder(name, listing);
      } else {
        current := 0;
      }
      var first := FirstMatch(files, name);
      if first.Some? {
        current := first.value;
      }
    }

    /** `shuffle_folder`. */
    method ShuffleFolder(rolls: seq<nat>)
      requires |files| <= |rolls|
      modifies this
      ensures State() == ShuffleStep(old(State()), rolls)
    {
      var n := |files|;
      files := Shuffle(files, rolls);
      if n > 1 {
        current := 0;
        signals := signals.(reloadFile := true);
      }
    }
  }
}
