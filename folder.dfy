/** The file table of a folder: what `scan_folder` collects from the
    directory of the opened file, the order `sort_folder` gives it from the
    Explorer window's listing, and the order `shuffle_folder` gives it from a
    stream of random numbers. The operations here work on values; the viewer
    state that holds the table is in module App. */
module Folder {
  import opened Wrappers
  import opened Extension
  import opened CStrings

  /** The character `scan_folder` strips from a file path: the two-character
      literal `'/"'` is the wide value 0x2F22. */
  const STRIPPED: char := '\U{2F22}'

  /** A directory entry as the directory walker reports it. */
  datatype Entry = Entry(path: string, name: string, ext: string, isDir: bool)

  /** One row of the file table. `index` is the position in the Explorer
      listing, -1 while unresolved. */
  datatype FileData = FileData(file: Entry, fileType: FileType, index: int,
                               loading: bool, failed: bool, thumbLoaded: bool)

  /** The row pushed for an entry: every `'/'` removed from its path, the type
      taken from its extension, everything else at its default. */
  function NewFile(e: Entry): FileData {
    FileData(e.(path := Without(e.path, '/')), Classify(e.ext), -1, false, false, false)
  }

  // ---------------------------------------------------------------------------
  // Splitting the opened path into folder and file name.

  predicate IsSep(c: char) {
    c == '/' || c == '\\'
  }

  /** The split point the backward search from index i finds: one past the
      first separator it meets, or the whole path when it reaches index 0. */
  function SplitFrom(p: string, i: nat): (n: nat)
    requires i < |p|
    ensures n <= |p|
    decreases i
  {
    if i == 0 then |p| else if IsSep(p[i]) then i + 1 else SplitFrom(p, i - 1)
  }

  /** The length of the folder part of a path. */
  function SplitPoint(p: string): (n: nat)
    ensures n <= |p|
  {
    if |p| == 0 then 0 else SplitFrom(p, |p| - 1)
  }

  /** The search loop of `scan_folder`. */
  method FindSplit(p: string) returns (newlen: nat)
    ensures newlen == SplitPoint(p)
  {
    newlen := |p|;
    if |p| == 0 {
      return;
    }
    var i: nat := |p| - 1;
    while i > 0
      invariant i < |p| && SplitFrom(p, i) == SplitPoint(p)
      decreases i
    {
      if IsSep(p[i]) {
        newlen := i + 1;
        return;
      }
      i := i - 1;
    }
  }

  lemma {:induction false} SplitFromCharacterised(p: string, i: nat)
    requires i < |p|
    ensures var n := SplitFrom(p, i);
            (n == |p| && forall k :: 1 <= k <= i ==> !IsSep(p[k]))
            || (2 <= n <= i + 1 && IsSep(p[n - 1]) && forall k :: n <= k <= i ==> !IsSep(p[k]))
    decreases i
  {
    if i > 0 && !IsSep(p[i]) {
      SplitFromCharacterised(p, i - 1);
    }
  }

  /** The folder part ends at the last separator at index 1 or later and the
      file name holds none; without such a separator the whole path is the
      folder part. */
  lemma SplitCharacterised(p: string)
    ensures var n := SplitPoint(p);
            (n == |p| && forall k :: 1 <= k < |p| ==> !IsSep(p[k]))
            || (2 <= n <= |p| && IsSep(p[n - 1]) && forall k :: n <= k < |p| ==> !IsSep(p[k]))
  {
    if |p| > 0 {
      SplitFromCharacterised(p, |p| - 1);
    }
  }

  /** The folder to list and the file name to look for. */
  datatype Located = Located(base: string, name: string)

  /** The folder and name `scan_folder` derives from the path of a file:
      `STRIPPED` removed, then split; a path with no folder part names a file
      in the working folder `cwd`; a folder part that exists and is relative
      is put under `cwd`. The folder part already ends in its separator, and
      the buffer `swprintf` writes into is one character short of the second
      separator the format asks for, so that one is cut off. `relativeBase`
      is the file system's answer for the folder part. */
  function LocateFile(path: string, cwd: string, relativeBase: bool): Located {
    var p := Without(path, STRIPPED);
    var n := SplitPoint(p);
    var base := p[..n];
    var name := p[n..];
    if base != [] && name == [] then Located(cwd + "\\", base)
    else if relativeBase then Located(cwd + "\\" + base, name)
    else Located(base, name)
  }

  /** The folder and name of a folder path: the folder with a separator added,
      and the name "none". */
  function LocateFolder(path: string): Located {
    Located(path + "\\", "none")
  }

  /** `name` is the last component of `p`: a suffix of it with no separator,
      unless it is the whole of `p`, which happens when `p` ends with a
      separator or has none after its first character. */
  predicate LastComponent(p: string, name: string) {
    |name| <= |p| && name == p[|p| - |name|..]
    && (name != p ==> forall k :: 0 <= k < |name| ==> !IsSep(name[k]))
    && (name == p && p != [] ==> IsSep(p[|p| - 1]) || forall k :: 1 <= k < |p| ==> !IsSep(p[k]))
  }

  /** The located name is the last component of the path. */
  lemma LocateFileName(path: string, cwd: string, relativeBase: bool)
    ensures LastComponent(Without(path, STRIPPED), LocateFile(path, cwd, relativeBase).name)
  {
    var p := Without(path, STRIPPED);
    var n := SplitPoint(p);
    if 0 < n == |p| {
      assert p[..n] == p && p[n..] == [];
    } else {
      assert |p[..n]| == n && |p[n..]| == |p| - n;
    }
    SplitName(p, LocateFile(path, cwd, relativeBase).name);
  }

  /** The name part of a path split at `SplitPoint`, the whole path when the
      name part is empty. */
  lemma SplitName(p: string, name: string)
    requires var n := SplitPoint(p); name == if 0 < n == |p| then p else p[n..]
    ensures LastComponent(p, name)
  {
    var n := SplitPoint(p);
    SplitCharacterised(p);
    if n < |p| {
      assert forall k :: 0 <= k < |p[n..]| ==> p[n..][k] == p[n + k];
    }
  }

  /** The folder and the name put together give back the path, `STRIPPED`
      removed, unless the path had no folder part and names a file in the
      working folder. */
  lemma LocateFileJoin(path: string, cwd: string)
    ensures var l := LocateFile(path, cwd, false);
            var p := Without(path, STRIPPED);
            l.base + l.name == p || (l.base == cwd + "\\" && l.name == p)
  {
    var p := Without(path, STRIPPED);
    var n := SplitPoint(p);
    assert p[..n] + p[n..] == p;
  }

  // ---------------------------------------------------------------------------
  // Collecting the entries of the folder.

  /** An entry that gets a row: a file of a known type. */
  predicate Listed(e: Entry) {
    !e.isDir && Classify(e.ext) != Unknown
  }

  /** An entry that stops the scan: the file to open, of an unknown type. */
  predicate Blocks(e: Entry, fileName: string) {
    !e.isDir && Classify(e.ext) == Unknown && e.name == fileName
  }

  /** The rows for the entries, in order. */
  function Kept(es: seq<Entry>): (r: seq<FileData>)
    ensures |r| <= |es|
  {
    if es == [] then []
    else Kept(es[..|es| - 1]) + (if Listed(es[|es| - 1]) then [NewFile(es[|es| - 1])] else [])
  }

  /** The position of the first entry that stops the scan. */
  function FirstBlocker(es: seq<Entry>, fileName: string): (r: Option<nat>)
    ensures r.Some? ==> r.value < |es| && Blocks(es[r.value], fileName)
                        && forall j :: 0 <= j < r.value ==> !Blocks(es[j], fileName)
    ensures r.None? ==> forall j :: 0 <= j < |es| ==> !Blocks(es[j], fileName)
  {
    if es == [] then None
    else if Blocks(es[0], fileName) then Some(0)
    else match FirstBlocker(es[1..], fileName)
      case None => None
      case Some(k) => Some(k + 1)
  }

  /** The table a scan builds: the rows of the entries before the first
      blocking one, or of all entries when none blocks. */
  function Collected(es: seq<Entry>, fileName: string): seq<FileData> {
    match FirstBlocker(es, fileName)
    case None => Kept(es)
    case Some(k) => Kept(es[..k])
  }

  /** The entry loop of `scan_folder`: folders and files of unknown type are
      skipped, except that the file to open stops the loop when its type is
      unknown; the rows pushed before it stay. */
  method Collect(entries: seq<Entry>, fileName: string) returns (files: seq<FileData>, blocker: Option<nat>)
    ensures blocker == FirstBlocker(entries, fileName)
    ensures files == Collected(entries, fileName)
  {
    var k, stop;
    files, k, stop := CollectUntil(entries, fileName);
    if stop {
      FirstBlockerAt(entries, fileName, k);
      blocker := Some(k);
    } else {
      FirstBlockerNone(entries, fileName);
      blocker := None;
    }
  }

  /** The loop itself: it runs over the entries until one blocks. */
  method CollectUntil(entries: seq<Entry>, fileName: string) returns (files: seq<FileData>, k: nat, stop: bool)
    ensures k <= |entries| && files == Kept(entries[..k])
    ensures forall j :: 0 <= j < k ==> !Blocks(entries[j], fileName)
    ensures stop ==> k < |entries| && Blocks(entries[k], fileName)
    ensures !stop ==> k == |entries|
  {
    files, k, stop := [], 0, false;
    while k < |entries|
      invariant k <= |entries|
      invariant files == Kept(entries[..k])
      invariant forall j :: 0 <= j < k ==> !Blocks(entries[j], fileName)
    {
      KeptSnoc(entries, k);
      var next, blocks := CollectOne(files, entries[k], fileName);
      if blocks {
        stop := true;
        return;
      }
      files := next;
      k := k + 1;
    }
  }

  /** One turn of the entry loop. */
  method CollectOne(files: seq<FileData>, e: Entry, fileName: string) returns (next: seq<FileData>, stop: bool)
    ensures stop == Blocks(e, fileName)
    ensures next == files + (if Listed(e) then [NewFile(e)] else [])
  {
    next, stop := files, false;
    if !e.isDir {
      var t := CheckValidExtension(e.ext);
      if t == Unknown {
        stop := e.name == fileName;
      } else {
        next := files + [NewFile(e)];
      }
    }
  }

  lemma KeptSnoc(es: seq<Entry>, i: nat)
    requires i < |es|
    ensures Kept(es[..i + 1]) == Kept(es[..i]) + (if Listed(es[i]) then [NewFile(es[i])] else [])
  {
    assert es[..i + 1][..i] == es[..i];
  }

  lemma FirstBlockerAt(es: seq<Entry>, fileName: string, k: nat)
    requires k < |es| && Blocks(es[k], fileName)
    requires forall j :: 0 <= j < k ==> !Blocks(es[j], fileName)
    ensures FirstBlocker(es, fileName) == Some(k) && Collected(es, fileName) == Kept(es[..k])
  {
    var r := FirstBlocker(es, fileName);
    assert r.Some?;
  }

  lemma FirstBlockerNone(es: seq<Entry>, fileName: string)
    requires forall j :: 0 <= j < |es| ==> !Blocks(es[j], fileName)
    ensures FirstBlocker(es, fileName) == None && Collected(es, fileName) == Kept(es[..|es|])
  {
    assert es[..|es|] == es;
  }

  /** A row is in the table exactly when it is the row of a listed entry. */
  lemma KeptMembers(es: seq<Entry>, f: FileData)
    ensures f in Kept(es) <==> exists k :: 0 <= k < |es| && Listed(es[k]) && f == NewFile(es[k])
  {
    if f in Kept(es) {
      var i :| 0 <= i < |Kept(es)| && Kept(es)[i] == f;
      var k := KeptSource(es, i);
    }
    if exists k :: 0 <= k < |es| && Listed(es[k]) && f == NewFile(es[k]) {
      var k :| 0 <= k < |es| && Listed(es[k]) && f == NewFile(es[k]);
      var i := KeptHas(es, k);
    }
  }

  /** The entry the row at position `i` of the table comes from. */
  lemma {:induction false} KeptSource(es: seq<Entry>, i: nat) returns (k: nat)
    requires i < |Kept(es)|
    ensures k < |es| && Listed(es[k]) && Kept(es)[i] == NewFile(es[k])
    decreases |es|
  {
    var init := es[..|es| - 1];
    var last := es[|es| - 1];
    var rows := Kept(init);
    var tail := if Listed(last) then [NewFile(last)] else [];
    assert Kept(es) == rows + tail;
    if i < |rows| {
      k := KeptSource(init, i);
      assert es[k] == init[k];
      assert Kept(es)[i] == rows[i];
    } else {
      k := |es| - 1;
      assert Kept(es)[i] == tail[0];
    }
  }

  /** The position in the table of the row of a listed entry. */
  lemma {:induction false} KeptHas(es: seq<Entry>, k: nat) returns (i: nat)
    requires k < |es| && Listed(es[k])
    ensures i < |Kept(es)| && Kept(es)[i] == NewFile(es[k])
    decreases |es|
  {
    var init := es[..|es| - 1];
    var last := es[|es| - 1];
    var rows := Kept(init);
    var tail := if Listed(last) then [NewFile(last)] else [];
    assert Kept(es) == rows + tail;
    if k < |init| {
      assert init[k] == es[k];
      i := KeptHas(init, k);
      assert Kept(es)[i] == rows[i];
    } else {
      i := |rows|;
      assert Kept(es)[i] == tail[0];
    }
  }

  /** Every row of the table has a known type and no `'/'` in its path. */
  lemma KeptRows(es: seq<Entry>, f: FileData)
    requires f in Kept(es)
    ensures f.fileType != Unknown && '/' !in f.file.path && f.index == -1
  {
    KeptMembers(es, f);
    var k :| 0 <= k < |es| && Listed(es[k]) && f == NewFile(es[k]);
    WithoutDrops(es[k].path, '/');
  }

  lemma {:induction false} WithoutDrops(s: string, ch: char)
    ensures ch !in Without(s, ch)
    decreases |s|
  {
    if s != [] {
      WithoutDrops(s[..|s| - 1], ch);
    }
  }

  // ---------------------------------------------------------------------------
  // Looking up names.

  /** The first position of x in l. */
  function FirstIndexOf(l: seq<string>, x: string): (r: Option<nat>)
    ensures r.Some? ==> r.value < |l| && l[r.value] == x && x !in l[..r.value]
    ensures r.None? ==> x !in l
  {
    if l == [] then None
    else if l[0] == x then Some(0)
    else match FirstIndexOf(l[1..], x)
      case None => None
      case Some(i) => assert l[..i + 1] == [l[0]] + l[1..][..i]; Some(i + 1)
  }

  /** The last position of x in l. */
  function LastIndexOf(l: seq<string>, x: string): (r: Option<nat>)
    ensures r.Some? ==> r.value < |l| && l[r.value] == x && x !in l[r.value + 1..]
    ensures r.None? ==> x !in l
  {
    if l == [] then None
    else if l[|l| - 1] == x then Some(|l| - 1)
    else match LastIndexOf(l[..|l| - 1], x)
      case None => None
      case Some(i) => assert l[i + 1..] == l[..|l| - 1][i + 1..] + [l[|l| - 1]]; Some(i)
  }

  /** The names of the rows. */
  function Names(files: seq<FileData>): (r: seq<string>)
    ensures |r| == |files| && forall i :: 0 <= i < |files| ==> r[i] == files[i].file.name
  {
    seq(|files|, i requires 0 <= i < |files| => files[i].file.name)
  }

  /** Two first occurrences are the same occurrence. */
  lemma FirstIndexUnique(l: seq<string>, x: string, i: nat)
    requires i < |l| && l[i] == x && x !in l[..i]
    ensures FirstIndexOf(l, x) == Some(i)
  {
    var r := FirstIndexOf(l, x);
  }

  /** The inner search of `sort_folder`. */
  method FindIndex(l: seq<string>, x: string) returns (r: Option<nat>)
    ensures r == FirstIndexOf(l, x)
  {
    var j := 0;
    while j < |l|
      invariant j <= |l| && x !in l[..j]
    {
      if l[j] == x {
        FirstIndexUnique(l, x, j);
        return Some(j);
      }
      assert l[..j + 1] == l[..j] + [l[j]];
      j := j + 1;
    }
    assert l[..j] == l;
    r := None;
  }

  /** The search after the scan: the first row with the name. */
  method FirstMatch(files: seq<FileData>, name: string) returns (r: Option<nat>)
    ensures r == FirstIndexOf(Names(files), name)
  {
    var names := Names(files);
    var i := 0;
    while i < |files|
      invariant i <= |files| && name !in names[..i]
    {
      if files[i].file.name == name {
        FirstIndexUnique(names, name, i);
        return Some(i);
      }
      assert names[..i + 1] == names[..i] + [names[i]];
      i := i + 1;
    }
    assert names[..i] == names;
    r := None;
  }

  // ---------------------------------------------------------------------------
  // Sorting by the Explorer listing.

  /** A row with its index set from the listing; a path the listing does not
      hold keeps its old index. */
  function Reindex(f: FileData, listing: seq<string>): FileData {
    match FirstIndexOf(listing, f.file.path)
    case Some(j) => f.(index := j)
    case None => f
  }

  function Reindexed(files: seq<FileData>, listing: seq<string>): (r: seq<FileData>)
    ensures |r| == |files| && forall i :: 0 <= i < |files| ==> r[i] == Reindex(files[i], listing)
  {
    seq(|files|, i requires 0 <= i < |files| => Reindex(files[i], listing))
  }

  /** The index loop of `sort_folder`. */
  method AssignIndices(files: seq<FileData>, listing: seq<string>) returns (r: seq<FileData>)
    ensures r == Reindexed(files, listing)
  {
    r := files;
    var i := 0;
    while i < |r|
      invariant i <= |r| == |files|
      invariant forall k :: 0 <= k < i ==> r[k] == Reindex(files[k], listing)
      invariant forall k :: i <= k < |r| ==> r[k] == files[k]
    {
      var found := FindIndex(listing, r[i].file.path);
      if found.Some? {
        r := r[i := r[i].(index := found.value)];
      }
      i := i + 1;
    }
  }

  /** Only rows whose path the listing holds change, and only in their index;
      their index is then the listing position of their path. */
  lemma ReindexedSpec(files: seq<FileData>, listing: seq<string>, i: nat)
    requires i < |files|
    ensures var f := Reindexed(files, listing)[i];
            f.(index := files[i].index) == files[i]
            && (files[i].file.path in listing ==> 0 <= f.index < |listing| && listing[f.index] == f.file.path)
            && (files[i].file.path !in listing ==> f == files[i])
  {
  }

  predicate SortedByIndex(s: seq<FileData>) {
    forall i, j :: 0 <= i < j < |s| ==> s[i].index <= s[j].index
  }

  function Insert(f: FileData, s: seq<FileData>): seq<FileData> {
    if s == [] then [f]
    else if f.index <= s[0].index then [f] + s
    else [s[0]] + Insert(f, s[1..])
  }

  /** The `qsort` by index. The library sort is not stable; this definition
      fixes one order of rows with equal index. */
  function SortByIndex(s: seq<FileData>): seq<FileData> {
    if s == [] then [] else Insert(s[0], SortByIndex(s[1..]))
  }

  lemma {:induction false} InsertPermutes(f: FileData, s: seq<FileData>)
    ensures multiset(Insert(f, s)) == multiset(s) + multiset{f}
    decreases |s|
  {
    if s != [] && f.index > s[0].index {
      InsertPermutes(f, s[1..]);
      assert s == [s[0]] + s[1..];
    }
  }

  lemma {:induction false} InsertSorted(f: FileData, s: seq<FileData>)
    requires SortedByIndex(s)
    ensures SortedByIndex(Insert(f, s))
    ensures |Insert(f, s)| == |s| + 1
    ensures Insert(f, s)[0] == f || Insert(f, s)[0] == s[0]
    decreases |s|
  {
    if s != [] && f.index > s[0].index {
      InsertSorted(f, s[1..]);
    }
  }

  /** The sort gives the rows ordered by index, and the same rows. */
  lemma {:induction false} SortByIndexSpec(s: seq<FileData>)
    ensures SortedByIndex(SortByIndex(s)) && multiset(SortByIndex(s)) == multiset(s)
    decreases |s|
  {
    if s != [] {
      SortByIndexSpec(s[1..]);
      InsertPermutes(s[0], SortByIndex(s[1..]));
      InsertSorted(s[0], SortByIndex(s[1..]));
      assert s == [s[0]] + s[1..];
    }
  }

  /** In a table whose indices were all unresolved, a row of the reindexed
      table has a resolved index exactly when the listing holds its path. */
  lemma ResolvedRows(files: seq<FileData>, listing: seq<string>, f: FileData)
    requires forall k :: 0 <= k < |files| ==> files[k].index == -1
    requires f in multiset(Reindexed(files, listing))
    ensures f.index >= 0 <==> f.file.path in listing
    ensures f.index >= 0 ==> f.index < |listing| && listing[f.index] == f.file.path
  {
    var r := Reindexed(files, listing);
    var a :| 0 <= a < |r| && r[a] == f;
  }

  /** A table sorted by index the listing resolved has the listed rows in the
      order of the listing, after the rows the listing does not hold. */
  lemma SortedFollowsListing(files: seq<FileData>, listing: seq<string>, i: nat, j: nat)
    requires forall k :: 0 <= k < |files| ==> files[k].index == -1
    requires i < j < |SortByIndex(Reindexed(files, listing))|
    ensures var s := SortByIndex(Reindexed(files, listing));
            (s[j].file.path !in listing ==> s[i].file.path !in listing)
            && (s[i].file.path in listing && s[j].file.path in listing ==>
                  s[i].index <= s[j].index
                  && 0 <= s[i].index < |listing| && listing[s[i].index] == s[i].file.path
                  && 0 <= s[j].index < |listing| && listing[s[j].index] == s[j].file.path)
  {
    var r := Reindexed(files, listing);
    var s := SortByIndex(r);
    SortByIndexSpec(r);
    assert s[i] in multiset(s) && s[j] in multiset(s);
    ResolvedRows(files, listing, s[i]);
    ResolvedRows(files, listing, s[j]);
  }

  /** The rows with their transient flags cleared, as `folder_sort_thread`
      leaves them. */
  function Settled(files: seq<FileData>): (r: seq<FileData>)
    ensures |r| == |files|
  {
    seq(|files|, i requires 0 <= i < |files| => files[i].(loading := false, failed := false))
  }

  /** Clearing the marks keeps the names and the order of the rows. */
  lemma SettledKeeps(files: seq<FileData>)
    ensures var r := Settled(files);
      && Names(r) == Names(files)
      && (SortedByIndex(files) ==> SortedByIndex(r))
      && forall k :: 0 <= k < |r| ==> !r[k].loading && !r[k].failed
  {
    assert Names(Settled(files)) == Names(files);
  }

  /** The loop after the sort: the flags of every row cleared, and the last
      row with the name remembered. */
  method SettleRows(files: seq<FileData>, name: string) returns (r: seq<FileData>, last: Option<nat>)
    ensures r == Settled(files) && last == LastIndexOf(Names(files), name)
  {
    r := files;
    last := None;
    var names := Names(files);
    var i := 0;
    while i < |files|
      invariant i <= |files| == |r|
      invariant forall k :: 0 <= k < i ==> r[k] == files[k].(loading := false, failed := false)
      invariant forall k :: i <= k < |r| ==> r[k] == files[k]
      invariant last == LastIndexOf(names[..i], name)
    {
      if files[i].file.name == name {
        last := Some(i);
      }
      assert names[..i + 1][..i] == names[..i];
      r := r[i := r[i].(loading := false, failed := false)];
      i := i + 1;
    }
    assert names[..i] == names;
  }

  // ---------------------------------------------------------------------------
  // Shuffling.

  function Swap<T>(s: seq<T>, i: nat, j: nat): (r: seq<T>)
    requires i < |s| && j < |s|
    ensures |r| == |s|
  {
    s[i := s[j]][j := s[i]]
  }

  /** The steps i, i - 1, ..., 1 of the Fisher-Yates shuffle, the step for
      position k swapping it with `rolls[k] % (k + 1)`. */
  function ShuffleFrom<T>(s: seq<T>, rolls: seq<nat>, i: nat): seq<T>
    requires i < |s| <= |rolls|
    decreases i
  {
    if i == 0 then s else ShuffleFrom(Swap(s, i, rolls[i] % (i + 1)), rolls, i - 1)
  }

  /** The table after `shuffle_folder`, `rolls[k]` being the value `rand()`
      returns at the step for position k. */
  function Shuffled<T>(s: seq<T>, rolls: seq<nat>): seq<T>
    requires |s| <= |rolls|
  {
    if s == [] then s else ShuffleFrom(s, rolls, |s| - 1)
  }

  /** The loop of `shuffle_folder`. */
  method Shuffle<T>(s: seq<T>, rolls: seq<nat>) returns (r: seq<T>)
    requires |s| <= |rolls|
    ensures r == Shuffled(s, rolls)
  {
    r := s;
    if |s| == 0 {
      return;
    }
    var i: nat := |s| - 1;
    while i > 0
      invariant i < |r| == |s| && ShuffleFrom(r, rolls, i) == Shuffled(s, rolls)
      decreases i
    {
      var j := rolls[i] % (i + 1);
      r := Swap(r, i, j);
      i := i - 1;
    }
  }

  lemma SwapPermutes<T>(s: seq<T>, i: nat, j: nat)
    requires i < |s| && j < |s|
    ensures multiset(Swap(s, i, j)) == multiset(s)
  {
  }

  /** The shuffle keeps the rows, and only reorders them. */
  lemma {:induction false} ShuffleFromPermutes<T>(s: seq<T>, rolls: seq<nat>, i: nat)
    requires i < |s| <= |rolls|
    ensures |ShuffleFrom(s, rolls, i)| == |s| && multiset(ShuffleFrom(s, rolls, i)) == multiset(s)
    decreases i
  {
    if i > 0 {
      var t := Swap(s, i, rolls[i] % (i + 1));
      SwapPermutes(s, i, rolls[i] % (i + 1));
      ShuffleFromPermutes(t, rolls, i - 1);
    }
  }

  lemma ShuffledPermutes<T>(s: seq<T>, rolls: seq<nat>)
    requires |s| <= |rolls|
    ensures |Shuffled(s, rolls)| == |s| && multiset(Shuffled(s, rolls)) == multiset(s)
  {
    if s != [] {
      ShuffleFromPermutes(s, rolls, |s| - 1);
    }
  }
}
