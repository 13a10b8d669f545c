/** Classification of a file by its extension into the decoder that will load
    it (`check_valid_extention`). */
module Extension {

  /** The format tag kept with every file of the directory table. StbImage is
      still handled by the loader but no extension maps to it any more, and
      WebpAnim is only ever written by the WebP loader when it finds an
      animation. */
  datatype FileType = Unknown | StbImage | Gif | Webp | WebpAnim | Ppm | Misc

  /** `tolower` of the C locale: only 'A'..'Z' change. */
  function Lower(c: char): char {
    if 'A' <= c <= 'Z' then (c as int + 32) as char else c
  }

  /** The copy the classifier compares: its first character is forced to '.',
      every later one is lowered. An empty extension gives just "." (the source
      then compares a buffer whose second character it never wrote). */
  function Lowered(ext: string): (l: string)
    ensures |l| == if |ext| == 0 then 1 else |ext|
  {
    if |ext| == 0 then "." else ['.'] + seq(|ext| - 1, i requires 0 <= i < |ext| - 1 => Lower(ext[i + 1]))
  }

  /** The lowered copy character by character. */
  lemma LoweredAt(ext: string)
    ensures var l := Lowered(ext);
            l[0] == '.' && forall i :: 1 <= i < |l| ==> l[i] == Lower(ext[i])
  {
  }

  /** The extensions handed to the platform codecs, in the order the source
      tests them. ".gif" and ".webp" appear here too, but earlier tests win. */
  predicate IsCodecExtension(l: string) {
    l == ".3fr" || l == ".ari" || l == ".arw" || l == ".avci" || l == ".avcs"
    || l == ".avif" || l == ".avifs" || l == ".bay" || l == ".bmp" || l == ".cap"
    || l == ".cr2" || l == ".cr3" || l == ".crw" || l == ".cur" || l == ".dcr"
    || l == ".dcs" || l == ".dds" || l == ".dib" || l == ".dng" || l == ".drf"
    || l == ".eip" || l == ".erf" || l == ".exif" || l == ".fff" || l == ".gif"
    || l == ".heic" || l == ".heics" || l == ".heif" || l == ".heifs"
    || l == ".hif" || l == ".ico" || l == ".icon" || l == ".iiq" || l == ".jfif"
    || l == ".jpe" || l == ".jpeg" || l == ".jpg" || l == ".jxr" || l == ".k25"
    || l == ".kdc" || l == ".mef" || l == ".mos" || l == ".mrw" || l == ".nef"
    || l == ".nrw" || l == ".orf" || l == ".ori" || l == ".pef" || l == ".png"
    || l == ".ptx" || l == ".pxn" || l == ".raf" || l == ".raw" || l == ".rle"
    || l == ".rw2" || l == ".rwl" || l == ".sr2" || l == ".srf" || l == ".srw"
    || l == ".tif" || l == ".tiff" || l == ".wdp" || l == ".webp" || l == ".x3f"
  }

  /** The if-chain over the lowered copy: the first test that matches decides. */
  function ClassifyLowered(l: string): FileType {
    if l == ".gif" then Gif
    else if l == ".webp" then Webp
    else if l == ".ppm" then Ppm
    else if IsCodecExtension(l) then Misc
    else Unknown
  }

  /** The format tag of a file with extension `ext`. */
  function Classify(ext: string): FileType {
    ClassifyLowered(Lowered(ext))
  }

  /** `check_valid_extention`: builds the lowered copy character by character,
      then runs the chain of comparisons over it. */
  method CheckValidExtension(ext: string) returns (t: FileType)
    ensures t == Classify(ext)
  {
    var n := if |ext| == 0 then 1 else |ext|;
    var low := new char[n];
    low[0] := '.';
    var i := 1;
    while i < |ext|
      invariant 1 <= i <= n
      invariant low[0] == '.'
      invariant forall k :: 1 <= k < i ==> low[k] == Lower(ext[k])
    {
      low[i] := Lower(ext[i]);
      i := i + 1;
    }
    LoweredAt(ext);
    assert low[..] == Lowered(ext);
    t := ClassifyLowered(low[..]);
  }

  // ---------------------------------------------------------------------------
  // Properties of the classification.

  /** Only the first character's position matters, never its value, and case is
      ignored in the rest: two extensions that agree after lowering from the
      second character on get the same tag. */
  lemma ClassifyCaseInsensitive(a: string, b: string)
    requires |a| == |b|
    requires forall i :: 1 <= i < |a| ==> Lower(a[i]) == Lower(b[i])
    ensures Classify(a) == Classify(b)
  {
    LoweredAt(a);
    LoweredAt(b);
    assert Lowered(a) == Lowered(b);
  }

  /** The tags the classifier can produce, and when: GIF, WebP and PPM for
      exactly their own extension (earlier tests win over the later duplicates
      in the codec list), the codec tag for every other listed extension, and
      Unknown for everything else. It never produces StbImage or WebpAnim. */
  lemma ClassifyCharacterised(ext: string)
    ensures Classify(ext) == Gif <==> Lowered(ext) == ".gif"
    ensures Classify(ext) == Webp <==> Lowered(ext) == ".webp"
    ensures Classify(ext) == Ppm <==> Lowered(ext) == ".ppm"
    ensures Classify(ext) == Misc <==>
              IsCodecExtension(Lowered(ext)) && Lowered(ext) !in {".gif", ".webp", ".ppm"}
    ensures Classify(ext) == Unknown <==>
              !IsCodecExtension(Lowered(ext)) && Lowered(ext) !in {".gif", ".webp", ".ppm"}
    ensures Classify(ext) != StbImage && Classify(ext) != WebpAnim
  {
  }

  /** Examples: upper case and an arbitrary first character are accepted. */
  lemma ClassifyAcceptedExamples()
    ensures Classify(".GIF") == Gif
    ensures Classify("*WebP") == Webp
    ensures Classify(".JPG") == Misc
  {
    LoweredLiteral(".GIF", ".gif");
    LoweredLiteral("*WebP", ".webp");
    LoweredLiteral(".JPG", ".jpg");
  }

  /** Examples: an unlisted extension is Unknown ... */
  lemma ClassifyRejectedExample()
    ensures Classify(".xyz") == Unknown
  {
    LoweredLiteral(".xyz", ".xyz");
    var l := Lowered(".xyz");
    assert l[1] == 'x' && l[2] == 'y';
  }

  /** ... and so is an empty one. */
  lemma ClassifyEmptyExample()
    ensures Classify("") == Unknown
  {
  }

  lemma LoweredLiteral(ext: string, l: string)
    requires |ext| == |l| > 0 && l[0] == '.'
    requires forall i :: 1 <= i < |l| ==> l[i] == Lower(ext[i])
    ensures Lowered(ext) == l
  {
    LoweredAt(ext);
  }
}
