/** The binary PPM ("P6") reader of the viewer (`load_ppm_pre`) and the matching
    writer (`save_PPM`).

    The reader checks the "P6\n" magic, skips at most one comment line, reads
    width, height and a maximum value that must be 255 with `fscanf`, skips one
    byte, fills a buffer of width*height*4 bytes (an unsigned 32-bit product)
    with 0xFF and then copies the pixel data in blocks of 63 bytes, turning every
    RGB triple into RGBA with alpha 0xFF. */
module Ppm {
  import opened Wrappers
  import opened Bytes

  /** 2^32: `width * height * 4` is computed in `unsigned int`. */
  const WRAP: nat := 0x1_0000_0000
  /** The bytes `fread` hands over per call. */
  const BLOCK: nat := 63
  /** The magic line "P6\n". */
  const MAGIC: seq<byte> := [0x50, 0x36, 0x0A]
  const NEWLINE: byte := 0x0A
  const HASH: byte := 0x23
  const SPACE: byte := 0x20
  const PLUS: byte := 0x2B
  const MINUS: byte := 0x2D
  const OPAQUE: byte := 0xFF

  /** A decoded image: its size and its RGBA bytes. */
  datatype Image = Image(width: nat, height: nat, rgba: seq<byte>)

  /** The header fields and the offset at which pixel data starts. */
  datatype Header = Header(width: nat, height: nat, dataStart: nat)

  /** A number read by `%u` (an `unsigned int`) and the offset just after its
      last digit. */
  datatype Number = Number(value: nat, end: nat)

  // ---------------------------------------------------------------------------
  // The `fscanf` conversions.

  /** `isspace` of the C locale. */
  predicate IsSpace(c: byte) {
    c == SPACE || 0x09 <= c <= 0x0D
  }

  predicate IsDigit(c: byte) {
    0x30 <= c <= 0x39
  }

  /** The value of a digit (the conversions below only apply it to digits). */
  function DigitValue(c: byte): nat {
    if IsDigit(c) then (c - 0x30) as nat else 0
  }

  /** The first offset from p on that is not white space (or the end). */
  function SkipSpace(s: seq<byte>, p: nat): (q: nat)
    requires p <= |s|
    ensures p <= q <= |s| && (q < |s| ==> !IsSpace(s[q]))
    decreases |s| - p
  {
    if p < |s| && IsSpace(s[p]) then SkipSpace(s, p + 1) else p
  }

  /** The end of the run of decimal digits starting at p. */
  function DigitsEnd(s: seq<byte>, p: nat): (e: nat)
    requires p <= |s|
    ensures p <= e <= |s| && (e < |s| ==> !IsDigit(s[e]))
    decreases |s| - p
  {
    if p < |s| && IsDigit(s[p]) then DigitsEnd(s, p + 1) else p
  }

  /** The first newline from p on (or the end): where `%*[^\n]` stops. */
  function LineEnd(s: seq<byte>, p: nat): (q: nat)
    requires p <= |s|
    ensures p <= q <= |s| && (q < |s| ==> s[q] == NEWLINE)
    decreases |s| - p
  {
    if p < |s| && s[p] != NEWLINE then LineEnd(s, p + 1) else p
  }

  /** The value of a run of decimal digits, most significant first. */
  function DecimalValue(ds: seq<byte>): nat {
    if ds == [] then 0 else DecimalValue(ds[..|ds| - 1]) * 10 + DigitValue(ds[|ds| - 1])
  }

  /** `%u`: white space is skipped, then an optional sign, then at least one
      digit must follow. A minus sign negates the value modulo 2^32, as
      `strtoul` does for an `unsigned int`. A value of 2^32 or more does not
      fit and is undefined in C; the model reduces it modulo 2^32. */
  function ScanUInt(s: seq<byte>, p: nat): (r: Option<Number>)
    requires p <= |s|
    ensures r.Some? ==> p < r.value.end <= |s| && r.value.value < WRAP
  {
    var q := SkipSpace(s, p);
    var signed := q < |s| && (s[q] == PLUS || s[q] == MINUS);
    var d := if signed then q + 1 else q;
    var e := DigitsEnd(s, d);
    if e == d then None
    else
      var v := DecimalValue(s[d..e]) % WRAP;
      Some(Number(if signed && s[q] == MINUS then (WRAP - v) % WRAP else v, e))
  }

  /** Where the width is read from: after the magic, `fgetc` reads one byte; a
      '#' makes `%*[^\n]` consume the rest of that line and the next `fgetc`
      read its newline, which is never '#', so at most one comment line is
      skipped. `fseek(f, -1, SEEK_CUR)` then steps back over the last byte
      `fgetc` consumed, or back from the end when `fgetc` hit the end. */
  function HeaderStart(s: seq<byte>): (p: nat)
    requires |s| >= 3
    ensures 2 <= p < |s|
  {
    if |s| > 3 && s[3] == HASH then
      var q := LineEnd(s, 4);
      if q < |s| then q else |s| - 1
    else if |s| > 3 then 3
    else |s| - 1
  }

  /** The header: magic, `%u %u\n`, then `%u` that must give 255, then
      `fseek(f, 1, SEEK_CUR)` over one byte. White space between the fields is
      skipped by the `%u` conversions themselves. */
  function ParseHeader(s: seq<byte>): (r: Option<Header>)
    ensures r.Some? ==> r.value.dataStart <= |s|
  {
    if |s| < 3 || s[..3] != MAGIC then None
    else
      var w := ScanUInt(s, HeaderStart(s));
      if w.None? then None
      else
        var h := ScanUInt(s, w.value.end);
        if h.None? then None
        else
          var d := ScanUInt(s, h.value.end);
          if d.None? || d.value.value != 255 then None
          else
            var start := if d.value.end + 1 <= |s| then d.value.end + 1 else |s|;
            Some(Header(w.value.value, h.value.value, start))
  }

  // ---------------------------------------------------------------------------
  // The pixel data.

  /** The buffer size `width * height * 4`, wrapped to 32 bits. */
  function Capacity(w: nat, h: nat): nat {
    (w * h * 4) % WRAP
  }

  /** The first n RGB triples of d as RGBA with alpha 0xFF. */
  function Expand(d: seq<byte>, n: nat): (r: seq<byte>)
    requires 3 * n <= |d|
    ensures |r| == 4 * n
  {
    if n == 0 then []
    else Expand(d, n - 1) + [d[3 * n - 3], d[3 * n - 2], d[3 * n - 1], OPAQUE]
  }

  /** The whole buffer: the expanded pixels, then 0xFF up to the capacity. */
  function Pixels(d: seq<byte>, cap: nat): (r: seq<byte>)
    requires 4 * (|d| / 3) <= cap
    ensures |r| == cap
  {
    Expand(d, |d| / 3) + seq(cap - 4 * (|d| / 3), _ => OPAQUE)
  }

  /** The decoded image, or None where `load_ppm_pre` jumps to its cleanup
      before the image is complete. */
  function ParsePpm(s: seq<byte>): Option<Image> {
    var hd := ParseHeader(s);
    if hd.None? then None
    else
      var d := s[hd.value.dataStart..];
      var cap := Capacity(hd.value.width, hd.value.height);
      var px := ReadPixels(d, cap);
      if px.None? then None
      else Some(Image(hd.value.width, hd.value.height, px.value))
  }

  /** The data stage of `load_ppm_pre` on the pixel data `d` and a buffer of
      `cap` bytes: None when the data is rejected, else the buffer. */
  function ReadPixels(d: seq<byte>, cap: nat): (r: Option<seq<byte>>)
  {
    if |d| % 3 != 0 || 4 * (|d| / 3) > cap then None else Some(Pixels(d, cap))
  }

  /** `load_ppm_pre` as far as its decoding goes: the header, then the data
      stage. */
  method DecodePpm(s: seq<byte>) returns (r: Option<Image>)
    ensures r == ParsePpm(s)
  {
    var hd := ParseHeader(s);
    if hd.None? {
      return None;
    }
    var cap := Capacity(hd.value.width, hd.value.height);
    var px := DecodePixels(s[hd.value.dataStart..], cap);
    if px.None? {
      return None;
    }
    r := Some(Image(hd.value.width, hd.value.height, px.value));
  }

  /** The decoding loops of `load_ppm_pre`: the 0xFF fill, then the 63-byte
      blocks, each rejected when its length is not a multiple of 3 or its
      pixels would overrun the buffer. */
  method DecodePixels(d: seq<byte>, cap: nat) returns (r: Option<seq<byte>>)
    ensures r == ReadPixels(d, cap)
  {
    var data := NewOpaque(cap);
    var off: nat, cur: nat := 0, 0;
    while off < |d|
      invariant off <= |d| && cur <= cap == data.Length
      invariant DecodeFrom(d, off, cur, data[..]) == DecodeFrom(d, 0, 0, Fill(cap))
      decreases |d| - off
    {
      var blockRead := if |d| - off < BLOCK then |d| - off else BLOCK;
      var block := d[off..off + blockRead];
      if blockRead % 3 != 0 || cur + blockRead / 3 * 4 > cap {
        r := None;
        DecodeFromReads(d, cap);
        return;
      }
      cur := CopyBlock(data, cur, block);
      off := off + blockRead;
    }
    r := Some(data[..]);
    DecodeFromReads(d, cap);
  }

  /** The length of the block `fread` returns at offset `off`. */
  function BlockLength(d: seq<byte>, off: nat): (k: nat)
    requires off <= |d|
    ensures k <= BLOCK && off + k <= |d| && (k < BLOCK ==> off + k == |d|)
  {
    if |d| - off < BLOCK then |d| - off else BLOCK
  }

  /** The buffer after one block has been copied in at `cur`. */
  function CopyInto(buf: seq<byte>, cur: nat, block: seq<byte>): (r: seq<byte>)
    requires |block| % 3 == 0 && cur + |block| / 3 * 4 <= |buf|
    ensures |r| == |buf|
  {
    buf[..cur] + Expand(block, |block| / 3) + buf[cur + |block| / 3 * 4..]
  }

  /** The block loop run from data offset `off` and buffer offset `cur`. */
  function DecodeFrom(d: seq<byte>, off: nat, cur: nat, buf: seq<byte>): Option<seq<byte>>
    requires off <= |d| && cur <= |buf|
    decreases |d| - off
  {
    if off == |d| then Some(buf)
    else
      var k := BlockLength(d, off);
      if k % 3 != 0 || cur + k / 3 * 4 > |buf| then None
      else DecodeFrom(d, off + k, cur + k / 3 * 4, CopyInto(buf, cur, d[off..off + k]))
  }

  /** The block loop decodes what `ReadPixels` describes. */
  lemma DecodeFromReads(d: seq<byte>, cap: nat)
    ensures DecodeFrom(d, 0, 0, Fill(cap)) == ReadPixels(d, cap)
  {
    DecodeFromInvariant(d, 0, cap);
  }

  lemma {:induction false} DecodeFromInvariant(d: seq<byte>, n: nat, cap: nat)
    requires 3 * n <= |d| && 4 * n <= cap
    ensures DecodeFrom(d, 3 * n, 4 * n, Expand(d, n) + Fill(cap - 4 * n)) == ReadPixels(d, cap)
    decreases |d| - 3 * n
  {
    if 3 * n == |d| {
      DecodeFromDone(d, n, cap);
    } else {
      var k := BlockLength(d, 3 * n);
      if k % 3 != 0 || 4 * n + k / 3 * 4 > cap {
        DecodeFromRejected(d, n, cap);
      } else {
        var m := k / 3;
        DecodeFromAccepted(d, n, m, cap, Expand(d, n) + Fill(cap - 4 * n));
        DecodeFromInvariant(d, n + m, cap);
      }
    }
  }

  lemma DecodeFromDone(d: seq<byte>, n: nat, cap: nat)
    requires 3 * n == |d| && 4 * n <= cap
    ensures DecodeFrom(d, 3 * n, 4 * n, Expand(d, n) + Fill(cap - 4 * n)) == ReadPixels(d, cap)
  {
    assert |d| / 3 == n && |d| % 3 == 0;
  }

  lemma DecodeFromRejected(d: seq<byte>, n: nat, cap: nat)
    requires 3 * n < |d| && 4 * n <= cap
    requires BlockLength(d, 3 * n) % 3 != 0 || 4 * n + BlockLength(d, 3 * n) / 3 * 4 > cap
    ensures DecodeFrom(d, 3 * n, 4 * n, Expand(d, n) + Fill(cap - 4 * n)) == None == ReadPixels(d, cap)
  {
    BlockRejected(|d|, n, BlockLength(d, 3 * n), cap);
  }

  /** An accepted block of 3m bytes moves the loop from n pixels to n + m. */
  lemma DecodeFromAccepted(d: seq<byte>, n: nat, m: nat, cap: nat, buf: seq<byte>)
    requires 3 * n < |d| && 4 * n + 4 * m <= cap
    requires buf == Expand(d, n) + Fill(cap - 4 * n)
    requires m == BlockLength(d, 3 * n) / 3 && BlockLength(d, 3 * n) % 3 == 0
    ensures 3 * (n + m) <= |d|
    ensures DecodeFrom(d, 3 * n, 4 * n, buf)
            == DecodeFrom(d, 3 * (n + m), 4 * (n + m), Expand(d, n + m) + Fill(cap - 4 * (n + m)))
  {
    var k := BlockLength(d, 3 * n);
    assert 3 * m == k && k / 3 * 4 == 4 * m;
    var next := Expand(d, n + m) + Fill(cap - 4 * (n + m));
    BlockStep(d, n, m, k, cap, buf);
    DecodeFromUnfold(d, 3 * n, 4 * n, buf, k, 3 * (n + m), 4 * (n + m), next);
  }

  /** One turn of the block loop on an accepted block. */
  lemma DecodeFromUnfold(d: seq<byte>, off: nat, cur: nat, buf: seq<byte>, k: nat, off': nat, cur': nat, next: seq<byte>)
    requires off < |d| && cur <= |buf| && k == BlockLength(d, off)
    requires k % 3 == 0 && cur + k / 3 * 4 <= |buf|
    requires off' == off + k && cur' == cur + k / 3 * 4
    requires next == CopyInto(buf, cur, d[off..off + k])
    ensures cur' <= |next|
    ensures DecodeFrom(d, off, cur, buf) == DecodeFrom(d, off', cur', next)
  {
  }

  /** The allocation of `load_ppm_pre` and its loop setting every byte to
      0xFF. */
  method NewOpaque(cap: nat) returns (data: array<byte>)
    ensures fresh(data) && data[..] == Fill(cap)
  {
    data := new byte[cap];
    var i := 0;
    while i < cap
      invariant i <= cap
      invariant data[..i] == Fill(i)
    {
      data[i] := OPAQUE;
      assert data[..i + 1] == data[..i] + [OPAQUE];
      i := i + 1;
    }
  }

  /** `cap` bytes of 0xFF. */
  function Fill(k: nat): (r: seq<byte>)
    ensures |r| == k && forall j :: 0 <= j < k ==> r[j] == OPAQUE
  {
    seq(k, _ => OPAQUE)
  }

  /** Copying m more triples over the 0xFF tail keeps the buffer of the
      expected form. */
  lemma BlockStep(d: seq<byte>, n: nat, m: nat, k: nat, cap: nat, buf: seq<byte>)
    requires k == 3 * m && k % 3 == 0 && k / 3 * 4 == 4 * m
    requires 3 * n + k <= |d| && 4 * n + 4 * m <= cap
    requires buf == Expand(d, n) + Fill(cap - 4 * n)
    ensures CopyInto(buf, 4 * n, d[3 * n..3 * n + k]) == Expand(d, n + m) + Fill(cap - 4 * (n + m))
  {
    ExpandAppend(d, n, m);
    assert buf[..4 * n] == Expand(d, n);
    assert buf[4 * n + 4 * m..] == Fill(cap - 4 * (n + m));
  }

  /** The inner loop of `load_ppm_pre`: the pixels of one block are written
      from `cur` on, four bytes per triple. */
  method CopyBlock(data: array<byte>, cur: nat, block: seq<byte>) returns (next: nat)
    requires |block| % 3 == 0 && cur + |block| / 3 * 4 <= data.Length
    modifies data
    ensures next == cur + |block| / 3 * 4
    ensures data[..] == CopyInto(old(data[..]), cur, block)
  {
    ghost var buf := data[..];
    next := cur;
    var t := 0;
    while t < |block| / 3
      invariant t <= |block| / 3 && next == cur + 4 * t
      invariant data[..] == Partial(buf, cur, block, t)
    {
      PartialStep(buf, cur, block, t);
      PutPixel(data, next, block[3 * t], block[3 * t + 1], block[3 * t + 2]);
      next := next + 4;
      t := t + 1;
    }
  }

  /** The buffer after the first t triples of a block have been written at
      `cur`. */
  ghost function Partial(buf: seq<byte>, cur: nat, block: seq<byte>, t: nat): (r: seq<byte>)
    requires 3 * t <= |block| && cur + 4 * t <= |buf|
    ensures |r| == |buf|
  {
    buf[..cur] + Expand(block, t) + buf[cur + 4 * t..]
  }

  lemma PartialStep(buf: seq<byte>, cur: nat, block: seq<byte>, t: nat)
    requires 3 * t + 3 <= |block| && cur + 4 * t + 4 <= |buf|
    ensures var p := Partial(buf, cur, block, t);
            p[..cur + 4 * t] + [block[3 * t], block[3 * t + 1], block[3 * t + 2], OPAQUE] + p[cur + 4 * t + 4..]
            == Partial(buf, cur, block, t + 1)
  {
    var p := Partial(buf, cur, block, t);
    assert p[..cur + 4 * t] == buf[..cur] + Expand(block, t);
    assert p[cur + 4 * t + 4..] == buf[cur + 4 * (t + 1)..];
  }

  /** One pixel written as four bytes, alpha last. */
  method PutPixel(data: array<byte>, p: nat, r: byte, g: byte, b: byte)
    requires p + 4 <= data.Length
    modifies data
    ensures data[..] == old(data[..])[..p] + [r, g, b, OPAQUE] + old(data[..])[p + 4..]
  {
    data[p] := r;
    data[p + 1] := g;
    data[p + 2] := b;
    data[p + 3] := OPAQUE;
  }

  /** Expanding n triples and then m more is expanding n + m. */
  lemma {:induction false} ExpandAppend(d: seq<byte>, n: nat, m: nat)
    requires 3 * (n + m) <= |d|
    ensures Expand(d, n + m) == Expand(d, n) + Expand(d[3 * n..3 * (n + m)], m)
  {
    if m > 0 {
      var lo, e := 3 * n, 3 * (n + m);
      var b := d[lo..e];
      ExpandAppend(d, n, m - 1);
      ExpandPrefix(b, d[lo..e - 3], m - 1);
      assert b[..3 * (m - 1)] == d[lo..e - 3];
      ExpandLast(d, n + m);
      ExpandLast(b, m);
      TailQuad(d, lo, e, b);
      assert Quad(b, 3 * m) == Quad(d, e);
      var q := Quad(d, e);
      assert (Expand(d, n) + Expand(b, m - 1)) + q == Expand(d, n) + (Expand(b, m - 1) + q);
    }
  }

  /** The RGBA bytes of the triple ending at `e`. */
  function Quad(d: seq<byte>, e: nat): seq<byte>
    requires 3 <= e <= |d|
  {
    [d[e - 3], d[e - 2], d[e - 1], OPAQUE]
  }

  /** Expanding n triples adds the quad of the last one. */
  lemma ExpandLast(d: seq<byte>, n: nat)
    requires 0 < n && 3 * n <= |d|
    ensures Expand(d, n) == Expand(d, n - 1) + Quad(d, 3 * n)
  {
  }

  /** The last three bytes of a slice are the last three of the range. */
  lemma TailQuad(d: seq<byte>, lo: nat, hi: nat, b: seq<byte>)
    requires lo + 3 <= hi <= |d| && b == d[lo..hi]
    ensures |b| == hi - lo
    ensures b[|b| - 3] == d[hi - 3] && b[|b| - 2] == d[hi - 2] && b[|b| - 1] == d[hi - 1]
  {
  }

  /** A rejected block means the whole data is rejected: either its length is
      not a multiple of 3 (only the last block can be shorter than 63) or the
      pixels up to its end already overrun the buffer. */
  lemma BlockRejected(len: nat, n: nat, blockRead: nat, cap: nat)
    requires 3 * n + blockRead <= len
    requires blockRead == len - 3 * n || blockRead == BLOCK
    requires blockRead % 3 != 0 || 4 * n + blockRead / 3 * 4 > cap
    ensures len % 3 != 0 || 4 * (len / 3) > cap
  {
    if blockRead % 3 == 0 {
      assert (3 * n + blockRead) / 3 == n + blockRead / 3;
      assert len / 3 >= (3 * n + blockRead) / 3;
    }
  }

  // ---------------------------------------------------------------------------
  // Properties of the reader.

  /** The RGBA bytes of pixel p of a buffer. */
  function PixelAt(rgba: seq<byte>, p: nat): seq<byte>
    requires 4 * p + 4 <= |rgba|
  {
    rgba[4 * p..4 * p + 4]
  }

  /** Pixel p of the RGB data, made opaque. */
  function OpaqueRgb(d: seq<byte>, p: nat): seq<byte>
    requires 3 * p + 3 <= |d|
  {
    [d[3 * p], d[3 * p + 1], d[3 * p + 2], OPAQUE]
  }

  /** Every expanded pixel is the matching RGB triple with alpha 0xFF. */
  lemma {:induction false} ExpandPixels(d: seq<byte>, n: nat)
    requires 3 * n <= |d|
    ensures forall p :: 0 <= p < n ==> PixelAt(Expand(d, n), p) == OpaqueRgb(d, p)
  {
    if n > 0 {
      ExpandPixels(d, n - 1);
      var e := Expand(d, n);
      assert e[..4 * (n - 1)] == Expand(d, n - 1);
      forall p | 0 <= p < n ensures PixelAt(e, p) == OpaqueRgb(d, p) {
        if p < n - 1 {
          assert PixelAt(e, p) == PixelAt(Expand(d, n - 1), p);
        }
      }
    }
  }

  /** The pixel data of a file whose header was read. */
  function PixelData(s: seq<byte>): seq<byte>
    requires ParseHeader(s).Some?
  {
    s[ParseHeader(s).value.dataStart..]
  }

  /** A read succeeds exactly when the header is read and the data after it
      is a whole number of triples fitting the buffer of `Capacity(w, h)`
      bytes; the image then has the header's size and that buffer. */
  lemma ParsePpmCharacterised(s: seq<byte>)
    ensures ParsePpm(s).Some? <==>
              ParseHeader(s).Some? && |PixelData(s)| % 3 == 0
              && 4 * (|PixelData(s)| / 3) <= Capacity(ParseHeader(s).value.width, ParseHeader(s).value.height)
    ensures ParsePpm(s).Some? ==>
              var hd := ParseHeader(s).value;
              ParsePpm(s).value == Image(hd.width, hd.height, Pixels(PixelData(s), Capacity(hd.width, hd.height)))
  {
  }

  /** The buffer of a successful read: the first |d|/3 pixels are the triples
      of d in order with alpha 0xFF, every byte after them is 0xFF, and there
      are `cap` bytes. */
  lemma PixelsContent(d: seq<byte>, cap: nat)
    requires 4 * (|d| / 3) <= cap
    ensures |Pixels(d, cap)| == cap
    ensures forall p :: 0 <= p < |d| / 3 ==> PixelAt(Pixels(d, cap), p) == OpaqueRgb(d, p)
    ensures forall j :: 4 * (|d| / 3) <= j < cap ==> Pixels(d, cap)[j] == OPAQUE
  {
    var r := Pixels(d, cap);
    ExpandPixels(d, |d| / 3);
    forall p | 0 <= p < |d| / 3 ensures PixelAt(r, p) == OpaqueRgb(d, p) {
      assert PixelAt(r, p) == PixelAt(Expand(d, |d| / 3), p);
    }
  }

  /** For any size the viewer accepts (at most 16384 pixels a side) the buffer
      is exactly 4*w*h bytes, so a successful read carries at most 3*w*h bytes
      of data. */
  lemma CapacityExact(w: nat, h: nat)
    requires w <= 16384 && h <= 16384
    ensures Capacity(w, h) == 4 * (w * h)
  {
    MulMono(w, h, 16384);
    var x := w * h * 4;
    assert x < WRAP;
    assert x % WRAP == x;
    assert x == 4 * (w * h);
  }

  /** A successful read of an image the viewer accepts: 4*w*h bytes, from at
      most w*h pixels of data. */
  lemma ParsePpmAccepted(s: seq<byte>)
    requires ParsePpm(s).Some?
    requires ParsePpm(s).value.width <= 16384 && ParsePpm(s).value.height <= 16384
    ensures var img := ParsePpm(s).value;
            |img.rgba| == 4 * (img.width * img.height)
            && |PixelData(s)| <= 3 * (img.width * img.height)
  {
    ParsePpmCharacterised(s);
    var img := ParsePpm(s).value;
    CapacityExact(img.width, img.height);
  }

  /** A file that does not start with "P6\n" is rejected. */
  lemma ParsePpmNeedsMagic(s: seq<byte>)
    requires |s| < 3 || s[..3] != MAGIC
    ensures ParsePpm(s) == None
  {
  }

  /** Only one comment line is skipped: when the comment line is followed by a
      second one, the width conversion meets the '#' and the read fails. */
  lemma SecondCommentRejected(s: seq<byte>)
    requires |s| > 4 && s[..3] == MAGIC && s[3] == HASH
    requires LineEnd(s, 4) + 1 < |s| && s[LineEnd(s, 4) + 1] == HASH
    ensures ParsePpm(s) == None
  {
    var q := LineEnd(s, 4);
    assert HeaderStart(s) == q;
    assert SkipSpace(s, q + 1) == q + 1;
    assert SkipSpace(s, q) == q + 1;
  }

  /** `%u` takes a sign: a header of "+1 +1" reads as a 1x1 image. */
  lemma SignedSidesAccepted()
    ensures ParsePpm([0x50, 0x36, 0x0A, 0x2B, 0x31, 0x20, 0x2B, 0x31, 0x0A, 0x32, 0x35, 0x35, 0x0A, 1, 2, 3])
            == Some(Image(1, 1, [1, 2, 3, 0xFF]))
  {
    SignedExample(PLUS, 1);
  }

  /** Sides of "0 0" are accepted: the buffer is empty and so is the data. */
  lemma ZeroSidesAccepted()
    ensures ParsePpm(ZERO_SIDES) == Some(Image(0, 0, []))
  {
    var s := ZERO_SIDES;
    assert s[..3] == MAGIC;
    assert HeaderStart(s) == 3;
    assert SkipSpace(s, 3) == 3 && DigitsEnd(s, 3) == 4;
    assert s[3..4] == [0x30] && DecimalValue(s[3..4]) == 0;
    assert ScanUInt(s, 3) == Some(Number(0, 4));
    assert SkipSpace(s, 4) == 5 && DigitsEnd(s, 5) == 6;
    assert s[5..6] == [0x30];
    assert ScanUInt(s, 4) == Some(Number(0, 6));
    assert SkipSpace(s, 6) == 7;
    DigitsRun(s, 7, 10);
    assert s[7..10] == MAXVAL;
    MaxvalNumeral();
    assert ScanUInt(s, 6) == Some(Number(255, 10));
    assert s[11..] == [];
  }

  /** "P6\n0 0\n255\n" with no data. */
  const ZERO_SIDES: seq<byte> := [0x50, 0x36, 0x0A, 0x30, 0x20, 0x30, 0x0A, 0x32, 0x35, 0x35, 0x0A]

  /** Sides of "-1 -1" are both 2^32 - 1, and the 32-bit buffer size wraps
      to 4 bytes, which the three data bytes fit. */
  lemma NegativeSidesWrap()
    ensures ParsePpm([0x50, 0x36, 0x0A, 0x2D, 0x31, 0x20, 0x2D, 0x31, 0x0A, 0x32, 0x35, 0x35, 0x0A, 1, 2, 3])
            == Some(Image(WRAP - 1, WRAP - 1, [1, 2, 3, 0xFF]))
  {
    assert (WRAP - 1) * (WRAP - 1) * 4 % WRAP == 4;
    SignedExample(MINUS, WRAP - 1);
  }

  /** The file "P6\n<sign>1 <sign>1\n255\n" followed by three bytes. */
  lemma SignedExample(sign: byte, v: nat)
    requires (sign == PLUS && v == 1) || (sign == MINUS && v == WRAP - 1)
    requires Capacity(v, v) == 4
    ensures ParsePpm([0x50, 0x36, 0x0A, sign, 0x31, 0x20, sign, 0x31, 0x0A, 0x32, 0x35, 0x35, 0x0A, 1, 2, 3])
            == Some(Image(v, v, [1, 2, 3, 0xFF]))
  {
    var s: seq<byte> := [0x50, 0x36, 0x0A, sign, 0x31, 0x20, sign, 0x31, 0x0A, 0x32, 0x35, 0x35, 0x0A, 1, 2, 3];
    SignedHeader(s, sign, v);
    var d := s[13..];
    assert d == [1, 2, 3];
    assert Expand(d, 1) == [1, 2, 3, 0xFF];
    assert Pixels(d, 4) == Expand(d, 1);
  }

  /** The header of that file. */
  lemma SignedHeader(s: seq<byte>, sign: byte, v: nat)
    requires (sign == PLUS && v == 1) || (sign == MINUS && v == WRAP - 1)
    requires s == [0x50, 0x36, 0x0A, sign, 0x31, 0x20, sign, 0x31, 0x0A, 0x32, 0x35, 0x35, 0x0A, 1, 2, 3]
    ensures ParseHeader(s) == Some(Header(v, v, 13))
  {
    assert s[..3] == MAGIC;
    assert HeaderStart(s) == 3;
    assert SkipSpace(s, 3) == 3 && DigitsEnd(s, 4) == 5;
    assert s[4..5] == [0x31] && DecimalValue(s[4..5]) == 1;
    assert ScanUInt(s, 3) == Some(Number(v, 5));
    assert SkipSpace(s, 5) == 6 && DigitsEnd(s, 7) == 8;
    assert s[7..8] == [0x31];
    assert ScanUInt(s, 5) == Some(Number(v, 8));
    assert SkipSpace(s, 8) == 9;
    DigitsRun(s, 9, 12);
    assert s[9..12] == MAXVAL;
    MaxvalNumeral();
    assert ScanUInt(s, 8) == Some(Number(255, 12));
  }

  // ---------------------------------------------------------------------------
  // The writer, and reading back what it writes.

  /** `%d` of a non-negative number. */
  function Decimal(n: nat): (r: seq<byte>)
    ensures |r| > 0 && IsDigit(r[0])
  {
    if n < 10 then [(n + 0x30) as byte]
    else Decimal(n / 10) + [(n % 10 + 0x30) as byte]
  }

  /** The maximum value "255" as `save_PPM` writes it. */
  const MAXVAL: seq<byte> := [0x32, 0x35, 0x35]

  /** `save_PPM`: the header "P6\n<w> <h>\n255\n", then the RGB bytes of every
      4-byte pixel of the first w*h pixels, alpha dropped. */
  function SavePpm(w: nat, h: nat, rgba: seq<byte>): (r: seq<byte>)
    requires |rgba| >= 4 * (w * h)
  {
    MAGIC + Decimal(w) + [SPACE] + Decimal(h) + [NEWLINE] + MAXVAL + [NEWLINE]
    + RgbOf(rgba, w * h)
  }

  /** The RGB bytes of the first n pixels of an RGBA buffer. */
  function RgbOf(rgba: seq<byte>, n: nat): (r: seq<byte>)
    requires 4 * n <= |rgba|
    ensures |r| == 3 * n
  {
    if n == 0 then [] else RgbOf(rgba, n - 1) + rgba[4 * n - 4..4 * n - 1]
  }

  /** The first n pixels of an RGBA buffer with every alpha set to 0xFF. */
  function Opaqued(rgba: seq<byte>, n: nat): (r: seq<byte>)
    requires 4 * n <= |rgba|
    ensures |r| == 4 * n
  {
    if n == 0 then [] else Opaqued(rgba, n - 1) + rgba[4 * n - 4..4 * n - 1] + [OPAQUE]
  }

  lemma {:induction false} DecimalValueOf(n: nat)
    ensures DecimalValue(Decimal(n)) == n
  {
    if n >= 10 {
      var ds := Decimal(n);
      assert ds[..|ds| - 1] == Decimal(n / 10);
      DecimalValueOf(n / 10);
    }
  }

  /** `ds` is a run of decimal digits whose value is n. */
  predicate Numeral(ds: seq<byte>, n: nat) {
    ds != [] && (forall i :: 0 <= i < |ds| ==> IsDigit(ds[i])) && DecimalValue(ds) == n
  }

  /** `%d` writes a numeral of the number. */
  lemma DecimalNumeral(n: nat)
    ensures Numeral(Decimal(n), n)
  {
    DecimalDigits(n);
    DecimalValueOf(n);
  }

  /** `%u` reads back a numeral when a non-digit follows it. */
  lemma ScanDecimal(s: seq<byte>, p: nat, ds: seq<byte>, n: nat)
    requires Numeral(ds, n) && n < WRAP && p + |ds| < |s| && s[p..p + |ds|] == ds
    requires !IsDigit(s[p + |ds|])
    ensures ScanUInt(s, p) == Some(Number(n, p + |ds|))
  {
    assert s[p] == ds[0];
    assert SkipSpace(s, p) == p;
    forall i | p <= i < p + |ds| ensures IsDigit(s[i]) {
      assert s[i] == ds[i - p];
    }
    DigitsRun(s, p, p + |ds|);
  }

  /** The same after one white-space byte, which `%u` skips. */
  lemma ScanSpacedDecimal(s: seq<byte>, p: nat, ds: seq<byte>, n: nat)
    requires Numeral(ds, n) && n < WRAP && p + 1 + |ds| < |s| && IsSpace(s[p])
    requires s[p + 1..p + 1 + |ds|] == ds
    requires !IsDigit(s[p + 1 + |ds|])
    ensures ScanUInt(s, p) == Some(Number(n, p + 1 + |ds|))
  {
    ScanDecimal(s, p + 1, ds, n);
    assert s[p + 1] == ds[0];
    assert SkipSpace(s, p) == SkipSpace(s, p + 1);
  }

  lemma {:induction false} DecimalDigits(n: nat)
    ensures forall i :: 0 <= i < |Decimal(n)| ==> IsDigit(Decimal(n)[i])
  {
    if n >= 10 {
      DecimalDigits(n / 10);
    }
  }

  lemma {:induction false} DigitsRun(s: seq<byte>, p: nat, e: nat)
    requires p <= e <= |s|
    requires forall i :: p <= i < e ==> IsDigit(s[i])
    requires e == |s| || !IsDigit(s[e])
    ensures DigitsEnd(s, p) == e
    decreases e - p
  {
    if p < e {
      DigitsRun(s, p + 1, e);
    }
  }

  lemma {:induction false} ExpandRgbOf(rgba: seq<byte>, n: nat)
    requires 4 * n <= |rgba|
    ensures Expand(RgbOf(rgba, n), n) == Opaqued(rgba, n)
  {
    if n > 0 {
      var d := RgbOf(rgba, n);
      ExpandPrefix(d, RgbOf(rgba, n - 1), n - 1);
      ExpandRgbOf(rgba, n - 1);
    }
  }

  /** Expand only looks at the first 3n bytes. */
  lemma {:induction false} ExpandPrefix(d: seq<byte>, d0: seq<byte>, n: nat)
    requires 3 * n <= |d0| <= |d| && d0 == d[..|d0|]
    ensures Expand(d, n) == Expand(d0, n)
  {
    if n > 0 {
      ExpandPrefix(d, d0, n - 1);
    }
  }

  /** The file is "P6\n<dw> <dh>\n255\n<rgb>": its length, the magic, the
      width and the space after it... */
  predicate LayoutHead(s: seq<byte>, dw: seq<byte>, dh: seq<byte>, rgb: seq<byte>) {
    var p1 := 3 + |dw|;
    && |s| == p1 + 1 + |dh| + 1 + 3 + 1 + |rgb|
    && s[..3] == MAGIC && s[3..p1] == dw && s[p1] == SPACE
  }

  /** ...then the height, the maximum value, their separators and the data. */
  predicate LayoutTail(s: seq<byte>, dw: seq<byte>, dh: seq<byte>, rgb: seq<byte>) {
    var p1 := 3 + |dw|;
    var p2 := p1 + 1 + |dh|;
    var p3 := p2 + 1 + 3;
    && |s| == p3 + 1 + |rgb|
    && s[p1 + 1..p2] == dh && s[p2] == NEWLINE
    && s[p2 + 1..p3] == MAXVAL && s[p3] == NEWLINE
    && s[p3 + 1..] == rgb
  }

  /** Where the pieces of a saved file lie: the magic, the width and the
      space after it... */
  lemma SavedLayoutHead(w: nat, h: nat, rgba: seq<byte>)
    requires |rgba| >= 4 * (w * h)
    ensures LayoutHead(SavePpm(w, h, rgba), Decimal(w), Decimal(h), RgbOf(rgba, w * h))
  {
    var s := SavePpm(w, h, rgba);
    var x := MAGIC + Decimal(w) + [SPACE];
    var y := Decimal(h) + [NEWLINE] + MAXVAL + [NEWLINE];
    assert s == x + y + RgbOf(rgba, w * h);
    ConcatPieces(x, y, RgbOf(rgba, w * h));
    SavedHead(w);
  }

  /** ...then the height, the maximum value, their separators and the data. */
  lemma SavedLayoutTail(w: nat, h: nat, rgba: seq<byte>)
    requires |rgba| >= 4 * (w * h)
    ensures LayoutTail(SavePpm(w, h, rgba), Decimal(w), Decimal(h), RgbOf(rgba, w * h))
  {
    var s := SavePpm(w, h, rgba);
    var x := MAGIC + Decimal(w) + [SPACE];
    var y := Decimal(h) + [NEWLINE] + MAXVAL + [NEWLINE];
    assert s == x + y + RgbOf(rgba, w * h);
    ConcatPieces(x, y, RgbOf(rgba, w * h));
    SavedMiddle(h);
  }

  lemma ConcatPieces(x: seq<byte>, y: seq<byte>, z: seq<byte>)
    ensures (x + y + z)[..|x|] == x
    ensures (x + y + z)[|x|..|x| + |y|] == y
    ensures (x + y + z)[|x| + |y|..] == z
  {
  }

  lemma SavedHead(w: nat)
    ensures var x, lw := MAGIC + Decimal(w) + [SPACE], |Decimal(w)|;
            x[..3] == MAGIC && x[3..3 + lw] == Decimal(w) && x[3 + lw] == SPACE
  {
  }

  lemma SavedMiddle(h: nat)
    ensures var y, lh := Decimal(h) + [NEWLINE] + MAXVAL + [NEWLINE], |Decimal(h)|;
            y[..lh] == Decimal(h) && y[lh] == NEWLINE && y[lh + 1..lh + 4] == MAXVAL && y[lh + 4] == NEWLINE
  {
  }

  /** The maximum value written as "255" reads back as 255. */
  lemma ScanMaxval(s: seq<byte>, p: nat)
    requires p + 1 + 3 < |s| && IsSpace(s[p]) && s[p + 1..p + 1 + 3] == MAXVAL && !IsDigit(s[p + 1 + 3])
    ensures ScanUInt(s, p) == Some(Number(255, p + 1 + 3))
  {
    MaxvalNumeral();
    ScanSpacedDecimal(s, p, MAXVAL, 255);
  }

  /** The header `save_PPM` writes reads back as the same width and height,
      with the data starting right after it. */
  lemma SavedHeader(w: nat, h: nat, rgba: seq<byte>)
    requires |rgba| >= 4 * (w * h) && w < WRAP && h < WRAP
    ensures ParseHeader(SavePpm(w, h, rgba)).Some?
    ensures var hd := ParseHeader(SavePpm(w, h, rgba)).value;
            hd.width == w && hd.height == h && PixelData(SavePpm(w, h, rgba)) == RgbOf(rgba, w * h)
  {
    SavedLayoutHead(w, h, rgba);
    SavedLayoutTail(w, h, rgba);
    DecimalNumeral(w);
    DecimalNumeral(h);
    HeaderOfLayout(SavePpm(w, h, rgba), w, Decimal(w), h, Decimal(h), RgbOf(rgba, w * h));
  }

  /** A file laid out as "P6\n<w> <h>\n255\n<data>" has header w, h and
      pixel data <data>. */
  lemma HeaderOfLayout(s: seq<byte>, w: nat, dw: seq<byte>, h: nat, dh: seq<byte>, rgb: seq<byte>)
    requires Numeral(dw, w) && Numeral(dh, h) && w < WRAP && h < WRAP
    requires LayoutHead(s, dw, dh, rgb) && LayoutTail(s, dw, dh, rgb)
    ensures ParseHeader(s).Some?
    ensures ParseHeader(s).value.width == w && ParseHeader(s).value.height == h
    ensures PixelData(s) == rgb
  {
    var p1 := 3 + |dw|;
    var p2 := p1 + 1 + |dh|;
    assert s[3] == dw[0];
    assert HeaderStart(s) == 3;
    ScanDecimal(s, 3, dw, w);
    ScanSpacedDecimal(s, p1, dh, h);
    ScanMaxval(s, p2);
    HeaderFields(s, w, p1, h, p2, p2 + 1 + 3);
  }

  /** "255" is the numeral of 255. */
  lemma MaxvalNumeral()
    ensures Numeral(MAXVAL, 255)
  {
    var two, twentyFive := MAXVAL[..1], MAXVAL[..2];
    assert two[..0] == [] && DecimalValue(two) == 2;
    assert twentyFive[..1] == two && DecimalValue(twentyFive) == 25;
    assert MAXVAL[..2] == twentyFive;
  }

  /** The header read from the scanned fields. */
  lemma HeaderFields(s: seq<byte>, w: nat, pw: nat, h: nat, ph: nat, e: nat)
    requires |s| >= 3 && s[..3] == MAGIC && e + 1 <= |s|
    requires ScanUInt(s, HeaderStart(s)) == Some(Number(w, pw))
    requires pw <= |s| && ScanUInt(s, pw) == Some(Number(h, ph))
    requires ph <= |s| && ScanUInt(s, ph) == Some(Number(255, e))
    ensures ParseHeader(s) == Some(Header(w, h, e + 1))
  {
  }

  /** Reading back a saved image (of at most 16384 pixels a side, the largest
      texture the viewer accepts) gives the same size and the same RGB bytes,
      every alpha now 0xFF. */
  lemma LoadAfterSave(w: nat, h: nat, rgba: seq<byte>)
    requires w <= 16384 && h <= 16384 && |rgba| >= 4 * (w * h)
    ensures ParsePpm(SavePpm(w, h, rgba)) == Some(Image(w, h, Opaqued(rgba, w * h)))
  {
    SavedHeader(w, h, rgba);
    CapacityExact(w, h);
    ReadSavedPixels(rgba, w * h, Capacity(w, h));
  }

  /** The RGB bytes of n pixels read into a buffer of exactly 4n bytes give
      back those pixels, every alpha 0xFF. */
  lemma ReadSavedPixels(rgba: seq<byte>, n: nat, cap: nat)
    requires 4 * n <= |rgba| && cap == 4 * n
    ensures ReadPixels(RgbOf(rgba, n), cap) == Some(Opaqued(rgba, n))
  {
    var rgb := RgbOf(rgba, n);
    assert |rgb| / 3 == n && |rgb| % 3 == 0;
    assert Pixels(rgb, cap) == Expand(rgb, n);
    ExpandRgbOf(rgba, n);
  }

  lemma MulMono(a: nat, b: nat, m: nat)
    requires a <= m && b <= m
    ensures a * b <= m * m
  {
    assert a * b <= a * m;
    assert a * m <= m * m;
  }
}
