/** The wide-character string helpers of the directory code: NUL-terminated
    buffers edited in place (`remove_char`, `string_equal`, `string_copy`,
    `string_append`). A buffer is an `array<char>`; its C string is everything
    before the first NUL. */
module CStrings {

  const NUL: char := '\0'

  /** The C length of a terminated buffer: the index of its first NUL. */
  function StrLen(s: seq<char>): (n: nat)
    requires NUL in s
    ensures n < |s| && s[n] == NUL && NUL !in s[..n]
  {
    if s[0] == NUL then 0 else assert NUL in s[1..]; 1 + StrLen(s[1..])
  }

  /** The string a terminated buffer holds. */
  function CStr(s: seq<char>): seq<char>
    requires NUL in s
  {
    s[..StrLen(s)]
  }

  /** `s` with every occurrence of `ch` taken out, the rest in order. */
  function Without(s: seq<char>, ch: char): (r: seq<char>)
    ensures |r| <= |s|
  {
    if s == [] then []
    else Without(s[..|s| - 1], ch) + (if s[|s| - 1] == ch then [] else [s[|s| - 1]])
  }

  /** A NUL at n with none before it fixes the C length. */
  lemma StrLenAt(s: seq<char>, n: nat)
    requires n < |s| && s[n] == NUL && NUL !in s[..n]
    ensures StrLen(s) == n
  {
  }

  lemma WithoutSnoc(s: seq<char>, k: nat, ch: char)
    requires k < |s|
    ensures Without(s[..k + 1], ch) == Without(s[..k], ch) + (if s[k] == ch then [] else [s[k]])
  {
    assert s[..k + 1][..k] == s[..k];
  }

  /** The buffer after the inner loop of `remove_char` at index i: the
      characters from i+1 up to the terminator at `len` have moved one place to
      the left, and position `len` still holds the terminator. */
  function Shifted(buf: seq<char>, i: nat, len: nat): (r: seq<char>)
    requires i < len < |buf|
    ensures |r| == |buf|
  {
    buf[..i] + buf[i + 1..len + 1] + buf[len..]
  }

  /** The inner loop of `remove_char`. */
  method ShiftLeft(str: array<char>, i: nat, len: nat)
    requires i < len < str.Length
    modifies str
    ensures str[..] == Shifted(old(str[..]), i, len)
  {
    var j := i;
    while j < len
      invariant i <= j <= len
      invariant str[..i] == old(str[..i])
      invariant str[i..j] == old(str[i + 1..j + 1])
      invariant str[j..] == old(str[j..])
    {
      str[j] := str[j + 1];
      j := j + 1;
    }
    assert str[..] == str[..i] + str[i..len] + str[len..];
  }

  /** The state of the outer loop of `remove_char` after consuming the first k
      characters of the original string `orig` of length `len0`: the i kept
      ones are `orig[..k]` without `ch`, and the unread rest, terminator
      included, follows them. */
  ghost predicate Scanning(buf: seq<char>, i: nat, len: nat, orig: seq<char>, k: nat, len0: nat, ch: char) {
    i <= len < |buf| && k <= len0 < |orig| && k == i + (len0 - len)
    && buf[..i] == Without(orig[..k], ch)
    && buf[i..len + 1] == orig[k..len0 + 1]
  }

  lemma ScanningKeep(buf: seq<char>, i: nat, len: nat, orig: seq<char>, k: nat, len0: nat, ch: char)
    requires Scanning(buf, i, len, orig, k, len0, ch) && i < len && buf[i] != ch
    ensures Scanning(buf, i + 1, len, orig, k + 1, len0, ch)
  {
    assert buf[i] == buf[i..len + 1][0] == orig[k];
    WithoutSnoc(orig, k, ch);
    assert buf[..i + 1] == buf[..i] + [buf[i]];
    assert buf[i + 1..len + 1] == buf[i..len + 1][1..];
  }

  lemma ScanningDrop(buf: seq<char>, i: nat, len: nat, orig: seq<char>, k: nat, len0: nat, ch: char)
    requires Scanning(buf, i, len, orig, k, len0, ch) && i < len && buf[i] == ch
    ensures Scanning(Shifted(buf, i, len), i, len - 1, orig, k + 1, len0, ch)
  {
    assert buf[i] == buf[i..len + 1][0] == orig[k];
    WithoutSnoc(orig, k, ch);
    var r := Shifted(buf, i, len);
    assert r[..i] == buf[..i];
    assert r[i..len] == buf[i + 1..len + 1] == buf[i..len + 1][1..];
  }

  /** `remove_char`: scans the string and, at every `ch`, shifts the rest of
      the string (terminator included) one place to the left. */
  method RemoveChar(str: array<char>, ch: char)
    requires NUL in str[..]
    modifies str
    ensures NUL in str[..] && CStr(str[..]) == Without(old(CStr(str[..])), ch)
  {
    ghost var orig := str[..];
    var len: nat := StrLen(str[..]);
    ghost var len0: nat := len;
    ghost var k: nat := 0;
    var i: nat := 0;
    while i < len
      invariant Scanning(str[..], i, len, orig, k, len0, ch)
      decreases len - i
    {
      if str[i] == ch {
        ScanningDrop(str[..], i, len, orig, k, len0, ch);
        ShiftLeft(str, i, len);
        len := len - 1;
      } else {
        ScanningKeep(str[..], i, len, orig, k, len0, ch);
        i := i + 1;
      }
      k := k + 1;
    }
    assert str[len] == str[i..len + 1][0] == orig[len0];
    assert NUL !in str[..len] by {
      WithoutNoNul(orig[..len0], ch);
    }
    StrLenAt(str[..], len);
  }

  lemma {:induction false} WithoutNoNul(s: seq<char>, ch: char)
    requires NUL !in s
    ensures NUL !in Without(s, ch)
  {
    if s != [] {
      WithoutNoNul(s[..|s| - 1], ch);
    }
  }

  /** `string_equal`: walks both strings until they differ or both end. */
  method StringEqual(a: array<char>, b: array<char>) returns (eq: bool)
    requires NUL in a[..] && NUL in b[..]
    ensures eq <==> CStr(a[..]) == CStr(b[..])
  {
    var la, lb := StrLen(a[..]), StrLen(b[..]);
    var i := 0;
    while true
      invariant i <= la && i <= lb
      invariant a[..i] == b[..i]
      decreases la - i
    {
      if a[i] != b[i] {
        if i < la && i < lb {
          assert CStr(a[..])[i] != CStr(b[..])[i];
        } else {
          assert |CStr(a[..])| != |CStr(b[..])|;
        }
        return false;
      }
      if a[i] == NUL {
        StrLenAt(a[..], i);
        StrLenAt(b[..], i);
        assert CStr(a[..]) == a[..i];
        return true;
      }
      assert a[..i + 1] == b[..i + 1];
      i := i + 1;
    }
  }

  /** Copies the string of `s`, terminator included, into `d` from `off` on;
      the shared loop of `string_copy` and `string_append`. */
  method CopyAt(d: array<char>, off: nat, s: array<char>)
    requires d != s && NUL in s[..]
    requires off + StrLen(s[..]) < d.Length
    modifies d
    ensures d[..off] == old(d[..off])
    ensures d[off..off + StrLen(s[..]) + 1] == s[..StrLen(s[..]) + 1]
    ensures d[off + StrLen(s[..]) + 1..] == old(d[off + StrLen(s[..]) + 1..])
  {
    var n := StrLen(s[..]);
    var i := 0;
    while true
      invariant 0 <= i <= n
      invariant d[..off] == old(d[..off])
      invariant d[off..off + i] == s[..i]
      invariant d[off + i..] == old(d[off + i..])
      decreases n - i
    {
      var c := s[i];
      d[off + i] := c;
      assert d[off..off + i + 1] == s[..i + 1];
      if c == NUL {
        assert i == n;
        return;
      }
      i := i + 1;
    }
  }

  /** `string_copy`: `d` receives the string of `s`. */
  method StringCopy(d: array<char>, s: array<char>)
    requires d != s && NUL in s[..]
    requires StrLen(s[..]) < d.Length
    modifies d
    ensures NUL in d[..] && CStr(d[..]) == CStr(s[..])
  {
    CopyAt(d, 0, s);
    var n := StrLen(s[..]);
    assert d[..n] == s[..n];
    StrLenAt(d[..], n);
  }

  /** `string_append`: finds the end of `d`, then copies `s` there. */
  method StringAppend(d: array<char>, s: array<char>)
    requires d != s && NUL in d[..] && NUL in s[..]
    requires StrLen(d[..]) + StrLen(s[..]) < d.Length
    modifies d
    ensures NUL in d[..] && CStr(d[..]) == old(CStr(d[..])) + CStr(s[..])
  {
    var e := 0;
    while d[e] != NUL
      invariant e <= StrLen(d[..])
      invariant NUL !in d[..e]
      decreases StrLen(d[..]) - e
    {
      assert d[..e + 1] == d[..e] + [d[e]];
      e := e + 1;
    }
    StrLenAt(d[..], e);
    ghost var head := d[..e];
    CopyAt(d, e, s);
    var n := StrLen(s[..]);
    assert d[..e] == head;
    assert d[..e + n] == head + s[..n];
    assert NUL !in d[..e + n];
    StrLenAt(d[..], e + n);
  }
}
