/** C strings: one char per byte, ended by a NUL byte. */
module CStrings {

  const NUL: char := '\0'

  /** The string that a C reader sees at the start of a buffer. */
  function CString(s: string): (r: string)
    ensures r <= s && NUL !in r
    ensures |r| < |s| ==> s[|r|] == NUL
  {
    if s == "" || s[0] == NUL then "" else [s[0]] + CString(s[1..])
  }

  lemma {:induction false} CStringUnique(s: string, r: string)
    requires r <= s && NUL !in r
    requires |r| < |s| ==> s[|r|] == NUL
    ensures CString(s) == r
  {
    if r != "" {
      CStringUnique(s[1..], r[1..]);
    }
  }

  /** A string that is appended at the strlen cursor is read back behind the old text. */
  lemma CStringConcat(p: string, q: string)
    requires NUL !in p
    ensures CString(p + q) == p + CString(q)
  {
    CStringUnique(p + q, p + CString(q));
  }

  function Repeat(c: char, n: nat): (s: string)
    ensures |s| == n && forall i :: 0 <= i < n ==> s[i] == c
  {
    seq(n, i => c)
  }

  /** What strncpy leaves in its size bytes: the string, cut, then padded with NULs. */
  function Strncpy(ori: string, size: nat): (image: string)
    ensures |image| == size
    ensures CString(image) == CString(ori)[..Min(size, |CString(ori)|)]
  {
    var c := CString(ori);
    if |c| >= size then
      CStringUnique(c[..size], c[..size]);
      c[..size]
    else
      CStringUnique(c + Repeat(NUL, size - |c|), c);
      c + Repeat(NUL, size - |c|)
  }

  function Min(a: nat, b: nat): nat {
    if a < b then a else b
  }

  /** The C string in a field of size + 1 bytes after strzcpy(field, ori, size). */
  function Cut(ori: string, size: nat): (s: string)
    ensures |s| <= size && s <= CString(ori)
  {
    CString(ori)[..Min(size, |CString(ori)|)]
  }

  lemma CutWhole(s: string, size: nat)
    requires NUL !in s && |s| <= size
    ensures Cut(s, size) == s
  {
    CStringUnique(s, s);
  }

  method StrncpyInto(dest: array<char>, at: nat, ori: string, size: nat)
    requires at + size <= dest.Length
    requires |ori| >= size || NUL in ori
    modifies dest
    ensures forall j :: at <= j < at + size ==> dest[j] == Strncpy(ori, size)[j - at]
    ensures forall j :: 0 <= j < at || at + size <= j < dest.Length ==> dest[j] == old(dest[j])
  {
    ghost var c := CString(ori);
    var ended := false;
    for i := 0 to size
      invariant ended <==> |c| < i
      invariant forall j :: at <= j < at + i ==> dest[j] == if j - at < |c| then c[j - at] else NUL
      invariant forall j :: 0 <= j < at || at + size <= j < dest.Length ==> dest[j] == old(dest[j])
    {
      ended := ended || ori[i] == NUL;
      dest[at + i] := if ended then NUL else ori[i];
    }
  }

  /** strzcpy: strncpy, then a NUL at dest[size]. */
  method StrZCpy(dest: array<char>, at: nat, ori: string, size: nat)
    requires at + size < dest.Length
    requires |ori| >= size || NUL in ori
    modifies dest
    ensures forall j :: at <= j < at + size ==> dest[j] == Strncpy(ori, size)[j - at]
    ensures dest[at + size] == NUL
    ensures forall j :: 0 <= j < at || at + size < j < dest.Length ==> dest[j] == old(dest[j])
    ensures CString(dest[at..]) == Cut(ori, size)
  {
    StrncpyInto(dest, at, ori, size);
    dest[at + size] := NUL;
    ImageAt(dest[..], at, Strncpy(ori, size));
    assert dest[..][at..] == dest[at..];
  }

  lemma ImageAt(dest: string, at: nat, image: string)
    requires at + |image| < |dest| && dest[at + |image|] == NUL
    requires forall j :: at <= j < at + |image| ==> dest[j] == image[j - at]
    ensures CString(dest[at..]) == CString(image)
  {
    assert dest[at..] == image + [NUL] + dest[at + |image| + 1..];
    CStringStops(image, dest[at + |image| + 1..]);
  }

  lemma CStringStops(p: string, q: string)
    ensures CString(p + [NUL] + q) == CString(p)
  {
    var c := CString(p);
    CStringUnique(p + [NUL] + q, c);
  }

  /** strlen over a buffer: the index of the first NUL. */
  method Strlen(buffer: array<char>) returns (len: nat)
    requires NUL in buffer[..]
    ensures len == |CString(buffer[..])|
  {
    ghost var c := CString(buffer[..]);
    len := 0;
    while buffer[len] != NUL
      invariant len <= |c| < buffer.Length
      invariant buffer[|c|] == NUL && forall j :: 0 <= j < |c| ==> buffer[j] == c[j]
      decreases buffer.Length - len
    {
      len := len + 1;
    }
  }
}
