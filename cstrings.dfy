/**
  NUL-terminated byte strings as the C library sees them, and `strcmp`
  (section 7.24.4.2 of the C11 standard). A byte sequence stands for a char
  buffer; its end counts as a terminator, so a NUL-free sequence is a C
  string whose terminating NUL is left implicit (as for `argv` entries).
 */
module CStrings {

  /** An `unsigned char`: section 7.24.1 of C11 has string comparison work on these. */
  newtype byte = x: int | 0 <= x < 256

  const NUL: byte := 0

  /** True when `s` holds no NUL byte, i.e. `s` is a whole C string (like an `argv` entry). */
  predicate NulFree(s: seq<byte>)
  {
    forall i :: 0 <= i < |s| ==> s[i] != NUL
  }

  /** The byte a C string routine reads at index `i`: beyond the end it sees the terminator. */
  function At(s: seq<byte>, i: nat): byte
  {
    if i < |s| then s[i] else NUL
  }

  /** The C string held by buffer `s`: the bytes before its first NUL. */
  function CStr(s: seq<byte>): (r: seq<byte>)
    ensures r <= s
    ensures NulFree(r)
    ensures |r| < |s| ==> s[|r|] == NUL
  {
    if s == [] || s[0] == NUL then [] else [s[0]] + CStr(s[1..])
  }

  /**
    `strcmp(s1, s2)`: compares the two strings byte by byte as unsigned
    chars, stopping at the first difference or at the terminator. Zero
    exactly when the two C strings are equal.
   */
  function StrCmp(s1: seq<byte>, s2: seq<byte>): (r: int)
    ensures r == 0 <==> CStr(s1) == CStr(s2)
    ensures -255 <= r <= 255
    decreases |s1|
  {
    var c1, c2 := At(s1, 0), At(s2, 0);
    if c1 != c2 then c1 as int - c2 as int
    else if c1 == NUL then 0
    else StrCmp(s1[1..], s2[1..])
  }

  /** `CStr` is fixed by its three properties: any prefix that has them is it. */
  lemma CStrUnique(s: seq<byte>, p: seq<byte>)
    requires p <= s && NulFree(p)
    requires |p| < |s| ==> s[|p|] == NUL
    ensures CStr(s) == p
  {
  }

  /** A NUL at index `k` hides everything from `k` on. */
  lemma CStrStopsAtNul(s: seq<byte>, k: nat)
    requires k < |s| && s[k] == NUL
    ensures CStr(s) == CStr(s[..k])
    ensures |CStr(s)| <= k
  {
  }

  /** A NUL-free sequence is its own C string. */
  lemma CStrOfNulFree(s: seq<byte>)
    requires NulFree(s)
    ensures CStr(s) == s
  {
  }

  /** An embedded NUL ends the string: what follows it is never looked at. */
  lemma CStrEmbeddedNul(p: seq<byte>, junk: seq<byte>)
    requires NulFree(p)
    ensures CStr(p + [NUL] + junk) == p
  {
    CStrUnique(p + [NUL] + junk, p);
  }

  /** Comparison only ever sees the bytes in front of each string's first NUL. */
  lemma StrCmpIgnoresTail(s1: seq<byte>, k: nat, s2: seq<byte>)
    requires k < |s1| && s1[k] == NUL
    ensures (StrCmp(s1, s2) == 0) == (StrCmp(s1[..k], s2) == 0)
  {
    CStrStopsAtNul(s1, k);
  }
}
