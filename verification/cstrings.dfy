/** NUL-terminated character buffers, as C code keeps its strings. */
module CStrings {
  const NUL: char := 0 as char

  /** The C string at the start of `s`: everything before the first NUL (all of `s` if none). */
  function CString(s: seq<char>): (r: seq<char>)
    ensures |r| <= |s| && r == s[..|r|]
    ensures NUL !in r
    ensures |r| < |s| ==> s[|r|] == NUL
  {
    if s == [] || s[0] == NUL then [] else [s[0]] + CString(s[1..])
  }

  /** A buffer holding `t` followed by a NUL reads back as the C string `t`. */
  lemma {:induction false} CStringOfTerminated(s: seq<char>, t: seq<char>)
    requires |t| < |s| && s[..|t|] == t && s[|t|] == NUL && NUL !in t
    ensures CString(s) == t
  {
    if t != [] {
      assert s[0] == t[0];
      CStringOfTerminated(s[1..], t[1..]);
    }
  }

  /** The C string starting at `i` runs up to the first NUL at `e`. */
  lemma {:induction false} CStringUpTo(s: seq<char>, i: nat, e: nat)
    requires i <= e < |s| && s[e] == NUL
    requires forall k :: i <= k < e ==> s[k] != NUL
    ensures CString(s[i..]) == s[i..e]
    decreases e - i
  {
    if i < e {
      CStringUpTo(s, i + 1, e);
      assert s[i..][1..] == s[i + 1..];
    }
  }

  /** Moving from `i` to `j` inside the C string at `i` leaves its last characters and passes its first. */
  lemma CStringAdvance(s: seq<char>, i: nat, j: nat, e: nat)
    requires i <= j <= e < |s| && s[e] == NUL
    requires forall k :: i <= k < e ==> s[k] != NUL
    ensures CString(s[j..]) == CString(s[i..])[j - i..]
    ensures s[i..j] == CString(s[i..])[..j - i]
    ensures |CString(s[i..])| == e - i
  {
    CStringUpTo(s, i, e);
    CStringUpTo(s, j, e);
    assert s[i..e][j - i..] == s[j..e];
  }

  /** Where the C string starting at `i` ends: the index of its terminating NUL. */
  lemma CStringEnd(s: seq<char>, i: nat) returns (e: nat)
    requires i < |s| && NUL in s[i..]
    ensures i <= e < |s| && s[e] == NUL && e == i + |CString(s[i..])|
    ensures forall k :: i <= k < e ==> s[k] != NUL
  {
    var r := CString(s[i..]);
    e := i + |r|;
    forall k | i <= k < e ensures s[k] != NUL {
      assert s[k] == r[k - i];
    }
  }


  /** crStrlen: the index of the terminating NUL. */
  method Strlen(s: array<char>) returns (n: nat)
    requires NUL in s[..]
    ensures n < s.Length && s[n] == NUL
    ensures n == |CString(s[..])|
  {
    assert s[..][0..] == s[..];
    ghost var e := CStringEnd(s[..], 0);
    n := 0;
    while s[n] != NUL
      invariant n <= e
      decreases e - n
    {
      n := n + 1;
    }
  }

  /**
   * crStrcat: `t` is copied over the terminating NUL of the string in `s` and a new
   * NUL is written after it; cells past that NUL keep their contents.
   */
  method Strcat(s: array<char>, t: string)
    requires NUL in s[..] && NUL !in t
    requires |CString(s[..])| + |t| < s.Length
    modifies s
    ensures CString(s[..]) == old(CString(s[..])) + t
    ensures forall k :: |old(CString(s[..]))| + |t| < k < s.Length ==> s[k] == old(s[k])
  {
    var n := Strlen(s);
    ghost var before := s[..n];
    var i := 0;
    while i < |t|
      invariant 0 <= i <= |t|
      invariant s[..n] == before
      invariant s[n..n + i] == t[..i]
      invariant forall k :: n + i <= k < s.Length ==> s[k] == old(s[k])
    {
      s[n + i] := t[i];
      i := i + 1;
    }
    s[n + |t|] := NUL;
    assert s[..][..n + |t|] == before + t by {
      assert s[..n + |t|] == s[..n] + s[n..n + |t|];
    }
    CStringOfTerminated(s[..], before + t);
  }
}
