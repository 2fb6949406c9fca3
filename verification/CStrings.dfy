/** C strings in character buffers, and the library functions on them that the sources use. */
module CStrings {
  /** A C string of length `len` at the start of a buffer. */
  ghost predicate IsCString(a: array<char>, len: nat)
    reads a
  {
    len < a.Length && a[len] == '\0' && forall i :: 0 <= i < len ==> a[i] != '\0'
  }

  /** strlen */
  method StrLen(a: array<char>, ghost len: nat) returns (n: nat)
    requires IsCString(a, len)
    ensures n == len
  {
    n := 0;
    while a[n] != '\0'
      invariant n <= len
      decreases len - n
    {
      n := n + 1;
    }
  }

  /** strcpy */
  method StrCpy(to: array<char>, from: array<char>, ghost len: nat)
    requires to != from && IsCString(from, len) && len < to.Length
    modifies to
    ensures IsCString(to, len) && to[..len] == from[..len]
  {
    var n := 0;
    while from[n] != '\0'
      invariant n <= len && to[..n] == from[..n]
      decreases len - n
    {
      to[n] := from[n];
      n := n + 1;
    }
    to[n] := '\0';
  }

  /** strcat */
  method StrCat(to: array<char>, ghost toLen: nat, from: array<char>, ghost fromLen: nat)
    requires to != from && IsCString(to, toLen) && IsCString(from, fromLen) && toLen + fromLen < to.Length
    modifies to
    ensures IsCString(to, toLen + fromLen)
    ensures to[..toLen + fromLen] == old(to[..toLen]) + from[..fromLen]
    ensures forall i :: toLen + fromLen < i < to.Length ==> to[i] == old(to[i])
  {
    var n := StrLen(to, toLen);
    var i := 0;
    while from[i] != '\0'
      invariant i <= fromLen && to[..toLen + i] == old(to[..toLen]) + from[..i]
      invariant forall k :: toLen + i <= k < to.Length ==> to[k] == old(to[k])
      decreases fromLen - i
    {
      to[n + i] := from[i];
      i := i + 1;
    }
    to[n + i] := '\0';
    forall k | 0 <= k < toLen + fromLen ensures to[k] != '\0' {
      assert to[k] == to[..toLen + fromLen][k];
    }
  }

  /** The first place of a character from some index on, or the length. */
  function FirstAt(s: seq<char>, c: char, from: nat): (k: nat)
    requires from <= |s|
    ensures from <= k <= |s| && (k < |s| ==> s[k] == c) && forall i :: from <= i < k ==> s[i] != c
    decreases |s| - from
  {
    if from == |s| || s[from] == c then from else FirstAt(s, c, from + 1)
  }

  /** The last place of a character, or -1. */
  function LastAt(s: seq<char>, c: char): (k: int)
    ensures -1 <= k < |s| && (k >= 0 ==> s[k] == c) && forall i :: k < i < |s| ==> s[i] != c
  {
    if s == [] then -1 else if s[|s| - 1] == c then |s| - 1 else LastAt(s[..|s| - 1], c)
  }

  /** strchr from an index on; the length stands for a null pointer. */
  method StrChr(a: array<char>, ghost len: nat, from: nat, c: char) returns (found: bool, k: nat)
    requires IsCString(a, len) && from <= len && c != '\0'
    ensures k == FirstAt(a[..len], c, from) && (found <==> k < len)
  {
    k := from;
    while a[k] != '\0' && a[k] != c
      invariant from <= k <= len && FirstAt(a[..len], c, from) == FirstAt(a[..len], c, k)
      decreases len - k
    {
      k := k + 1;
    }
    found := a[k] == c;
  }

  /** memcpy of n characters between different buffers. */
  method MemCpy(to: array<char>, from: array<char>, at: nat, n: nat)
    requires to != from && n <= to.Length && at + n <= from.Length
    modifies to
    ensures to[..n] == from[at..at + n] && to[n..] == old(to[n..])
  {
    var i := 0;
    while i < n
      invariant i <= n && to[..i] == from[at..at + i] && to[i..] == old(to[i..])
    {
      to[i] := from[at + i];
      i := i + 1;
    }
  }
}
