// Bytes and byte strings.
module Bytes {
  type Byte = x: int | 0 <= x < 256

  datatype Option<+T> = None | Some(value: T)

  lemma Regroup<T>(a: seq<T>, b: seq<T>, c: seq<T>)
    ensures a + (b + c) == (a + b) + c
  {
  }

  function Ascii(s: string): (r: seq<Byte>)
    ensures |r| == |s|
    ensures forall i :: 0 <= i < |s| ==> r[i] == s[i] as int % 256
  {
    seq(|s|, i requires 0 <= i < |s| => s[i] as int % 256)
  }

  predicate Digit(c: Byte) {
    '0' as int <= c <= '9' as int
  }

  function ToLower(c: Byte): Byte {
    if 'A' as int <= c <= 'Z' as int then c + 0x20 else c
  }

  lemma ToLowerIs(c: Byte)
    ensures 65 <= c <= 90 ==> 97 <= ToLower(c) <= 122 && ToLower(c) - 97 == c - 65
    ensures !(65 <= c <= 90) ==> ToLower(c) == c
  {
  }

  function Lower(data: seq<Byte>): (r: seq<Byte>)
    ensures |r| == |data|
    ensures forall i :: 0 <= i < |data| ==> r[i] == ToLower(data[i])
  {
    seq(|data|, i requires 0 <= i < |data| => ToLower(data[i]))
  }

  // s lies in data from p on.
  predicate Starts(data: seq<Byte>, p: nat, s: seq<Byte>) {
    p + |s| <= |data| && forall i {:trigger s[i]} :: 0 <= i < |s| ==> data[p + i] == s[i]
  }

  lemma StartsSplit(data: seq<Byte>, p: nat, a: seq<Byte>, b: seq<Byte>)
    requires Starts(data, p, a + b)
    ensures Starts(data, p, a) && Starts(data, p + |a|, b)
  {
    forall i | 0 <= i < |a| ensures data[p + i] == a[i] {
      assert (a + b)[i] == a[i];
    }
    forall i | 0 <= i < |b| ensures data[p + |a| + i] == b[i] {
      assert (a + b)[|a| + i] == b[i];
    }
  }

  lemma At(data: seq<Byte>, p: nat, c: Byte)
    requires Starts(data, p, [c])
    ensures data[p] == c
  {
    assert data[p + 0] == [c][0];
  }

  // A byte string as the C string functions see it: up to the first NUL.
  function CStr(s: seq<Byte>): seq<Byte> {
    if s == [] || s[0] == 0 then [] else [s[0]] + CStr(s[1..])
  }

  lemma {:induction false} CStrIs(s: seq<Byte>)
    ensures var r := CStr(s); r <= s && 0 !in r && (|r| < |s| ==> s[|r|] == 0)
  {
    if s != [] {
      CStrIs(s[1..]);
    }
  }

  lemma {:induction false} CStrNulFree(s: seq<Byte>)
    requires 0 !in s
    ensures CStr(s) == s
  {
    if s != [] {
      CStrNulFree(s[1..]);
    }
  }

  // stu_strncpy: stops at a NUL; a NUL is written behind the copy, but nothing at all if the
  // length is zero.
  method Strncpy(dst: array<Byte>, at: nat, src: seq<Byte>) returns (next: nat)
    requires at + |CStr(src)| < dst.Length
    modifies dst
    ensures next == at + |CStr(src)| && dst[at..next] == CStr(src)
    ensures dst[..at] == old(dst[..at]) && dst[next + 1..] == old(dst[next + 1..])
    ensures src != [] ==> dst[next] == 0
  {
    next := at;
    if |src| == 0 {
      return;
    }
    var i := 0;
    while i < |src|
      invariant 0 <= i <= |src| && next == at + i && CStr(src) == src[..i] + CStr(src[i..])
      invariant dst[at..next] == src[..i] && dst[..at] == old(dst[..at])
      invariant forall k :: next + 1 <= k < dst.Length ==> dst[k] == old(dst[k])
    {
      dst[next] := src[i];
      if src[i] == 0 {
        return;
      }
      next, i := next + 1, i + 1;
    }
    dst[next] := 0;
  }
}
