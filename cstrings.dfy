/**
 * The C string routines scene.c relies on. A C string is modelled by the
 * characters before its terminating NUL, so it never contains '\0'; the end of
 * a string compares below every character, as the terminator does in C.
 */
module CStrings {

  /** strcmp, up to the sign of the result. */
  function StrCmp(a: string, b: string): int
  {
    if a == [] && b == [] then 0
    else if a == [] then -1
    else if b == [] then 1
    else if a[0] < b[0] then -1
    else if a[0] > b[0] then 1
    else StrCmp(a[1..], b[1..])
  }

  /** strncmp: compares at most n characters. */
  function StrnCmp(a: string, b: string, n: nat): int
  {
    if n == 0 || (a == [] && b == []) then 0
    else if a == [] then -1
    else if b == [] then 1
    else if a[0] < b[0] then -1
    else if a[0] > b[0] then 1
    else StrnCmp(a[1..], b[1..], n - 1)
  }

  lemma {:induction false} StrCmpZero(a: string, b: string)
    ensures StrCmp(a, b) == 0 <==> a == b
  {
    if a != [] && b != [] && a[0] == b[0] {
      StrCmpZero(a[1..], b[1..]);
      assert a == [a[0]] + a[1..] && b == [b[0]] + b[1..];
    }
  }

  /**
   * When b has at least n characters, strncmp(a, b, n) is 0 exactly when the
   * first n characters of b are a prefix of a.
   */
  lemma {:induction false} StrnCmpPrefix(a: string, b: string, n: nat)
    requires n <= |b|
    ensures StrnCmp(a, b, n) == 0 <==> b[..n] <= a
  {
    if n > 0 && a != [] && a[0] == b[0] {
      StrnCmpPrefix(a[1..], b[1..], n - 1);
      assert b[..n] == [b[0]] + b[1..][..n - 1];
      assert a == [a[0]] + a[1..];
    }
  }

  /** parse_bool: "true" and "1" are true, everything else is false. */
  function ParseBool(s: string): (b: bool)
    ensures b <==> s == "true" || s == "1"
  {
    StrCmpZero(s, "true");
    StrCmpZero(s, "1");
    StrCmp(s, "true") == 0 || StrCmp(s, "1") == 0
  }

  /** The C string a buffer holds: its characters up to the first NUL. */
  function CStr(buf: seq<char>): (s: string)
    ensures '\0' !in s && |s| <= |buf|
  {
    if buf == [] || buf[0] == '\0' then [] else [buf[0]] + CStr(buf[1..])
  }

  /** A string followed by its terminator reads back as itself. */
  lemma {:induction false} CStrTerminated(s: string, rest: seq<char>)
    requires '\0' !in s
    ensures CStr(s + ['\0'] + rest) == s
  {
    if s != [] {
      CStrTerminated(s[1..], rest);
      assert (s + ['\0'] + rest)[1..] == s[1..] + ['\0'] + rest;
    }
  }

  /**
   * strdup: a fresh buffer of strlen + 1 characters holding a copy of the string
   * and its terminator (malloc is taken to succeed).
   */
  method Strdup(s: string) returns (r: array<char>)
    requires '\0' !in s
    ensures fresh(r) && r.Length == |s| + 1
    ensures r[..|s|] == s && r[|s|] == '\0'
    ensures CStr(r[..]) == s
  {
    var len := |s|;
    r := new char[len + 1];
    forall k | 0 <= k < len {
      r[k] := s[k];
    }
    r[len] := '\0';
    assert r[..] == s + ['\0'] + [];
    CStrTerminated(s, []);
  }
}
