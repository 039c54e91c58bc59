/**
 * NUL-terminated strings in a caller-supplied `char` buffer: what
 * `cJSON_PrintPreallocated` leaves in the buffer, and `strlen` reading it
 * back.
 */
module CString {
  /** `s` has no NUL, so it can be stored as a C string. */
  predicate NoNul(s: string) {
    forall i :: 0 <= i < |s| ==> s[i] != '\0'
  }

  /** The buffer starts with the C string `s`: its characters, then a NUL. */
  ghost predicate Holds(a: array<char>, s: string)
    reads a
  {
    |s| < a.Length && a[..|s|] == s && a[|s|] == '\0'
  }

  /** Copy `s` and a terminating NUL to the front of `a`; the rest of the buffer is left as it was. */
  method Store(a: array<char>, s: string)
    requires |s| < a.Length
    modifies a
    ensures Holds(a, s)
    ensures a[|s| + 1..] == old(a[|s| + 1..])
  {
    var i := 0;
    while i < |s|
      invariant 0 <= i <= |s|
      invariant a[..i] == s[..i]
      invariant a[i..] == old(a[i..])
    {
      a[i] := s[i];
      assert a[..i + 1] == a[..i] + [s[i]];
      assert s[..i + 1] == s[..i] + [s[i]];
      i := i + 1;
    }
    ghost var before := a[..];
    a[|s|] := '\0';
    assert a[..|s|] == before[..|s|];
    assert s[..|s|] == s;
  }

  /** `strlen(a)`: the index of the first NUL. */
  method StrLen(a: array<char>) returns (n: nat)
    requires exists i :: 0 <= i < a.Length && a[i] == '\0'
    ensures n < a.Length && a[n] == '\0'
    ensures forall k :: 0 <= k < n ==> a[k] != '\0'
  {
    n := 0;
    while a[n] != '\0'
      invariant n < a.Length
      invariant forall k :: 0 <= k < n ==> a[k] != '\0'
      decreases a.Length - n
    {
      n := n + 1;
    }
  }

  /** Reading back a stored string that has no NUL gives its length. */
  method StoreThenMeasure(a: array<char>, s: string) returns (n: nat)
    requires |s| < a.Length && NoNul(s)
    modifies a
    ensures Holds(a, s) && n == |s|
    ensures a[|s| + 1..] == old(a[|s| + 1..])
  {
    Store(a, s);
    forall k | 0 <= k < |s| ensures a[k] != '\0' {
      assert a[k] == a[..|s|][k];
    }
    n := StrLen(a);
  }
}
