/** NUL-terminated strings in character arrays. */
module CStrings {
  const NUL: char := '\0'

  /** The string `s` starts at `i`. */
  ghost predicate StrAt(a: seq<char>, i: nat, s: string) {
    i + |s| < |a| && a[i..i + |s|] == s && a[i + |s|] == NUL && NUL !in s
  }

  /** What a reader finds from `i` on. */
  function CStr(a: seq<char>, i: nat := 0): string
    requires i <= |a|
    decreases |a| - i
  {
    if i == |a| || a[i] == NUL then [] else [a[i]] + CStr(a, i + 1)
  }

  lemma {:induction false} CStrOf(a: seq<char>, i: nat, s: string)
    requires StrAt(a, i, s)
    ensures CStr(a, i) == s
    decreases |s|
  {
    if s != [] {
      assert a[i] == s[0];
      assert a[i + 1..i + |s|] == s[1..];
      CStrOf(a, i + 1, s[1..]);
    }
  }

  lemma CharAt(a: seq<char>, i: nat, s: string, k: nat)
    requires StrAt(a, i, s) && k <= |s|
    ensures a[i + k] == (if k < |s| then s[k] else NUL)
    ensures k < |s| ==> a[i + k] != NUL
  {
    if k < |s| {
      assert a[i..i + |s|][k] == s[k];
    }
  }

  lemma SuffixAt(a: seq<char>, i: nat, s: string, k: nat)
    requires StrAt(a, i, s) && k <= |s|
    ensures StrAt(a, i + k, s[k..])
  {
    assert a[i + k..i + |s|] == a[i..i + |s|][k..];
  }

  /** A NUL written into a string splits it in two. */
  lemma CutAt(a: seq<char>, i: nat, s: string, k: nat)
    requires StrAt(a, i, s) && k < |s|
    ensures var a' := a[i + k := NUL];
            StrAt(a', i, s[..k]) && StrAt(a', i + k + 1, s[k + 1..])
  {
    var a' := a[i + k := NUL];
    assert a'[i..i + k] == a[i..i + |s|][..k];
    assert a'[i + k + 1..i + |s|] == a[i..i + |s|][k + 1..];
  }

  /** Changes outside a string and its terminator leave it alone. */
  lemma Untouched(a: seq<char>, a': seq<char>, i: nat, s: string)
    requires StrAt(a, i, s) && |a'| == |a|
    requires forall k :: i <= k <= i + |s| ==> a'[k] == a[k]
    ensures StrAt(a', i, s)
  {
    assert a'[i..i + |s|] == a[i..i + |s|];
  }

  method StrLen(a: array<char>, i: nat, ghost s: string) returns (n: nat)
    requires StrAt(a[..], i, s)
    ensures n == |s|
  {
    n := 0;
    CharAt(a[..], i, s, 0);
    while a[i + n] != NUL
      invariant n <= |s|
      invariant a[i + n] == if n < |s| then s[n] else NUL
      decreases |s| - n
    {
      n := n + 1;
      CharAt(a[..], i, s, n);
    }
    CharAt(a[..], i, s, n);
  }

  /** The characters of a string, as a callee that is given a pointer to it sees them. */
  method Text(a: array<char>, i: nat, ghost s: string) returns (t: string)
    requires StrAt(a[..], i, s)
    ensures t == s
  {
    var n := StrLen(a, i, s);
    t := a[i..i + n];
    assert a[i..i + n] == a[..][i..i + n];
  }
}
