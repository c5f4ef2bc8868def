/** The string helpers of src/stringh.c and the libc comparison they rest on. */
module Strings {
  import opened Common

  // ----- comparison -----

  function ByteAt(s: string, i: nat): char {
    if i < |s| then s[i] else NUL
  }

  /** libc `strncmp` on the C strings s and t: the difference of the first differing bytes
      among the first n, or 0. */
  function Strncmp(s: string, t: string, n: nat): int
    decreases n
  {
    if n == 0 then 0
    else if ByteAt(s, 0) != ByteAt(t, 0) then ByteAt(s, 0) as int - ByteAt(t, 0) as int
    else if ByteAt(s, 0) == NUL then 0
    else Strncmp(Tail(s), Tail(t), n - 1)
  }

  function Tail(s: string): string {
    if s == "" then "" else s[1..]
  }

  /** `httpserv_streq`. */
  function Streq(s1: string, s2: string): int {
    if |s1| == |s2| then Strncmp(s1, s2, |s1|) else 1
  }

  /** Comparing as many bytes as t has tests whether s starts with t. */
  lemma {:induction false} StrncmpIsPrefixTest(s: string, t: string)
    requires NulFree(s) && NulFree(t)
    ensures Strncmp(s, t, |t|) == 0 <==> t <= s
  {
    if t != "" && s != "" && s[0] == t[0] {
      StrncmpIsPrefixTest(s[1..], t[1..]);
      assert t <= s <==> t[1..] <= s[1..] by {
        assert t == [t[0]] + t[1..] && s == [s[0]] + s[1..];
      }
    }
  }

  lemma StreqIsEquality(s1: string, s2: string)
    requires NulFree(s1) && NulFree(s2)
    ensures Streq(s1, s2) == 0 <==> s1 == s2
  {
    StrncmpIsPrefixTest(s1, s2);
  }

  // ----- whitespace stripping -----

  /** The white space of the C locale: space, tab, newline, vertical tab, form feed,
      carriage return. */
  const WHITE: string := " \t\n\U{0B}\U{0C}\r"

  /** `iswspace` for one byte in the C locale. */
  predicate IsSpace(c: char)
    ensures IsSpace(c) <==> c in " \t\n\U{0B}\U{0C}\r"
  {
    c == ' ' || '\t' <= c <= '\r'
  }

  /** The C string that starts at the first byte of the buffer b. */
  function CString(b: seq<char>): (s: string)
    requires NUL in b
    ensures |s| < |b| && s == b[..|s|] && b[|s|] == NUL && NulFree(s)
  {
    if b[0] == NUL then "" else [b[0]] + CString(b[1..])
  }

  /** A C string is the part before the first NUL, wherever that is known to be. */
  lemma {:induction false} CStringIs(b: seq<char>, n: nat)
    requires n < |b| && b[n] == NUL
    requires forall k | 0 <= k < n :: b[k] != NUL
    ensures NUL in b && CString(b) == b[..n]
  {
  }

  function TrimLeft(s: string): string {
    if s != "" && IsSpace(s[0]) then TrimLeft(s[1..]) else s
  }

  function TrimRight(s: string): string {
    if s != "" && IsSpace(s[|s| - 1]) then TrimRight(s[..|s| - 1]) else s
  }

  function Trim(s: string): string {
    TrimRight(TrimLeft(s))
  }

  ghost predicate AllSpace(s: string) {
    forall c | c in s :: c in WHITE
  }

  /** A string that stripping leaves alone, and that is not empty. */
  predicate Trimmed(s: string) {
    s != "" && s[0] !in WHITE && s[|s| - 1] !in WHITE
  }

  /** r is what is left of s when nothing but white space is taken off its left end, or its
      right end, or both, until another byte comes or nothing is left. */
  ghost predicate StrippedLeft(s: string, r: string) {
    (exists i: nat | i <= |s| :: r == s[i..] && AllSpace(s[..i])) && (r == "" || r[0] !in WHITE)
  }

  ghost predicate StrippedRight(s: string, r: string) {
    (exists j: nat | j <= |s| :: r == s[..j] && AllSpace(s[j..])) && (r == "" || r[|r| - 1] !in WHITE)
  }

  ghost predicate Stripped(s: string, r: string) {
    (exists i: nat, j: nat | i <= j <= |s| :: Inner(s, r, i, j)) && (r == "" || Trimmed(r))
  }

  ghost predicate Inner(s: string, r: string, i: nat, j: nat)
    requires i <= j <= |s|
  {
    r == s[i..j] && AllSpace(s[..i]) && AllSpace(s[j..])
  }

  lemma {:induction false} TrimLeftStrips(s: string) returns (i: nat)
    ensures i <= |s| && TrimLeft(s) == s[i..] && AllSpace(s[..i]) && StrippedLeft(s, TrimLeft(s))
  {
    if s != "" && IsSpace(s[0]) {
      i := TrimLeftStrips(s[1..]);
      i := i + 1;
      assert s[1..][i - 1..] == s[i..] && s[..i] == [s[0]] + s[1..][..i - 1];
    } else {
      i := 0;
    }
  }

  lemma {:induction false} TrimRightStrips(s: string) returns (j: nat)
    ensures j <= |s| && TrimRight(s) == s[..j] && AllSpace(s[j..]) && StrippedRight(s, TrimRight(s))
  {
    var n := |s| - 1;
    if s != "" && IsSpace(s[n]) {
      j := TrimRightStrips(s[..n]);
      assert s[..n][..j] == s[..j] && s[j..] == s[..n][j..] + [s[n]];
    } else {
      j := |s|;
      assert s[..j] == s;
    }
  }

  lemma TrimStrips(s: string)
    ensures Stripped(s, Trim(s))
  {
    var i := TrimLeftStrips(s);
    var j := TrimRightStrips(s[i..]);
    assert s[i..][..j] == s[i..i + j] && s[i..][j..] == s[i + j..];
    assert Inner(s, Trim(s), i, i + j);
  }

  /** A byte that is not white space lies between what is taken off on both sides. */
  lemma Kept(s: string, n: nat, i: nat, j: nat)
    requires n < |s| && s[n] !in WHITE
    requires i <= j <= |s| && AllSpace(s[..i]) && AllSpace(s[j..])
    ensures i <= n < j
  {
    forall m | 0 <= m < i
      ensures s[m] in WHITE
    {
      assert s[..i][m] == s[m];
    }
    forall m | j <= m < |s|
      ensures s[m] in WHITE
    {
      assert s[j..][m - j] == s[m];
    }
  }

  /** There is only one way to strip a string. */
  lemma StrippedOnce(s: string, r: string, q: string)
    requires Stripped(s, r) && Stripped(s, q) && r != ""
    ensures q == r
  {
    var i: nat, j: nat :| i <= j <= |s| && Inner(s, r, i, j);
    var k: nat, l: nat :| k <= l <= |s| && Inner(s, q, k, l);
    Kept(s, i, k, l);
    Kept(s, j - 1, k, l);
    Kept(s, k, i, j);
    Kept(s, l - 1, i, j);
  }

  /** Stripping leaves the text from the first to the last byte that is none of the six, or
      nothing if there is none, and stripping it again changes nothing. */
  lemma TrimIsInnerText(s: string, r: string)
    ensures r == Trim(s) <==> Stripped(s, r)
    ensures Trim(s) != "" ==>
              Trim(s)[0] !in " \t\n\U{0B}\U{0C}\r" && Trim(s)[|Trim(s)| - 1] !in " \t\n\U{0B}\U{0C}\r"
    ensures Trim(Trim(s)) == Trim(s)
  {
    var t := Trim(s);
    TrimStrips(s);
    if Stripped(s, r) {
      if r != "" {
        StrippedOnce(s, r, t);
      } else if t != "" {
        StrippedOnce(s, t, r);
      }
    }
  }

  /** Stripping removes exactly the white space around a trimmed text. */
  lemma TrimOfPadded(left: string, s: string, right: string)
    requires AllSpace(left) && AllSpace(right) && Trimmed(s)
    ensures Trim(left + s + right) == s
  {
    var t := left + s + right;
    var i, j := |left|, |left| + |s|;
    assert t[i..j] == s && t[..i] == left && t[j..] == right;
    assert Inner(t, s, i, j);
    TrimIsInnerText(t, s);
  }

  /** A buffer whose string s is being shifted left: the bytes before place i - 1 have moved. */
  ghost function Shifting(was: seq<char>, i: nat): seq<char>
    requires 1 <= i <= |was|
  {
    was[1..i] + was[i - 1..]
  }

  /** While the shift is under way the string keeps its length; once its terminator has
      moved, the string is one byte shorter. */
  lemma ShiftingString(was: seq<char>, s: string, i: nat)
    requires NUL in was && s == CString(was)
    requires 1 <= i <= |s| + 1 && s != ""
    ensures var b := Shifting(was, i);
            NUL in b && if i <= |s| then |CString(b)| == |s| else CString(b) == s[1..]
  {
    var b := Shifting(was, i);
    forall k | 0 <= k < |s|
      ensures was[k] != NUL
    {
      assert s[k] == was[k] && s[k] in s;
    }
    var n := if i <= |s| then |s| else |s| - 1;
    CStringIs(b, n);
    if i > |s| {
      assert b[..n] == s[1..];
    }
  }

  lemma ShiftingMoves(was: seq<char>, i: nat)
    requires 1 <= i < |was|
    ensures Shifting(was, i)[i - 1 := was[i]] == Shifting(was, i + 1)
    ensures Shifting(was, i)[i] == was[i]
  {
  }

  /** The nested loop of `httpserv_strstriplw`: it moves every byte of the string one place
      to the left, the terminator included, although it asks for `strlen` on every turn. */
  method ShiftLeft(a: array<char>)
    requires NUL in a[..] && a[0] != NUL
    modifies a
    ensures NUL in a[..] && CString(a[..]) == CString(old(a[..]))[1..]
  {
    ghost var was := a[..];
    ghost var s := CString(was);
    var i := 1;
    assert was == Shifting(was, 1);
    while i <= |CString(a[..])|
      invariant 1 <= i <= |s| + 1 <= |was|
      invariant a[..] == Shifting(was, i)
      invariant NUL in a[..] && if i <= |s| then |CString(a[..])| == |s| else CString(a[..]) == s[1..]
      decreases |s| + 1 - i
    {
      ShiftingMoves(was, i);
      ShiftingString(was, s, i + 1);
      assert a[..][i] == was[i];
      a[i - 1] := a[i];
      assert a[..] == Shifting(was, i)[i - 1 := was[i]];
      i := i + 1;
    }
  }

  /** `httpserv_strstriplw`; a null pointer is left alone. */
  method StripLeft(a: array?<char>)
    requires a != null ==> NUL in a[..]
    modifies a
    ensures a != null ==> NUL in a[..] && CString(a[..]) == TrimLeft(CString(old(a[..])))
    ensures a != null ==> StrippedLeft(CString(old(a[..])), CString(a[..]))
  {
    if a == null {
      return;
    }
    ghost var i := TrimLeftStrips(CString(a[..]));
    while IsSpace(a[0])
      invariant NUL in a[..]
      invariant TrimLeft(CString(a[..])) == TrimLeft(CString(old(a[..])))
      decreases |CString(a[..])|
    {
      ShiftLeft(a);
    }
  }

  /** Writing a terminator over the last byte of the string. */
  method CutLast(a: array<char>)
    requires NUL in a[..] && CString(a[..]) != ""
    modifies a
    ensures NUL in a[..]
    ensures var s := CString(old(a[..])); CString(a[..]) == s[..|s| - 1]
  {
    ghost var s := CString(a[..]);
    a[|CString(a[..])| - 1] := NUL;
    assert a[..][..|s| - 1] == s[..|s| - 1];
    assert forall k | 0 <= k < |s| - 1 :: a[..][k] == s[k] && s[k] in s;
    CStringIs(a[..], |s| - 1);
  }

  lemma {:induction false} TrimRightEmptyIff(s: string)
    ensures TrimRight(s) == "" <==> AllSpace(s)
  {
    if s != "" {
      var n := |s| - 1;
      assert s == s[..n] + [s[n]];
      TrimRightEmptyIff(s[..n]);
    }
  }

  /** `httpserv_strstriptw`. It looks at the byte before the terminator without asking
      whether there is one: on a string of white space only it ends up with the empty string
      and reads the byte before that. `underflow` says that it does. */
  method StripRight(a: array?<char>) returns (underflow: bool)
    requires a != null ==> NUL in a[..]
    modifies a
    ensures a != null ==> NUL in a[..] && CString(a[..]) == TrimRight(CString(old(a[..])))
    ensures a != null ==> StrippedRight(CString(old(a[..])), CString(a[..]))
    ensures underflow <==> a != null && AllSpace(CString(old(a[..])))
  {
    if a == null {
      return false;
    }
    ghost var was := CString(a[..]);
    while CString(a[..]) != "" && IsSpace(a[|CString(a[..])| - 1])
      invariant NUL in a[..]
      invariant TrimRight(CString(a[..])) == TrimRight(was)
      decreases |CString(a[..])|
    {
      CutLast(a);
    }
    TrimRightEmptyIff(was);
    ghost var j := TrimRightStrips(was);
    underflow := CString(a[..]) == "";
  }

  /** `httpserv_strstripltw`. */
  method StripBoth(a: array?<char>) returns (underflow: bool)
    requires a != null ==> NUL in a[..]
    modifies a
    ensures a != null ==> NUL in a[..] && CString(a[..]) == Trim(CString(old(a[..])))
    ensures a != null ==> Stripped(CString(old(a[..])), CString(a[..]))
    ensures underflow <==> a != null && AllSpace(CString(old(a[..])))
  {
    if a == null {
      return false;
    }
    TrimLeftKeepsText(CString(a[..]));
    TrimStrips(CString(a[..]));
    StripLeft(a);
    underflow := StripRight(a);
  }

  lemma {:induction false} TrimLeftKeepsText(s: string)
    ensures AllSpace(TrimLeft(s)) <==> AllSpace(s)
  {
    if s != "" && IsSpace(s[0]) {
      TrimLeftKeepsText(s[1..]);
      assert s == [s[0]] + s[1..];
    }
  }
}
