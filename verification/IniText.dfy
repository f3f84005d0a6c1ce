/** The string helpers of the configuration reader: trimming, and finding a character.
    Strings are the characters before the terminating null. */
module IniText {

  predicate IsSpace(c: char) { c in {' ', '\t', '\n', '\U{000B}', '\U{000C}', '\r'} }

  predicate AllSpace(s: string) { forall i :: 0 <= i < |s| ==> IsSpace(s[i]) }

  /** Neither end is white space. */
  predicate Trimmed(s: string) { s == "" || (!IsSpace(s[0]) && !IsSpace(s[|s| - 1])) }

  function TrimLeft(s: string): string {
    if s == "" || !IsSpace(s[0]) then s else TrimLeft(s[1..])
  }

  function TrimRight(s: string): string {
    if s == "" || !IsSpace(s[|s| - 1]) then s else TrimRight(s[..|s| - 1])
  }

  function Trim(s: string): string { TrimRight(TrimLeft(s)) }

  lemma {:induction false} TrimLeftOf(a: string, s: string)
    requires AllSpace(a) && (s == "" || !IsSpace(s[0]))
    ensures TrimLeft(a + s) == s
  {
    if a == "" {
      assert a + s == s;
    } else {
      assert (a + s)[1..] == a[1..] + s;
      TrimLeftOf(a[1..], s);
    }
  }

  lemma {:induction false} TrimRightOf(s: string, b: string)
    requires AllSpace(b) && (s == "" || !IsSpace(s[|s| - 1]))
    ensures TrimRight(s + b) == s
  {
    if b == "" {
      assert s + b == s;
    } else {
      assert (s + b)[..|s + b| - 1] == s + b[..|b| - 1];
      TrimRightOf(s, b[..|b| - 1]);
    }
  }

  /** Trimming takes exactly the white space around a trimmed string away. */
  lemma TrimOf(a: string, t: string, b: string)
    requires AllSpace(a) && Trimmed(t) && AllSpace(b)
    ensures Trim(a + t + b) == t
  {
    if t == "" {
      assert a + t + b == (a + b) + "";
      TrimLeftOf(a + b, "");
    } else {
      assert a + t + b == a + (t + b);
      TrimLeftOf(a, t + b);
      TrimRightOf(t, b);
    }
  }

  /** Every string is its trimmed form with white space around it. */
  lemma TrimSplits(s: string) returns (a: string, b: string)
    ensures AllSpace(a) && AllSpace(b) && Trimmed(Trim(s)) && s == a + Trim(s) + b
  {
    a := LeftSplits(s);
    b := RightSplits(TrimLeft(s));
  }

  lemma {:induction false} LeftSplits(s: string) returns (a: string)
    ensures AllSpace(a) && s == a + TrimLeft(s) && (TrimLeft(s) == "" || !IsSpace(TrimLeft(s)[0]))
  {
    if s == "" || !IsSpace(s[0]) {
      a := "";
    } else {
      var a' := LeftSplits(s[1..]);
      a := [s[0]] + a';
    }
  }

  lemma {:induction false} RightSplits(s: string) returns (b: string)
    ensures AllSpace(b) && s == TrimRight(s) + b && (TrimRight(s) == "" || !IsSpace(TrimRight(s)[|TrimRight(s)| - 1]))
    ensures TrimRight(s) != "" ==> TrimRight(s)[0] == s[0]
  {
    if s == "" || !IsSpace(s[|s| - 1]) {
      b := "";
    } else {
      var b' := RightSplits(s[..|s| - 1]);
      b := b' + [s[|s| - 1]];
    }
  }

  /** The place of the first `c`, or the length if there is none. */
  function Find(s: string, c: char): (i: nat)
    ensures i <= |s| && c !in s[..i] && (i < |s| ==> s[i] == c)
  {
    if s == "" || s[0] == c then 0
    else
      var i := 1 + Find(s[1..], c);
      assert s[..i] == [s[0]] + s[1..][..i - 1];
      i
  }

  lemma {:induction false} FindAfter(a: string, c: char, b: string)
    requires c !in a
    ensures Find(a + [c] + b, c) == |a|
  {
    if a != "" {
      assert (a + [c] + b)[1..] == a[1..] + [c] + b;
      FindAfter(a[1..], c, b);
    }
  }

  lemma {:induction false} SkipLeft(s: string, i: nat)
    requires i < |s|
    ensures TrimLeft(s[i..]) == if IsSpace(s[i]) then TrimLeft(s[i + 1..]) else s[i..]
  {
    assert s[i..][1..] == s[i + 1..];
  }

  lemma {:induction false} SkipRight(s: string, i: nat, end: nat)
    requires i <= end < |s|
    ensures TrimRight(s[i..end + 1]) == if IsSpace(s[end]) then TrimRight(s[i..end]) else s[i..end + 1]
  {
    var t := s[i..end + 1];
    assert t[|t| - 1] == s[end] && t[..|t| - 1] == s[i..end];
  }

  /** Trimming in place: skip white space from the left, then cut it off on the right. */
  method TrimString(s: string) returns (r: string)
    ensures r == Trim(s)
  {
    var i := 0;
    assert s[0..] == s;
    while i < |s| && IsSpace(s[i])
      invariant i <= |s| && TrimLeft(s[i..]) == TrimLeft(s)
    {
      SkipLeft(s, i);
      i := i + 1;
    }
    if i == |s| { return ""; }
    SkipLeft(s, i);
    r := CutRight(s, i);
  }

  method CutRight(s: string, i: nat) returns (r: string)
    requires i < |s| && !IsSpace(s[i])
    ensures r == TrimRight(s[i..])
  {
    var end := |s| - 1;
    assert s[i..end + 1] == s[i..];
    while end > i && IsSpace(s[end])
      invariant i <= end < |s| && TrimRight(s[i..end + 1]) == TrimRight(s[i..])
    {
      SkipRight(s, i, end);
      end := end - 1;
    }
    SkipRight(s, i, end);
    r := s[i..end + 1];
  }

  /** The search for a character. */
  method FindChar(s: string, c: char) returns (i: nat)
    ensures i == Find(s, c)
  {
    i := 0;
    while i < |s| && s[i] != c
      invariant i <= |s| && Find(s, c) == i + Find(s[i..], c)
    {
      assert s[i..][1..] == s[i + 1..];
      i := i + 1;
    }
  }
}
