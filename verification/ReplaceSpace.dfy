/** replaceSpace of lc/strings.cpp (lines 7-27): every space becomes "%20", in place, from the back. */
module ReplaceSpace {

  function Spaces(s: string): (n: nat)
    ensures n <= |s|
  {
    if s == [] then 0 else Spaces(s[..|s| - 1]) + if s[|s| - 1] == ' ' then 1 else 0
  }

  function Image(c: char): string { if c == ' ' then "%20" else [c] }

  function Expand(s: string): (r: string)
    decreases |s|
  {
    if s == [] then [] else Expand(s[..|s| - 1]) + Image(s[|s| - 1])
  }

  lemma PrefixMore(s: string, i: nat)
    requires i < |s|
    ensures Spaces(s[..i + 1]) == Spaces(s[..i]) + if s[i] == ' ' then 1 else 0
    ensures Expand(s[..i + 1]) == Expand(s[..i]) + Image(s[i])
  {
    assert s[..i + 1][..i] == s[..i];
  }

  lemma {:induction false} ExpandLength(s: string)
    ensures |Expand(s)| == |s| + 2 * Spaces(s)
    decreases |s|
  {
    if s != [] { ExpandLength(s[..|s| - 1]); }
  }

  lemma {:induction false} NoSpaces(s: string)
    requires Spaces(s) == 0
    ensures Expand(s) == s
    decreases |s|
  {
    if s != [] { NoSpaces(s[..|s| - 1]); }
  }

  lemma Regroup(a: string, b: string, c: string)
    ensures (a + b) + c == a + (b + c)
  {
  }

  lemma {:induction false} ExpandConcat(s: string, t: string)
    ensures Expand(s + t) == Expand(s) + Expand(t)
    decreases |t|
  {
    if t == [] {
      assert s + t == s;
    } else {
      var t0 := t[..|t| - 1];
      ExpandConcat(s, t0);
      assert (s + t)[..|s + t| - 1] == s + t0;
      Regroup(Expand(s), Expand(t0), Image(t[|t| - 1]));
    }
  }

  lemma ExpandPrefix(s: string, i: nat)
    requires i <= |s|
    ensures Expand(s[..i]) <= Expand(s)
  {
    var p, q := s[..i], s[i..];
    assert s == p + q;
    ExpandConcat(p, q);
    IsPrefix(Expand(p), Expand(q));
  }

  lemma IsPrefix(a: string, b: string)
    ensures a <= a + b
  {
  }

  /** Where the image of s[i] ends in the expansion: two further on for every space up to it. */
  function EndOf(s: string, i: int): int
    requires -1 <= i < |s|
  {
    i + 2 * Spaces(s[..i + 1])
  }

  lemma PrefixImage(s: string, i: nat)
    requires i < |s|
    ensures |Expand(s[..i])| == EndOf(s, i - 1) + 1 && |Expand(s[..i + 1])| == EndOf(s, i) + 1
    ensures Expand(s[..i]) + Image(s[i]) <= Expand(s)
  {
    PrefixMore(s, i);
    ExpandLength(s[..i]);
    ExpandLength(s[..i + 1]);
    ExpandPrefix(s, i + 1);
  }

  lemma ImageAt(s: string, i: nat)
    requires i < |s|
    ensures i - 1 <= EndOf(s, i - 1) && EndOf(s, i - 1) + |Image(s[i])| == EndOf(s, i) < |Expand(s)|
    ensures var e, j := Expand(s), EndOf(s, i);
      if s[i] == ' ' then e[j - 2] == '%' && e[j - 1] == '2' && e[j] == '0' else e[j] == s[i]
  {
    PrefixImage(s, i);
    PrefixMore(s, i);
  }

  /** Once the two positions meet, the rest is in place already. */
  lemma RestInPlace(s: string, i: int)
    requires -1 <= i < |s| && EndOf(s, i) <= i
    ensures s[..i + 1] <= Expand(s)
  {
    NoSpaces(s[..i + 1]);
    ExpandPrefix(s, i + 1);
  }

  /** Lines 10-15. */
  method CountSpaces(s: string) returns (count: nat)
    ensures count == Spaces(s)
  {
    count := 0;
    for k := 0 to |s|
      invariant count == Spaces(s[..k])
    {
      PrefixMore(s, k);
      if s[k] == ' ' { count := count + 1; }
    }
    assert s[..|s|] == s;
  }

  /** The writes run `j - i`, twice the unread spaces, ahead of the reads, so no unread character is lost. */
  method ReplaceSpaces(s: string) returns (r: string)
    ensures r == Expand(s)
  {
    var count := CountSpaces(s);
    var len := |s|;
    var a := new char[len + 2 * count](k => if 0 <= k < len then s[k] else '\0');
    ExpandLength(s);
    assert s[..len] == s;
    var i, j := len - 1, a.Length - 1;
    while i < j
      invariant -1 <= i < len && j == EndOf(s, i) < a.Length
      invariant forall k :: 0 <= k <= i ==> a[k] == s[k]
      invariant forall k :: j < k < a.Length ==> a[k] == Expand(s)[k]
      decreases i
    {
      i, j := ReplaceOne(a, s, i, j);
    }
    RestInPlace(s, i);
    r := a[..];
  }

  /** One turn of the loop at lines 18-25. */
  method ReplaceOne(a: array<char>, ghost s: string, i: int, j: int) returns (i': int, j': int)
    requires -1 <= i < |s| && i < j == EndOf(s, i) < a.Length == |Expand(s)|
    requires forall k :: 0 <= k <= i ==> a[k] == s[k]
    requires forall k :: j < k < a.Length ==> a[k] == Expand(s)[k]
    modifies a
    ensures -1 <= i' == i - 1 && j' == EndOf(s, i') < j
    ensures forall k :: 0 <= k <= i' ==> a[k] == s[k]
    ensures forall k :: j' < k < a.Length ==> a[k] == Expand(s)[k]
  {
    assert i >= 0;
    ImageAt(s, i);
    j' := j;
    if a[i] != ' ' {
      a[j'] := a[i];
    } else {
      a[j'] := '0';
      j' := j' - 1;
      a[j'] := '2';
      j' := j' - 1;
      a[j'] := '%';
    }
    i', j' := i - 1, j' - 1;
  }

  // ---------- the way back ----------

  predicate CodeAt(s: string, i: int) {
    0 <= i && i + 3 <= |s| && s[i] == '%' && s[i + 1] == '2' && s[i + 2] == '0'
  }

  /** Every "%20" read from the left becomes a space. */
  function Decode(s: string): (r: string) {
    if s == [] then []
    else if CodeAt(s, 0) then [' '] + Decode(s[3..])
    else [s[0]] + Decode(s[1..])
  }

  lemma ExpandOne(c: char)
    ensures Expand([c]) == Image(c)
  {
    assert [c][..0] == [];
  }

  /** The expansion read from the front. */
  lemma ExpandFront(s: string)
    requires s != []
    ensures Expand(s) == Image(s[0]) + Expand(s[1..])
  {
    ExpandConcat([s[0]], s[1..]);
    assert s == [s[0]] + s[1..];
    ExpandOne(s[0]);
  }

  lemma FrontChar(s: string)
    requires s != []
    ensures Expand(s) != [] && Expand(s)[0] == if s[0] == ' ' then '%' else s[0]
  {
    ExpandFront(s);
  }

  /** A code at the front of the expansion comes from a space or from a code. */
  lemma CodeInFront(s: string)
    requires s != []
    ensures CodeAt(Expand(s), 0) <==> s[0] == ' ' || CodeAt(s, 0)
  {
    ExpandFront(s);
    if s[0] == '%' && |s| > 1 {
      FrontChar(s[1..]);
      if s[1] == '2' { ZeroNext(s[1..]); }
    }
  }

  lemma ZeroNext(s: string)
    requires s != [] && s[0] == '2'
    ensures |Expand(s)| > 1 && Expand(s)[1] == '0' <==> |s| > 1 && s[1] == '0'
  {
    ExpandFront(s);
    if |s| > 1 { FrontChar(s[1..]); }
  }

  lemma ExpandCode(s: string)
    requires CodeAt(s, 0)
    ensures Expand(s) == "%20" + Expand(s[3..])
  {
    var t := s[1..];
    assert t[1..] == s[2..] && s[2..][1..] == s[3..];
    ExpandFront(s);
    ExpandFront(t);
    ExpandFront(s[2..]);
    ThreeInFront(Expand(s[3..]));
  }

  lemma ThreeInFront(e: string)
    ensures "%" + ("2" + ("0" + e)) == "%20" + e
  {
  }

  /** Decoding gives the same text before and after the expansion. */
  lemma {:induction false} DecodeIgnoresExpand(s: string)
    ensures Decode(Expand(s)) == Decode(s)
    decreases |s|
  {
    if s != [] {
      CodeInFront(s);
      ExpandFront(s);
      if CodeAt(s, 0) {
        ExpandCode(s);
        DecodeIgnoresExpand(s[3..]);
        assert Expand(s)[3..] == Expand(s[3..]);
      } else {
        DecodeIgnoresExpand(s[1..]);
        assert Expand(s)[|Image(s[0])|..] == Expand(s[1..]);
      }
    }
  }

  lemma {:induction false} DecodeIsIdentityIff(s: string)
    ensures Decode(s) == s <==> forall i :: !CodeAt(s, i)
    decreases |s|
  {
    if s != [] && !CodeAt(s, 0) {
      DecodeIsIdentityIff(s[1..]);
      assert forall i :: CodeAt(s[1..], i) ==> CodeAt(s, i + 1);
      assert forall i :: CodeAt(s, i) ==> CodeAt(s[1..], i - 1);
    } else if s != [] {
      assert Decode(s)[0] == ' ';
    }
  }

  /** Decoding undoes the replacement if and only if the input has no "%20" of its own. */
  lemma DecodeUndoesIff(s: string)
    ensures Decode(Expand(s)) == s <==> forall i :: !CodeAt(s, i)
  {
    DecodeIgnoresExpand(s);
    DecodeIsIdentityIff(s);
  }

  lemma {:induction false} ExpandIgnoresDecode(s: string)
    ensures Expand(Decode(s)) == Expand(s)
    decreases |s|
  {
    if s != [] {
      ExpandFront(s);
      ExpandFront(Decode(s));
      if CodeAt(s, 0) {
        ExpandCode(s);
        ExpandIgnoresDecode(s[3..]);
      } else {
        ExpandIgnoresDecode(s[1..]);
      }
    }
  }

  /** Two inputs get the same result exactly when they decode to the same text. */
  lemma CollisionsIff(s: string, t: string)
    ensures Expand(s) == Expand(t) <==> Decode(s) == Decode(t)
  {
    DecodeIgnoresExpand(s);
    DecodeIgnoresExpand(t);
    ExpandIgnoresDecode(s);
    ExpandIgnoresDecode(t);
  }

  /** The input "%20" comes out as it is and is then decoded to a space. */
  lemma NotAlwaysUndone()
    ensures Expand("%20") == "%20" && Decode(Expand("%20")) == " "
  {
    var s := "%20";
    assert CodeAt(s, 0) && s[3..] == [];
    ExpandCode(s);
    assert Decode(s) == [' '] + Decode(s[3..]);
  }
}
