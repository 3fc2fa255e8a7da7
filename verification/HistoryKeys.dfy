/** History lines as hash keys (hashtable.c): lines are compared and hashed without regard
    to how much blank space is in them. */
module HistoryKeys {
  import opened Bytes

  /** A C string: no NUL. */
  type Line = s: seq<Byte> | 0 !in s

  const TAB: Byte := 9
  const WORD := 0x1_0000_0000

  /** `inblank`: a blank, or a newline. */
  predicate InBlank(b: Byte) {
    b == SPACE || b == TAB || b == NEWLINE
  }

  /** The byte at `i`, the NUL after the last. */
  function At(s: Line, i: nat): Byte {
    if i < |s| then s[i] else 0
  }

  function SkipBlanks(s: Line): (r: Line)
    ensures |r| <= |s| && (r != [] ==> !InBlank(r[0]))
  {
    if s != [] && InBlank(s[0]) then SkipBlanks(s[1..]) else s
  }

  /** Each run of blanks as one space. */
  function Collapse(s: Line): seq<Byte>
    decreases |s|
  {
    if s == [] then []
    else if InBlank(s[0]) then [SPACE] + Collapse(SkipBlanks(s))
    else [s[0]] + Collapse(s[1..])
  }

  /** What of a line counts: blanks in front do not, and others only as one space, unless
      the lines have had superfluous blanks removed already. */
  function Key(s: Line, reduced: bool): seq<Byte> {
    if reduced then SkipBlanks(s) else Collapse(SkipBlanks(s))
  }

  method SkipFrom(s: Line, from: nat) returns (i: nat)
    requires from <= |s|
    ensures from <= i <= |s| && s[i..] == SkipBlanks(s[from..])
  {
    i := from;
    while InBlank(At(s, i))
      invariant from <= i <= |s| && SkipBlanks(s[i..]) == SkipBlanks(s[from..])
      decreases |s| - i
    {
      assert s[i..][1..] == s[i + 1..];
      i := i + 1;
    }
  }

  /** `histstrcmp`: zero exactly for lines of which the same counts. */
  method HistStrCmp(str1: Line, str2: Line, reduced: bool) returns (r: int)
    ensures r == 0 <==> Key(str1, reduced) == Key(str2, reduced)
  {
    var i := SkipFrom(str1, 0);
    var j := SkipFrom(str2, 0);
    assert str1[0..] == str1 && str2[0..] == str2;
    if reduced {
      r := StrCmp(str1[i..], str2[j..]);
    } else {
      r := CompareFrom(str1, str2, i, j);
    }
  }

  /** The loop that compares, runs of blanks counting as one. */
  method CompareFrom(str1: Line, str2: Line, from1: nat, from2: nat) returns (r: int)
    requires from1 <= |str1| && from2 <= |str2|
    ensures r == 0 <==> Collapse(str1[from1..]) == Collapse(str2[from2..])
  {
    hide Collapse, SkipBlanks;
    var i, j := from1, from2;
    ghost var same := Collapse(str1[i..]) == Collapse(str2[j..]);
    while At(str1, i) != 0 && At(str2, j) != 0
      invariant i <= |str1| && j <= |str2|
      invariant Collapse(str1[i..]) == Collapse(str2[j..]) <==> same
      decreases |str1| - i
    {
      var (s, t) := (str1[i..], str2[j..]);
      CollapseStep(s, t);
      if InBlank(str1[i]) {
        if !InBlank(str2[j]) {
          break;
        }
        i := SkipRun(str1, i);
        j := SkipRun(str2, j);
      } else {
        if str1[i] != str2[j] {
          break;
        }
        assert s[1..] == str1[i + 1..] && t[1..] == str2[j + 1..];
        i, j := i + 1, j + 1;
      }
    }
    r := At(str1, i) - At(str2, j);
    CollapseEnds(str1[i..], str2[j..]);
  }

  /** `do` `while`: a blank, and those after it. */
  method SkipRun(s: Line, from: nat) returns (i: nat)
    requires from < |s| && InBlank(s[from])
    ensures from < i <= |s| && s[i..] == SkipBlanks(s[from..])
  {
    i := SkipFrom(s, from + 1);
    assert s[from..][1..] == s[from + 1..];
  }

  /** `strcmp`. */
  method StrCmp(s: Line, t: Line) returns (r: int)
    ensures r == 0 <==> s == t
  {
    var i := 0;
    while At(s, i) != 0 && At(s, i) == At(t, i)
      invariant i <= |s| && i <= |t| && s[..i] == t[..i]
      decreases |s| - i
    {
      i := i + 1;
    }
    r := At(s, i) - At(t, i);
    if r == 0 {
      assert s == s[..i] && t == t[..i];
    }
  }

  lemma CollapseStep(s: Line, t: Line)
    requires s != [] && t != []
    ensures InBlank(s[0]) && InBlank(t[0]) ==>
              (Collapse(s) == Collapse(t) <==> Collapse(SkipBlanks(s)) == Collapse(SkipBlanks(t)))
    ensures !InBlank(s[0]) && s[0] == t[0] ==> (Collapse(s) == Collapse(t) <==> Collapse(s[1..]) == Collapse(t[1..]))
  {
    var (c, d) := (Collapse(s), Collapse(t));
    if InBlank(s[0]) && InBlank(t[0]) {
      assert c[1..] == Collapse(SkipBlanks(s)) && d[1..] == Collapse(SkipBlanks(t));
    } else if !InBlank(s[0]) && s[0] == t[0] {
      assert c[1..] == Collapse(s[1..]) && d[1..] == Collapse(t[1..]);
    }
  }

  /** Where the comparison stops, the next bytes tell whether the lines differ. */
  lemma CollapseEnds(s: Line, t: Line)
    requires s == [] || t == [] || (InBlank(s[0]) != InBlank(t[0])) || (!InBlank(s[0]) && s[0] != t[0])
    ensures Collapse(s) == Collapse(t) <==> At(s, 0) == At(t, 0)
  {
    if s != [] && t != [] {
      assert Collapse(s)[0] != Collapse(t)[0];
    }
  }

  function HashStep(h: int, b: int): int {
    (h + h * 32 + b) % WORD
  }

  function Hash(s: seq<Byte>, h: int): int {
    if s == [] then h else Hash(s[1..], HashStep(h, s[0]))
  }

  /** What is hashed: as `Collapse`, without a space at the end. */
  function Trimmed(s: seq<Byte>): seq<Byte> {
    if s != [] && s[|s| - 1] == SPACE then s[..|s| - 1] else s
  }

  /** `histhasher`. */
  method HistHasher(str: Line) returns (hashval: int)
    ensures hashval == HashOf(str)
  {
    hide Collapse, SkipBlanks, Trimmed, HashStep;
    hashval := 0;
    var i := SkipFrom(str, 0);
    TrimmedNone();
    assert str[0..] == str;
    while At(str, i) != 0
      invariant i <= |str|
      invariant Hash(Trimmed(Collapse(str[i..])), hashval) == Hash(Trimmed(Collapse(SkipBlanks(str))), 0)
      decreases |str| - i
    {
      var s := str[i..];
      TrimmedStep(s);
      if InBlank(str[i]) {
        i := SkipRun(str, i);
        if At(str, i) != 0 {
          hashval := HashStep(hashval, SPACE);
        }
      } else {
        assert s[1..] == str[i + 1..];
        hashval := HashStep(hashval, str[i]);
        i := i + 1;
      }
    }
  }

  lemma TrimmedStep(s: Line)
    requires s != []
    ensures InBlank(s[0]) ==>
              Trimmed(Collapse(s)) == if SkipBlanks(s) == [] then [] else [SPACE] + Trimmed(Collapse(SkipBlanks(s)))
    ensures !InBlank(s[0]) ==> Trimmed(Collapse(s)) == [s[0]] + Trimmed(Collapse(s[1..]))
  {
    hide Collapse, SkipBlanks, Trimmed;
    CollapseOne(s);
    if InBlank(s[0]) {
      CollapseSome(SkipBlanks(s));
      TrimmedCons(SPACE, Collapse(SkipBlanks(s)));
    } else {
      CollapseSome(s[1..]);
      TrimmedCons(s[0], Collapse(s[1..]));
    }
  }

  lemma CollapseSome(s: Line)
    ensures Collapse(s) == [] <==> s == []
  {
  }

  lemma TrimmedCons(b: Byte, s: seq<Byte>)
    ensures s != [] ==> Trimmed([b] + s) == [b] + Trimmed(s)
    ensures Trimmed([b]) == (if b == SPACE then [] else [b]) && Trimmed([]) == [] && [b] + [] == [b]
  {
    var t := [b] + s;
    assert t[|t| - 1] == if s == [] then b else s[|s| - 1];
    if s != [] {
      assert t[..|t| - 1] == [b] + s[..|s| - 1];
    }
  }

  lemma TrimmedNone()
    ensures Trimmed(Collapse([])) == []
  {
  }

  /** The hash value of a line. */
  function HashOf(s: Line): int {
    Hash(Trimmed(Collapse(SkipBlanks(s))), 0)
  }

  /** Equal lines have equal hash values, so looking in one bucket misses none. */
  lemma EqualHashes(s: Line, t: Line, reduced: bool)
    requires Key(s, reduced) == Key(t, reduced)
    ensures HashOf(s) == HashOf(t)
  {
  }

  /** Lines that differ only in the space at the end are told apart, yet hash alike. */
  lemma {:induction false} TrailingBlank(s: Line, b: Byte)
    requires s != [] && InBlank(b) && !InBlank(s[|s| - 1])
    ensures HashOf(s) == HashOf(s + [b]) && Key(s, false) != Key(s + [b], false)
  {
    SkipBlanksMore(s, b);
    CollapseMore(SkipBlanks(s), b);
  }

  lemma {:induction false} SkipBlanksMore(s: Line, b: Byte)
    requires s != [] && b != 0 && !InBlank(s[|s| - 1])
    ensures SkipBlanks(s + [b]) == SkipBlanks(s) + [b]
    ensures SkipBlanks(s) != [] && SkipBlanks(s)[|SkipBlanks(s)| - 1] == s[|s| - 1]
  {
    if InBlank(s[0]) {
      assert (s + [b])[1..] == s[1..] + [b];
      SkipBlanksMore(s[1..], b);
    }
  }

  lemma {:induction false} CollapseMore(s: Line, b: Byte)
    requires s != [] && InBlank(b) && !InBlank(s[|s| - 1])
    ensures Collapse(s + [b]) == Collapse(s) + [SPACE]
    ensures Collapse(s) != [] && Collapse(s)[|Collapse(s)| - 1] == s[|s| - 1]
    decreases |s|
  {
    hide Collapse, SkipBlanks;
    var t := s + [b];
    CollapseOne(s);
    CollapseOne(t);
    if InBlank(s[0]) {
      SkipBlanksMore(s, b);
      CollapseMore(SkipBlanks(s), b);
    } else if |s| == 1 {
      assert t[1..] == [b] && s[1..] == [];
      CollapseBlank(b);
    } else {
      assert t[1..] == s[1..] + [b];
      CollapseMore(s[1..], b);
    }
  }

  lemma CollapseOne(s: Line)
    requires s != []
    ensures Collapse(s) == if InBlank(s[0]) then [SPACE] + Collapse(SkipBlanks(s)) else [s[0]] + Collapse(s[1..])
    ensures InBlank(s[0]) ==> |SkipBlanks(s)| < |s|
  {
  }

  lemma CollapseBlank(b: Byte)
    requires InBlank(b)
    ensures Collapse([b]) == [SPACE] && Collapse([]) == []
  {
    assert SkipBlanks([b]) == [];
  }
}
