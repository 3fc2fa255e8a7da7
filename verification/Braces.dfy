/** Brace expansion with commas (glob.c): words with nested alternatives, how the tokens are
    matched, and the list of words they stand for. */
module Braces {
  import opened Bytes
  import opened LinkLists

  const INBRACE: Byte := 0x8f
  const OUTBRACE: Byte := 0x90
  const COMMA: Byte := 0x9a

  predicate IsToken(b: Byte) {
    b == INBRACE || b == OUTBRACE || b == COMMA || b == 0
  }

  /** A byte that is no token. */
  type Char = b: Byte | !IsToken(b) witness 97

  /** A word, with at least one comma inside every pair of braces. */
  datatype Word = End | Lit(c: Char, next: Word) | Brace(first: Word, others: Alts, next: Word)
  datatype Alts = Last(word: Word) | More(word: Word, rest: Alts)

  function Flatten(w: Word): seq<Byte> {
    match w
    case End => []
    case Lit(c, next) => [c] + Flatten(next)
    case Brace(first, others, next) => [INBRACE] + (Flatten(first) + FlattenAlts(others)) + [OUTBRACE] + Flatten(next)
  }

  function FlattenAlts(a: Alts): seq<Byte> {
    match a
    case Last(w) => [COMMA] + Flatten(w)
    case More(w, rest) => [COMMA] + Flatten(w) + FlattenAlts(rest)
  }

  /** Every one of `a` followed by every one of `b`, the second varying faster. */
  function Cross(a: seq<Datum>, b: seq<Datum>): seq<Datum> {
    if a == [] then [] else Prefixed(a[0], b) + Cross(a[1..], b)
  }

  function Prefixed(p: Datum, b: seq<Datum>): (r: seq<Datum>)
    ensures |r| == |b| && forall i :: 0 <= i < |b| ==> r[i] == p + b[i]
  {
    seq(|b|, i requires 0 <= i < |b| => p + b[i])
  }

  /** The words a word stands for: alternatives from left to right, and their cross product
      with what follows. */
  function Meaning(w: Word): seq<Datum> {
    match w
    case End => [[]]
    case Lit(c, next) => Prefixed([c], Meaning(next))
    case Brace(first, others, next) => Cross(Meaning(first) + MeaningAlts(others), Meaning(next))
  }

  function MeaningAlts(a: Alts): seq<Datum> {
    match a
    case Last(w) => Meaning(w)
    case More(w, rest) => Meaning(w) + MeaningAlts(rest)
  }

  function Join(a: Word, b: Word): Word {
    match a
    case End => b
    case Lit(c, next) => Lit(c, Join(next, b))
    case Brace(first, others, next) => Brace(first, others, Join(next, b))
  }

  predicate HasBrace(w: Word) {
    match w
    case End => false
    case Lit(_, next) => HasBrace(next)
    case Brace(_, _, _) => true
  }

  /** The words one expansion makes of a word: its first braces replaced by each alternative. */
  function Unfold(w: Word): (r: seq<Word>)
    ensures HasBrace(w) <==> r != []
  {
    match w
    case End => []
    case Lit(c, next) => Lits(c, Unfold(next))
    case Brace(first, others, next) => [Join(first, next)] + UnfoldAlts(others, next)
  }

  function Lits(c: Char, ws: seq<Word>): (r: seq<Word>)
    ensures |r| == |ws| && forall i :: 0 <= i < |ws| ==> r[i] == Lit(c, ws[i])
  {
    seq(|ws|, i requires 0 <= i < |ws| => Lit(c, ws[i]))
  }

  function UnfoldAlts(a: Alts, next: Word): (r: seq<Word>)
    ensures r != []
  {
    match a
    case Last(w) => [Join(w, next)]
    case More(w, rest) => [Join(w, next)] + UnfoldAlts(rest, next)
  }

  function Meanings(ws: seq<Word>): seq<Datum> {
    if ws == [] then [] else Meaning(ws[0]) + Meanings(ws[1..])
  }

  lemma {:induction false} MeaningsConcat(a: seq<Word>, b: seq<Word>)
    ensures Meanings(a + b) == Meanings(a) + Meanings(b)
  {
    if a == [] {
      assert a + b == b;
    } else {
      assert (a + b)[1..] == a[1..] + b;
      MeaningsConcat(a[1..], b);
    }
  }

  lemma {:induction false} CrossConcat(a: seq<Datum>, b: seq<Datum>, c: seq<Datum>)
    ensures Cross(a + b, c) == Cross(a, c) + Cross(b, c)
  {
    if a == [] {
      assert a + b == b;
    } else {
      assert (a + b)[1..] == a[1..] + b;
      CrossConcat(a[1..], b, c);
    }
  }

  lemma PrefixedConcat(p: Datum, b: seq<Datum>, c: seq<Datum>)
    ensures Prefixed(p, b + c) == Prefixed(p, b) + Prefixed(p, c)
  {
  }

  lemma PrefixedTwice(p: Datum, q: Datum, b: seq<Datum>)
    ensures Prefixed(p, Prefixed(q, b)) == Prefixed(p + q, b)
  {
    forall i | 0 <= i < |b| ensures p + (q + b[i]) == (p + q) + b[i] {}
  }

  lemma {:induction false} PrefixedCross(p: Datum, a: seq<Datum>, b: seq<Datum>)
    ensures Cross(Prefixed(p, a), b) == Prefixed(p, Cross(a, b))
  {
    if a != [] {
      assert Prefixed(p, a)[1..] == Prefixed(p, a[1..]);
      PrefixedCross(p, a[1..], b);
      PrefixedConcat(p, Prefixed(a[0], b), Cross(a[1..], b));
      PrefixedTwice(p, a[0], b);
    }
  }

  lemma {:induction false} CrossCross(a: seq<Datum>, b: seq<Datum>, c: seq<Datum>)
    ensures Cross(Cross(a, b), c) == Cross(a, Cross(b, c))
  {
    if a != [] {
      CrossConcat(Prefixed(a[0], b), Cross(a[1..], b), c);
      PrefixedCross(a[0], b, c);
      CrossCross(a[1..], b, c);
    }
  }

  /** One word after another: the cross product of what they stand for. */
  lemma {:induction false} MeaningJoin(a: Word, b: Word)
    ensures Meaning(Join(a, b)) == Cross(Meaning(a), Meaning(b))
    decreases a
  {
    match a {
      case End =>
        assert Meaning(End)[1..] == [];
        forall i | 0 <= i < |Meaning(b)| ensures [] + Meaning(b)[i] == Meaning(b)[i] {}
        assert Prefixed([], Meaning(b)) == Meaning(b);
      case Lit(c, next) =>
        MeaningJoin(next, b);
        PrefixedCross([c], Meaning(next), Meaning(b));
      case Brace(first, others, next) =>
        MeaningJoin(next, b);
        CrossCross(Meaning(first) + MeaningAlts(others), Meaning(next), Meaning(b));
    }
  }

  lemma {:induction false} MeaningsLits(c: Char, ws: seq<Word>)
    ensures Meanings(Lits(c, ws)) == Prefixed([c], Meanings(ws))
  {
    if ws != [] {
      assert Lits(c, ws)[1..] == Lits(c, ws[1..]);
      MeaningsLits(c, ws[1..]);
      PrefixedConcat([c], Meaning(ws[0]), Meanings(ws[1..]));
    }
  }

  lemma {:induction false} MeaningsAlts(a: Alts, next: Word)
    ensures Meanings(UnfoldAlts(a, next)) == Cross(MeaningAlts(a), Meaning(next))
    decreases a
  {
    MeaningJoin(a.word, next);
    match a {
      case Last(w) =>
        assert [Join(w, next)][1..] == [];
      case More(w, rest) =>
        MeaningsAlts(rest, next);
        assert UnfoldAlts(a, next)[1..] == UnfoldAlts(rest, next);
        CrossConcat(Meaning(w), MeaningAlts(rest), Meaning(next));
    }
  }

  /** One expansion keeps the meaning. */
  lemma {:induction false} UnfoldKeeps(w: Word)
    requires HasBrace(w)
    ensures Meanings(Unfold(w)) == Meaning(w)
    decreases w
  {
    match w {
      case Lit(c, next) =>
        UnfoldKeeps(next);
        MeaningsLits(c, Unfold(next));
      case Brace(first, others, next) =>
        MeaningJoin(first, next);
        MeaningsAlts(others, next);
        assert Unfold(w)[1..] == UnfoldAlts(others, next);
        CrossConcat(Meaning(first), MeaningAlts(others), Meaning(next));
    }
  }

  /** A word without braces stands for itself. */
  lemma {:induction false} PlainMeaning(w: Word)
    requires !HasBrace(w)
    ensures Meaning(w) == [Flatten(w)] && INBRACE !in Flatten(w)
    decreases w
  {
    if w.Lit? {
      PlainMeaning(w.next);
    }
  }

  /** How many braces are open in a word. */
  function Braces(w: Word): nat {
    match w
    case End => 0
    case Lit(_, next) => Braces(next)
    case Brace(first, others, next) => 1 + Braces(first) + BracesAlts(others) + Braces(next)
  }

  function BracesAlts(a: Alts): nat {
    Braces(a.word) + if a.More? then BracesAlts(a.rest) else 0
  }

  lemma {:induction false} BracesJoin(a: Word, b: Word)
    ensures Braces(Join(a, b)) == Braces(a) + Braces(b)
    decreases a
  {
    if !a.End? {
      BracesJoin(a.next, b);
    }
  }

  /** Each word made by one expansion has fewer. */
  lemma {:induction false} UnfoldFewer(w: Word)
    ensures forall i :: 0 <= i < |Unfold(w)| ==> Braces(Unfold(w)[i]) < Braces(w)
    decreases w
  {
    match w {
      case End =>
      case Lit(c, next) =>
        UnfoldFewer(next);
      case Brace(first, others, next) =>
        BracesJoin(first, next);
        AltsFewer(others, next);
        forall i | 0 <= i < |Unfold(w)| ensures Braces(Unfold(w)[i]) < Braces(w) {
          assert i > 0 ==> Unfold(w)[i] == UnfoldAlts(others, next)[i - 1];
        }
    }
  }

  lemma {:induction false} AltsFewer(a: Alts, next: Word)
    ensures forall i :: 0 <= i < |UnfoldAlts(a, next)| ==> Braces(UnfoldAlts(a, next)[i]) <= BracesAlts(a) + Braces(next)
    decreases a
  {
    BracesJoin(a.word, next);
    if a.More? {
      AltsFewer(a.rest, next);
      forall i | 0 < i < |UnfoldAlts(a, next)| ensures Braces(UnfoldAlts(a, next)[i]) <= BracesAlts(a) + Braces(next) {
        assert UnfoldAlts(a, next)[i] == UnfoldAlts(a.rest, next)[i - 1];
      }
    }
  }

  /** Braces open at the end of a text, less those closed. */
  function Level(s: seq<Byte>): int {
    if s == [] then 0
    else Level(s[..|s| - 1]) + if s[|s| - 1] == INBRACE then 1 else if s[|s| - 1] == OUTBRACE then -1 else 0
  }

  lemma {:induction false} LevelConcat(a: seq<Byte>, b: seq<Byte>)
    ensures Level(a + b) == Level(a) + Level(b)
    decreases |b|
  {
    if b == [] {
      assert a + b == a;
    } else {
      assert (a + b)[..|a + b| - 1] == a + b[..|b| - 1];
      LevelConcat(a, b[..|b| - 1]);
    }
  }

  /** The braces of the text match one another. */
  ghost predicate Balanced(s: seq<Byte>) {
    Level(s) == 0 && forall m {:trigger s[m]} :: 0 <= m < |s| ==> Level(s[..m]) >= if s[m] == OUTBRACE then 1 else 0
  }

  /** And every comma is inside some. */
  ghost predicate Closed(s: seq<Byte>) {
    Balanced(s) && forall m {:trigger s[m]} :: 0 <= m < |s| && s[m] == COMMA ==> Level(s[..m]) >= 1
  }

  lemma BalancedConcat(a: seq<Byte>, b: seq<Byte>)
    requires Balanced(a) && Balanced(b)
    ensures Balanced(a + b) && (Closed(a) && Closed(b) ==> Closed(a + b))
  {
    var s := a + b;
    LevelConcat(a, b);
    forall m | 0 <= m < |s|
      ensures Level(s[..m]) >= if s[m] == OUTBRACE then 1 else 0
      ensures Closed(a) && Closed(b) && s[m] == COMMA ==> Level(s[..m]) >= 1
    {
      if m < |a| {
        assert s[..m] == a[..m] && s[m] == a[m];
      } else {
        assert s[..m] == a + b[..m - |a|] && s[m] == b[m - |a|];
        LevelConcat(a, b[..m - |a|]);
      }
    }
  }

  lemma One(c: Byte)
    requires c != INBRACE && c != OUTBRACE
    ensures Balanced([c]) && (c != COMMA ==> Closed([c])) && Level([c]) == 0
  {
    assert [c][..0] == [];
  }

  /** A balanced text in braces. */
  lemma InBraces(s: seq<Byte>)
    requires Balanced(s)
    ensures Closed([INBRACE] + s + [OUTBRACE])
  {
    var t := [INBRACE] + s + [OUTBRACE];
    LevelConcat([INBRACE], s);
    LevelConcat([INBRACE] + s, [OUTBRACE]);
    assert [INBRACE][..0] == [] && [OUTBRACE][..0] == [];
    forall m | 0 <= m < |t|
      ensures Level(t[..m]) >= if t[m] == OUTBRACE || t[m] == COMMA then 1 else 0
    {
      if m == 0 {
        assert t[..m] == [];
      } else if m <= |s| {
        assert t[..m] == [INBRACE] + s[..m - 1] && t[m] == s[m - 1];
        LevelConcat([INBRACE], s[..m - 1]);
      } else {
        assert t[..m] == [INBRACE] + s;
      }
    }
  }

  lemma {:induction false} FlattenClosed(w: Word)
    ensures Closed(Flatten(w))
    decreases w
  {
    match w {
      case End =>
      case Lit(c, next) =>
        FlattenClosed(next);
        One(c);
        BalancedConcat([c], Flatten(next));
      case Brace(first, others, next) =>
        FlattenClosed(first);
        AltsBalanced(others);
        FlattenClosed(next);
        BalancedConcat(Flatten(first), FlattenAlts(others));
        InBraces(Flatten(first) + FlattenAlts(others));
        BalancedConcat([INBRACE] + (Flatten(first) + FlattenAlts(others)) + [OUTBRACE], Flatten(next));
    }
  }

  lemma {:induction false} AltsBalanced(a: Alts)
    ensures Balanced(FlattenAlts(a))
    decreases a
  {
    FlattenClosed(a.word);
    One(COMMA);
    BalancedConcat([COMMA], Flatten(a.word));
    if a.More? {
      AltsBalanced(a.rest);
      BalancedConcat([COMMA] + Flatten(a.word), FlattenAlts(a.rest));
    }
  }

  /** What is in front of the first braces. */
  function Front(w: Word): seq<Byte> {
    if w.Lit? then [w.c] + Front(w.next) else []
  }

  /** The word from its first braces on. */
  function FromBrace(w: Word): (b: Word)
    requires HasBrace(w)
    ensures b.Brace?
  {
    if w.Lit? then FromBrace(w.next) else w
  }

  /** The texts of alternatives. */
  function Texts(a: Alts): (r: seq<seq<Byte>>)
    ensures r != []
  {
    if a.Last? then [Flatten(a.word)] else [Flatten(a.word)] + Texts(a.rest)
  }

  function Parts(w: Word): seq<seq<Byte>>
    requires HasBrace(w)
  {
    [Flatten(FromBrace(w).first)] + Texts(FromBrace(w).others)
  }

  /** Texts with a comma before each. */
  function Commas(ps: seq<seq<Byte>>): seq<Byte> {
    if ps == [] then [] else [COMMA] + ps[0] + Commas(ps[1..])
  }

  lemma {:induction false} AltsCommas(a: Alts)
    ensures FlattenAlts(a) == Commas(Texts(a))
    decreases a
  {
    if a.More? {
      AltsCommas(a.rest);
      assert Texts(a)[1..] == Texts(a.rest);
    } else {
      assert Texts(a)[1..] == [];
    }
  }

  /** The text of a word, divided at its first braces. */
  lemma {:induction false} FlattenParts(w: Word)
    requires HasBrace(w)
    ensures var (f, b, ps) := (Front(w), FromBrace(w), Parts(w));
            && Flatten(w) == f + ([INBRACE] + (ps[0] + Commas(ps[1..])) + [OUTBRACE] + Flatten(b.next))
            && INBRACE !in f && |ps| >= 2
            && Balanced(ps[0] + Commas(ps[1..])) && forall k :: 0 <= k < |ps| ==> Closed(ps[k])
    decreases w
  {
    if w.Lit? {
      FlattenParts(w.next);
      var (f, b, ps) := (Front(w.next), FromBrace(w), Parts(w));
      var t := [INBRACE] + (ps[0] + Commas(ps[1..])) + [OUTBRACE] + Flatten(b.next);
      assert [w.c] + (f + t) == ([w.c] + f) + t;
    } else {
      hide Closed, Balanced, FlattenAlts;
      AltsCommas(w.others);
      assert Parts(w)[1..] == Texts(w.others);
      FlattenClosed(w.first);
      AltsBalanced(w.others);
      BalancedConcat(Flatten(w.first), FlattenAlts(w.others));
      TextsClosed(w.others);
    }
  }

  lemma {:induction false} TextsClosed(a: Alts)
    ensures forall k :: 0 <= k < |Texts(a)| ==> Closed(Texts(a)[k])
    decreases a
  {
    FlattenClosed(a.word);
    if a.More? {
      TextsClosed(a.rest);
    }
  }

  function FlattenAll(ws: seq<Word>): (r: seq<Datum>)
    ensures |r| == |ws| && forall k :: 0 <= k < |ws| ==> r[k] == Flatten(ws[k])
  {
    seq(|ws|, k requires 0 <= k < |ws| => Flatten(ws[k]))
  }

  lemma {:induction false} FlattenJoin(a: Word, b: Word)
    ensures Flatten(Join(a, b)) == Flatten(a) + Flatten(b)
    decreases a
  {
    hide FlattenAlts;
    match a {
      case End =>
      case Lit(c, next) =>
        FlattenJoin(next, b);
        Regrouped([c], Flatten(next), Flatten(b));
      case Brace(first, others, next) =>
        FlattenJoin(next, b);
        Regrouped([INBRACE] + (Flatten(first) + FlattenAlts(others)) + [OUTBRACE], Flatten(next), Flatten(b));
    }
  }

  lemma Regrouped(s: seq<Byte>, t: seq<Byte>, u: seq<Byte>)
    ensures s + (t + u) == s + t + u
  {
  }

  /** The texts of the words one expansion makes: front, alternative, and the rest. */
  function Pieces(f: seq<Byte>, ps: seq<seq<Byte>>, rest: seq<Byte>): (r: seq<Datum>)
    ensures |r| == |ps| && forall k :: 0 <= k < |ps| ==> r[k] == f + ps[k] + rest
  {
    seq(|ps|, k requires 0 <= k < |ps| => f + ps[k] + rest)
  }

  lemma {:induction false} AltsPieces(a: Alts, next: Word)
    ensures FlattenAll(UnfoldAlts(a, next)) == Pieces([], Texts(a), Flatten(next))
    decreases a
  {
    FlattenJoin(a.word, next);
    assert [] + Flatten(a.word) == Flatten(a.word);
    if a.More? {
      AltsPieces(a.rest, next);
      var (r, p) := (UnfoldAlts(a, next), Texts(a));
      forall k | 0 <= k < |r|
        ensures |r| == |p| && Flatten(r[k]) == [] + p[k] + Flatten(next)
      {
        assert |UnfoldAlts(a.rest, next)| == |Pieces([], Texts(a.rest), Flatten(next))|;
        if k > 0 {
          assert r[k] == UnfoldAlts(a.rest, next)[k - 1] && p[k] == Texts(a.rest)[k - 1];
          assert FlattenAll(UnfoldAlts(a.rest, next))[k - 1] == Pieces([], Texts(a.rest), Flatten(next))[k - 1];
        }
      }
    }
  }

  lemma {:induction false} UnfoldPieces(w: Word)
    requires HasBrace(w)
    ensures FlattenAll(Unfold(w)) == Pieces(Front(w), Parts(w), Flatten(FromBrace(w).next))
    decreases w
  {
    if w.Lit? {
      UnfoldPieces(w.next);
      LitPieces(w.c, Unfold(w.next), Front(w.next), Parts(w), Flatten(FromBrace(w).next));
    } else {
      FlattenJoin(w.first, w.next);
      AltsPieces(w.others, w.next);
      MorePieces(Join(w.first, w.next), UnfoldAlts(w.others, w.next), Flatten(w.first), Texts(w.others), Flatten(w.next));
    }
  }

  lemma LitPieces(c: Char, u: seq<Word>, f: seq<Byte>, ps: seq<seq<Byte>>, rest: seq<Byte>)
    requires FlattenAll(u) == Pieces(f, ps, rest)
    ensures FlattenAll(Lits(c, u)) == Pieces([c] + f, ps, rest)
  {
    assert |u| == |FlattenAll(u)| == |ps|;
    forall k | 0 <= k < |u|
      ensures Flatten(Lit(c, u[k])) == [c] + f + ps[k] + rest
    {
      assert FlattenAll(u)[k] == Pieces(f, ps, rest)[k];
      assert [c] + (f + ps[k] + rest) == [c] + f + ps[k] + rest;
    }
  }

  lemma MorePieces(w: Word, u: seq<Word>, p: seq<Byte>, ps: seq<seq<Byte>>, rest: seq<Byte>)
    requires FlattenAll(u) == Pieces([], ps, rest) && Flatten(w) == p + rest
    ensures FlattenAll([w] + u) == Pieces([], [p] + ps, rest)
  {
    hide Flatten;
    assert |u| == |FlattenAll(u)| == |ps|;
    forall k | 0 <= k <= |u|
      ensures Flatten(([w] + u)[k]) == [] + ([p] + ps)[k] + rest
    {
      if k > 0 {
        assert FlattenAll(u)[k - 1] == Pieces([], ps, rest)[k - 1];
      } else {
        assert [] + p + rest == p + rest;
      }
    }
  }

  /** `for (; *str != Inbrace; str++)`. */
  method FindOpen(s: Datum, ghost f: seq<Byte>) returns (i: nat)
    requires f < s && INBRACE !in f && s[|f|] == INBRACE
    ensures i == |f|
  {
    i := 0;
    assert forall k :: 0 <= k < |f| ==> s[k] == f[k] && f[k] in f;
    while s[i] != INBRACE
      invariant i <= |f|
      decreases |f| - i
    {
      i := i + 1;
    }
  }

  /** The loop that matches the braces, and counts the commas directly inside them. */
  method FindClose(s: Datum, open: nat, ghost content: seq<Byte>, ghost at: nat) returns (str2: nat, comma: nat)
    requires open + |content| + 1 < |s| && s[open] == INBRACE && s[open + |content| + 1] == OUTBRACE
    requires s[open + 1..open + 1 + |content|] == content && Balanced(content)
    requires at < |content| && content[at] == COMMA && Level(content[..at]) == 0
    ensures str2 == open + |content| + 1 && comma > 0
  {
    hide Balanced, Level;
    str2, comma := open, 0;
    var bc := 0;
    ghost var close := open + 1 + |content|;
    LevelNone();
    while str2 < |s|
      invariant open <= str2 <= close
      invariant bc == if str2 == open then 0 else 1 + Level(content[..str2 - open - 1])
      invariant str2 > open + 1 + at ==> comma > 0
    {
      ghost var m := str2 - open - 1;
      if m >= 0 {
        LevelAt(content, m);
        assert m < |content| ==> s[str2] == content[m];
      }
      if s[str2] == INBRACE {
        bc := bc + 1;
      } else if s[str2] == OUTBRACE {
        bc := bc - 1;
        if bc == 0 {
          break;
        }
      } else if bc == 1 {
        if s[str2] == COMMA {
          comma := comma + 1;
        } else if s[str2] == 46 && str2 + 1 < |s| && s[str2 + 1] == 46 {
          str2 := str2 + 1;
          LevelAt(content, m + 1);
          assert s[str2] == (if str2 < close then content[m + 1] else OUTBRACE);
        }
      }
      str2 := str2 + 1;
    }
  }

  lemma LevelNone()
    ensures Level([]) == 0
  {
  }

  lemma LevelAt(s: seq<Byte>, m: nat)
    requires Balanced(s) && m <= |s|
    ensures m == |s| ==> Level(s[..m]) == 0
    ensures m < |s| ==>
              && Level(s[..m]) >= (if s[m] == OUTBRACE then 1 else 0)
              && Level(s[..m + 1]) == Level(s[..m]) + if s[m] == INBRACE then 1 else if s[m] == OUTBRACE then -1 else 0
  {
    if m == |s| {
      assert s[..m] == s;
    } else {
      assert s[..m + 1][..m] == s[..m];
    }
  }

  /** One alternative: as far as a comma or brace that is not inside others. */
  method NextPart(s: Datum, from: nat, ghost part: seq<Byte>) returns (to: nat)
    requires from + |part| < |s| && s[from..from + |part|] == part && Closed(part)
    requires s[from + |part|] == COMMA || s[from + |part|] == OUTBRACE
    ensures to == from + |part|
  {
    hide Balanced, Level, Closed;
    to := from;
    var cnt := 0;
    LevelNone();
    InsideAt(s, from, part, 0);
    while cnt != 0 || (s[to] != COMMA && s[to] != OUTBRACE)
      invariant from <= to <= from + |part| && cnt == Level(part[..to - from])
      invariant to < from + |part| && (s[to] == COMMA || s[to] == OUTBRACE) ==> cnt >= 1
      invariant to == from + |part| ==> cnt == 0
      decreases from + |part| - to
    {
      InsideAt(s, from, part, to - from);
      if s[to] == INBRACE {
        cnt := cnt + 1;
      } else if s[to] == OUTBRACE {
        cnt := cnt - 1;
      }
      to := to + 1;
      InsideAt(s, from, part, to - from);
    }
  }

  lemma InsideAt(s: Datum, from: nat, part: seq<Byte>, m: nat)
    requires from + |part| < |s| && s[from..from + |part|] == part && Closed(part) && m <= |part|
    ensures m == |part| ==> Level(part[..m]) == 0
    ensures m < |part| ==>
              && s[from + m] == part[m]
              && (part[m] == COMMA || part[m] == OUTBRACE ==> Level(part[..m]) >= 1)
              && Level(part[..m + 1]) == Level(part[..m]) + if part[m] == INBRACE then 1 else if part[m] == OUTBRACE then -1 else 0
  {
    LevelAt(part, m);
    if m < |part| {
      assert s[from..from + |part|][m] == s[from + m];
    }
  }

  /** What is left of the text when the `k`th alternative is next. */
  function Tail(ps: seq<seq<Byte>>, k: nat, rest: seq<Byte>): seq<Byte>
    requires k < |ps|
  {
    ps[k] + Commas(ps[k + 1..]) + [OUTBRACE] + rest
  }

  lemma TailStep(s: Datum, pos: nat, ps: seq<seq<Byte>>, k: nat, rest: seq<Byte>)
    requires k < |ps| && pos <= |s| && s[pos..] == Tail(ps, k, rest)
    ensures var to := pos + |ps[k]|;
            && to < |s| && s[pos..to] == ps[k]
            && s[to] == (if k + 1 < |ps| then COMMA else OUTBRACE)
            && (k + 1 < |ps| ==> s[to + 1..] == Tail(ps, k + 1, rest))
            && (k + 1 == |ps| ==> s[to + 1..] == rest)
  {
    var (to, t) := (pos + |ps[k]|, s[pos..]);
    assert t[..|ps[k]|] == ps[k];
    assert t[|ps[k]|..] == Commas(ps[k + 1..]) + [OUTBRACE] + rest;
    assert s[to..] == t[|ps[k]|..];
    if k + 1 < |ps| {
      assert ps[k + 1..][1..] == ps[k + 2..];
      assert s[to..] == [COMMA] + Tail(ps, k + 1, rest);
      assert s[to + 1..] == s[to..][1..];
    } else {
      assert s[to..] == [OUTBRACE] + rest;
      assert s[to + 1..] == s[to..][1..];
    }
  }

  lemma PiecesMore(f: seq<Byte>, ps: seq<seq<Byte>>, rest: seq<Byte>, k: nat)
    requires k < |ps|
    ensures Pieces(f, ps[..k + 1], rest) == Pieces(f, ps[..k], rest) + [f + ps[k] + rest]
  {
  }

  /** A node for one alternative. */
  method AddPiece(list: LinkList, where: Node, zz: Datum, ghost d: seq<Datum>, ghost at: nat, ghost f: seq<Byte>,
                  ghost ps: seq<seq<Byte>>, ghost rest: seq<Byte>, ghost k: nat)
    returns (node: Node)
    requires list.Valid() && k < |ps| && at <= |d| && zz == f + ps[k] + rest
    requires list.Contents() == d[..at] + Pieces(f, ps[..k], rest) + d[at..]
    requires at + k < |list.ring| && where == list.ring[at + k]
    modifies list, list.Nodes()
    ensures list.Valid() && list.Contents() == d[..at] + Pieces(f, ps[..k + 1], rest) + d[at..]
    ensures |list.ring| == old(|list.ring|) + 1 && node == list.ring[at + k + 1] && list.ring[at] == old(list.ring[at])
    ensures list.ring[at + k + 2..] == old(list.ring)[at + k + 1..]
    ensures forall n :: n in list.Nodes() ==> n in old(list.Nodes()) || fresh(n)
  {
    hide Linked, LinkOk, Data, LinkList.Nodes, Pieces;
    PiecesMore(f, ps, rest, k);
    Grown(d, at, Pieces(f, ps[..k], rest), zz);
    var n := list.InsertLinkNode(where, zz, at + k);
    var next := list.NextNode(where, at + k);
    node := next;
  }

  /** The last loop of `xpandbraces`: a node for each alternative. */
  method AddPieces(list: LinkList, last: Node, ghost at: nat, s: Datum, prev: nat, str0: nat, str2: nat,
                   ghost ps: seq<seq<Byte>>)
    requires list.Valid() && at < |list.ring| && last == list.ring[at]
    requires prev <= str0 <= |s| && str2 <= |s| && ps != [] && s[str0..] == Tail(ps, 0, s[str2..])
    requires forall k :: 0 <= k < |ps| ==> Closed(ps[k])
    modifies list, list.Nodes()
    ensures list.Valid() && at < |list.ring| && last == list.ring[at]
    ensures forall n :: n in list.Nodes() ==> n in old(list.Nodes()) || fresh(n)
    ensures var d := old(list.Contents()); list.Contents() == d[..at] + Pieces(s[..prev], ps, s[str2..]) + d[at..]
    ensures |list.ring| == old(|list.ring|) + |ps| && list.ring[at + |ps| + 1..] == old(list.ring)[at + 1..]
  {
    hide Linked, LinkOk, Data, LinkList.Nodes, Closed, Pieces, Commas, Tail;
    var node := last;
    var str: nat := str0;
    ghost var (d, k, f, rest) := (list.Contents(), 0, s[..prev], s[str2..]);
    assert Pieces(f, ps[..0], rest) == [] && d == d[..at] + [] + d[at..];
    while true
      invariant list.Valid() && forall n :: n in list.Nodes() ==> n in old(list.Nodes()) || fresh(n)
      invariant k < |ps| && str <= |s| && s[str..] == Tail(ps, k, rest)
      invariant list.Contents() == d[..at] + Pieces(f, ps[..k], rest) + d[at..]
      invariant at + k < |list.ring| && node == list.ring[at + k]
      invariant last == list.ring[at]
      invariant |list.ring| == old(|list.ring|) + k && list.ring[at + k + 1..] == old(list.ring)[at + 1..]
      decreases |ps| - k
    {
      TailStep(s, str, ps, k, rest);
      var to := NextPart(s, str, ps[k]);
      var zz := s[..prev] + s[str..to] + s[str2..];
      node := AddPiece(list, node, zz, d, at, f, ps, rest, k);
      k := k + 1;
      if s[to] == OUTBRACE {
        assert ps[..k] == ps;
        return;
      }
      str := to + 1;
    }
  }

  lemma Grown(d: seq<Datum>, at: nat, t: seq<Datum>, p: Datum)
    requires at <= |d|
    ensures var s := d[..at] + t + d[at..];
            s[..at + |t|] + [p] + s[at + |t|..] == d[..at] + (t + [p]) + d[at..]
  {
  }

  /** `xpandbraces` on a word with commas in its braces: its node is replaced by one for
      each alternative, and the first of these comes next. */
  method XpandBraces(list: LinkList, node: Node, ghost at: nat, ghost w: Word) returns (np: Node)
    requires list.Valid() && 0 < at < |list.ring| && node == list.ring[at] && node.dat == Flatten(w) && HasBrace(w)
    modifies list, list.Nodes()
    ensures list.Valid() && at < |list.ring| && np == list.ring[at]
    ensures var d := old(list.Contents());
            list.Contents() == d[..at - 1] + FlattenAll(Unfold(w)) + d[at..]
    ensures |list.ring| + 1 == old(|list.ring|) + |Unfold(w)| && list.ring[at + |Unfold(w)|..] == old(list.ring)[at + 1..]
    ensures forall n :: n in list.Nodes() ==> n in old(list.Nodes()) || fresh(n)
  {
    hide Linked, LinkOk, Data, LinkList.Nodes, Flatten, Closed, Balanced, Pieces, Level, Parts, Front, FlattenAll, Commas, Tail, Unfold;
    ghost var (f, ps, rest) := (Front(w), Parts(w), Flatten(FromBrace(w).next));
    FlattenParts(w);
    UnfoldPieces(w);
    var s := node.dat;
    ghost var content := ps[0] + Commas(ps[1..]);
    Divided(s, f, ps, rest);
    var str := FindOpen(s, f);
    var str2, comma := FindClose(s, str, content, |ps[0]|);
    np := ReplaceNode(list, node, at, s, str, str2, ps);
  }

  /** The node of the word makes room for the alternatives between its first braces. */
  method ReplaceNode(list: LinkList, node: Node, ghost at: nat, s: Datum, str: nat, str2: nat, ghost ps: seq<seq<Byte>>)
    returns (np: Node)
    requires list.Valid() && 0 < at < |list.ring| && node == list.ring[at]
    requires str < |s| && str2 < |s| && ps != [] && s[str + 1..] == Tail(ps, 0, s[str2 + 1..])
    requires forall k :: 0 <= k < |ps| ==> Closed(ps[k])
    modifies list, list.Nodes()
    ensures list.Valid() && at < |list.ring| && np == list.ring[at]
    ensures var d := old(list.Contents()); list.Contents() == d[..at - 1] + Pieces(s[..str], ps, s[str2 + 1..]) + d[at..]
    ensures |list.ring| + 1 == old(|list.ring|) + |ps| && list.ring[at + |ps|..] == old(list.ring)[at + 1..]
    ensures forall n :: n in list.Nodes() ==> n in old(list.Nodes()) || fresh(n)
  {
    hide Linked, LinkOk, Data, LinkList.Nodes, Closed, Pieces, Commas, Tail;
    var last := list.PrevNode(node, at);
    var prev := str;
    Removed(list.Contents(), at);
    var _ := list.RemNode(node, at);
    AddPieces(list, last, at - 1, s, prev, str + 1, str2 + 1, ps);
    np := NextOf(list, last, at - 1);
  }

  method NextOf(list: LinkList, node: Node, ghost at: nat) returns (np: Node)
    requires list.Valid() && at + 1 < |list.ring| && node == list.ring[at]
    ensures np == list.ring[at + 1]
  {
    var next := list.NextNode(node, at);
    np := next;
  }

  lemma Removed(d: seq<Datum>, at: nat)
    requires 0 < at <= |d|
    ensures var e := d[..at - 1] + d[at..];
            |e| == |d| - 1 && e[..at - 1] == d[..at - 1] && e[at - 1..] == d[at..]
  {
  }

  lemma Divided(s: Datum, f: seq<Byte>, ps: seq<seq<Byte>>, rest: seq<Byte>)
    requires |ps| >= 2 && s == f + ([INBRACE] + (ps[0] + Commas(ps[1..])) + [OUTBRACE] + rest)
    requires Closed(ps[0])
    ensures var content := ps[0] + Commas(ps[1..]);
            && f < s && s[|f|] == INBRACE && s[..|f|] == f
            && |f| + |content| + 1 < |s| && s[|f| + |content| + 1] == OUTBRACE
            && s[|f| + 1..|f| + 1 + |content|] == content
            && |ps[0]| < |content| && content[|ps[0]|] == COMMA && Level(content[..|ps[0]|]) == 0
            && s[|f| + 1..] == Tail(ps, 0, rest) && s[|f| + |content| + 2..] == rest
  {
    var content := ps[0] + Commas(ps[1..]);
    assert Commas(ps[1..])[0] == COMMA;
    assert content[..|ps[0]|] == ps[0];
    assert s[|f| + 1..] == content + [OUTBRACE] + rest;
    assert s[|f| + 1..|f| + 1 + |content|] == s[|f| + 1..][..|content|];
  }

  /** How many times a word and what comes of it is looked at. */
  function Weight(w: Word): nat
    decreases Braces(w), 1, 0
  {
    UnfoldFewer(w);
    1 + WeightBelow(Unfold(w), Braces(w))
  }

  function WeightBelow(ws: seq<Word>, n: nat): nat
    requires forall i :: 0 <= i < |ws| ==> Braces(ws[i]) < n
    decreases n, 0, |ws|
  {
    if ws == [] then 0 else Weight(ws[0]) + WeightBelow(ws[1..], n)
  }

  function Total(ws: seq<Word>): nat {
    if ws == [] then 0 else Weight(ws[0]) + Total(ws[1..])
  }

  lemma {:induction false} TotalBelow(ws: seq<Word>, n: nat)
    requires forall i :: 0 <= i < |ws| ==> Braces(ws[i]) < n
    ensures Total(ws) == WeightBelow(ws, n)
  {
    if ws != [] {
      TotalBelow(ws[1..], n);
    }
  }

  lemma {:induction false} TotalConcat(a: seq<Word>, b: seq<Word>)
    ensures Total(a + b) == Total(a) + Total(b)
  {
    if a == [] {
      assert a + b == b;
    } else {
      assert (a + b)[1..] == a[1..] + b;
      TotalConcat(a[1..], b);
    }
  }

  /** An expansion leaves less to look at, and the same words to make. */
  lemma UnfoldStep(ws: seq<Word>)
    requires ws != [] && HasBrace(ws[0])
    ensures Total(Unfold(ws[0]) + ws[1..]) < Total(ws)
    ensures Meanings(Unfold(ws[0]) + ws[1..]) == Meanings(ws)
    ensures FlattenAll(Unfold(ws[0]) + ws[1..]) == FlattenAll(Unfold(ws[0])) + FlattenAll(ws[1..])
  {
    hide Flatten, Meaning, Unfold, Braces, WeightBelow;
    var u := Unfold(ws[0]);
    UnfoldWeighs(ws[0]);
    TotalConcat(u, ws[1..]);
    UnfoldKeeps(ws[0]);
    MeaningsConcat(u, ws[1..]);
    AllConcat(u, ws[1..]);
  }

  lemma UnfoldWeighs(w: Word)
    ensures Total(Unfold(w)) < Weight(w)
  {
    hide Unfold;
    UnfoldFewer(w);
    TotalBelow(Unfold(w), Braces(w));
  }

  lemma AllConcat(a: seq<Word>, b: seq<Word>)
    ensures FlattenAll(a + b) == FlattenAll(a) + FlattenAll(b)
  {
    hide Flatten;
  }

  lemma PlainStep(ws: seq<Word>)
    requires ws != [] && !HasBrace(ws[0])
    ensures Meanings(ws) == [Flatten(ws[0])] + Meanings(ws[1..]) && Total(ws[1..]) < Total(ws)
    ensures FlattenAll(ws) == [Flatten(ws[0])] + FlattenAll(ws[1..])
  {
    PlainMeaning(ws[0]);
  }

  /** `hasbraces` on a word with a comma in every pair of braces: whether there are any. */
  method HasBraces(s: Datum, ghost w: Word) returns (found: bool)
    requires s == Flatten(w)
    ensures found == HasBrace(w)
  {
    found := INBRACE in s;
    if HasBrace(w) {
      FlattenParts(w);
      assert Flatten(w)[|Front(w)|] == INBRACE;
    } else {
      PlainMeaning(w);
    }
  }

  /** The words of a list that are not empty from the start. */
  function NonEmpty(ws: seq<Word>): seq<Word> {
    if ws == [] then [] else (if ws[0] == End then [] else [ws[0]]) + NonEmpty(ws[1..])
  }

  lemma EmptyEnd(w: Word)
    ensures (Flatten(w) == [] <==> w == End) && (w == End ==> !HasBrace(w))
  {
  }

  function NodeAt(ring: seq<Node>, k: nat): Node? {
    if k < |ring| then ring[k] else null
  }

  /** The list is done in front; `part` is what one word has become and is still to be looked
      at, and `rest` the words that come after. */
  ghost predicate Progress(d: seq<Datum>, done: seq<Datum>, part: seq<Word>, rest: seq<Word>, words: seq<Word>) {
    && d == done + (FlattenAll(part) + FlattenAll(rest))
    && Meanings(NonEmpty(words)) == done + (Meanings(part) + Meanings(NonEmpty(rest)))
  }

  lemma ProgressFirst(d: seq<Datum>, words: seq<Word>)
    requires d == FlattenAll(words)
    ensures Progress(d, [], [], words, words)
  {
    assert [] + ([] + FlattenAll(words)) == FlattenAll(words);
    assert [] + ([] + Meanings(NonEmpty(words))) == Meanings(NonEmpty(words));
  }

  lemma ProgressAt(d: seq<Datum>, done: seq<Datum>, part: seq<Word>, rest: seq<Word>, words: seq<Word>)
    requires Progress(d, done, part, rest, words)
    ensures |d| == |done| + |part| + |rest|
    ensures part != [] ==> d[|done|] == Flatten(part[0])
    ensures part == [] && rest != [] ==> d[|done|] == Flatten(rest[0])
    ensures part == rest == [] ==> d == Meanings(NonEmpty(words))
  {
    if part != [] {
      assert d[|done|] == FlattenAll(part)[0];
    } else if rest != [] {
      assert d[|done|] == FlattenAll(rest)[0];
    }
  }

  /** A word that is not empty is taken up. */
  lemma ProgressTaken(d: seq<Datum>, done: seq<Datum>, rest: seq<Word>, words: seq<Word>)
    requires Progress(d, done, [], rest, words) && rest != [] && rest[0] != End
    ensures Progress(d, done, [rest[0]], rest[1..], words) && Total([rest[0]]) + Total(rest[1..]) == Total(rest)
  {
    hide FlattenAll, Meanings, NonEmpty, Total;
    TakenStep(rest);
  }

  lemma TakenStep(rest: seq<Word>)
    requires rest != [] && rest[0] != End
    ensures FlattenAll([]) + FlattenAll(rest) == FlattenAll([rest[0]]) + FlattenAll(rest[1..])
    ensures Meanings([]) + Meanings(NonEmpty(rest)) == Meanings([rest[0]]) + Meanings(NonEmpty(rest[1..]))
    ensures Total([rest[0]]) + Total(rest[1..]) == Total(rest)
  {
    hide Flatten, Meaning, Weight;
    assert rest == [rest[0]] + rest[1..];
    TotalConcat([rest[0]], rest[1..]);
    MeaningsConcat([rest[0]], NonEmpty(rest[1..]));
    assert NonEmpty(rest) == [rest[0]] + NonEmpty(rest[1..]);
  }

  /** An empty one is removed. */
  lemma ProgressDropped(d: seq<Datum>, done: seq<Datum>, rest: seq<Word>, words: seq<Word>)
    requires Progress(d, done, [], rest, words) && rest != [] && rest[0] == End
    ensures |d| > |done| && Progress(d[..|done|] + d[|done| + 1..], done, [], rest[1..], words) && Total(rest[1..]) < Total(rest)
  {
    hide Flatten, Meaning;
    assert FlattenAll([]) + FlattenAll(rest) == FlattenAll(rest) && FlattenAll([]) + FlattenAll(rest[1..]) == FlattenAll(rest[1..]);
    TailOf(done, rest);
    assert NonEmpty(rest) == NonEmpty(rest[1..]);
  }

  lemma ProgressUnfold(d: seq<Datum>, done: seq<Datum>, part: seq<Word>, rest: seq<Word>, words: seq<Word>)
    requires Progress(d, done, part, rest, words) && part != [] && HasBrace(part[0])
    ensures Total(Unfold(part[0]) + part[1..]) < Total(part)
    ensures |d| > |done|
    ensures Progress(d[..|done|] + FlattenAll(Unfold(part[0])) + d[|done| + 1..], done, Unfold(part[0]) + part[1..], rest, words)
  {
    hide Flatten, Meanings, Total, Unfold, FlattenAll;
    UnfoldStep(part);
    AllParts(part);
    Spliced(done, FlattenAll(part), FlattenAll(rest), FlattenAll(Unfold(part[0])));
  }

  lemma AllParts(ws: seq<Word>)
    requires ws != []
    ensures FlattenAll(ws) != [] && FlattenAll(ws)[1..] == FlattenAll(ws[1..])
  {
  }

  lemma Spliced(done: seq<Datum>, f: seq<Datum>, g: seq<Datum>, u: seq<Datum>)
    requires f != []
    ensures var d := done + (f + g); |d| > |done| && d[..|done|] + u + d[|done| + 1..] == done + ((u + f[1..]) + g)
  {
    var d := done + (f + g);
    assert d[..|done|] == done && d[|done| + 1..] == f[1..] + g;
  }

  lemma ProgressPlain(d: seq<Datum>, done: seq<Datum>, part: seq<Word>, rest: seq<Word>, words: seq<Word>)
    requires Progress(d, done, part, rest, words) && part != [] && !HasBrace(part[0])
    ensures Total(part[1..]) < Total(part) && Progress(d, done + [Flatten(part[0])], part[1..], rest, words)
  {
    hide Flatten, Meanings, Total, FlattenAll, NonEmpty;
    PlainStep(part);
    var (one, f, g) := ([Flatten(part[0])], FlattenAll(part[1..]), FlattenAll(rest));
    assert done + (one + f + g) == done + one + (f + g);
    var (m, n) := (Meanings(part[1..]), Meanings(NonEmpty(rest)));
    assert done + (one + m + n) == done + one + (m + n);
  }

  /** The loop stands on the node after what is done. While it keeps words, it is to stop
      doing so at the node after `part`. */
  ghost predicate Standing(ring: seq<Node>, node: Node?, stop: Node?, keep: bool, done: nat, part: nat, rest: nat) {
    && |ring| == 1 + done + part + rest && node == NodeAt(ring, 1 + done)
    && (if keep then stop == NodeAt(ring, 1 + done + part) else part == 0)
  }

  /** Every word of a list expanded as far as it goes: the list ends up as the words that
      each stands for, in order, without those that were empty from the start. */
  method ExpandAll(list: LinkList, ghost words: seq<Word>)
    requires list.Valid() && list.Contents() == FlattenAll(words)
    modifies list, list.Nodes()
    ensures list.Valid() && list.Contents() == Meanings(NonEmpty(words))
  {
    hide Linked, LinkOk, Data, LinkList.Nodes, Flatten, FlattenAll, Meanings, NonEmpty, Total, Unfold, HasBrace, Progress;
    var node, _ := list.Ends();
    var stop: Node?, keep := null, false;
    ghost var done: seq<Datum>, part: seq<Word>, rest := [], [], words;
    ProgressFirst(list.Contents(), words);
    ProgressAt(list.Contents(), done, part, rest, words);
    while node != null
      invariant list.Valid() && forall n :: n in list.Nodes() ==> n in old(list.Nodes()) || fresh(n)
      invariant Progress(list.Contents(), done, part, rest, words)
      invariant Standing(list.ring, node, stop, keep, |done|, |part|, |rest|)
      decreases Total(part) + Total(rest)
    {
      node, stop, keep, done, part, rest := LookAt(list, node, stop, keep, done, part, rest, words);
    }
    ProgressAt(list.Contents(), done, part, rest, words);
  }

  /** One turn of the loop: the word there is expanded as far as it goes, or removed if it was
      empty from the start. */
  method LookAt(list: LinkList, node0: Node, stop0: Node?, keep0: bool, ghost done0: seq<Datum>,
                ghost part0: seq<Word>, ghost rest0: seq<Word>, ghost words: seq<Word>)
    returns (next: Node?, stop: Node?, keep: bool, ghost done: seq<Datum>, ghost part: seq<Word>, ghost rest: seq<Word>)
    requires list.Valid() && Progress(list.Contents(), done0, part0, rest0, words)
    requires Standing(list.ring, node0, stop0, keep0, |done0|, |part0|, |rest0|)
    modifies list, list.Nodes()
    ensures list.Valid() && Progress(list.Contents(), done, part, rest, words)
    ensures Standing(list.ring, next, stop, keep, |done|, |part|, |rest|)
    ensures Total(part) + Total(rest) < Total(part0) + Total(rest0)
    ensures forall n :: n in list.Nodes() ==> n in old(list.Nodes()) || fresh(n)
  {
    hide Linked, LinkOk, Data, LinkList.Nodes, Flatten, FlattenAll, Meanings, NonEmpty, Total, Unfold, HasBrace, Progress;
    stop, keep, done, part, rest := stop0, keep0, done0, part0, rest0;
    ProgressAt(list.Contents(), done, part, rest, words);
    RingDistinct(list);
    if node0 == stop {
      keep := false;
    }
    assert keep <==> part != [];
    EmptyEnd(if part != [] then part[0] else rest[0]);
    if |node0.dat| == 0 && !keep {
      ProgressDropped(list.Contents(), done, rest, words);
      next := list.NextNode(node0, 1 + |done|);
      var _ := list.RemNode(node0, 1 + |done|);
      rest := rest[1..];
      return;
    }
    var node := node0;
    if |node.dat| != 0 {
      if !keep {
        stop := list.NextNode(node, 1 + |done|);
        ProgressTaken(list.Contents(), done, rest, words);
        part, rest := [rest[0]], rest[1..];
      }
      node, keep, part := ExpandWhole(list, node, stop, keep, done, part, rest, words);
    }
    next, done, part := PassBy(list, node, done, part, rest, words);
  }

  /** A word without braces is left as it is. */
  method PassBy(list: LinkList, node: Node, ghost done0: seq<Datum>, ghost part0: seq<Word>, ghost rest: seq<Word>,
                ghost words: seq<Word>)
    returns (next: Node?, ghost done: seq<Datum>, ghost part: seq<Word>)
    requires list.Valid() && Progress(list.Contents(), done0, part0, rest, words) && part0 != [] && !HasBrace(part0[0])
    requires |list.ring| == 1 + |done0| + |part0| + |rest| && node == list.ring[1 + |done0|]
    ensures Progress(list.Contents(), done, part, rest, words) && |done| == |done0| + 1 && part == part0[1..]
    ensures next == NodeAt(list.ring, 1 + |done|) && Total(part) < Total(part0)
  {
    hide Linked, LinkOk, Data, LinkList.Nodes, Flatten, FlattenAll, Meanings, NonEmpty, Total, Unfold, HasBrace, Progress;
    ProgressPlain(list.Contents(), done0, part0, rest, words);
    next := list.NextNode(node, 1 + |done0|);
    done, part := done0 + [Flatten(part0[0])], part0[1..];
  }

  lemma RingDistinct(list: LinkList)
    requires list.Valid()
    ensures Distinct(list.ring)
  {
  }

  /** The inner loop: what the word becomes is kept from the first expansion on. */
  method ExpandWhole(list: LinkList, node0: Node, stop: Node?, keep0: bool, ghost done: seq<Datum>,
                     ghost part0: seq<Word>, ghost rest: seq<Word>, ghost words: seq<Word>)
    returns (node: Node, keep: bool, ghost part: seq<Word>)
    requires list.Valid() && Progress(list.Contents(), done, part0, rest, words) && part0 != []
    requires Standing(list.ring, node0, stop, true, |done|, |part0|, |rest|)
    modifies list, list.Nodes()
    ensures list.Valid() && Progress(list.Contents(), done, part, rest, words) && part != [] && !HasBrace(part[0])
    ensures Standing(list.ring, node, stop, true, |done|, |part|, |rest|) && Total(part) <= Total(part0)
    ensures keep0 ==> keep
    ensures !keep ==> part == part0
    ensures forall n :: n in list.Nodes() ==> n in old(list.Nodes()) || fresh(n)
  {
    hide Linked, LinkOk, Data, LinkList.Nodes, Flatten, FlattenAll, Meanings, NonEmpty, Total, Unfold, HasBrace, Progress;
    node, keep, part := node0, keep0, part0;
    ProgressAt(list.Contents(), done, part, rest, words);
    var more := HasBraces(node.dat, part[0]);
    while more
      invariant list.Valid() && forall n :: n in list.Nodes() ==> n in old(list.Nodes()) || fresh(n)
      invariant Progress(list.Contents(), done, part, rest, words) && part != [] && more == HasBrace(part[0])
      invariant Standing(list.ring, node, stop, true, |done|, |part|, |rest|) && Total(part) <= Total(part0)
      invariant (keep0 ==> keep) && (!keep ==> part == part0)
      decreases Total(part)
    {
      keep := true;
      node, part := ExpandNode(list, node, stop, done, part, rest, words);
      ProgressAt(list.Contents(), done, part, rest, words);
      more := HasBraces(node.dat, part[0]);
    }
  }

  /** One turn of `while (hasbraces(...))`. */
  method ExpandNode(list: LinkList, node: Node, ghost stop: Node?, ghost done: seq<Datum>, ghost part: seq<Word>,
                    ghost rest: seq<Word>, ghost words: seq<Word>)
    returns (np: Node, ghost left: seq<Word>)
    requires list.Valid() && Progress(list.Contents(), done, part, rest, words) && part != [] && HasBrace(part[0])
    requires Standing(list.ring, node, stop, true, |done|, |part|, |rest|)
    modifies list, list.Nodes()
    ensures list.Valid() && Progress(list.Contents(), done, left, rest, words) && left != []
    ensures Standing(list.ring, np, stop, true, |done|, |left|, |rest|) && Total(left) < Total(part)
    ensures forall n :: n in list.Nodes() ==> n in old(list.Nodes()) || fresh(n)
  {
    hide Linked, LinkOk, Data, LinkList.Nodes, Flatten, FlattenAll, Meanings, NonEmpty, Total, Unfold, HasBrace, Progress;
    ghost var ring := list.ring;
    ProgressAt(list.Contents(), done, part, rest, words);
    ProgressUnfold(list.Contents(), done, part, rest, words);
    np := XpandBraces(list, node, 1 + |done|, part[0]);
    left := Unfold(part[0]) + part[1..];
    SameStop(ring, list.ring, 1 + |done|, |Unfold(part[0])|, |done| + 1 + |part|);
  }

  /** The node at which to stop is behind what has been replaced. */
  lemma SameStop(ring: seq<Node>, ring': seq<Node>, at: nat, n: nat, k: nat)
    requires at < k <= |ring| && at + n <= |ring'| && ring'[at + n..] == ring[at + 1..]
    ensures NodeAt(ring', k - 1 + n) == NodeAt(ring, k)
  {
    if k < |ring| {
      assert ring[k] == ring[at + 1..][k - at - 1];
    }
  }

  lemma TailOf(done: seq<Datum>, ws: seq<Word>)
    requires ws != []
    ensures (done + FlattenAll(ws))[..|done|] == done
    ensures (done + FlattenAll(ws))[|done| + 1..] == FlattenAll(ws[1..])
  {
  }
}
