/** What a word with braces stands for, string by string, and in which order. */
module BraceLaws {
  import opened Bytes
  import opened LinkLists
  import opened Braces

  /** A string is one of those: it takes every character in turn, and for each pair of braces
      some string of one of the alternatives. */
  predicate Takes(w: Word, d: Datum)
    decreases w, 0
  {
    match w
    case End => d == []
    case Lit(c, next) => d != [] && d[0] == c && Takes(next, d[1..])
    case Brace(first, others, next) =>
      exists k :: 0 <= k <= |d| && (Takes(first, d[..k]) || TakesOne(others, d[..k])) && Takes(next, d[k..])
  }

  predicate TakesOne(a: Alts, d: Datum)
    decreases a, 0
  {
    match a
    case Last(w) => Takes(w, d)
    case More(w, rest) => Takes(w, d) || TakesOne(rest, d)
  }

  lemma {:induction false} InCross(a: seq<Datum>, b: seq<Datum>, d: Datum)
    ensures d in Cross(a, b) <==> exists k :: 0 <= k <= |d| && d[..k] in a && d[k..] in b
  {
    if a != [] {
      InCross(a[1..], b, d);
      if d in Prefixed(a[0], b) {
        var i :| 0 <= i < |b| && d == a[0] + b[i];
        assert d[..|a[0]|] == a[0] && d[|a[0]|..] == b[i];
      }
      if k :| 0 <= k <= |d| && d[..k] in a && d[k..] in b {
        if d[..k] == a[0] {
          var i :| 0 <= i < |b| && b[i] == d[k..];
          assert d == Prefixed(a[0], b)[i];
        } else {
          assert d[..k] in a[1..];
        }
      }
    }
  }

  /** The strings a word stands for are exactly those. */
  lemma {:induction false} MeaningTakes(w: Word, d: Datum)
    ensures d in Meaning(w) <==> Takes(w, d)
    decreases w, 0
  {
    match w
    case End =>
    case Lit(c, next) =>
      if d != [] {
        MeaningTakes(next, d[1..]);
        if d in Prefixed([c], Meaning(next)) {
          var i :| 0 <= i < |Meaning(next)| && d == [c] + Meaning(next)[i];
          assert d[1..] == Meaning(next)[i];
        }
        if d[0] == c && d[1..] in Meaning(next) {
          var i :| 0 <= i < |Meaning(next)| && Meaning(next)[i] == d[1..];
          assert d == Prefixed([c], Meaning(next))[i];
        }
      }
    case Brace(first, others, next) =>
      InCross(Meaning(first) + MeaningAlts(others), Meaning(next), d);
      forall k | 0 <= k <= |d|
        ensures d[..k] in Meaning(first) + MeaningAlts(others) <==> Takes(first, d[..k]) || TakesOne(others, d[..k])
        ensures d[k..] in Meaning(next) <==> Takes(next, d[k..])
      {
        MeaningTakes(first, d[..k]);
        AltsTake(others, d[..k]);
        MeaningTakes(next, d[k..]);
      }
  }

  lemma {:induction false} AltsTake(a: Alts, d: Datum)
    ensures d in MeaningAlts(a) <==> TakesOne(a, d)
    decreases a, 0
  {
    MeaningTakes(a.word, d);
    if a.More? {
      AltsTake(a.rest, d);
    }
  }

  lemma {:induction false} CrossSize(a: seq<Datum>, b: seq<Datum>)
    ensures |Cross(a, b)| == |a| * |b|
  {
    if a != [] {
      CrossSize(a[1..], b);
      assert |a| * |b| == (|a| - 1) * |b| + |b|;
    }
  }

  /** The order: the last braces vary fastest. */
  lemma {:induction false} CrossAt(a: seq<Datum>, b: seq<Datum>, i: nat, j: nat)
    requires i < |a| && j < |b|
    ensures 0 <= i * |b| + j < |Cross(a, b)| == |a| * |b|
    ensures Cross(a, b)[i * |b| + j] == a[i] + b[j]
    decreases i
  {
    CrossSize(a, b);
    if i > 0 {
      CrossAt(a[1..], b, i - 1, j);
      assert i * |b| == (i - 1) * |b| + |b|;
      assert Cross(a, b)[i * |b| + j] == Cross(a[1..], b)[(i - 1) * |b| + j];
    } else {
      CrossSize(a[1..], b);
      assert |a| * |b| == (|a| - 1) * |b| + |b|;
    }
  }

  function Letter(c: Char): Word { Lit(c, End) }

  /** `a{b,c}{d,e}` is `abd abe acd ace`. */
  lemma TwoBraces()
    ensures var w := Lit(97, Brace(Letter(98), Last(Letter(99)), Brace(Letter(100), Last(Letter(101)), End)));
            && Flatten(w) == [97, INBRACE, 98, COMMA, 99, OUTBRACE, INBRACE, 100, COMMA, 101, OUTBRACE]
            && Meaning(w) == [[97, 98, 100], [97, 98, 101], [97, 99, 100], [97, 99, 101]]
  {
    hide Cross, Prefixed;
    var last := Brace(Letter(100), Last(Letter(101)), End);
    TwoLetters(100, 101, End);
    TwoByOne([100], [101]);
    var both := Brace(Letter(98), Last(Letter(99)), last);
    TwoLetters(98, 99, last);
    TwoByTwo(98, 99, 100, 101);
    assert Meaning(both) == [[98, 100], [98, 101], [99, 100], [99, 101]];
    var r := Meaning(Lit(97, both));
    assert r == Prefixed([97], Meaning(both));
    assert r[0] == [97, 98, 100] && r[1] == [97, 98, 101] && r[2] == [97, 99, 100] && r[3] == [97, 99, 101];
  }

  lemma TwoLetters(c: Char, d: Char, next: Word)
    ensures var w := Brace(Letter(c), Last(Letter(d)), next);
            && Meaning(w) == Cross([[c], [d]], Meaning(next))
            && Flatten(w) == [INBRACE, c, COMMA, d, OUTBRACE] + Flatten(next)
  {
    LetterMeaning(c);
    LetterMeaning(d);
    assert Meaning(Letter(c)) + MeaningAlts(Last(Letter(d))) == [[c], [d]];
    assert Flatten(Letter(c)) == [c] && Flatten(Letter(d)) == [d];
    assert Flatten(Letter(c)) + FlattenAlts(Last(Letter(d))) == [c, COMMA, d];
  }

  lemma LetterMeaning(c: Char)
    ensures Meaning(Letter(c)) == [[c]]
  {
    assert [c] + [] == [c];
    assert Meaning(Letter(c)) == Prefixed([c], [[]]);
  }

  lemma TwoByOne(p: Datum, q: Datum)
    ensures Cross([p, q], [[]]) == [p, q]
  {
    assert p + [] == p && q + [] == q && [p, q][1..] == [q] && [q][1..] == [];
    assert Cross([q], [[]]) == [q];
  }

  lemma TwoByTwo(p: Byte, q: Byte, r: Byte, s: Byte)
    ensures Cross([[p], [q]], [[r], [s]]) == [[p, r], [p, s], [q, r], [q, s]]
  {
    assert [[p], [q]][1..] == [[q]] && [[q]][1..] == [];
    assert [p] + [r] == [p, r] && [p] + [s] == [p, s] && [q] + [r] == [q, r] && [q] + [s] == [q, s];
    assert Prefixed([p], [[r], [s]]) == [[p, r], [p, s]] && Prefixed([q], [[r], [s]]) == [[q, r], [q, s]];
    assert Cross([[q]], [[r], [s]]) == [[q, r], [q, s]];
  }
}
