/** What counts in a history line, word by word. */
module HistoryWords {
  import opened Bytes
  import opened HistoryKeys

  predicate AllBlank(s: seq<Byte>) {
    forall i :: 0 <= i < |s| ==> s[i] == 32 || s[i] == 9 || s[i] == 10
  }

  predicate NoBlank(s: seq<Byte>) {
    forall i :: 0 <= i < |s| ==> s[i] != 32 && s[i] != 9 && s[i] != 10
  }

  /** Words, and behind each of them a gap; only the last gap may be empty. */
  predicate Parted(words: seq<Line>, gaps: seq<Line>) {
    && |gaps| == |words|
    && (forall i :: 0 <= i < |words| ==> words[i] != [] && NoBlank(words[i]) && AllBlank(gaps[i]))
    && (forall i :: 0 <= i < |gaps| - 1 ==> gaps[i] != [])
  }

  function Spread(words: seq<Line>, gaps: seq<Line>): (r: Line)
    requires |gaps| == |words|
    ensures words == [] ==> r == []
    ensures words != [] && words[0] != [] ==> r != [] && r[0] == words[0][0]
  {
    if words == [] then [] else words[0] + gaps[0] + Spread(words[1..], gaps[1..])
  }

  /** One space for each gap, and none for an empty one. */
  function Spaces(gaps: seq<Line>): (r: seq<Line>)
    ensures |r| == |gaps| && forall i :: 0 <= i < |gaps| ==> r[i] == if gaps[i] == [] then [] else [32]
  {
    seq(|gaps|, i requires 0 <= i < |gaps| => if gaps[i] == [] then [] else [SPACE])
  }

  lemma {:induction false} SkipsLead(lead: Line, s: Line)
    requires AllBlank(lead) && (s == [] || !InBlank(s[0]))
    ensures SkipBlanks(lead + s) == s
  {
    if lead == [] {
      assert lead + s == s;
    } else {
      assert (lead + s)[1..] == lead[1..] + s;
      SkipsLead(lead[1..], s);
    }
  }

  lemma {:induction false} CollapseWord(word: Line, s: Line)
    requires NoBlank(word)
    ensures Collapse(word + s) == word + Collapse(s)
  {
    if word == [] {
      assert word + s == s;
    } else {
      assert (word + s)[1..] == word[1..] + s;
      CollapseWord(word[1..], s);
    }
  }

  lemma CollapseGap(gap: Line, s: Line)
    requires AllBlank(gap) && (s == [] || !InBlank(s[0]))
    ensures Collapse(gap + s) == (if gap == [] then [] else [32]) + Collapse(s)
  {
    SkipsLead(gap, s);
    if gap == [] {
      assert gap + s == s;
    }
  }

  lemma {:induction false} CollapseWords(words: seq<Line>, gaps: seq<Line>)
    requires Parted(words, gaps)
    ensures Collapse(Spread(words, gaps)) == Spread(words, Spaces(gaps))
    decreases |words|
  {
    hide Collapse;
    if words == [] {
      CollapseSome([]);
    } else {
      var rest := Spread(words[1..], gaps[1..]);
      assert words[0] + gaps[0] + rest == words[0] + (gaps[0] + rest);
      CollapseWord(words[0], gaps[0] + rest);
      CollapseGap(gaps[0], rest);
      CollapseWords(words[1..], gaps[1..]);
      assert Spaces(gaps)[1..] == Spaces(gaps[1..]);
      assert words[0] + (Spaces(gaps)[0] + Collapse(rest)) == words[0] + Spaces(gaps)[0] + Collapse(rest);
    }
  }

  /** Blanks in front of a line do not count, and those behind a word count as one space,
      however many they are and of whatever kind. */
  lemma KeyIsWords(lead: Line, words: seq<Line>, gaps: seq<Line>)
    requires AllBlank(lead) && Parted(words, gaps)
    ensures Key(lead + Spread(words, gaps), false) == Spread(words, Spaces(gaps))
    ensures Key(lead + Spread(words, gaps), true) == Spread(words, gaps)
  {
    hide Collapse, SkipBlanks, Spread;
    SkipsLead(lead, Spread(words, gaps));
    CollapseWords(words, gaps);
  }

  /** Two lines compare equal exactly if they have the same words, and both or neither of
      them blanks at the end. */
  lemma SameWords(lead: Line, words: seq<Line>, gaps: seq<Line>, lead': Line, words': seq<Line>, gaps': seq<Line>)
    requires AllBlank(lead) && Parted(words, gaps) && AllBlank(lead') && Parted(words', gaps')
    ensures Key(lead + Spread(words, gaps), false) == Key(lead' + Spread(words', gaps'), false)
            <==> words == words' && (words != [] ==> (gaps[|gaps| - 1] == []) == (gaps'[|gaps'| - 1] == []))
  {
    hide Key, Spread, Spaces, AllBlank, NoBlank;
    KeyIsWords(lead, words, gaps);
    KeyIsWords(lead', words', gaps');
    SpacesParted(words, gaps);
    SpacesParted(words', gaps');
    if Spread(words, Spaces(gaps)) == Spread(words', Spaces(gaps')) {
      Unspread(words, Spaces(gaps), words', Spaces(gaps'));
    }
    if words == words' && (words != [] ==> (gaps[|gaps| - 1] == []) == (gaps'[|gaps'| - 1] == [])) {
      assert Spaces(gaps) == Spaces(gaps');
    }
  }

  lemma SpacesParted(words: seq<Line>, gaps: seq<Line>)
    requires Parted(words, gaps)
    ensures Parted(words, Spaces(gaps))
  {
  }

  lemma {:induction false} Unspread(words: seq<Line>, gaps: seq<Line>, words': seq<Line>, gaps': seq<Line>)
    requires Parted(words, gaps) && Parted(words', gaps') && Spread(words, gaps) == Spread(words', gaps')
    requires forall i :: 0 <= i < |gaps| ==> gaps[i] == [] || gaps[i] == [32]
    requires forall i :: 0 <= i < |gaps'| ==> gaps'[i] == [] || gaps'[i] == [32]
    ensures words == words' && gaps == gaps'
    decreases |words|
  {
    if words != [] && words' != [] {
      var (rest, rest') := (Spread(words[1..], gaps[1..]), Spread(words'[1..], gaps'[1..]));
      assert gaps[0] == [] ==> |words| == 1;
      assert gaps'[0] == [] ==> |words'| == 1;
      FirstWord(words[0], gaps[0], rest, words'[0], gaps'[0], rest');
      Unspread(words[1..], gaps[1..], words'[1..], gaps'[1..]);
      assert words == [words[0]] + words[1..] && words' == [words'[0]] + words'[1..];
      assert gaps == [gaps[0]] + gaps[1..] && gaps' == [gaps'[0]] + gaps'[1..];
    }
  }

  /** The first word ends at the first blank. */
  lemma FirstWord(word: Line, gap: Line, rest: Line, word': Line, gap': Line, rest': Line)
    requires NoBlank(word) && NoBlank(word') && word + gap + rest == word' + gap' + rest'
    requires (gap == [] && rest == []) || gap == [32]
    requires (gap' == [] && rest' == []) || gap' == [32]
    ensures word == word' && gap == gap' && rest == rest'
  {
    var s := word + gap + rest;
    assert s == word' + gap' + rest';
    assert gap == [32] ==> s[|word|] == 32;
    assert gap' == [32] ==> s[|word'|] == 32;
    assert forall i :: 0 <= i < |word| ==> s[i] == word[i];
    assert forall i :: 0 <= i < |word'| ==> s[i] == word'[i];
    assert |word| == |word'|;
    assert word == s[..|word|] == word';
    assert gap + rest == s[|word|..] == gap' + rest';
    assert gap == [32] ==> (gap + rest)[1..] == rest && (gap' + rest')[1..] == rest';
  }

  /** Every line is blanks, and then words with their gaps. */
  lemma {:induction false} Parse(s: Line) returns (lead: Line, words: seq<Line>, gaps: seq<Line>)
    ensures AllBlank(lead) && Parted(words, gaps) && s == lead + Spread(words, gaps)
    decreases |s|
  {
    hide Spread;
    lead, words, gaps := [], [], [];
    if s != [] {
      var b: Line, t: Line := [s[0]], s[1..];
      assert s == b + t;
      lead, words, gaps := Parse(t);
      if InBlank(s[0]) {
        assert b + (lead + Spread(words, gaps)) == (b + lead) + Spread(words, gaps);
        lead := b + lead;
      } else if lead == [] && words != [] {
        SpreadFirst(b, words, gaps);
        words := words[0 := b + words[0]];
      } else {
        SpreadOne(b, lead, words, gaps);
        words, gaps, lead := [b] + words, [lead] + gaps, [];
      }
    }
  }

  lemma SpreadFirst(b: Line, words: seq<Line>, gaps: seq<Line>)
    requires |words| == |gaps| && words != []
    ensures Spread(words[0 := b + words[0]], gaps) == b + Spread(words, gaps)
  {
    assert words[0 := b + words[0]][1..] == words[1..];
    var rest := gaps[0] + Spread(words[1..], gaps[1..]);
    assert b + words[0] + rest == b + (words[0] + rest);
  }

  lemma SpreadOne(word: Line, gap: Line, words: seq<Line>, gaps: seq<Line>)
    requires |words| == |gaps|
    ensures Spread([word] + words, [gap] + gaps) == word + (gap + Spread(words, gaps))
  {
    var words', gaps' := [word] + words, [gap] + gaps;
    assert words'[1..] == words && gaps'[1..] == gaps;
  }

  /** The number a string is in base 33. */
  function Base33(s: seq<Byte>): nat {
    if s == [] then 0 else 33 * Base33(s[..|s| - 1]) + s[|s| - 1]
  }

  lemma Wraps(n: nat, b: nat)
    ensures (33 * (n % 0x1_0000_0000) + b) % 0x1_0000_0000 == (33 * n + b) % 0x1_0000_0000
  {
    var (q, r) := (n / 0x1_0000_0000, n % 0x1_0000_0000);
    var (q', r') := ((33 * r + b) / 0x1_0000_0000, (33 * r + b) % 0x1_0000_0000);
    assert 33 * n + b == 0x1_0000_0000 * (33 * q + q') + r';
    Remainder(33 * q + q', r');
  }

  lemma Remainder(q: nat, r: nat)
    requires r < 0x1_0000_0000
    ensures (0x1_0000_0000 * q + r) % 0x1_0000_0000 == r
  {
  }

  lemma {:induction false} HashLast(s: seq<Byte>, b: Byte, h: int)
    ensures Hash(s + [b], h) == HashStep(Hash(s, h), b)
    decreases |s|
  {
    hide HashStep;
    if s == [] {
      assert s + [b] == [b] && [b][1..] == [];
      assert Hash([b], h) == Hash([], HashStep(h, b));
    } else {
      assert (s + [b])[1..] == s[1..] + [b];
      HashLast(s[1..], b, HashStep(h, s[0]));
    }
  }

  /** The hash of a string is that number, in 32 bits. */
  lemma {:induction false} HashIsBase33(s: seq<Byte>)
    ensures Hash(s, 0) == Base33(s) % 0x1_0000_0000
    decreases |s|
  {
    if s != [] {
      var (front, b) := (s[..|s| - 1], s[|s| - 1]);
      assert s == front + [b];
      HashIsBase33(front);
      HashLast(front, b, 0);
      Wraps(Base33(front), b);
    }
  }

  /** What is hashed is the words with one space between them. */
  lemma HashOfWords(lead: Line, words: seq<Line>, gaps: seq<Line>)
    requires AllBlank(lead) && Parted(words, gaps) && words != []
    ensures HashOf(lead + Spread(words, gaps)) ==
            Base33(Spread(words, Spaces(gaps[..|gaps| - 1]) + [[]])) % 0x1_0000_0000
  {
    hide Collapse, SkipBlanks, Trimmed, Hash, Spread, Base33;
    SkipsLead(lead, Spread(words, gaps));
    CollapseWords(words, gaps);
    TrimmedWords(words, gaps);
    HashIsBase33(Spread(words, Spaces(gaps[..|gaps| - 1]) + [[]]));
  }

  lemma {:induction false} TrimmedWords(words: seq<Line>, gaps: seq<Line>)
    requires Parted(words, gaps) && words != []
    ensures Trimmed(Spread(words, Spaces(gaps))) == Spread(words, Spaces(gaps[..|gaps| - 1]) + [[]])
    decreases |words|
  {
    hide Trimmed;
    var (all, most) := (Spaces(gaps), Spaces(gaps[..|gaps| - 1]) + [[]]);
    if |words| == 1 {
      assert Spread(words, all) == words[0] + all[0];
      assert Spread(words, most) == words[0];
      TrimmedEnd(words[0], all[0]);
    } else {
      assert Spaces(gaps[1..]) == all[1..];
      assert gaps[1..][..|gaps| - 2] == gaps[..|gaps| - 1][1..];
      assert Spaces(gaps[1..][..|gaps| - 2]) + [[]] == most[1..];
      TrimmedWords(words[1..], gaps[1..]);
      TrimmedBehind(words[0] + all[0], Spread(words[1..], all[1..]));
      assert all[0] == most[0];
    }
  }

  lemma TrimmedEnd(word: Line, gap: Line)
    requires word != [] && NoBlank(word) && (gap == [] || gap == [32])
    ensures Trimmed(word + gap) == word
  {
    if gap == [] {
      assert word + gap == word;
    } else {
      assert (word + gap)[..|word|] == word;
    }
  }

  lemma TrimmedBehind(s: seq<Byte>, t: seq<Byte>)
    requires t != []
    ensures Trimmed(s + t) == s + Trimmed(t)
  {
    assert (s + t)[|s + t| - 1] == t[|t| - 1];
    assert (s + t)[..|s + t| - 1] == s + t[..|t| - 1];
  }
}
