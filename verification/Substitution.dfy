/** Global substitution (glob.c): the matches found in a string, and the string built
    from them in the shell's own encoding. */
module Substitution {
  import opened Bytes
  import opened Metafied

  datatype Option<+T> = None | Some(value: T)

  /** A match takes the bytes from `b` to before `e`. */
  datatype Span = Span(b: nat, e: nat)

  /** What is searched, unmetafied; whether a span of it matches; how long a character is. */
  datatype Subject = Subject(u: seq<Byte>, m: (nat, nat) -> bool, clen: nat -> nat, shortest: bool)
  {
    /** From one character boundary to another. */
    predicate Reaches(t: nat, e: nat)
      decreases e - t
    {
      t == e || (t < e && clen(t) >= 1 && t + clen(t) <= e && Reaches(t + clen(t), e))
    }

    /** Characters fill the string, and matches begin and end between them. */
    ghost predicate WellFormed() {
      && (forall t :: 0 <= t < |u| ==> 1 <= clen(t) && t + clen(t) <= |u|)
      && (forall t, len :: 0 <= t && 0 <= len && t + len <= |u| && m(t, len) ==> Reaches(t, t + len))
    }

    /** `pattrylen` over `limit` bytes: the longest match. */
    function Longest(t: nat, limit: nat): (r: Option<nat>)
      ensures r.Some? ==> r.value <= limit && m(t, r.value)
      ensures forall len :: 0 <= len <= limit && m(t, len) ==> r.Some? && len <= r.value
    {
      if m(t, limit) then Some(limit) else if limit == 0 then None else Longest(t, limit - 1)
    }

    function Least(t: nat, limit: nat, from: nat): (r: Option<nat>)
      requires from <= limit
      ensures r.Some? ==> from <= r.value <= limit && m(t, r.value)
      ensures forall len :: from <= len <= limit && m(t, len) ==> r.Some? && r.value <= len
      decreases limit - from
    {
      if m(t, from) then Some(from) else if from == limit then None else Least(t, limit, from + 1)
    }

    function Best(t: nat): (r: Option<nat>)
      requires t <= |u|
      ensures r.Some? ==> t + r.value <= |u| && m(t, r.value)
    {
      if shortest then Least(t, |u| - t, 0) else Longest(t, |u| - t)
    }

    /** The first place from `t` on, in steps of characters, where there is a match. */
    function First(t: nat): (r: Option<nat>)
      requires WellFormed() && t <= |u|
      ensures r.Some? ==> t <= r.value <= |u| && Best(r.value).Some?
      decreases |u| - t
    {
      if Best(t).Some? then Some(t) else if t == |u| then None else First(t + clen(t))
    }

    /** An empty match is followed by one character that is not searched. */
    function Resume(b: nat, e: nat): nat {
      if b == e then e + clen(e) else e
    }

    /** The spans replaced when the `n`th match is to be the first. */
    function Found(t: nat, n: int): seq<Span>
      requires WellFormed() && t <= |u|
      decreases |u| - t, n
    {
      if First(t).None? then []
      else
        var b := First(t).value;
        var e := b + Best(b).value;
        if n > 1 then (if e == |u| then [] else Found(e, n - 1))
        else [Span(b, e)] + if Resume(b, e) >= |u| then [] else Found(Resume(b, e), n - 1)
    }

    /** There is no match at any character from `t` to before `e`. */
    ghost predicate Silent(t: nat, e: nat)
      requires t <= e <= |u|
    {
      forall k, len: nat :: t <= k < e && Reaches(t, k) && k + len <= |u| ==> !m(k, len)
    }

    /** There is none at `t` and after. */
    ghost predicate NoneFrom(t: nat)
      requires t <= |u|
    {
      Silent(t, |u|) && (Reaches(t, |u|) ==> !m(|u|, 0))
    }

    /** A match, and the longest or the shortest of those that start there. */
    ghost predicate Extreme(sp: Span) {
      && sp.b <= sp.e <= |u| && m(sp.b, sp.e - sp.b)
      && forall len: nat :: sp.b + len <= |u| && m(sp.b, len) ==>
           if shortest then sp.e - sp.b <= len else len <= sp.e - sp.b
    }

    /** Spans in order, each the longest or the shortest match at its start, with no match
        passed over; after an empty one the character behind it is not searched. */
    ghost predicate Leftmost(t: nat, ms: seq<Span>)
      requires t <= |u|
      decreases |ms|
    {
      if ms == [] then NoneFrom(t)
      else
        var (b, e) := (ms[0].b, ms[0].e);
        && t <= b && Extreme(ms[0]) && Reaches(t, b) && Silent(t, b)
        && var next := if b == e then e + clen(e) else e;
           if next >= |u| then |ms| == 1 else Leftmost(next, ms[1..])
    }
  }

  /** What is found at one place is the longest match there, or the shortest. */
  lemma BestExtreme(s: Subject, t: nat)
    requires t <= |s.u|
    ensures s.Best(t).Some? ==> s.Extreme(Span(t, t + s.Best(t).value))
    ensures forall e: nat :: s.Extreme(Span(t, e)) ==> s.Best(t) == Some(e - t)
    ensures s.Best(t).None? <==> forall len: nat :: t + len <= |s.u| ==> !s.m(t, len)
  {
    forall e: nat | s.Extreme(Span(t, e))
      ensures s.Best(t) == Some(e - t)
    {
      assert s.m(t, e - t);
    }
  }

  lemma {:induction false} FirstIsFirst(s: Subject, t: nat)
    requires s.WellFormed() && t <= |s.u|
    ensures s.First(t).Some? ==> s.Reaches(t, s.First(t).value) && s.Silent(t, s.First(t).value)
    ensures s.First(t).None? ==> s.NoneFrom(t)
    decreases |s.u| - t
  {
    hide Subject.Best;
    BestExtreme(s, t);
    if s.Best(t).None? && t < |s.u| {
      FirstIsFirst(s, t + s.clen(t));
      forall k: nat | t < k <= |s.u| && s.Reaches(t, k)
        ensures s.Reaches(t + s.clen(t), k)
      {
      }
    }
  }

  lemma FirstUnique(s: Subject, t: nat, b: nat, e: nat)
    requires s.WellFormed() && t <= b
    requires s.Reaches(t, b) && s.Extreme(Span(b, e)) && s.Silent(t, b)
    ensures s.First(t) == Some(b) && s.Best(b) == Some(e - b)
  {
    hide Subject.Best, Subject.WellFormed, Subject.Reaches, Subject.First;
    FirstIsFirst(s, t);
    BestExtreme(s, b);
    assert s.m(b, e - b);
    if s.First(t).Some? {
      BestExtreme(s, s.First(t).value);
    }
  }

  lemma NoneUnique(s: Subject, t: nat)
    requires s.WellFormed() && t <= |s.u|
    requires s.NoneFrom(t)
    ensures s.First(t) == None
  {
    hide Subject.Best, Subject.WellFormed, Subject.Reaches, Subject.First;
    FirstIsFirst(s, t);
    if s.First(t).Some? {
      BestExtreme(s, s.First(t).value);
    }
  }

  lemma ResumeGrows(s: Subject, b: nat, e: nat)
    requires s.WellFormed() && b <= e <= |s.u|
    ensures s.Resume(b, e) > b || s.Resume(b, e) >= |s.u|
    ensures s.Resume(b, e) >= e && (e < |s.u| ==> s.Resume(b, e) <= |s.u|)
  {
  }

  /** What is replaced, when all matches are: leftmost matches, each the longest (or the
      shortest) where it starts. */
  lemma {:induction false} FoundLeftmost(s: Subject, t: nat, n: int)
    requires s.WellFormed() && t <= |s.u| && n <= 1
    ensures s.Leftmost(t, s.Found(t, n))
    decreases |s.u| - t
  {
    hide Subject.Best, Subject.WellFormed, Subject.Silent, Subject.NoneFrom, Subject.Extreme, Subject.Reaches, Subject.First;
    FirstIsFirst(s, t);
    if s.First(t).Some? {
      var b := s.First(t).value;
      var e := b + s.Best(b).value;
      ResumeGrows(s, b, e);
      BestExtreme(s, b);
      if s.Resume(b, e) < |s.u| {
        FoundLeftmost(s, s.Resume(b, e), n - 1);
        assert s.Found(t, n)[1..] == s.Found(s.Resume(b, e), n - 1);
      }
    }
  }

  /** Whichever match is to be the first, each of them is the longest or the shortest where
      it starts. */
  lemma {:induction false} FoundExtreme(s: Subject, t: nat, n: int)
    requires s.WellFormed() && t <= |s.u|
    ensures forall sp :: sp in s.Found(t, n) ==> s.Extreme(sp)
    decreases |s.u| - t, n
  {
    hide Subject.WellFormed, Subject.Extreme, Subject.Best, Subject.Reaches, Subject.Resume, Subject.First;
    FoundStep(s, t, n);
    if s.First(t).Some? {
      var b := s.First(t).value;
      var e := b + s.Best(b).value;
      BestExtreme(s, b);
      if n > 1 && e < |s.u| {
        FoundExtreme(s, e, n - 1);
      } else if n <= 1 && s.Resume(b, e) < |s.u| {
        FoundExtreme(s, s.Resume(b, e), n - 1);
      }
    }
  }

  /** There is only one such list. */
  lemma {:induction false} LeftmostUnique(s: Subject, t: nat, ms: seq<Span>)
    requires s.WellFormed() && t <= |s.u| && s.Leftmost(t, ms)
    ensures ms == s.Found(t, 1)
    decreases |s.u| - t
  {
    hide Subject.Best, Subject.WellFormed, Subject.Silent, Subject.NoneFrom, Subject.Reaches, Subject.First;
    if ms == [] {
      NoneUnique(s, t);
    } else {
      var (b, e) := (ms[0].b, ms[0].e);
      FirstUnique(s, t, b, e);
      ResumeGrows(s, b, e);
      assert ms == [Span(b, e)] + ms[1..];
      if s.Resume(b, e) < |s.u| {
        LeftmostUnique(s, s.Resume(b, e), ms[1..]);
        NoMatter(s, s.Resume(b, e), 1, 0);
      }
    }
  }

  lemma {:induction false} NoMatter(s: Subject, t: nat, n: int, n': int)
    requires s.WellFormed() && t <= |s.u| && n <= 1 && n' <= 1
    ensures s.Found(t, n) == s.Found(t, n')
    decreases |s.u| - t
  {
    hide Subject.Best, Subject.WellFormed, Subject.Silent, Subject.Reaches, Subject.First, Subject.Resume;
    if s.First(t).Some? {
      var b := s.First(t).value;
      var e := b + s.Best(b).value;
      ResumeGrows(s, b, e);
      if s.Resume(b, e) < |s.u| {
        NoMatter(s, s.Resume(b, e), n - 1, n' - 1);
      }
    }
  }

  /** The spans replaced do not overlap, and lie in the string. */
  lemma {:induction false} FoundApart(s: Subject, t: nat, n: int)
    requires s.WellFormed() && t <= |s.u|
    ensures Apart(t, s.Found(t, n), |s.u|)
    decreases |s.u| - t, n
  {
    hide Subject.Best, Subject.WellFormed, Subject.Silent, Subject.Reaches, Subject.First, Subject.Resume;
    if s.First(t).Some? {
      var b := s.First(t).value;
      var e := b + s.Best(b).value;
      ResumeGrows(s, b, e);
      if n > 1 {
        if e < |s.u| {
          FoundApart(s, e, n - 1);
          ApartFrom(t, e, s.Found(e, n - 1), |s.u|);
        }
      } else if s.Resume(b, e) < |s.u| {
        FoundApart(s, s.Resume(b, e), n - 1);
        assert s.Found(t, n)[1..] == s.Found(s.Resume(b, e), n - 1);
        ApartFrom(e, s.Resume(b, e), s.Found(s.Resume(b, e), n - 1), |s.u|);
      }
    }
  }

  predicate Apart(t: nat, ms: seq<Span>, end: nat)
    decreases |ms|
  {
    if ms == [] then t <= end else t <= ms[0].b <= ms[0].e && Apart(ms[0].e, ms[1..], end)
  }

  lemma ApartFrom(t: nat, t': nat, ms: seq<Span>, end: nat)
    requires Apart(t', ms, end) && t <= t'
    ensures Apart(t, ms, end)
  {
  }

  /** How many leading matches are passed over as asked: up to the first that is empty
      and not at the end, which is found again each time. */
  function Passable(s: Subject, ms: seq<Span>): (k: nat)
    ensures k <= |ms|
  {
    if ms == [] || (ms[0].b == ms[0].e && ms[0].e < |s.u|) then 0 else 1 + Passable(s, ms[1..])
  }

  lemma {:induction false} PassedOver(s: Subject, t: nat, n: int)
    requires s.WellFormed() && t <= |s.u| && n >= 1
    ensures var k := Passable(s, s.Found(t, 1));
            s.Found(t, n) == s.Found(t, 1)[if n - 1 < k then n - 1 else k..]
    decreases |s.u| - t, n
  {
    hide Subject.Best, Subject.WellFormed, Subject.Silent, Subject.Reaches, Subject.Resume;
    if s.First(t).Some? {
      var b := s.First(t).value;
      var e := b + s.Best(b).value;
      ResumeGrows(s, b, e);
      var rest := if s.Resume(b, e) >= |s.u| then [] else s.Found(s.Resume(b, e), 0);
      assert s.Found(t, 1) == [Span(b, e)] + rest;
      assert s.Found(t, 1)[1..] == rest;
      if n > 1 && e < |s.u| {
        PassedOver(s, e, n - 1);
        if b < e {
          assert s.Resume(b, e) == e by { ResumeIs(s, b, e); }
          NoMatter(s, e, 0, 1);
        }
      }
    }
  }

  lemma ResumeIs(s: Subject, b: nat, e: nat)
    ensures b < e ==> s.Resume(b, e) == e
  {
  }

  /** A replacement in the encoded string (`struct repldata`). */
  datatype Repl = Repl(b: nat, e: nat, str: seq<Byte>)

  /** The string with the spans replaced, each by its own text. */
  function Splice(u: seq<Byte>, ms: seq<Span>, text: Span -> seq<Byte>, i: nat): seq<Byte>
    requires Apart(i, ms, |u|)
    decreases |ms|
  {
    if ms == [] then u[i..]
    else
      ApartEnd(i, ms, |u|);
      u[i..ms[0].b] + text(ms[0]) + Splice(u, ms[1..], text, ms[0].e)
  }

  /** What is in front of a span, its text, and what is behind it. */
  lemma {:induction false} SplicedAround(u: seq<Byte>, front: seq<Span>, m: Span, back: seq<Span>, text: Span -> seq<Byte>, i: nat)
    requires Apart(i, front + [m] + back, |u|)
    ensures i <= m.b <= m.e <= |u| && Apart(i, front, m.b) && Apart(m.e, back, |u|)
    ensures Splice(u, front + [m] + back, text, i)
            == Splice(u[..m.b], front, text, i) + text(m) + Splice(u, back, text, m.e)
    decreases |front|
  {
    hide Splice, Apart;
    var ms := front + [m] + back;
    SpliceStep(u, ms, text, i);
    if front == [] {
      assert ms[0] == m && ms[1..] == back;
      SpliceNone(u[..m.b], text, i);
    } else {
      assert ms[0] == front[0] && ms[1..] == front[1..] + [m] + back;
      SplicedAround(u, front[1..], m, back, text, front[0].e);
      ApartCons(i, front, m.b);
      SpliceStep(u[..m.b], front, text, i);
      assert u[..m.b][i..front[0].b] == u[i..front[0].b];
      var (a, b, c) := (u[i..front[0].b] + text(front[0]), Splice(u[..m.b], front[1..], text, front[0].e), text(m));
      var d := Splice(u, back, text, m.e);
      assert a + (b + c + d) == a + b + c + d;
    }
  }

  lemma SpliceStep(u: seq<Byte>, ms: seq<Span>, text: Span -> seq<Byte>, i: nat)
    requires Apart(i, ms, |u|) && ms != []
    ensures i <= ms[0].b <= ms[0].e <= |u| && Apart(ms[0].e, ms[1..], |u|)
    ensures Splice(u, ms, text, i) == u[i..ms[0].b] + text(ms[0]) + Splice(u, ms[1..], text, ms[0].e)
  {
    ApartEnd(i, ms, |u|);
  }

  lemma SpliceNone(u: seq<Byte>, text: Span -> seq<Byte>, i: nat)
    requires i <= |u|
    ensures Apart(i, [], |u|) && Splice(u, [], text, i) == u[i..]
  {
  }

  lemma ApartCons(t: nat, ms: seq<Span>, end: nat)
    requires ms != [] && t <= ms[0].b <= ms[0].e && Apart(ms[0].e, ms[1..], end)
    ensures Apart(t, ms, end)
  {
    ApartEnd(ms[0].e, ms[1..], end);
  }

  /** Replacing each span by what is there changes nothing. */
  lemma {:induction false} SpliceSame(u: seq<Byte>, ms: seq<Span>, text: Span -> seq<Byte>, i: nat)
    requires Apart(i, ms, |u|)
    requires forall sp :: sp in ms && sp.b <= sp.e <= |u| ==> text(sp) == u[sp.b..sp.e]
    ensures i <= |u| && Splice(u, ms, text, i) == u[i..]
    decreases |ms|
  {
    ApartEnd(i, ms, |u|);
    if ms != [] {
      ApartEnd(ms[0].e, ms[1..], |u|);
      SpliceSame(u, ms[1..], text, ms[0].e);
    }
  }

  lemma {:induction false} ApartEnd(t: nat, ms: seq<Span>, end: nat)
    requires Apart(t, ms, end)
    ensures t <= end && (ms != [] ==> ms[0].e <= end)
    decreases |ms|
  {
    if ms != [] {
      ApartEnd(ms[0].e, ms[1..], end);
    }
  }

  /** `get_match_ret` for one match: indices into the encoded string. */
  method GetMatchRet(u: seq<Byte>, m: Span, text: Span -> seq<Byte>) returns (rd: Repl)
    requires m.b <= m.e <= |u|
    ensures rd == Encoded(u, m, text)
  {
    var (b, e) := (m.b, m.e);
    var add, p := 0, 0;
    while p < b
      invariant 0 <= p <= b && add == MetaCount(u[..p])
    {
      assert u[..p + 1][..p] == u[..p];
      if IsMeta(u[p]) {
        add := add + 1;
      }
      p := p + 1;
    }
    var b' := b + add;
    while p < e
      invariant b <= p <= e && add == MetaCount(u[..p])
    {
      assert u[..p + 1][..p] == u[..p];
      if IsMeta(u[p]) {
        add := add + 1;
      }
      p := p + 1;
    }
    MetaLength(u[..b]);
    MetaLength(u[..e]);
    rd := Repl(b', e + add, Metafy(text(m)));
  }

  /** The replacement for a span, at the places its ends have in the encoding. */
  function Encoded(u: seq<Byte>, m: Span, text: Span -> seq<Byte>): Repl
    requires m.b <= m.e <= |u|
  {
    Repl(|Metafy(u[..m.b])|, |Metafy(u[..m.e])|, Metafy(text(m)))
  }

  predicate Inside(ms: seq<Span>, end: nat) {
    forall k :: 0 <= k < |ms| ==> ms[k].b <= ms[k].e <= end
  }

  function AllEncoded(u: seq<Byte>, ms: seq<Span>, text: Span -> seq<Byte>): seq<Repl>
    requires Inside(ms, |u|)
  {
    seq(|ms|, k requires 0 <= k < |ms| => Encoded(u, ms[k], text))
  }

  /** The encoded string with replacements made, by the indices they hold. */
  function Assembled(s: seq<Byte>, rds: seq<Repl>, i: nat): seq<Byte>
    requires Placed(rds, i, |s|)
    decreases |rds|
  {
    if rds == [] then s[i..]
    else
      PlacedEnd(rds, i, |s|);
      s[i..rds[0].b] + rds[0].str + Assembled(s, rds[1..], rds[0].e)
  }

  predicate Placed(rds: seq<Repl>, i: nat, end: nat)
    decreases |rds|
  {
    if rds == [] then i <= end else i <= rds[0].b <= rds[0].e && Placed(rds[1..], rds[0].e, end)
  }

  lemma {:induction false} PlacedEnd(rds: seq<Repl>, i: nat, end: nat)
    requires Placed(rds, i, end)
    ensures i <= end && (rds != [] ==> rds[0].e <= end)
    decreases |rds|
  {
    if rds != [] {
      PlacedEnd(rds[1..], rds[0].e, end);
    }
  }

  /** Replacing in the encoding, by the translated indices, is the encoding of the
      replacement done on the bytes themselves. */
  lemma {:induction false} AssembledIsSpliced(u: seq<Byte>, ms: seq<Span>, text: Span -> seq<Byte>, i: nat)
    requires Apart(i, ms, |u|) && Inside(ms, |u|)
    ensures i <= |u| && Placed(AllEncoded(u, ms, text), |Metafy(u[..i])|, |Metafy(u)|)
    ensures Assembled(Metafy(u), AllEncoded(u, ms, text), |Metafy(u[..i])|) == Metafy(Splice(u, ms, text, i))
    decreases |ms|
  {
    hide Metafy, AllEncoded, Encoded, Apart;
    ApartEnd(i, ms, |u|);
    assert u[..|u|] == u;
    if ms == [] {
      EncodedNone(u, text);
      MetafySlice(u, i, |u|);
    } else {
      ApartNext(i, ms, |u|);
      EncodedNext(u, ms, text);
      AssembledIsSpliced(u, ms[1..], text, ms[0].e);
      SplicedNext(u, ms[0], Splice(u, ms[1..], text, ms[0].e), text, i);
    }
  }

  lemma EncodedNone(u: seq<Byte>, text: Span -> seq<Byte>)
    ensures Inside([], |u|) && AllEncoded(u, [], text) == []
  {
  }

  lemma ApartNext(i: nat, ms: seq<Span>, end: nat)
    requires Apart(i, ms, end) && ms != []
    ensures i <= ms[0].b <= ms[0].e <= end && Apart(ms[0].e, ms[1..], end)
  {
    ApartEnd(i, ms, end);
  }

  lemma EncodedNext(u: seq<Byte>, ms: seq<Span>, text: Span -> seq<Byte>)
    requires ms != [] && Inside(ms, |u|)
    ensures var rds := AllEncoded(u, ms, text);
            && rds != [] && rds[1..] == AllEncoded(u, ms[1..], text)
            && rds[0] == Repl(|Metafy(u[..ms[0].b])|, |Metafy(u[..ms[0].e])|, Metafy(text(ms[0])))
  {
  }

  lemma SplicedNext(u: seq<Byte>, m: Span, rest: seq<Byte>, text: Span -> seq<Byte>, i: nat)
    requires i <= m.b <= m.e <= |u|
    ensures |Metafy(u[..i])| <= |Metafy(u[..m.b])| <= |Metafy(u[..m.e])| <= |Metafy(u)|
    ensures Metafy(u[i..m.b] + text(m) + rest) ==
            Metafy(u)[|Metafy(u[..i])|..|Metafy(u[..m.b])|] + Metafy(text(m)) + Metafy(rest)
  {
    hide Metafy;
    MetafySlice(u, i, m.b);
    MetafySlice(u, m.b, m.e);
    MetafyConcat(u[i..m.b] + text(m), rest);
    MetafyConcat(u[i..m.b], text(m));
  }

  /** `memcpy` of a string's bytes to `at`. */
  method Copy(dst: array<Byte>, at: nat, src: seq<Byte>)
    requires at + |src| <= dst.Length
    modifies dst
    ensures dst[..at + |src|] == old(dst[..at]) + src
  {
    var k := 0;
    while k < |src|
      invariant 0 <= k <= |src|
      invariant dst[..at + k] == old(dst[..at]) + src[..k]
    {
      dst[at + k] := src[k];
      k := k + 1;
    }
  }

  /** The bits of a global search put together: the size counted first is the size
      filled, and one more for the final NUL. */
  method Assemble(s: seq<Byte>, rds: seq<Repl>) returns (buf: array<Byte>)
    requires Placed(rds, 0, |s|)
    ensures fresh(buf) && buf[..] == Assembled(s, rds, 0) + [0]
  {
    hide Assembled, Placed;
    var lleft := Size(s, rds);
    buf := new Byte[lleft + 1];
    var i, t, k := 0, 0, 0;
    assert rds[0..] == rds;
    ghost var all := Assembled(s, rds, 0);
    while k < |rds|
      invariant 0 <= k <= |rds| && 0 <= t <= lleft && 0 <= i && Placed(rds[k..], i, |s|)
      invariant buf[..t] + Assembled(s, rds[k..], i) == all
    {
      var rd := rds[k];
      AssembledNext(s, rds, k, i);
      Regroup(buf[..t], s[i..rd.b], rd.str, Assembled(s, rds[k + 1..], rd.e));
      Copy(buf, t, s[i..rd.b]);
      t := t + rd.b - i;
      Copy(buf, t, rd.str);
      t := t + |rd.str|;
      i := rd.e;
      k := k + 1;
    }
    assert rds[k..] == [];
    AssembledLast(s, i);
    Copy(buf, t, s[i..]);
    buf[lleft] := 0;
  }

  lemma Regroup(a: seq<Byte>, b: seq<Byte>, c: seq<Byte>, d: seq<Byte>)
    ensures a + (b + c + d) == a + b + c + d && |a + (b + c + d)| == |a| + |b| + |c| + |d|
  {
  }

  /** The first loop: how long the result is. */
  method Size(s: seq<Byte>, rds: seq<Repl>) returns (lleft: int)
    requires Placed(rds, 0, |s|)
    ensures lleft == |Assembled(s, rds, 0)|
  {
    hide Assembled, Placed;
    lleft := 0;
    var i, k := 0, 0;
    assert rds[0..] == rds;
    while k < |rds|
      invariant 0 <= k <= |rds| && 0 <= i && Placed(rds[k..], i, |s|)
      invariant lleft + |Assembled(s, rds[k..], i)| == |Assembled(s, rds, 0)|
    {
      AssembledNext(s, rds, k, i);
      lleft := lleft + rds[k].b - i + |rds[k].str|;
      i := rds[k].e;
      k := k + 1;
    }
    assert rds[k..] == [];
    AssembledLast(s, i);
    lleft := lleft + |s| - i;
  }

  lemma AssembledNext(s: seq<Byte>, rds: seq<Repl>, k: nat, i: nat)
    requires k < |rds| && Placed(rds[k..], i, |s|)
    ensures i <= rds[k].b <= rds[k].e <= |s| && Placed(rds[k + 1..], rds[k].e, |s|)
    ensures Assembled(s, rds[k..], i) == s[i..rds[k].b] + rds[k].str + Assembled(s, rds[k + 1..], rds[k].e)
  {
    assert rds[k..][1..] == rds[k + 1..];
    PlacedEnd(rds[k..], i, |s|);
  }

  lemma AssembledLast(s: seq<Byte>, i: nat)
    requires Placed([], i, |s|)
    ensures i <= |s| && Assembled(s, [], i) == s[i..]
  {
  }

  /** From `t` on, the first place with a match and where that match ends. */
  method Search(s: Subject, from: nat) returns (matched: bool, t: nat, mpos: nat)
    requires s.WellFormed() && from <= |s.u|
    ensures matched <==> s.First(from).Some?
    ensures matched ==> t == s.First(from).value && mpos == t + s.Best(t).value && s.Reaches(t, mpos)
  {
    hide Subject.Best, Subject.WellFormed;
    t, mpos, matched := from, from, false;
    while t <= |s.u|
      invariant t <= |s.u| && s.First(t) == s.First(from)
      decreases |s.u| - t
    {
      matched, mpos := TryMatch(s, t);
      if matched || t == |s.u| {
        return;
      }
      CharFits(s, t);
      t := t + s.clen(t);
    }
  }

  lemma CharFits(s: Subject, t: nat)
    requires s.WellFormed() && t < |s.u|
    ensures s.clen(t) >= 1 && t + s.clen(t) <= |s.u|
  {
  }

  /** The longest match that starts here, or the shortest. */
  method TryMatch(s: Subject, t: nat) returns (matched: bool, mpos: nat)
    requires s.WellFormed() && t <= |s.u|
    ensures matched <==> s.Best(t).Some?
    ensures matched ==> mpos == t + s.Best(t).value && s.Reaches(t, mpos)
  {
    var longest := s.Longest(t, |s.u| - t);
    matched, mpos := longest.Some?, t;
    if matched {
      mpos := t + longest.value;
      if s.shortest {
        mpos := SearchShortest(s, t, mpos);
      }
    }
  }

  /** The loop that looks for the shortest match, one character more at a time. */
  method SearchShortest(s: Subject, t: nat, longest: nat) returns (mpos: nat)
    requires s.WellFormed() && t <= longest <= |s.u| && s.Longest(t, |s.u| - t) == Some(longest - t)
    ensures s.Least(t, |s.u| - t, 0) == Some(mpos - t) && t <= mpos <= longest
  {
    mpos := longest;
    var ptr := t;
    while ptr < longest
      invariant t <= ptr <= longest && s.Reaches(t, ptr)
      invariant forall len :: 0 <= len < ptr - t ==> !s.m(t, len)
    {
      var limited := s.Longest(t, ptr - t);
      if limited.Some? {
        return t + limited.value;
      }
      NoneInside(s, t, ptr);
      Across(s, t, ptr, longest);
      OneMore(s, t, ptr);
      ptr := ptr + s.clen(ptr);
    }
  }

  lemma {:induction false} Across(s: Subject, t: nat, p: nat, q: nat)
    requires s.Reaches(t, p) && s.Reaches(t, q) && p <= q
    ensures s.Reaches(p, q)
    decreases p - t
  {
    if t < p {
      Across(s, t + s.clen(t), p, q);
    }
  }

  lemma {:induction false} OneMore(s: Subject, t: nat, p: nat)
    requires s.Reaches(t, p) && s.clen(p) >= 1
    ensures s.Reaches(t, p + s.clen(p))
    decreases p - t
  {
    if t < p {
      OneMore(s, t + s.clen(t), p);
    }
  }

  /** No match ends inside a character. */
  lemma NoneInside(s: Subject, t: nat, ptr: nat)
    requires s.WellFormed() && t <= ptr < |s.u| && s.Reaches(t, ptr)
    ensures forall len: nat :: ptr - t < len < ptr + s.clen(ptr) - t ==> !s.m(t, len)
  {
    forall len: nat | ptr - t < len < ptr + s.clen(ptr) - t
      ensures !s.m(t, len)
    {
      if s.m(t, len) {
        Across(s, t, ptr, t + len);
      }
    }
  }

  /** Over what is marked for replacement, a character at a time. */
  method SkipTo(s: Subject, from: nat, mpos: nat) returns (t: nat)
    requires s.WellFormed() && from <= mpos <= |s.u| && s.Reaches(from, mpos)
    ensures t == mpos
  {
    t := from;
    while t < mpos
      invariant t <= mpos && s.Reaches(t, mpos)
    {
      t := t + s.clen(t);
    }
  }

  lemma FoundStep(s: Subject, t: nat, n: int)
    requires s.WellFormed() && t <= |s.u|
    ensures s.First(t).None? ==> s.Found(t, n) == []
    ensures s.First(t).Some? ==>
              var b := s.First(t).value;
              var e := b + s.Best(b).value;
              && t <= b <= e <= |s.u| && s.Resume(b, e) >= e
              && (e < |s.u| ==> s.Resume(b, e) <= |s.u| && s.Resume(b, e) > b)
              && (n > 1 ==> s.Found(t, n) == if e == |s.u| then [] else s.Found(e, n - 1))
              && (n <= 1 ==> s.Found(t, n) == [Span(b, e)] + if s.Resume(b, e) >= |s.u| then [] else s.Found(s.Resume(b, e), n - 1))
  {
  }

  lemma EncodedMore(u: seq<Byte>, ms: seq<Span>, m: Span, text: Span -> seq<Byte>)
    requires Inside(ms, |u|) && m.b <= m.e <= |u|
    ensures Inside(ms + [m], |u|)
    ensures AllEncoded(u, ms + [m], text) == AllEncoded(u, ms, text) + [Encoded(u, m, text)]
  {
  }

  /** One turn of the outer loop: a match is recorded once `n` has run out. */
  method NextMatch(s: Subject, from: nat, n: int) returns (record: Option<Span>, t: nat, again: bool)
    requires s.WellFormed() && from <= |s.u|
    ensures from <= t <= |s.u|
    ensures record.Some? ==> record.value.b <= record.value.e <= |s.u|
    ensures again ==> t > from || n > 1
    ensures s.Found(from, n) == (if record.Some? then [record.value] else []) + if again then s.Found(t, n - 1) else []
  {
    hide Subject.WellFormed, Subject.First, Subject.Best, Subject.Found, Subject.Reaches;
    FoundStep(s, from, n);
    var matched, start, mpos := Search(s, from);
    record, t, again := None, from, false;
    if matched {
      t := start;
      if n <= 1 {
        record := Some(Span(t, mpos));
        if mpos == t {
          mpos := mpos + s.clen(mpos);
        }
      }
      if t < |s.u| {
        StepReaches(s, t, mpos);
        t := SkipTo(s, t, mpos);
        again := t < |s.u|;
      }
    }
  }

  /** All matches, in turn, recorded by their indices in the encoded string. */
  method FindAll(s: Subject, index: int, text: Span -> seq<Byte>) returns (rds: seq<Repl>)
    requires s.WellFormed()
    ensures var ms := s.Found(0, index);
            Inside(ms, |s.u|) && rds == AllEncoded(s.u, ms, text)
  {
    hide Subject.WellFormed, Subject.Found, Encoded, AllEncoded, Inside;
    rds := [];
    var t, n := 0, index;
    ghost var ms: seq<Span> := [];
    var again := true;
    EncodedNone(s.u, text);
    while again
      invariant t <= |s.u| && Inside(ms, |s.u|)
      invariant rds == AllEncoded(s.u, ms, text)
      invariant s.Found(0, index) == if again then ms + s.Found(t, n) else ms
      decreases |s.u| - t, if n > 0 then n else 0, again
    {
      var record;
      record, t, again := NextMatch(s, t, n);
      n := n - 1;
      if record.Some? {
        var rd := GetMatchRet(s.u, record.value, text);
        EncodedMore(s.u, ms, record.value, text);
        rds := rds + [rd];
        ms := ms + [record.value];
      }
    }
  }

  lemma StepReaches(s: Subject, t: nat, mpos: nat)
    requires s.WellFormed() && t < |s.u|
    ensures mpos == t + s.clen(t) ==> mpos <= |s.u| && s.Reaches(t, mpos)
  {
  }

  /** `${name//pattern/text}`: the string decodes to the one with every match replaced;
      without a match there is nothing to replace. */
  method GlobalSubstitute(s: Subject, index: int, text: Span -> seq<Byte>) returns (r: Option<array<Byte>>)
    requires s.WellFormed()
    ensures var ms := s.Found(0, index);
            && (r.None? <==> ms == [])
            && (forall sp :: sp in ms ==> s.Extreme(sp))
            && (index <= 1 ==> s.Leftmost(0, ms))
            && (ms != [] ==>
                  && Apart(0, ms, |s.u|) && r.value.Length > 0
                  && r.value[..r.value.Length - 1] == Metafy(Splice(s.u, ms, text, 0))
                  && r.value[r.value.Length - 1] == 0
                  && Unmetafy(r.value[..r.value.Length - 1]) == Splice(s.u, ms, text, 0))
  {
    hide Subject.WellFormed, Subject.Found, Subject.Extreme, Subject.Leftmost, AllEncoded, Splice, Assembled;
    var rds := FindAll(s, index, text);
    FoundExtreme(s, 0, index);
    if index <= 1 {
      FoundLeftmost(s, 0, index);
    }
    ghost var ms := s.Found(0, index);
    assert |rds| == |ms| by { EncodedSize(s.u, ms, text); }
    if rds == [] {
      return None;
    }
    FoundApart(s, 0, index);
    AssembledIsSpliced(s.u, ms, text, 0);
    var buf := Assemble(Metafy(s.u), rds);
    MetafyRoundTrip(Splice(s.u, ms, text, 0));
    r := Some(buf);
  }

  lemma EncodedSize(u: seq<Byte>, ms: seq<Span>, text: Span -> seq<Byte>)
    requires Inside(ms, |u|)
    ensures |AllEncoded(u, ms, text)| == |ms|
  {
  }
}
