/** An index for global substitution, and a pattern that matches only nothing. */
module EmptyMatches {
  import opened Substitution

  /** `aa`, and a pattern that matches only nothing. */
  const NOTHING_IN_AA := Subject([97, 97], (t: nat, len: nat) => len == 0, (t: nat) => 1, false)

  /** Asking for the second match there replaces the first as well. */
  lemma EmptyStaysFirst()
    ensures NOTHING_IN_AA.WellFormed() && NOTHING_IN_AA.Found(0, 1) == [Span(0, 0), Span(1, 1)]
    ensures NOTHING_IN_AA.Found(0, 2) == NOTHING_IN_AA.Found(0, 1)
  {
    hide Subject.Best, Subject.First;
    EmptyHere(NOTHING_IN_AA, 0);
    EmptyHere(NOTHING_IN_AA, 1);
    assert NOTHING_IN_AA.Found(1, 0) == [Span(1, 1)];
  }

  lemma EmptyHere(s: Subject, t: nat)
    requires s.WellFormed() && t <= |s.u| && !s.shortest && forall len :: s.m(t, len) <==> len == 0
    ensures s.Best(t) == Some(0) && s.First(t) == Some(t)
  {
    assert s.m(t, 0);
  }
}
