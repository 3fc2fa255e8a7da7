/** What `!`, `return`, ERR_RETURN and errors make of the commands around them. */
module CommandLaws {
  import opened Wordcode
  import opened Conditions
  import opened Programs
  import opened Semantics
  import opened ExecutionLaws

  // ----- Negation -----

  /** The state with its status turned around. */
  function Inverted(st: St): St {
    if Unwinding(st) then st else st.(lastval := if st.lastval == 0 then 1 else 0)
  }

  /** `! c` runs what `c` runs.  It has status 1 where `c` succeeds and 0 where it fails;
      only a command that ends unwinding keeps its status. */
  lemma NegationInverts(w: World, cx: Context, d: nat, line: nat, c: Cmd, st: St)
    requires !Unwinding(st)
    ensures var (p, quiet) := EvalElem(w, cx, d, Elem(false, line, c), st);
            var (n, quiet') := EvalElem(w, cx, d, Elem(true, line, c), st);
            && n.history == p.history && quiet' == quiet
            && (Unwinding(p) ==> n == p)
            && (!Unwinding(p) ==> (n.lastval == 0 || n.lastval == 1) && (n.lastval == 0 <==> p.lastval != 0))
            && n == Inverted(p)
  {
    hide EvalCmd;
    assert EvalElem(w, cx, d, Elem(false, line, c), st) == EvalCmd(w, cx, d, c, st);
  }

  /** As a right operand, or alone: its failures do not count. */
  lemma NegatedLeaf(w: World, cx: Context, d: nat, line: nat, c: Cmd, st: St)
    requires !Unwinding(st)
    ensures var p := EvalElem(w, SUPPRESSED, d, Elem(false, line, c), st).0;
            LeafMeaning(w, cx, d, Elem(true, line, c), st) == (Inverted(p), true)
  {
    hide EvalElem;
    NegationInverts(w, SUPPRESSED, d, line, c, st);
  }

  /** `! c && e` goes on exactly after a failure of `c`, and `! c || e` exactly after a
      success. */
  lemma NegatedLeft(w: World, cx: Context, d: nat, line: nat, c: Cmd, e: Elem, st: St)
    requires !Unwinding(st)
    requires !Unwinding(EvalElem(w, SUPPRESSED, d, Elem(false, line, c), st).0)
    ensures var p := EvalElem(w, SUPPRESSED, d, Elem(false, line, c), st).0;
            EvalSub(w, cx, d, Chain(Both(Leaf(Elem(true, line, c)), e)), st) ==
            if p.lastval != 0 then LeafMeaning(w, cx, d, e, p.(lastval := 0)) else (p.(lastval := 1), true)
    ensures var p := EvalElem(w, SUPPRESSED, d, Elem(false, line, c), st).0;
            EvalSub(w, cx, d, Chain(Either(Leaf(Elem(true, line, c)), e)), st) ==
            if p.lastval == 0 then LeafMeaning(w, cx, d, e, p.(lastval := 1)) else (p.(lastval := 0), true)
  {
    hide EvalElem, EvalSub, LeafMeaning, Chain;
    var n := Elem(true, line, c);
    NegatedLeaf(w, SUPPRESSED, d, line, c, st);
    ChainIsLeftAssociative(w, cx, d, Both(Leaf(n), e), st);
    ChainIsLeftAssociative(w, cx, d, Either(Leaf(n), e), st);
  }

  /** `t && ! c` and `t || ! c`, for a list `t` of any length. */
  lemma NegatedRight(w: World, cx: Context, d: nat, t: Tree, line: nat, c: Cmd, st: St)
    requires !Unwinding(EvalSub(w, SUPPRESSED, d, Chain(t), st).0)
    ensures var l := EvalSub(w, SUPPRESSED, d, Chain(t), st).0;
            var r := (Inverted(EvalElem(w, SUPPRESSED, d, Elem(false, line, c), l).0), true);
            && EvalSub(w, cx, d, Chain(Both(t, Elem(true, line, c))), st) == (if l.lastval == 0 then r else (l, true))
            && EvalSub(w, cx, d, Chain(Either(t, Elem(true, line, c))), st) == (if l.lastval != 0 then r else (l, true))
  {
    hide EvalElem, EvalSub, LeafMeaning, Chain, Inverted;
    var n := Elem(true, line, c);
    ChainIsLeftAssociative(w, SUPPRESSED, d, t, st);
    ChainIsLeftAssociative(w, cx, d, Both(t, n), st);
    ChainIsLeftAssociative(w, cx, d, Either(t, n), st);
    NegatedLeaf(w, cx, d, line, c, EvalSub(w, SUPPRESSED, d, Chain(t), st).0);
  }

  // ----- Lists -----

  function Join(a: List, b: List): List {
    match a
    case Nil => b
    case Cons(s, rest) => Cons(s, Join(rest, b))
  }

  /** One list after another is run where the first has left off. */
  lemma {:induction false} JoinRuns(w: World, cx: Context, d: nat, a: List, b: List, st: St)
    ensures EvalList(w, cx, d, Join(a, b), st) == EvalList(w, cx, d, b, EvalList(w, cx, d, a, st))
    decreases a
  {
    hide EvalList, EvalItem;
    ListStep(w, cx, d, Join(a, b), st);
    ListStep(w, cx, d, a, st);
    if a.Cons? {
      if Unwinding(st) {
        ListStep(w, cx, d, b, st);
      } else {
        JoinRuns(w, cx, d, a.rest, b, EvalItem(w, cx, d, a.s, st));
      }
    }
  }

  /** Nothing more of a list is run once an item of it has left the state unwinding. */
  lemma CutShort(w: World, cx: Context, d: nat, pre: List, s: Sub, rest: List, st: St)
    ensures var before := EvalList(w, cx, d, pre, st);
            !Unwinding(before) && Unwinding(EvalItem(w, cx, d, s, before)) ==>
              EvalBody(w, cx, d, Join(pre, Cons(s, rest)), st) == EvalItem(w, cx, d, s, before)
  {
    hide EvalList, EvalItem;
    var before := EvalList(w, cx, d, pre, st);
    JoinRuns(w, cx, d, pre, Cons(s, rest), st);
    ListStep(w, cx, d, Cons(s, rest), before);
    ListStep(w, cx, d, rest, EvalItem(w, cx, d, s, before));
  }

  // ----- Return -----

  /** The status of `return` with or without an operand. */
  function Returned(v: Option<int>, st: St): int { if v.Some? then v.value else st.lastval }

  /** A `return` that is reached ends the call, and no more: nothing after it is run, the
      caller goes on, and the status is its operand or without one the last status.  Other
      than zero that status is a failure, which ends the shell where ERR_EXIT asks for it. */
  lemma ReturnEndsCall(w: World, cx: Context, d: nat, f: nat, pre: List, line: nat, args: seq<Word>, rest: List, st: St)
    requires d < w.funcnest
    requires w.bodies(f) == Join(pre, Cons(Last(Elem(false, line, Simple(args))), rest))
    requires w.action(args).Return?
    requires var before := EvalList(w, cx.(noReturn := false), d + 1, pre, st);
             !Unwinding(before) && before.pending.None?
    ensures var before := EvalList(w, cx.(noReturn := false), d + 1, pre, st);
            var v := w.action(args).value;
            var n := if v.Some? then v.value else before.lastval;
            var failure := if n != 0 && !cx.noExit then [Failed(n)] else [];
            var h := before.history + [Ran(args, before.lastval)] + failure;
            EvalCall(w, cx, d, f, st) ==
            if w.errexit && n != 0 && !cx.noExit then before.(history := h, lastval := n, ret := true, exited := Some(n))
            else before.(history := h, lastval := n, ret := false)
  {
    hide EvalList, EvalBody, EvalItem, EvalSub, EvalElem;
    var cx' := cx.(noReturn := false);
    var before := EvalList(w, cx', d + 1, pre, st);
    var e := Elem(false, line, Simple(args));
    var n := Returned(w.action(args).value, before);
    var returned := St(before.history + [Ran(args, before.lastval)], n, true, before.err, None, None);
    assert EvalElem(w, cx', d + 1, e, before) == (returned, false) by {
      ReturnRuns(w, cx', d + 1, line, args, before);
    }
    SubStep(w, cx', d + 1, Last(e), before);
    ItemStep(w, cx', d + 1, Last(e), before);
    CutShort(w, cx', d + 1, pre, Last(e), rest, st);
  }

  lemma ReturnRuns(w: World, cx: Context, d: nat, line: nat, args: seq<Word>, st: St)
    requires w.action(args).Return? && 0 < d && !Unwinding(st)
    ensures EvalElem(w, cx, d, Elem(false, line, Simple(args)), st) ==
            (st.(history := st.history + [Ran(args, st.lastval)], ret := true,
                 lastval := Returned(w.action(args).value, st)), false)
  {
    var st' := st.(history := st.history + [Ran(args, st.lastval)]);
    assert EvalCmd(w, cx, d, Simple(args), st) == (EvalSimple(w, cx, d, args, st'), false);
  }

  /** With ERR_RETURN a failure that counts ends the function it is in, and no more, with
      its status; whether the call was made under `!`, `&&` or `||` makes no difference. */
  lemma ErrReturnEndsCall(w: World, cx: Context, d: nat, f: nat, pre: List, s: Sub, rest: List, st: St)
    requires d < w.funcnest && w.bodies(f) == Join(pre, Cons(s, rest))
    requires w.errreturn && (!w.errexit || cx.noExit)
    requires var before := EvalList(w, cx.(noReturn := false), d + 1, pre, st);
             var (failed, quiet) := EvalSub(w, cx.(noReturn := false), d + 1, s, before);
             && !Unwinding(before) && !quiet
             && failed.exited.None? && failed.pending.None? && failed.lastval != 0
    ensures var before := EvalList(w, cx.(noReturn := false), d + 1, pre, st);
            var failed := EvalSub(w, cx.(noReturn := false), d + 1, s, before).0;
            var failure := if cx.noExit then [] else [Failed(failed.lastval)];
            EvalCall(w, cx, d, f, st) == failed.(history := failed.history + failure, ret := false)
  {
    hide EvalList, EvalBody, EvalItem, EvalSub;
    var cx' := cx.(noReturn := false);
    var before := EvalList(w, cx', d + 1, pre, st);
    ItemStep(w, cx', d + 1, s, before);
    CutShort(w, cx', d + 1, pre, s, rest, st);
  }

  /** Outside functions, in a script, ERR_RETURN is ERR_EXIT. */
  lemma ErrReturnExits(w: World, pre: List, s: Sub, rest: List, st: St)
    requires w.errreturn && !w.interactive && !w.sourcing
    requires var before := EvalList(w, Context(false, false), 0, pre, st);
             var (failed, quiet) := EvalSub(w, Context(false, false), 0, s, before);
             && !Unwinding(before) && !quiet
             && failed.exited.None? && failed.pending.None? && failed.lastval != 0
    ensures var before := EvalList(w, Context(false, false), 0, pre, st);
            var failed := EvalSub(w, Context(false, false), 0, s, before).0;
            EvalBody(w, Context(false, false), 0, Join(pre, Cons(s, rest)), st) ==
            failed.(history := failed.history + [Failed(failed.lastval)], err := false, exited := Some(failed.lastval))
  {
    hide EvalList, EvalBody, EvalItem, EvalSub;
    var cx := Context(false, false);
    var before := EvalList(w, cx, 0, pre, st);
    ItemStep(w, cx, 0, s, before);
    CutShort(w, cx, 0, pre, s, rest, st);
  }

  /** A call nested deeper than FUNCNEST is an error of status 1 that runs nothing. */
  lemma TooDeep(w: World, cx: Context, d: nat, line: nat, args: seq<Word>, st: St)
    requires w.funcnest <= d && w.action(args).Call? && !Unwinding(st) && st.pending.None?
    ensures EvalElem(w, cx, d, Elem(false, line, Simple(args)), st).0 ==
            st.(history := st.history + [Ran(args, st.lastval)], err := true, lastval := 1)
  {
    var st' := st.(history := st.history + [Ran(args, st.lastval)]);
    assert EvalCmd(w, cx, d, Simple(args), st) == (EvalSimple(w, cx, d, args, st'), false);
    assert EvalSimple(w, cx, d, args, st') == EvalCall(w, cx, d, w.action(args).f, st');
  }

  // ----- Groups and errors -----

  /** The failure of a group is not counted once more after it. */
  lemma GroupNotCounted(w: World, cx: Context, d: nat, line: nat, b: List, st: St)
    requires !Unwinding(st)
    ensures EvalItem(w, cx, d, Last(Elem(false, line, Group(b))), st) ==
            if b.Nil? then st.(lastval := 0) else EvalList(w, cx, d, b, st)
  {
    hide EvalList, EvalSub, EvalItem;
    var e := Elem(false, line, Group(b));
    assert EvalElem(w, cx, d, e, st) == EvalCmd(w, cx, d, Group(b), st);
    assert EvalCmd(w, cx, d, Group(b), st) == (EvalBody(w, cx, d, b, st), true);
    SubStep(w, cx, d, Last(e), st);
    ItemStep(w, cx, d, Last(e), st);
  }

  /** After an error the rest of an AND-OR list runs nothing; at most the status changes, and
      it is a failure unless a `return` that was successful is unwinding. */
  lemma {:induction false} NothingAfterError(w: World, cx: Context, d: nat, s: Sub, st: St)
    requires st.err && st.exited.None?
    ensures var r := EvalSub(w, cx, d, s, st).0;
            r == st.(lastval := r.lastval) && (!st.ret || st.lastval != 0 ==> r.lastval != 0)
    decreases s, 0
  {
    hide EvalElem, EvalSub, EvalAfter;
    SubStep(w, cx, d, s, st);
    var st' := EvalElem(w, if s.More? || Negated(s.e) then SUPPRESSED else cx, d, s.e, st).0;
    ErrorElem(w, if s.More? || Negated(s.e) then SUPPRESSED else cx, d, s.e, st);
    if s.More? {
      NothingAfter(w, cx, d, s.conj, s.rest, st');
    }
  }

  lemma {:induction false} NothingAfter(w: World, cx: Context, d: nat, conj: bool, rest: Sub, st: St)
    requires st.err && st.exited.None?
    ensures var r := EvalAfter(w, cx, d, conj, rest, st).0;
            r == st.(lastval := r.lastval) && (st.lastval != 0 ==> r.lastval != 0)
    decreases rest, 1
  {
    hide EvalElem, EvalSub, EvalAfter;
    AfterStep(w, cx, d, conj, rest, st);
    if conj == (st.lastval == 0) {
      NothingAfterError(w, cx, d, rest, st);
    } else if rest.More? {
      NothingAfter(w, cx, d, rest.conj, rest.rest, st);
    }
  }

  lemma ErrorElem(w: World, cx: Context, d: nat, e: Elem, st: St)
    requires st.err
    ensures var r := EvalElem(w, cx, d, e, st).0;
            r == st.(lastval := r.lastval) && (!st.ret || st.lastval != 0 ==> r.lastval != 0)
  {
    hide EvalCmd;
  }
}
