/** What the meaning of a program guarantees over whole runs: connectives associate to
    the left, `set -e` stops at the first failure that counts and nowhere else, and
    nothing is started after `exit`. */
module ExecutionLaws {
  import opened Wordcode
  import opened Conditions
  import opened Programs
  import opened Semantics

  // ----- Connectives -----

  /** AND-OR lists as the grammar has them (section 2.9.3 of the POSIX.1-2017 Shell
      Command Language): the left operand is again a list. */
  datatype Tree = Leaf(e: Elem) | Both(left: Tree, right: Elem) | Either(left: Tree, right: Elem)

  function Append(s: Sub, conj: bool, e: Elem): Sub {
    match s
    case Last(e0) => More(e0, conj, Last(e))
    case More(e0, c, rest) => More(e0, c, Append(rest, conj, e))
  }

  /** The chain the parser stores for a tree. */
  function Chain(t: Tree): Sub {
    match t
    case Leaf(e) => Last(e)
    case Both(l, e) => Append(Chain(l), true, e)
    case Either(l, e) => Append(Chain(l), false, e)
  }

  function LeafMeaning(w: World, cx: Context, d: nat, e: Elem, st: St): (St, bool) {
    var (st', quiet) := EvalElem(w, if Negated(e) then SUPPRESSED else cx, d, e, st);
    (st', quiet || Negated(e))
  }

  /** A left operand is evaluated with failures suppressed; the right one only if the
      left one's status asks for it. */
  function Meaning(w: World, cx: Context, d: nat, t: Tree, st: St): (St, bool)
    decreases t
  {
    match t
    case Leaf(e) => LeafMeaning(w, cx, d, e, st)
    case Both(l, e) =>
      var (st', _) := Meaning(w, SUPPRESSED, d, l, st);
      if st'.exited.None? && st'.lastval == 0 then LeafMeaning(w, cx, d, e, st') else (st', true)
    case Either(l, e) =>
      var (st', _) := Meaning(w, SUPPRESSED, d, l, st);
      if st'.exited.None? && st'.lastval != 0 then LeafMeaning(w, cx, d, e, st') else (st', true)
  }

  function Extended(w: World, cx: Context, d: nat, conj: bool, e: Elem, st: St): (St, bool) {
    if st.exited.None? && conj == (st.lastval == 0) then LeafMeaning(w, cx, d, e, st) else (st, true)
  }

  lemma {:induction false} AppendMeaning(
      w: World, cx: Context, d: nat, s: Sub, conj: bool, e: Elem, st: St)
    ensures EvalSub(w, cx, d, Append(s, conj, e), st)
            == Extended(w, cx, d, conj, e, EvalSub(w, SUPPRESSED, d, s, st).0)
    decreases s, 1
  {
    hide EvalElem;
    var s' := Append(s, conj, e);
    SubStep(w, cx, d, s', st);
    SubStep(w, SUPPRESSED, d, s, st);
    var (st', _) := EvalElem(w, SUPPRESSED, d, s.e, st);
    match s
    case Last(_) =>
      AfterStep(w, cx, d, conj, Last(e), st');
      SubStep(w, cx, d, Last(e), st');
    case More(_, c, rest) =>
      if st'.exited.None? {
        AppendAfter(w, cx, d, c, rest, conj, e, st');
      }
  }

  lemma {:induction false} AppendAfter(
      w: World, cx: Context, d: nat, c: bool, rest: Sub, conj: bool, e: Elem, st: St)
    requires st.exited.None?
    ensures EvalAfter(w, cx, d, c, Append(rest, conj, e), st)
            == Extended(w, cx, d, conj, e, EvalAfter(w, SUPPRESSED, d, c, rest, st).0)
    decreases rest, 2
  {
    hide EvalElem, EvalSub;
    AfterStep(w, cx, d, c, Append(rest, conj, e), st);
    AfterStep(w, SUPPRESSED, d, c, rest, st);
    if c == (st.lastval == 0) {
      AppendMeaning(w, cx, d, rest, conj, e, st);
    } else {
      match rest
      case Last(_) =>
        AfterStep(w, cx, d, conj, Last(e), st);
        SubStep(w, cx, d, Last(e), st);
      case More(_, c', rest') => AppendAfter(w, cx, d, c', rest', conj, e, st);
    }
  }

  /** Evaluation of the stored chain is left-associative evaluation of the tree. */
  lemma {:induction false} ChainIsLeftAssociative(w: World, cx: Context, d: nat, t: Tree, st: St)
    ensures EvalSub(w, cx, d, Chain(t), st) == Meaning(w, cx, d, t, st)
    decreases t
  {
    hide EvalElem, EvalSub;
    match t
    case Leaf(e) => SubStep(w, cx, d, Last(e), st);
    case Both(l, e) =>
      ChainIsLeftAssociative(w, SUPPRESSED, d, l, st);
      AppendMeaning(w, cx, d, Chain(l), true, e, st);
    case Either(l, e) =>
      ChainIsLeftAssociative(w, SUPPRESSED, d, l, st);
      AppendMeaning(w, cx, d, Chain(l), false, e, st);
  }

  // ----- ERR_EXIT -----

  predicate NoFailure(h: seq<Event>, n: nat) {
    forall i :: n <= i < |h| ==> !h[i].Failed?
  }

  function On(w: World): World { w.(errexit := true) }

  function Off(w: World): World { w.(errexit := false) }

  /** `on` is `off` cut off right after its first failure since `n`, and exited with
      the status recorded there. */
  predicate StoppedAtFirst(n: nat, off: St, on: St) {
    && on.exited.Some?
    && n < |on.history| && on.history <= off.history
    && on.history[|on.history| - 1] == Failed(on.exited.value)
    && NoFailure(on.history[..|on.history| - 1], n)
  }

  predicate Agree(n: nat, off: St, on: St) {
    (NoFailure(off.history, n) && on == off) || StoppedAtFirst(n, off, on)
  }

  /** The same for results with a flag, which matters only while the shell lives. */
  predicate Agree2(n: nat, off: (St, bool), on: (St, bool)) {
    (NoFailure(off.0.history, n) && on == off) || StoppedAtFirst(n, off.0, on.0)
  }

  /** Agreement carries over to a later point of the run. */
  lemma AgreeOn(n: nat, off: St, on: St, off': St, on': St)
    requires Agree(n, off, on) && n <= |off.history| && off.history <= off'.history
    requires on.exited.None? ==> Agree(|off.history|, off', on')
    requires on.exited.Some? ==> on' == on && (off.exited.Some? ==> off' == off)
    ensures Agree(n, off', on')
  {
    if NoFailure(off.history, n) && on == off {
      if StoppedAtFirst(|off.history|, off', on') {
        var h := on'.history[..|on'.history| - 1];
        assert forall i :: n <= i < |off.history| ==> h[i] == off.history[i];
      }
    }
  }

  lemma AgreeBody(w: World, cx: Context, d: nat, l: List, st: St)
    requires st.exited.None?
    ensures Agree(|st.history|, EvalBody(Off(w), cx, d, l, st), EvalBody(On(w), cx, d, l, st))
    ensures cx.noExit ==> EvalBody(Off(w), cx, d, l, st) == EvalBody(On(w), cx, d, l, st)
    ensures cx.noExit ==> NoFailure(EvalBody(Off(w), cx, d, l, st).history, |st.history|)
    decreases Nest(w, d), 1, l, 1
  {
    hide EvalList;
    if l.Cons? {
      AgreeList(w, cx, d, l, st);
    }
  }

  lemma AgreeList(w: World, cx: Context, d: nat, l: List, st: St)
    requires st.exited.None?
    ensures Agree(|st.history|, EvalList(Off(w), cx, d, l, st), EvalList(On(w), cx, d, l, st))
    ensures cx.noExit ==> EvalList(Off(w), cx, d, l, st) == EvalList(On(w), cx, d, l, st)
    ensures cx.noExit ==> NoFailure(EvalList(Off(w), cx, d, l, st).history, |st.history|)
    decreases Nest(w, d), 1, l, 0
  {
    hide EvalList, EvalItem;
    ListStep(Off(w), cx, d, l, st);
    ListStep(On(w), cx, d, l, st);
    if l.Cons? && !Unwinding(st) {
      AgreeItem(w, cx, d, l.s, st);
      var off, on := EvalItem(Off(w), cx, d, l.s, st), EvalItem(On(w), cx, d, l.s, st);
      ListStep(On(w), cx, d, l.rest, on);
      ListStep(Off(w), cx, d, l.rest, off);
      if off.exited.None? {
        AgreeList(w, cx, d, l.rest, off);
      }
      AgreeOn(|st.history|, off, on,
              EvalList(Off(w), cx, d, l.rest, off), EvalList(On(w), cx, d, l.rest, on));
    }
  }

  lemma AgreeItem(w: World, cx: Context, d: nat, s: Sub, st: St)
    requires st.exited.None?
    ensures Agree(|st.history|, EvalItem(Off(w), cx, d, s, st), EvalItem(On(w), cx, d, s, st))
    ensures cx.noExit ==> EvalItem(Off(w), cx, d, s, st) == EvalItem(On(w), cx, d, s, st)
    ensures cx.noExit ==> NoFailure(EvalItem(Off(w), cx, d, s, st).history, |st.history|)
    decreases Nest(w, d), 1, s, 1
  {
    hide EvalItem, EvalSub;
    ItemStep(Off(w), cx, d, s, st);
    ItemStep(On(w), cx, d, s, st);
    AgreeSub(w, cx, d, s, st);
    var off, on := EvalSub(Off(w), cx, d, s, st), EvalSub(On(w), cx, d, s, st);
    AgreeOn(|st.history|, off.0, on.0,
            EvalItem(Off(w), cx, d, s, st), EvalItem(On(w), cx, d, s, st));
  }

  lemma AgreeSub(w: World, cx: Context, d: nat, s: Sub, st: St)
    requires st.exited.None?
    ensures Agree2(|st.history|, EvalSub(Off(w), cx, d, s, st), EvalSub(On(w), cx, d, s, st))
    ensures cx.noExit ==> EvalSub(Off(w), cx, d, s, st) == EvalSub(On(w), cx, d, s, st)
    ensures cx.noExit ==> NoFailure(EvalSub(Off(w), cx, d, s, st).0.history, |st.history|)
    decreases Nest(w, d), 1, s, 0
  {
    hide EvalSub, EvalElem, EvalAfter;
    SubStep(Off(w), cx, d, s, st);
    SubStep(On(w), cx, d, s, st);
    AgreeElem(w, if s.More? || Negated(s.e) then SUPPRESSED else cx, d, s.e, st);
    if s.More? {
      var off := EvalElem(Off(w), SUPPRESSED, d, s.e, st).0;
      if off.exited.None? {
        AgreeAfter(w, cx, d, s.conj, s.rest, off);
        AgreeOn(|st.history|, off, off, EvalAfter(Off(w), cx, d, s.conj, s.rest, off).0,
                EvalAfter(On(w), cx, d, s.conj, s.rest, off).0);
      }
    }
  }

  lemma AgreeAfter(w: World, cx: Context, d: nat, conj: bool, rest: Sub, st: St)
    requires st.exited.None?
    ensures Agree2(|st.history|, EvalAfter(Off(w), cx, d, conj, rest, st),
                   EvalAfter(On(w), cx, d, conj, rest, st))
    ensures cx.noExit ==>
              && EvalAfter(Off(w), cx, d, conj, rest, st) == EvalAfter(On(w), cx, d, conj, rest, st)
              && NoFailure(EvalAfter(Off(w), cx, d, conj, rest, st).0.history, |st.history|)
    decreases Nest(w, d), 1, rest, 1
  {
    hide EvalSub, EvalAfter;
    AfterStep(Off(w), cx, d, conj, rest, st);
    AfterStep(On(w), cx, d, conj, rest, st);
    if conj == (st.lastval == 0) {
      AgreeSub(w, cx, d, rest, st);
    } else if rest.More? {
      AgreeAfter(w, cx, d, rest.conj, rest.rest, st);
    }
  }

  lemma AgreeElem(w: World, cx: Context, d: nat, e: Elem, st: St)
    requires st.exited.None?
    ensures Agree2(|st.history|, EvalElem(Off(w), cx, d, e, st), EvalElem(On(w), cx, d, e, st))
    ensures cx.noExit ==> EvalElem(Off(w), cx, d, e, st) == EvalElem(On(w), cx, d, e, st)
    ensures cx.noExit ==> NoFailure(EvalElem(Off(w), cx, d, e, st).0.history, |st.history|)
    decreases Nest(w, d), 1, e
  {
    hide EvalCmd;
    if e.Elem? {
      AgreeCmd(w, cx, d, e.cmd, st);
    }
  }

  lemma AgreeCmd(w: World, cx: Context, d: nat, c: Cmd, st: St)
    requires st.exited.None?
    ensures Agree2(|st.history|, EvalCmd(Off(w), cx, d, c, st), EvalCmd(On(w), cx, d, c, st))
    ensures cx.noExit ==> EvalCmd(Off(w), cx, d, c, st) == EvalCmd(On(w), cx, d, c, st)
    ensures cx.noExit ==> NoFailure(EvalCmd(Off(w), cx, d, c, st).0.history, |st.history|)
    decreases Nest(w, d), 1, c
  {
    hide EvalBody, EvalSimple, Eval;
    match c
    case Simple(args) =>
      var st' := st.(history := st.history + [Ran(args, st.lastval)]);
      AgreeSimple(w, cx, d, args, st');
      AgreeOn(|st.history|, st', st',
              EvalSimple(Off(w), cx, d, args, st'), EvalSimple(On(w), cx, d, args, st'));
    case Arith(_) =>
    case Cond(_) =>
    case Group(b) => AgreeBody(w, cx, d, b, st);
  }

  lemma AgreeSimple(w: World, cx: Context, d: nat, args: seq<Word>, st: St)
    requires st.exited.None?
    ensures Agree(|st.history|, EvalSimple(Off(w), cx, d, args, st), EvalSimple(On(w), cx, d, args, st))
    ensures cx.noExit ==> EvalSimple(Off(w), cx, d, args, st) == EvalSimple(On(w), cx, d, args, st)
    ensures cx.noExit ==> NoFailure(EvalSimple(Off(w), cx, d, args, st).history, |st.history|)
    decreases Nest(w, d), 0, 1
  {
    hide EvalCall;
    if w.action(args).Call? {
      AgreeCall(w, cx, d, w.action(args).f, st);
    }
  }

  lemma AgreeCall(w: World, cx: Context, d: nat, f: nat, st: St)
    requires st.exited.None?
    ensures Agree(|st.history|, EvalCall(Off(w), cx, d, f, st), EvalCall(On(w), cx, d, f, st))
    ensures cx.noExit ==> EvalCall(Off(w), cx, d, f, st) == EvalCall(On(w), cx, d, f, st)
    ensures cx.noExit ==> NoFailure(EvalCall(Off(w), cx, d, f, st).history, |st.history|)
    decreases Nest(w, d), 0, 0
  {
    hide EvalBody;
    if d + 1 <= w.funcnest {
      AgreeBody(w, cx.(noReturn := false), d + 1, w.bodies(f), st);
    }
  }

  /** With ERR_EXIT a program does what it does without, up to and including the first
      failure that counts, and exits with its status; if there is none, the option
      makes no difference. */
  lemma ErrExitStopsAtFirstFailure(w: World, d: nat, l: List, st: St)
    requires st.exited.None?
    ensures var off := EvalBody(Off(w), Context(false, false), d, l, st);
            var on := EvalBody(On(w), Context(false, false), d, l, st);
            if NoFailure(off.history, |st.history|) then on == off
            else StoppedAtFirst(|st.history|, off, on)
  {
    AgreeBody(w, Context(false, false), d, l, st);
  }

  /** Under `!` and to the left of `&&` and `||`, at any depth of groups and function
      calls, no failure counts and ERR_EXIT changes nothing. */
  lemma SuppressedNeverStops(w: World, cx: Context, d: nat, e: Elem, st: St)
    requires st.exited.None? && cx.noExit
    ensures EvalElem(On(w), cx, d, e, st) == EvalElem(Off(w), cx, d, e, st)
    ensures NoFailure(EvalElem(On(w), cx, d, e, st).0.history, |st.history|)
  {
    AgreeElem(w, cx, d, e, st);
  }

  // ----- exit -----

  predicate IsExit(w: World, e: Event) {
    e.Ran? && w.action(e.args).Exit?
  }

  predicate NoneStarted(h: seq<Event>, n: nat) {
    forall j :: n < j < |h| ==> !h[j].Ran?
  }

  /** What an `exit` asks for: its operand, or the status it sees. */
  function Asked(w: World, e: Event): int
    requires IsExit(w, e)
  {
    var v := w.action(e.args).value;
    if v.Some? then v.value else e.seen
  }

  /** The status the shell will report, once `exit` has been given. */
  predicate Bound(st: St, v: int) {
    if st.exited.Some? then st.exited.value == v
    else st.ret && st.pending.Some? && st.pending.value.value == v
  }

  /** After an `exit` no simple command has been started, and the shell has gone or is
      unwinding to go with that status; an exit stays pending only below `forklevel`. */
  predicate ExitInv(w: World, d: nat, st: St) {
    && (forall i :: 0 <= i < |st.history| && IsExit(w, st.history[i]) ==>
          NoneStarted(st.history, i) && Bound(st, Asked(w, st.history[i])))
    && (st.pending.Some? && st.exited.None? ==>
          st.ret && w.forklevel < d <= st.pending.value.level)
    && (st.pending.Some? && st.exited.Some? ==> st.exited.value == st.pending.value.value)
  }

  /** Events other than simple commands, and changes of status, do no harm. */
  lemma ExitQuiet(w: World, d: nat, st: St, st': St)
    requires ExitInv(w, d, st) && st.history <= st'.history
    requires forall j :: |st.history| <= j < |st'.history| ==> !st'.history[j].Ran?
    requires st'.pending == st.pending && (st.ret ==> st'.ret)
    requires st'.exited == st.exited || (st.exited.None? && st'.exited.Some?
                                         && (st.pending.Some? ==> st'.exited.value == st.pending.value.value))
    ensures ExitInv(w, d, st')
  {
    forall i | 0 <= i < |st'.history| && IsExit(w, st'.history[i])
      ensures NoneStarted(st'.history, i) && Bound(st', Asked(w, st'.history[i]))
    {
      assert i < |st.history| && st'.history[i] == st.history[i];
      assert NoneStarted(st.history, i);
      forall j | i < j < |st'.history|
        ensures !st'.history[j].Ran?
      {
        if j < |st.history| {
          assert st'.history[j] == st.history[j];
        }
      }
    }
  }

  lemma ExitBody(w: World, cx: Context, d: nat, l: List, st: St)
    requires st.exited.None? && ExitInv(w, d, st)
    ensures ExitInv(w, d, EvalBody(w, cx, d, l, st))
    decreases Nest(w, d), 1, l, 1
  {
    hide EvalList, ExitInv;
    if l.Nil? {
      ExitQuiet(w, d, st, st.(lastval := 0));
    } else {
      ExitList(w, cx, d, l, st);
    }
  }

  lemma ExitList(w: World, cx: Context, d: nat, l: List, st: St)
    requires st.exited.None? && ExitInv(w, d, st)
    ensures ExitInv(w, d, EvalList(w, cx, d, l, st))
    decreases Nest(w, d), 1, l, 0
  {
    hide EvalList, EvalItem, ExitInv;
    ListStep(w, cx, d, l, st);
    if l.Cons? && !Unwinding(st) {
      var st' := EvalItem(w, cx, d, l.s, st);
      ExitItem(w, cx, d, l.s, st);
      ListStep(w, cx, d, l.rest, st');
      if st'.exited.None? {
        ExitList(w, cx, d, l.rest, st');
      }
    }
  }

  lemma ExitItem(w: World, cx: Context, d: nat, s: Sub, st: St)
    requires st.exited.None? && ExitInv(w, d, st)
    ensures ExitInv(w, d, EvalItem(w, cx, d, s, st))
    decreases Nest(w, d), 1, s, 1
  {
    hide EvalItem, EvalSub, ExitInv;
    ItemStep(w, cx, d, s, st);
    ExitSub(w, cx, d, s, st);
    var (st', quiet) := EvalSub(w, cx, d, s, st);
    if !quiet && st'.exited.None? {
      ExitQuiet(w, d, st', Check(w, cx, d, st'));
    }
  }

  lemma ExitSub(w: World, cx: Context, d: nat, s: Sub, st: St)
    requires st.exited.None? && ExitInv(w, d, st)
    ensures ExitInv(w, d, EvalSub(w, cx, d, s, st).0)
    decreases Nest(w, d), 1, s, 0
  {
    hide EvalSub, EvalElem, EvalAfter, ExitInv;
    SubStep(w, cx, d, s, st);
    ExitElem(w, if s.More? || Negated(s.e) then SUPPRESSED else cx, d, s.e, st);
    if s.More? {
      var st' := EvalElem(w, SUPPRESSED, d, s.e, st).0;
      if st'.exited.None? {
        ExitAfter(w, cx, d, s.conj, s.rest, st');
      }
    }
  }

  lemma ExitAfter(w: World, cx: Context, d: nat, conj: bool, rest: Sub, st: St)
    requires st.exited.None? && ExitInv(w, d, st)
    ensures ExitInv(w, d, EvalAfter(w, cx, d, conj, rest, st).0)
    decreases Nest(w, d), 1, rest, 1
  {
    hide EvalSub, EvalAfter, ExitInv;
    AfterStep(w, cx, d, conj, rest, st);
    if conj == (st.lastval == 0) {
      ExitSub(w, cx, d, rest, st);
    } else if rest.More? {
      ExitAfter(w, cx, d, rest.conj, rest.rest, st);
    }
  }

  lemma ExitElem(w: World, cx: Context, d: nat, e: Elem, st: St)
    requires st.exited.None? && ExitInv(w, d, st)
    ensures ExitInv(w, d, EvalElem(w, cx, d, e, st).0)
    decreases Nest(w, d), 1, e
  {
    hide EvalCmd, ExitInv;
    var r := EvalElem(w, cx, d, e, st).0;
    if e.Elem? && !(ComplexElem(e) && st.ret) && !st.err {
      assert e.cmd.Simple? ==> ComplexElem(e);
      ExitCmd(w, cx, d, e.cmd, st);
      var st' := EvalCmd(w, cx, d, e.cmd, st).0;
      ExitQuiet(w, d, st', r);
    } else {
      ExitQuiet(w, d, st, r);
    }
  }

  /** A simple command is only reached when nothing unwinds. */
  lemma ExitCmd(w: World, cx: Context, d: nat, c: Cmd, st: St)
    requires st.exited.None? && ExitInv(w, d, st) && (c.Simple? ==> !st.ret)
    ensures ExitInv(w, d, EvalCmd(w, cx, d, c, st).0)
    decreases Nest(w, d), 1, c
  {
    hide EvalBody, EvalSimple, Eval, ExitInv;
    match c
    case Simple(args) =>
      ExitSimple(w, cx, d, args, st);
    case Arith(_) => ExitQuiet(w, d, st, EvalCmd(w, cx, d, c, st).0);
    case Cond(_) => ExitQuiet(w, d, st, EvalCmd(w, cx, d, c, st).0);
    case Group(b) => ExitBody(w, cx, d, b, st);
  }

  lemma ExitSimple(w: World, cx: Context, d: nat, args: seq<Word>, before: St)
    requires before.exited.None? && !before.ret && ExitInv(w, d, before)
    ensures ExitInv(w, d, EvalSimple(w, cx, d, args, before.(history := before.history + [Ran(args, before.lastval)])))
    decreases Nest(w, d), 0, 1
  {
    hide EvalCall;
    var st := before.(history := before.history + [Ran(args, before.lastval)]);
    assert before.pending.None?;
    assert forall i :: 0 <= i < |before.history| ==> !IsExit(w, before.history[i]);
    if w.action(args).Call? {
      ExitCall(w, cx, d, w.action(args).f, st);
    }
  }

  lemma ExitCall(w: World, cx: Context, d: nat, f: nat, st: St)
    requires st.exited.None? && ExitInv(w, d, st) && st.pending.None?
    requires forall i :: 0 <= i < |st.history| ==> !IsExit(w, st.history[i])
    ensures ExitInv(w, d, EvalCall(w, cx, d, f, st))
    decreases Nest(w, d), 0, 0
  {
    hide EvalBody;
    if d + 1 <= w.funcnest {
      assert ExitInv(w, d + 1, st);
      ExitBody(w, cx.(noReturn := false), d + 1, w.bodies(f), st);
    }
  }

  /** Nothing is started after `exit`, at whatever depth of functions and groups it is
      given; once the functions above `forklevel` have ended the shell has exited, with
      the status that was asked for, or without an operand the last status before. */
  lemma ExitIsFinal(w: World, cx: Context, d: nat, l: List, st: St, i: nat)
    requires st == St([], st.lastval, false, false, None, None) && d <= w.forklevel
    requires var h := EvalBody(w, cx, d, l, st).history; i < |h| && IsExit(w, h[i])
    ensures var r := EvalBody(w, cx, d, l, st);
            && NoneStarted(r.history, i)
            && r.exited == Some(Asked(w, r.history[i]))
  {
    ExitBody(w, cx, d, l, st);
  }

  /** A command that never needs a fork and is no group. */
  predicate Forkless(e: Elem) { e.Elem? && !ComplexElem(e) && !e.cmd.Group? }

  /** The status after a pipeline that is not run because of unwinding. */
  function PassedStatus(e: Elem, status: int): int {
    if e.Bare? then 1
    else if !ComplexElem(e) && e.cmd.Group? && e.cmd.body.Nil? then 0
    else status
  }

  /** Some pipeline from this one on is reached, with the statuses of unwinding, that
      never needs a fork. */
  predicate StillRuns(s: Sub, status: int)
    decreases s, 0
  {
    || Forkless(s.e)
    || (s.More? && StillRunsAfter(s.conj, s.rest, PassedStatus(s.e, status)))
  }

  predicate StillRunsAfter(conj: bool, rest: Sub, status: int)
    decreases rest, 1
  {
    if conj == (status == 0) then StillRuns(rest, status)
    else rest.More? && StillRunsAfter(rest.conj, rest.rest, status)
  }

  /** `execsimple` does not look at `retflag`. */
  lemma UnwindingElem(w: World, cx: Context, d: nat, e: Elem, st: St)
    requires st.ret && !st.err && st.exited.None?
    ensures if Forkless(e) then |EvalElem(w, cx, d, e, st).0.history| > |st.history|
            else EvalElem(w, cx, d, e, st).0 == st.(lastval := PassedStatus(e, st.lastval))
  {
    hide Eval;
    if e.Elem? && !ComplexElem(e) {
      if e.cmd.Group? {
        var b := e.cmd.body;
        ListStep(w, cx, d, b, st);
        assert EvalCmd(w, cx, d, e.cmd, st).0 == EvalBody(w, cx, d, b, st);
      } else if e.cmd.Cond? {
        assert EvalCmd(w, cx, d, e.cmd, st).0.history == Eval(w.verdict, e.cmd.cond, st.history).history;
      } else {
        assert !ComplexCmd(e.cmd);
      }
    }
  }

  /** While a `return` or `exit` unwinds, the rest of an AND-OR list still runs something
      exactly when the statuses lead to a command that never needs a fork. */
  lemma {:induction false} UnwindingRunsOnlySimple(w: World, cx: Context, d: nat, conj: bool, rest: Sub, st: St)
    requires st.ret && !st.err && st.exited.None?
    ensures EvalAfter(w, cx, d, conj, rest, st).0.history == st.history <==> !StillRunsAfter(conj, rest, st.lastval)
    decreases rest, 1
  {
    hide EvalSub, EvalAfter;
    AfterStep(w, cx, d, conj, rest, st);
    if conj == (st.lastval == 0) {
      UnwindingSub(w, cx, d, rest, st);
    } else if rest.More? {
      UnwindingRunsOnlySimple(w, cx, d, rest.conj, rest.rest, st);
    }
  }

  lemma {:induction false} UnwindingSub(w: World, cx: Context, d: nat, s: Sub, st: St)
    requires st.ret && !st.err && st.exited.None?
    ensures EvalSub(w, cx, d, s, st).0.history == st.history <==> !StillRuns(s, st.lastval)
    decreases s, 0
  {
    hide EvalElem, EvalSub, EvalAfter;
    SubStep(w, cx, d, s, st);
    var cx' := if s.More? || Negated(s.e) then SUPPRESSED else cx;
    var st' := EvalElem(w, cx', d, s.e, st).0;
    UnwindingElem(w, cx', d, s.e, st);
    if s.More? && !Forkless(s.e) {
      UnwindingRunsOnlySimple(w, cx, d, s.conj, s.rest, st');
    }
  }

  // The words of a program that calls a function with the body `exit 3 && (( x ))`.
  const CALL: seq<Word> := [1]
  const EXIT: seq<Word> := [2]
  const X: Word := 7

  function ExitBodyOf(f: nat): List {
    Cons(More(Elem(false, 0, Simple(EXIT)), true, Last(Elem(false, 0, Arith(X)))), Nil)
  }

  function ExitWorld(): World {
    World(_ => True, _ => Result(0, false), _ => Some(1),
          args => if args == CALL then Call(0) else if args == EXIT then Exit(Some(3)) else External,
          ExitBodyOf, 1, 0, false, false, false, false, false)
  }

  /** The expression is computed after the `exit`, and the shell goes with status 3. */
  lemma ComputedAfterExit()
    ensures EvalBody(ExitWorld(), Context(false, false), 0,
                     Cons(Last(Elem(false, 0, Simple(CALL))), Nil), St([], 0, false, false, None, None))
            == St([Ran(CALL, 0), Ran(EXIT, 0), Computed(X)], 0, false, false, Some(Pending(1, 3)), Some(3))
  {
    var w := ExitWorld();
    var (s, body) := (Last(Elem(false, 0, Simple(CALL))), ExitBodyOf(0));
    var st := St([Ran(CALL, 0)], 0, false, false, None, None);
    var st1 := EvalElem(w, SUPPRESSED, 1, body.s.e, st).0;
    assert st1 == St([Ran(CALL, 0), Ran(EXIT, 0)], 0, true, false, Some(Pending(1, 3)), None);
    var st2 := EvalAfter(w, Context(false, false), 1, true, body.s.rest, st1);
    assert st2 == (st1.(history := st1.history + [Computed(X)]), false);
    assert EvalSub(w, Context(false, false), 1, body.s, st) == st2;
    assert EvalBody(w, Context(false, false), 1, body, st) == st2.0;
    assert EvalCall(w, Context(false, false), 0, 0, st) == st2.0.(ret := false, exited := Some(3));
    var start := St([], 0, false, false, None, None);
    assert start.history + [Ran(CALL, 0)] == st.history;
    assert EvalElem(w, Context(false, false), 0, s.e, start).0 == EvalCall(w, Context(false, false), 0, 0, st);
  }

  // ----- Failures that count -----

  /** A last pipeline that is reached, and is no group and not negated, counts as a failure
      exactly when it fails where failures are not suppressed. */
  lemma FailureCounts(w: World, cx: Context, d: nat, t: Tree, st: St)
    requires !Negated(Final(t)) && !Final(t).cmd.Group? && Reached(w, d, t, st)
    ensures var r := EvalElem(w, cx, d, Final(t), Before(w, d, t, st)).0;
            r.exited.None? ==>
              EvalItem(w, cx, d, Chain(t), st).history ==
              r.history + if r.lastval != 0 && !cx.noExit then [Failed(ExitStatus(r))] else []
  {
    ItemStep(w, cx, d, Chain(t), st);
    ChainIsLeftAssociative(w, cx, d, t, st);
  }

  function Final(t: Tree): Elem {
    match t
    case Leaf(e) => e
    case Both(_, e) => e
    case Either(_, e) => e
  }

  /** Where the last pipeline starts. */
  function Before(w: World, d: nat, t: Tree, st: St): St {
    match t
    case Leaf(_) => st
    case Both(l, _) => Meaning(w, SUPPRESSED, d, l, st).0
    case Either(l, _) => Meaning(w, SUPPRESSED, d, l, st).0
  }

  predicate Reached(w: World, d: nat, t: Tree, st: St) {
    var v := Before(w, d, t, st);
    match t
    case Leaf(_) => true
    case Both(_, _) => v.exited.None? && v.lastval == 0
    case Either(_, _) => v.exited.None? && v.lastval != 0
  }
}
