/** The wordcode executor (exec.c, cond.c, builtin.c): it moves a program counter over
    flat words, and threads failure suppression through flags.  Every method is proved
    to compute the tree meaning of `Semantics`. */
module Executor {
  import opened Wordcode
  import opened Conditions
  import opened Programs
  import opened Semantics

  /** A program and the word to be executed next. */
  class Estate {
    const prog: seq<Word>
    var pc: nat

    constructor (prog: seq<Word>)
      ensures this.prog == prog && pc == 0
    {
      this.prog := prog;
      pc := 0;
    }
  }

  lemma BitsOf(x: nat, ltype: nat)
    requires x % 64 == ltype
    ensures HasBit(x, Z_SIMPLE) == HasBit(ltype, Z_SIMPLE)
    ensures HasBit(x, Z_END) == HasBit(ltype, Z_END)
  {
    LowBits(x / 64, ltype);
  }

  lemma LowBits(y: nat, ltype: nat)
    requires ltype < 64
    ensures (64 * y + ltype) / 32 % 2 == ltype / 32 % 2
    ensures (64 * y + ltype) / 16 % 2 == ltype / 16 % 2
  {
    assert (64 * y + ltype) / 32 == 2 * y + ltype / 32;
    assert (64 * y + ltype) / 16 == 4 * y + ltype / 16;
  }

  lemma ListTypeBits(last: bool, simple: bool)
    ensures var t := Z_SYNC + (if last then Z_END else 0) + (if simple then Z_SIMPLE else 0);
            HasBit(t, Z_END) == last && HasBit(t, Z_SIMPLE) == simple
  {
  }

  /** The words of the first item of a program and of the rest of it. */
  lemma ItemAt(prog: seq<Word>, pc: nat, l: List)
    requires l.Cons? && Loadable(l) && At(prog, pc, LayoutProgram(l))
    requires WellFormedSub(l.s) && WellFormedElem(l.s.e)
    ensures pc < |prog| && Code(prog[pc]) == WC_LIST
    ensures HasBit(ListType(prog[pc]), Z_END) == l.rest.Nil?
    ensures HasBit(ListType(prog[pc]), Z_SIMPLE) == Simplified(l.s)
    ensures Simplified(l.s) ==>
              && At(prog, pc + 1, LayoutElem(l.s.e))
              && ListSkip(prog[pc]) == |LayoutElem(l.s.e)|
    ensures !Simplified(l.s) ==> At(prog, pc + 1, LayoutSub(l.s))
    ensures At(prog, pc + |LayoutItem(l.s, l.rest.Nil?)|, LayoutProgram(l.rest))
    ensures |LayoutList(l)| == |LayoutItem(l.s, l.rest.Nil?)| + |LayoutList(l.rest)|
    ensures l.rest.Nil? ==> |LayoutList(l.rest)| == 0
    ensures |LayoutItem(l.s, l.rest.Nil?)|
            == 1 + if Simplified(l.s) then |LayoutElem(l.s.e)| else |LayoutSub(l.s)|
  {
    hide At, Code, Data, ListType, ListSkip, HasBit, BuildList, LayoutElem, LayoutSub;
    var item := LayoutItem(l.s, l.rest.Nil?);
    assert LayoutProgram(l) == item + LayoutProgram(l.rest);
    AtSplit(prog, pc, item, LayoutProgram(l.rest));
    AtFirst(prog, pc, item[0], item[1..]);
    assert item == [item[0]] + item[1..];
    ListTypeBits(l.rest.Nil?, Simplified(l.s));
    var ltype := Z_SYNC + (if l.rest.Nil? then Z_END else 0)
                 + (if Simplified(l.s) then Z_SIMPLE else 0);
    var skip := if Simplified(l.s) then |LayoutElem(l.s.e)| else 0;
    ListRoundTrip(ltype, skip);
    assert item[0] == BuildList(ltype, skip);
    BitsOf(ListType(item[0]), ltype);
  }

  predicate HeadIs(w: Word, s: Sub)
    requires WellFormedSub(s)
  {
    && Code(w) == WC_SUBLIST
    && SublistType(w) == (if s.Last? then SUBLIST_END else if s.conj then SUBLIST_AND else SUBLIST_OR)
    && SublistFlags(w) == Flags(s.e)
    && SublistSkip(w) == |LayoutElem(s.e)|
  }

  /** The words of the first pipeline of a sublist and of the rest of it. */
  lemma SubAt(prog: seq<Word>, pc: nat, s: Sub)
    requires WellFormedSub(s) && FitsSub(s) && At(prog, pc, LayoutSub(s))
    ensures pc < |prog| && HeadIs(prog[pc], s)
    ensures At(prog, pc + 1, LayoutElem(s.e))
    ensures s.More? ==> At(prog, pc + 1 + |LayoutElem(s.e)|, LayoutSub(s.rest))
    ensures |LayoutSub(s)| == 1 + |LayoutElem(s.e)| + if s.More? then |LayoutSub(s.rest)| else 0
  {
    hide At, Code, Data, SublistType, SublistSkip, SublistFlags, BuildSublist, LayoutElem, Flags;
    var stype := if s.Last? then SUBLIST_END else if s.conj then SUBLIST_AND else SUBLIST_OR;
    SublistRoundTrip(stype, Flags(s.e), |LayoutElem(s.e)|);
    var w := BuildSublist(stype, Flags(s.e), |LayoutElem(s.e)|);
    if s.Last? {
      AtFirst(prog, pc, w, LayoutElem(s.e));
    } else {
      AtFirst(prog, pc, w, LayoutElem(s.e) + LayoutSub(s.rest));
      AtSplit(prog, pc + 1, LayoutElem(s.e), LayoutSub(s.rest));
    }
  }

  lemma ElemAt(prog: seq<Word>, pc: nat, e: Elem)
    requires WellFormedElem(e) && e.Elem? && At(prog, pc, LayoutElem(e))
    ensures pc < |prog| && At(prog, pc + 1, LayoutCmd(e.cmd))
    ensures ComplexElem(e) ==> Code(prog[pc]) == WC_PIPE
  {
    hide At, Code, Data, BuildPipe, PipeLine, LayoutCmd;
    AtFirst(prog, pc, LayoutElem(e)[0], LayoutCmd(e.cmd));
    PipeCode(e.line);
  }

  lemma CmdAt(prog: seq<Word>, pc: nat, c: Cmd)
    requires WellFormedCmd(c) && FitsCmd(c) && At(prog, pc, LayoutCmd(c))
    ensures pc < |prog|
    ensures match c
            case Simple(args) =>
              Code(prog[pc]) == WC_SIMPLE && SimpleArgc(prog[pc]) == |args| && At(prog, pc + 1, args)
            case Arith(expr) =>
              Code(prog[pc]) == WC_ARITH && pc + 1 < |prog| && prog[pc + 1] == expr
            case Cond(cond) => Code(prog[pc]) == WC_COND && Runnable(prog, pc, cond) && SlotSafe(cond)
            case Group(b) =>
              && Code(prog[pc]) == WC_CURSH
              && CurshSkip(prog[pc]) == |LayoutList(b)| + 2
              && At(prog, pc + 2, LayoutProgram(b))
  {
    hide At, Code, Data, Build, BuildCursh, BuildSimple, SimpleArgc, CurshSkip, Layout, Reads, LayoutList;
    match c
    case Simple(args) =>
      AtFirst(prog, pc, BuildSimple(|args|), args);
      SimpleRoundTrip(|args|);
    case Arith(expr) =>
      assert [Build(WC_ARITH, 0), expr] == [Build(WC_ARITH, 0)] + [expr];
      AtFirst(prog, pc, Build(WC_ARITH, 0), [expr]);
      assert [expr] == [expr] + [];
      AtFirst(prog, pc + 1, expr, []);
      ArithCode();
    case Cond(cond) =>
      CondHead(cond);
      AtFirst(prog, pc, Layout(cond)[0], Layout(cond)[1..]);
      assert Layout(cond) == [Layout(cond)[0]] + Layout(cond)[1..];
      LayoutReads(prog, pc, cond);
      SafeIsLow(cond);
    case Group(b) =>
      var head := BuildCursh(|LayoutList(b)| + 2);
      assert LayoutCmd(c) == [head] + ([0] + LayoutProgram(b));
      AtFirst(prog, pc, head, [0] + LayoutProgram(b));
      AtFirst(prog, pc + 1, 0, LayoutProgram(b));
      CurshRoundTrip(|LayoutList(b)| + 2);
  }

  lemma CondHead(c: Conditions.Cond)
    requires WellFormed(c)
    ensures |Layout(c)| > 0 && Code(Layout(c)[0]) == WC_COND
  {
    match c
    case Not(_) => CondRoundTrip(COND_NOT, 0);
    case And(l, r) => CondRoundTrip(COND_AND, |Layout(l)| + |Layout(r)|);
    case Or(l, r) => CondRoundTrip(COND_OR, |Layout(l)| + |Layout(r)|);
    case Test(t, ops, _) => CondRoundTrip(t, if t == COND_MOD then |ops| - 1 else 0);
  }

  lemma FlagBits(e: Elem)
    ensures HasBit(Flags(e), SUBLIST_NOT) == Negated(e)
    ensures HasBit(Flags(e), SUBLIST_SIMPLE) == !ComplexElem(e)
  {
  }

  lemma WholeProgram(prog: seq<Word>)
    ensures At(prog, 0, prog)
  {
  }

  lemma ProgramHead(prog: seq<Word>, pc: nat, l: List)
    requires Loadable(l) && At(prog, pc, LayoutProgram(l))
    ensures pc < |prog| && (Code(prog[pc]) == WC_LIST <==> l.Cons?)
    ensures Code(prog[pc]) != WC_PIPE
  {
    if l.Cons? {
      assert WellFormedSub(l.s) && WellFormedElem(l.s.e);
      ItemAt(prog, pc, l);
    } else {
      AtFirst(prog, pc, WC_END, []);
    }
  }

  /** `code`, just read, is the first word of the list `l`. */
  ghost predicate Reading(prog: seq<Word>, pc: nat, code: Word, l: List) {
    && l.Cons? && Loadable(l)
    && 1 <= pc <= |prog| && code == prog[pc - 1]
    && At(prog, pc - 1, LayoutProgram(l))
  }

  ghost function ItemLength(l: List): nat
    requires l.Cons? && Loadable(l)
  {
    |LayoutItem(l.s, l.rest.Nil?)|
  }

  ghost function ListLength(l: List): nat
    requires Loadable(l)
  {
    |LayoutList(l)|
  }

  lemma StartReading(prog: seq<Word>, pc: nat, l: List)
    requires Loadable(l) && At(prog, pc, LayoutProgram(l))
    ensures pc < |prog| && (Code(prog[pc]) == WC_LIST <==> l.Cons?)
    ensures l.Cons? ==> Reading(prog, pc + 1, prog[pc], l)
  {
    ProgramHead(prog, pc, l);
  }

  /** From one item of a list to the next. */
  lemma ReadOn(prog: seq<Word>, pc: nat, code: Word, l: List)
    requires Reading(prog, pc, code, l)
    ensures Loadable(l.rest) && ListLength(l) == ItemLength(l) + ListLength(l.rest)
    ensures HasBit(ListType(code), Z_END) <==> l.rest.Nil?
    ensures l.rest.Nil? ==> ListLength(l.rest) == 0
    ensures l.rest.Cons? ==>
              var next := pc - 1 + ItemLength(l);
              && next < |prog|
              && Code(prog[next]) == WC_LIST
              && Reading(prog, next + 1, prog[next], l.rest)
  {
    hide At, Code, LayoutList, LayoutItem, LayoutSub, LayoutElem, HasBit, ListType;
    SubWellFormed(l);
    ItemAt(prog, pc - 1, l);
    if l.rest.Cons? {
      StartReading(prog, pc - 1 + ItemLength(l), l.rest);
    }
  }

  lemma SubWellFormed(l: List)
    requires Loadable(l) && l.Cons?
    ensures WellFormedSub(l.s) && FitsSub(l.s) && WellFormedElem(l.s.e) && FitsElem(l.s.e)
    ensures Loadable(l.rest)
  {
  }

  /** The word after a sublist is never a pipe. */
  lemma FollowsItem(prog: seq<Word>, pc: nat, l: List)
    requires l.Cons? && Loadable(l) && At(prog, pc, LayoutProgram(l)) && !Simplified(l.s)
    requires WellFormedSub(l.s) && WellFormedElem(l.s.e)
    ensures EndsAt(prog, pc + 1, l.s)
  {
    hide At, Code, LayoutElem, LayoutSub, LayoutItem;
    ItemAt(prog, pc, l);
    ProgramHead(prog, pc + |LayoutItem(l.s, l.rest.Nil?)|, l.rest);
  }

  predicate EndsAt(prog: seq<Word>, pc: nat, s: Sub)
    requires WellFormedSub(s)
  {
    pc + |LayoutSub(s)| < |prog| && Code(prog[pc + |LayoutSub(s)|]) != WC_PIPE
  }

  lemma NextWord(prog: seq<Word>, pc: nat, s: Sub)
    requires WellFormedSub(s) && FitsSub(s) && At(prog, pc, LayoutSub(s))
    requires EndsAt(prog, pc, s)
    ensures var after := pc + 1 + |LayoutElem(s.e)|; after < |prog| && Code(prog[after]) != WC_PIPE
  {
    hide At, Code, LayoutElem, Flags;
    SubAt(prog, pc, s);
    if s.More? {
      SubAt(prog, pc + 1 + |LayoutElem(s.e)|, s.rest);
    }
  }

  /** Nothing further in `s` runs while the status stays what stopped `conj`. */
  ghost predicate Stays(conj: bool, s: Sub) {
    s.Last? || (s.conj == conj && Stays(conj, s.rest))
  }

  ghost function Length(s: Sub): nat { if s.Last? then 1 else 1 + Length(s.rest) }

  /** What runs next otherwise. */
  ghost function Resume(conj: bool, s: Sub): (r: Sub)
    requires !Stays(conj, s)
    ensures Length(r) < Length(s) && r < s
  {
    if s.conj == conj then Resume(conj, s.rest) else s.rest
  }

  /** Every function has been laid out by the parser. */
  ghost predicate Linked(w: World, progs: nat -> seq<Word>) {
    forall f :: Loadable(w.bodies(f)) && progs(f) == LayoutProgram(w.bodies(f))
  }

  lemma Program(w: World, progs: nat -> seq<Word>, f: nat)
    requires Linked(w, progs)
    ensures Loadable(w.bodies(f)) && progs(f) == LayoutProgram(w.bodies(f))
    ensures At(progs(f), 0, LayoutProgram(w.bodies(f)))
  {
    WholeProgram(progs(f));
  }

  class Shell {
    const w: World
    /** The wordcode of every shell function. */
    const progs: nat -> seq<Word>

    var history: seq<Event>
    var lastval: int
    /** The bits NOERREXIT_EXIT and NOERREXIT_RETURN. */
    var noerrexit: Context
    var thisNoerrexit: bool
    var retflag: bool
    var errflag: bool
    var locallevel: nat
    var funcdepth: nat
    var exitPending: bool
    var exitLevel: nat
    var exitVal: int
    /** Set when the C library's `exit` has been called; nothing happens after that. */
    var exited: Option<int>

    constructor (w: World, progs: nat -> seq<Word>, noerrexit: Context)
      ensures this.w == w && this.progs == progs && this.noerrexit == noerrexit
      ensures View() == St([], 0, false, false, None, None)
      ensures locallevel == 0 && funcdepth == 0
    {
      this.w := w;
      this.progs := progs;
      this.noerrexit := noerrexit;
      history, lastval := [], 0;
      thisNoerrexit, retflag, errflag := false, false, false;
      locallevel, funcdepth := 0, 0;
      exitPending, exitLevel, exitVal := false, 0, 0;
      exited := None;
    }

    ghost function View(): St
      reads this
    {
      St(history, lastval, retflag, errflag,
         if exitPending then Some(Pending(exitLevel, exitVal)) else None, exited)
    }

    ghost predicate Valid()
      reads this
    {
      && locallevel == funcdepth
      && exited.None?
      && Linked(w, progs)
    }

    /** What every callee hands back unless the shell has exited. */
    ghost predicate Kept(noerrexit: Context, level: nat)
      reads this
    {
      this.noerrexit == noerrexit && locallevel == level && funcdepth == level
    }

    method RealExit()
      modifies this`exited
      ensures exited == Some(ExitStatus(View().(exited := None)))
    {
      exited := Some(if exitPending then exitVal else lastval);
    }

    /** End of a sublist whose failure counts (Src/exec.c:1598-1627, no traps set). */
    method CheckStatus()
      requires Valid()
      modifies this`history, this`errflag, this`retflag, this`exited
      ensures View() == Check(w, noerrexit, locallevel, old(View()))
    {
      if lastval != 0 {
        if !noerrexit.noExit {
          history := history + [Failed(if exitPending then exitVal else lastval)];
        }
        var errreturn := w.errreturn && (w.interactive || locallevel > 0 || w.sourcing)
                         && !noerrexit.noReturn;
        var errexit := (w.errexit || (w.errreturn && !errreturn)) && !noerrexit.noExit;
        if errexit {
          errflag := false;
          RealExit();
          return;
        }
        if errreturn {
          retflag := true;
        }
      }
    }

    /** `evalcond`: `pc` moves past what is read; a left operand that decides the result
        makes it jump over the right one, and one that goes on from a slot has the right
        one read negated. */
    method EvalCond(st: Estate, ghost c: Conditions.Cond) returns (ret: int)
      requires Runnable(st.prog, st.pc, c)
      modifies this`history, st`pc
      ensures Actual(w.verdict, c, old(history)) == Conditions.Run(Outcome(ret, history), st.pc < old(st.pc) + Size(c))
      ensures st.pc <= old(st.pc) + Size(c)
      ensures ret != 2 ==> old(st.pc) + Size(c) <= st.pc + 1
      decreases Size(c)
    {
      hide Runnable, Actual, CondType, CondSkip, Size;
      ghost var cur := c;
      while true
        invariant Runnable(st.prog, st.pc, cur)
        invariant Actual(w.verdict, c, old(history)) == Actual(w.verdict, cur, history)
        invariant st.pc + Size(cur) == old(st.pc) + Size(c) && Size(cur) <= Size(c)
        decreases Size(cur)
      {
        var pcode := st.pc;
        Operands(st.prog, pcode, cur);
        SizeStep(cur);
        var code := st.prog[pcode];
        var ctype := CondType(code);
        ghost var before := history;
        st.pc := st.pc + 1;
        if ctype == COND_NOT {
          NegationStep(w.verdict, cur, before);
          ret := EvalCond(st, cur.arg);
          if ret == 0 || ret == 1 {
            ret := 1 - ret;
          }
          return;
        } else if ctype == COND_AND {
          ret := EvalCond(st, cur.left);
          AfterLeft(st.prog, pcode, w.verdict, cur, before);
          if ret != 0 {
            st.pc := pcode + CondSkip(code) + 1;
            return;
          }
          cur := Next(Actual(w.verdict, cur.left, before), cur);
        } else if ctype == COND_OR {
          ret := EvalCond(st, cur.left);
          AfterLeft(st.prog, pcode, w.verdict, cur, before);
          if ret != 1 && ret != 3 {
            st.pc := pcode + CondSkip(code) + 1;
            return;
          }
          cur := Next(Actual(w.verdict, cur.left, before), cur);
        } else {
          ret := RunTest(st, code, cur);
          return;
        }
      }
    }

    /** One test.  A pattern is compiled before `pc` moves over it and its number. */
    method RunTest(st: Estate, code: Word, ghost c: Conditions.Cond) returns (ret: int)
      requires c.Test? && 1 <= st.pc && Runnable(st.prog, st.pc - 1, c)
      requires code == st.prog[st.pc - 1]
      modifies this`history, st`pc
      ensures var end := old(st.pc) - 1 + Size(c);
              && Actual(w.verdict, c, old(history)) == Conditions.Run(Outcome(ret, history), st.pc < end)
              && st.pc <= end && (ret != 2 ==> end <= st.pc + 1)
    {
      var ctype := CondType(code);
      var pattern := COND_STREQ <= ctype <= COND_STRNEQ;
      var n := if ctype == COND_MOD then 1 + CondSkip(code)
               else if pattern || ctype == COND_MODI then 3
               else if ctype <= COND_REGEX then 2 else 1;
      history := history + [Tested(ctype, st.prog[st.pc..st.pc + n])];
      var verdict := w.verdict(history);
      if pattern {
        st.pc := st.pc + 1;
        if verdict.Bad? {
          return 2;
        }
        st.pc := st.pc + 2;
      } else {
        st.pc := st.pc + n;
      }
      ret := match verdict case True => 0 case False => 1 case Bad => 2 case Unknown => 3;
    }

    /** A `[[ ]]` command: the condition starts at the word just read; status 2 becomes
        a shell error. */
    method ExecCond(st: Estate, ghost c: Conditions.Cond) returns (stat: int)
      requires 1 <= st.pc && Runnable(st.prog, st.pc - 1, c) && SlotSafe(c)
      modifies this`history, this`errflag, st`pc
      ensures var o := Eval(w.verdict, c, old(history));
              && stat == o.status
              && history == o.history
              && errflag == (old(errflag) || o.status == 2)
    {
      st.pc := st.pc - 1;
      ghost var h := history;
      stat := EvalCond(st, c);
      SafeNeverMisread(w.verdict, c, h);
      ReadRight(w.verdict, c, h);
      if stat == 2 {
        errflag := true;
      }
    }

    /** A `(( ))` command: an error is reported by the status alone. */
    method ExecArith(st: Estate) returns (lv: int)
      requires st.pc < |st.prog| && !errflag
      modifies this`history, this`errflag, st`pc
      ensures history == old(history) + [Computed(st.prog[old(st.pc)])] && !errflag
      ensures lv == match w.value(history) case None => 2 case Some(n) => if n == 0 then 1 else 0
    {
      history := history + [Computed(st.prog[st.pc])];
      st.pc := st.pc + 1;
      var val := w.value(history);
      errflag := val.None?;
      if errflag {
        errflag := false;
        return 2;
      }
      lv := if val.value == 0 then 1 else 0;
    }

    /** A `{ ... }` group: its own failures have been dealt with inside. */
    method ExecCursh(st: Estate, ghost b: List) returns (lv: int)
      requires Valid() && Loadable(b) && 1 <= st.pc
      requires st.pc <= |st.prog| && CurshSkip(st.prog[st.pc - 1]) == |LayoutList(b)| + 2
      requires At(st.prog, st.pc + 1, LayoutProgram(b))
      modifies this, st`pc
      ensures View() == EvalBody(w, old(noerrexit), old(locallevel), b, old(View()))
      ensures lv == lastval
      ensures exited.None? ==> Kept(old(noerrexit), old(locallevel)) && thisNoerrexit
      decreases Nest(w, locallevel), 1, b, 3
    {
      var end := st.pc + CurshSkip(st.prog[st.pc - 1]);
      st.pc := st.pc + 1;
      ExecList(st, b);
      if exited.Some? {
        return lastval;
      }
      st.pc := end;
      thisNoerrexit := true;
      lv := lastval;
    }

    /** The commands that run inside the shell: conditions, arithmetic, groups. */
    method ExecFunc(st: Estate, code: nat, ghost c: Cmd) returns (lv: int)
      requires Valid() && !errflag && !thisNoerrexit
      requires !c.Simple? && WellFormedCmd(c) && FitsCmd(c)
      requires 1 <= st.pc && At(st.prog, st.pc - 1, LayoutCmd(c)) && code == Code(st.prog[st.pc - 1])
      modifies this, st`pc
      ensures EvalCmd(w, old(noerrexit), old(locallevel), c, old(View())).0 == View().(lastval := lv)
      ensures exited.Some? ==> lv == lastval
      ensures exited.None? ==>
                && Kept(old(noerrexit), old(locallevel))
                && thisNoerrexit == EvalCmd(w, old(noerrexit), old(locallevel), c, old(View())).1
      decreases Nest(w, locallevel), 1, c, 0
    {
      CmdAt(st.prog, st.pc - 1, c);
      if code == WC_CURSH {
        lv := ExecCursh(st, c.body);
      } else if code == WC_COND {
        lv := ExecCond(st, c.cond);
      } else {
        lv := ExecArith(st);
      }
    }

    /** `execsimple`: no job control, and no look at `retflag`. */
    method ExecSimple(st: Estate, ghost e: Elem) returns (ret: int)
      requires Valid() && !thisNoerrexit
      requires WellFormedElem(e) && FitsElem(e) && !ComplexElem(e) && At(st.prog, st.pc, LayoutElem(e))
      modifies this, st`pc
      ensures View() == EvalElem(w, old(noerrexit), old(locallevel), e, old(View())).0
      ensures ret == lastval
      ensures exited.None? ==>
                && Kept(old(noerrexit), old(locallevel))
                && thisNoerrexit == EvalElem(w, old(noerrexit), old(locallevel), e, old(View())).1
      decreases Nest(w, locallevel), 1, e, 0
    {
      ElemAt(st.prog, st.pc, e);
      CmdAt(st.prog, st.pc + 1, e.cmd);
      st.pc := st.pc + 1;
      if errflag {
        lastval := 1;
        return 1;
      }
      var code := Code(st.prog[st.pc]);
      st.pc := st.pc + 1;
      var lv := ExecFunc(st, code, e.cmd);
      lastval := lv;
      ret := lv;
    }

    /** `execpline` for a pipeline of one command: nothing starts while returning or
        after an error; `!` turns the status around. */
    method ExecPline(st: Estate, flags: nat, ghost e: Elem) returns (ret: int)
      requires Valid() && !thisNoerrexit
      requires WellFormedElem(e) && FitsElem(e) && ComplexElem(e) && flags == Flags(e)
      requires At(st.prog, st.pc, LayoutElem(e)) && st.pc < |st.prog|
      requires e.Bare? ==> Code(st.prog[st.pc]) != WC_PIPE
      modifies this, st`pc
      ensures View() == EvalElem(w, old(noerrexit), old(locallevel), e, old(View())).0
      ensures ret == lastval && (e.Bare? ==> ret == 1)
      ensures e.Elem? && e.neg && !old(Unwinding(View())) ==>
                var plain := EvalElem(w, old(noerrexit), old(locallevel), e.(neg := false), old(View())).0;
                View() == if Unwinding(plain) then plain
                          else plain.(lastval := if plain.lastval == 0 then 1 else 0)
      ensures exited.None? ==>
                && Kept(old(noerrexit), old(locallevel))
                && thisNoerrexit == EvalElem(w, old(noerrexit), old(locallevel), e, old(View())).1
      decreases Nest(w, locallevel), 1, e, 0
    {
      FlagBits(e);
      var code := st.prog[st.pc];
      if e.Elem? {
        ElemAt(st.prog, st.pc, e);
      }
      st.pc := st.pc + 1;
      if Code(code) != WC_PIPE {
        lastval := if HasBit(flags, SUBLIST_NOT) then 1 else 0;
        return lastval;
      }
      if !retflag {
        ExecCmd(st, e.cmd);
        if exited.Some? {
          return lastval;
        }
        if HasBit(flags, SUBLIST_NOT) && !errflag && !retflag {
          lastval := if lastval == 0 then 1 else 0;
        }
      }
      ret := lastval;
    }

    /** `execcmd_exec`, unforked and without redirections. */
    method ExecCmd(st: Estate, ghost c: Cmd)
      requires Valid() && !thisNoerrexit && !retflag
      requires WellFormedCmd(c) && FitsCmd(c) && At(st.prog, st.pc, LayoutCmd(c))
      modifies this, st`pc
      ensures var (v, quiet) := EvalCmd(w, old(noerrexit), old(locallevel), c, old(View()));
              && View() == (if old(errflag) then
                              old(View()).(lastval := if old(lastval) == 0 then 1 else old(lastval))
                            else v)
              && (exited.None? ==>
                    && Kept(old(noerrexit), old(locallevel))
                    && thisNoerrexit == (!old(errflag) && quiet))
      decreases Nest(w, locallevel), 1, c, 1
    {
      CmdAt(st.prog, st.pc, c);
      var code := st.prog[st.pc];
      st.pc := st.pc + 1;
      if errflag {
        if lastval == 0 {
          lastval := 1;
        }
        return;
      }
      if Code(code) == WC_SIMPLE {
        var args := st.prog[st.pc..st.pc + SimpleArgc(code)];
        st.pc := st.pc + SimpleArgc(code);
        RunSimple(args);
      } else {
        var lv := ExecFunc(st, Code(code), c);
        lastval := lv;
      }
    }

    method RunSimple(args: seq<Word>)
      requires Valid() && !errflag && !retflag && !thisNoerrexit
      modifies this
      ensures View() == EvalSimple(w, old(noerrexit), old(locallevel), args,
                                   old(View()).(history := old(history) + [Ran(args, old(lastval))]))
      ensures exited.None? ==> Kept(old(noerrexit), old(locallevel)) && !thisNoerrexit
      decreases Nest(w, locallevel), 0, 1
    {
      history := history + [Ran(args, lastval)];
      match w.action(args)
      case External =>
        lastval := w.result(history).status;
        errflag := w.result(history).error;
      case Exit(v) => BinExit(if v.Some? then v.value else lastval);
      case Return(v) => BinReturn(if v.Some? then v.value else lastval);
      case Call(f) => DoShFunc(f);
    }

    /** The `exit` builtin: inside functions the exit is left pending until they have
        returned (no jobs to warn about). */
    method BinExit(num: int)
      requires Valid()
      modifies this
      ensures View() == if locallevel > w.forklevel then
                          old(View()).(ret := true, lastval := 0,
                                       pending := Some(Pending(locallevel, num)))
                        else
                          old(View()).(exited := Some(num))
      ensures locallevel == old(locallevel) && funcdepth == old(funcdepth)
      ensures noerrexit == old(noerrexit) && thisNoerrexit == old(thisNoerrexit)
    {
      if locallevel > w.forklevel {
        retflag := true;
        exitPending := true;
        exitLevel := locallevel;
        exitVal := num;
        lastval := 0;
      } else {
        exited := Some(num);
      }
    }

    method BinReturn(num: int)
      requires Valid()
      modifies this`retflag, this`lastval, this`exited
      ensures View() == if (w.interactive && w.shinstdin) || locallevel > 0 || w.sourcing then
                          old(View()).(ret := true, lastval := num)
                        else
                          old(View()).(exited := Some(num))
    {
      if (w.interactive && w.shinstdin) || locallevel > 0 || w.sourcing {
        retflag := true;
        lastval := num;
      } else {
        exited := Some(num);
      }
    }

    /** `doshfunc`: a fresh scope for ERR_RETURN, a bound on the nesting, and on the way
        out a `return` ends here while an `exit` goes on. */
    method DoShFunc(f: nat)
      requires Valid() && !retflag && !thisNoerrexit
      modifies this
      ensures View() == EvalCall(w, old(noerrexit), old(locallevel), f, old(View()))
      ensures exited.None? ==> Kept(old(noerrexit), old(locallevel)) && !thisNoerrexit
      decreases Nest(w, locallevel), 0, 0
    {
      hide EvalBody, Linked;
      var saved := noerrexit;
      noerrexit := noerrexit.(noReturn := false);
      funcdepth := funcdepth + 1;
      if funcdepth > w.funcnest {
        errflag := true;
        lastval := 1;
      } else {
        RunBody(f);
        if exited.Some? {
          return;
        }
      }
      funcdepth := funcdepth - 1;
      noerrexit := saved;
      LeaveFunction();
    }

    /** `runshfunc`: the function's own program, one level further down. */
    method RunBody(f: nat)
      requires exited.None? && Linked(w, progs) && locallevel + 1 == funcdepth <= w.funcnest && !thisNoerrexit
      modifies this
      ensures View() == EvalBody(w, old(noerrexit), old(locallevel) + 1, w.bodies(f), old(View()))
      ensures exited.None? ==>
                noerrexit == old(noerrexit) && locallevel == old(locallevel) && funcdepth == old(funcdepth) && !thisNoerrexit
      decreases Nest(w, locallevel + 1), 2
    {
      hide EvalBody, Linked, Loadable, At;
      var st := new Estate(progs(f));
      locallevel := locallevel + 1;
      Program(w, progs, f);
      ExecList(st, w.bodies(f));
      if exited.None? {
        locallevel := locallevel - 1;
      }
    }

    /** The tail of `doshfunc`: a pending `exit` is raised again, or carried out where
        the (sub)shell began. */
    method LeaveFunction()
      requires exited.None?
      modifies this`retflag, this`exited
      ensures var v := old(View()).(ret := false);
              View() == if v.pending.Some? && v.pending.value.level >= locallevel + 1 then
                          if locallevel > w.forklevel then v.(ret := true)
                          else v.(exited := Some(v.pending.value.value))
                        else v
    {
      if retflag {
        retflag := false;
      }
      if exitPending && exitLevel >= locallevel + 1 {
        if locallevel > w.forklevel {
          retflag := true;
        } else {
          exited := Some(exitVal);
        }
      }
    }

    /** One pipeline of a sublist: failures before `&&` and `||` and after `!` are
        suppressed while it runs. */
    method ExecElem(st: Estate, code: Word, ghost s: Sub) returns (ret: int)
      requires Valid() && WellFormedSub(s) && FitsSub(s) && HeadIs(code, s)
      requires At(st.prog, st.pc, LayoutElem(s.e))
      requires st.pc + |LayoutElem(s.e)| < |st.prog|
      requires Code(st.prog[st.pc + |LayoutElem(s.e)|]) != WC_PIPE
      modifies this, st`pc
      ensures var cx := if s.More? || Negated(s.e) then SUPPRESSED else old(noerrexit);
              var (v, quiet) := EvalElem(w, cx, old(locallevel), s.e, old(View()));
              && View() == v
              && (exited.None? ==> Kept(cx, old(locallevel)) && thisNoerrexit == quiet)
      ensures ret == lastval
      ensures st.pc == old(st.pc) + |LayoutElem(s.e)|
      decreases Nest(w, locallevel), 1, s.e, 1
    {
      hide EvalElem, At, Linked;
      FlagBits(s.e);
      thisNoerrexit := false;
      var isandor := SublistType(code) != SUBLIST_END;
      var isnot := HasBit(SublistFlags(code), SUBLIST_NOT);
      var next := st.pc + SublistSkip(code);
      if isandor || isnot {
        noerrexit := SUPPRESSED;
      }
      if HasBit(SublistFlags(code), SUBLIST_SIMPLE) {
        ret := ExecSimple(st, s.e);
      } else {
        ret := ExecPline(st, SublistFlags(code), s.e);
      }
      st.pc := next;
    }

    /** The loop of `execlist` over the pipelines of one sublist.  The result says that
        the last pipeline was passed over, so that the status does not count. */
    method ExecSublist(st: Estate, ghost s: Sub) returns (donetrap: bool)
      requires Valid()
      requires WellFormedSub(s) && FitsSub(s) && At(st.prog, st.pc, LayoutSub(s))
      requires EndsAt(st.prog, st.pc, s)
      modifies this, st`pc
      ensures View() == EvalSub(w, old(noerrexit), old(locallevel), s, old(View())).0
      ensures exited.None? ==>
                && Kept(noerrexit, old(locallevel))
                && st.pc == old(st.pc) + |LayoutSub(s)|
                && (donetrap || thisNoerrexit)
                   == EvalSub(w, old(noerrexit), old(locallevel), s, old(View())).1
      decreases Nest(w, locallevel), 1, s, 0
    {
      hide EvalSub, EvalAfter, EvalElem, At, Linked, LayoutSub, LayoutElem,
        Data, Code, SublistType, SublistFlags, SublistSkip, HasBit, Flags, WellFormedElem, FitsElem,
        Check, ComplexElem, Simplified;
      var oldnoerrexit := noerrexit;
      ghost var cur := s;
      while true
        invariant Kept(oldnoerrexit, old(locallevel)) && Valid()
        invariant WellFormedSub(cur) && FitsSub(cur) && At(st.prog, st.pc, LayoutSub(cur))
        invariant EndsAt(st.prog, st.pc, cur)
        invariant st.pc + |LayoutSub(cur)| == old(st.pc) + |LayoutSub(s)|
        invariant EvalSub(w, oldnoerrexit, locallevel, cur, View())
                  == EvalSub(w, oldnoerrexit, old(locallevel), s, old(View()))
        invariant cur == s || cur < s
        decreases Length(cur)
      {
        SubAt(st.prog, st.pc, cur);
        NextWord(st.prog, st.pc, cur);
        var code := st.prog[st.pc];
        st.pc := st.pc + 1;
        SubStep(w, oldnoerrexit, locallevel, cur, View());
        var ret := ExecElem(st, code, cur);
        if exited.Some? {
          return true;
        }
        if SublistType(code) == SUBLIST_END {
          if HasBit(SublistFlags(code), SUBLIST_NOT) {
            thisNoerrexit := true;
          }
          FlagBits(cur.e);
          return false;
        }
        noerrexit := oldnoerrexit;
        cur := cur.rest;
        AfterStep(w, oldnoerrexit, locallevel, SublistType(code) == SUBLIST_AND, cur, View());
        if (SublistType(code) == SUBLIST_AND) == (ret != 0) {
          donetrap := PassOver(st, SublistType(code), oldnoerrexit, cur);
          if donetrap {
            return;
          }
          cur := Resume(SublistType(code) == SUBLIST_AND, cur);
        }
      }
    }

    /** Pipelines are passed over until one followed by the other connective has been;
        at the end of the sublist the result is true. */
    method PassOver(st: Estate, stype: nat, ghost cx: Context, ghost s: Sub) returns (ended: bool)
      requires Valid() && WellFormedSub(s) && FitsSub(s) && At(st.prog, st.pc, LayoutSub(s))
      requires stype == SUBLIST_AND || stype == SUBLIST_OR
      requires (stype == SUBLIST_AND) == (lastval != 0)
      modifies st`pc
      ensures ended <==> Stays(stype == SUBLIST_AND, s)
      ensures ended ==>
                && st.pc == old(st.pc) + |LayoutSub(s)|
                && EvalAfter(w, cx, locallevel, stype == SUBLIST_AND, s, View()) == (View(), true)
      ensures !ended ==> var r := Resume(stype == SUBLIST_AND, s);
                && WellFormedSub(r) && FitsSub(r) && At(st.prog, st.pc, LayoutSub(r))
                && st.pc + |LayoutSub(r)| == old(st.pc) + |LayoutSub(s)|
                && EvalAfter(w, cx, locallevel, stype == SUBLIST_AND, s, View())
                   == EvalSub(w, cx, locallevel, r, View())
    {
      hide EvalSub, EvalAfter, EvalElem, At, Linked, LayoutSub, LayoutElem,
        Data, SublistType, SublistFlags, SublistSkip, HasBit, Flags;
      ghost var conj := stype == SUBLIST_AND;
      ghost var cur := s;
      SubAt(st.prog, st.pc, cur);
      var code := st.prog[st.pc];
      st.pc := st.pc + 1;
      var next := st.pc + SublistSkip(code);
      while Code(code) == WC_SUBLIST && SublistType(code) == stype
        invariant WellFormedSub(cur) && FitsSub(cur) && 1 <= st.pc
        invariant At(st.prog, st.pc - 1, LayoutSub(cur)) && HeadIs(code, cur)
        invariant next == st.pc + |LayoutElem(cur.e)|
        invariant st.pc - 1 + |LayoutSub(cur)| == old(st.pc) + |LayoutSub(s)|
        invariant Stays(conj, s) == Stays(conj, cur)
        invariant !Stays(conj, s) ==> Resume(conj, s) == Resume(conj, cur)
        invariant EvalAfter(w, cx, locallevel, conj, s, View())
                  == EvalAfter(w, cx, locallevel, conj, cur, View())
        decreases cur
      {
        SubAt(st.prog, st.pc - 1, cur);
        AfterStep(w, cx, locallevel, conj, cur, View());
        cur := cur.rest;
        st.pc := next;
        SubAt(st.prog, st.pc, cur);
        code := st.prog[st.pc];
        st.pc := st.pc + 1;
        next := st.pc + SublistSkip(code);
      }
      SubAt(st.prog, st.pc - 1, cur);
      AfterStep(w, cx, locallevel, conj, cur, View());
      if cur.More? {
        AfterStep(w, cx, locallevel, !conj, cur.rest, View());
      }
      ended := SublistType(code) == SUBLIST_END;
      st.pc := next;
    }

    /** One turn of the outer loop of `execlist`. */
    method ExecItem(st: Estate, code: Word, ghost l: List)
      requires Valid() && Reading(st.prog, st.pc, code, l)
      modifies this, st`pc
      ensures View() == EvalItem(w, old(noerrexit), old(locallevel), l.s, old(View()))
      ensures exited.None? ==>
                && Kept(old(noerrexit), old(locallevel))
                && st.pc == old(st.pc) - 1 + ItemLength(l)
      decreases Nest(w, locallevel), 1, l, 1
    {
      hide EvalItem, EvalSub, EvalElem, At, Linked, LayoutList, LayoutItem, LayoutSub, LayoutElem;
      ItemStep(w, noerrexit, locallevel, l.s, View());
      SubStep(w, noerrexit, locallevel, l.s, View());
      var oldnoerrexit := noerrexit;
      SubWellFormed(l);
      ItemAt(st.prog, st.pc - 1, l);
      var thisDonetrap := false;
      thisNoerrexit := false;
      if HasBit(ListType(code), Z_SIMPLE) {
        var next := st.pc + ListSkip(code);
        var _ := ExecSimple(st, l.s.e);
        st.pc := next;
      } else {
        FollowsItem(st.prog, st.pc - 1, l);
        thisDonetrap := ExecSublist(st, l.s);
      }
      if exited.Some? {
        return;
      }
      noerrexit := oldnoerrexit;
      if !thisNoerrexit && !thisDonetrap {
        CheckStatus();
      }
    }

    /** `execlist`: every sublist in turn, until the end or until something unwinds. */
    method ExecList(st: Estate, ghost l: List)
      requires Valid() && Loadable(l) && At(st.prog, st.pc, LayoutProgram(l))
      modifies this, st`pc
      ensures View() == EvalBody(w, old(noerrexit), old(locallevel), l, old(View()))
      ensures exited.None? ==> Kept(old(noerrexit), old(locallevel)) && !thisNoerrexit
      ensures !Unwinding(View()) && l.Cons? ==> st.pc == old(st.pc) + ListLength(l)
      decreases Nest(w, locallevel), 1, l, 2
    {
      hide EvalList, EvalItem, Linked, Loadable, LayoutProgram, Reading, ListLength, ItemLength, At;
      ghost var cx, d := noerrexit, locallevel;
      StartReading(st.prog, st.pc, l);
      ghost var rem := l;
      var code := st.prog[st.pc];
      st.pc := st.pc + 1;
      if Code(code) != WC_LIST {
        lastval := 0;
        thisNoerrexit := false;
        return;
      }
      while Code(code) == WC_LIST && !retflag && !errflag
        invariant Kept(cx, d) && Valid()
        invariant rem.Cons? && Loadable(rem) && 1 <= st.pc
        invariant Reading(st.prog, st.pc, code, rem) && Code(code) == WC_LIST
        invariant st.pc - 1 + ListLength(rem) == old(st.pc) + ListLength(l)
        invariant EvalList(w, cx, d, rem, View()) == EvalList(w, cx, d, l, old(View()))
        invariant rem == l || rem < l
        decreases rem
      {
        ReadOn(st.prog, st.pc, code, rem);
        ListStep(w, cx, d, rem, View());
        ExecItem(st, code, rem);
        ListStep(w, cx, d, rem.rest, View());
        if exited.Some? {
          return;
        }
        rem := rem.rest;
        if HasBit(ListType(code), Z_END) {
          break;
        }
        code := st.prog[st.pc];
        st.pc := st.pc + 1;
      }
      ListStep(w, cx, d, rem, View());
      thisNoerrexit := false;
    }
  }
}
