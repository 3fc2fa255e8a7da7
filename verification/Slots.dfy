/** The slot that the parser lays out after a test with `<` or `>` of `[ ]`, and the evaluator
    never reads as such: what it does to the conditions that hold such tests. */
module Slots {
  import opened Wordcode
  import opened Conditions

  /** What one misreading does, when the operands by themselves are read right: the
      tests made are those to be made, and the status is wrong exactly when the right
      operand comes out true or false. */
  lemma {:induction false} SlotReadAsNot(verdict: seq<Event> -> Verdict, c: Cond, h: seq<Event>)
    requires (c.And? || c.Or?) && SlotSafe(c.left) && SlotSafe(c.right)
    ensures var left := Eval(verdict, c.left, h);
            var (done, meant) := (Actual(verdict, c, h).o, Eval(verdict, c, h));
            && (Misread(verdict, c, h) <==> GoesOn(c, left.status) && StopsShort(verdict, c.left, h))
            && done.history == meant.history
            && (done.status == meant.status <==> !(Misread(verdict, c, h) && meant.status <= 1))
  {
    var left := Eval(verdict, c.left, h);
    SafeNeverMisread(verdict, c.left, h);
    SafeNeverMisread(verdict, c.right, left.history);
    ReadRight(verdict, c.left, h);
    ReadRight(verdict, c.right, left.history);
    StatusRange(verdict, c, h);
  }

  /** The words of `x < y && r` and `x < y || r` with a low slot read as those of
      `x < y && ! r` and `x < y || ! r`. */
  lemma SlotLayout(c: Cond)
    requires (c.And? || c.Or?) && WellFormed(c) && Fits(c)
    requires c.left.Test? && c.left.slot.Slot? && c.left.slot.word < 32
    ensures var bare := c.left.(slot := NoSlot);
            Reads(Layout(c), 0, if c.And? then And(bare, Not(c.right)) else Or(bare, Not(c.right)))
  {
    var prog := Layout(c);
    var bare := c.left.(slot := NoSlot);
    assert prog[0..|prog|] == prog;
    LayoutReads(prog, 0, c);
    LayoutSize(c);
    assert ReadsPair(prog, 0, c.left, c.right);
    SlotAtEnd(prog, 1, c.left);
    assert Reads(prog, 1 + Size(bare), Not(c.right));
    assert ReadsPair(prog, 0, bare, Not(c.right));
  }

  // ----- Which conditions are always evaluated rightly -----

  /** Answers under which every test of `c` is made and `c` comes out as `b`. */
  function Answers(c: Cond, b: bool): seq<bool> {
    match c
    case Not(a) => Answers(a, !b)
    case And(l, r) => Answers(l, true) + Answers(r, b != EndsInSlot(l))
    case Or(l, r) => Answers(l, false) + Answers(r, b != EndsInSlot(l))
    case Test(_, _, _) => [b]
  }

  /** The tests after the first `n` events are answered by `s`. */
  ghost predicate Answered(verdict: seq<Event> -> Verdict, n: nat, s: seq<bool>) {
    forall h :: n < |h| <= n + |s| ==> verdict(h) == if s[|h| - n - 1] then True else False
  }

  lemma AnsweredParts(verdict: seq<Event> -> Verdict, n: nat, s: seq<bool>, t: seq<bool>)
    requires Answered(verdict, n, s + t)
    ensures Answered(verdict, n, s) && Answered(verdict, n + |s|, t)
  {
    forall h | n < |h| <= n + |s| ensures verdict(h) == if s[|h| - n - 1] then True else False {
      assert (s + t)[|h| - n - 1] == s[|h| - n - 1];
    }
    forall h | n + |s| < |h| <= n + |s| + |t|
      ensures verdict(h) == if t[|h| - (n + |s|) - 1] then True else False
    {
      assert (s + t)[|h| - n - 1] == t[|h| - (n + |s|) - 1];
    }
  }

  /** Such a run goes through every word. */
  lemma {:induction false} FullRun(verdict: seq<Event> -> Verdict, c: Cond, h: seq<Event>, b: bool)
    requires Answered(verdict, |h|, Answers(c, b))
    ensures var run := Actual(verdict, c, h);
            && run.o.status == Num(b)
            && |run.o.history| == |h| + |Answers(c, b)|
            && run.short == EndsInSlot(c)
    decreases c
  {
    match c
    case Not(a) => FullRun(verdict, a, h, !b);
    case And(l, r) => FullPair(verdict, c, h, b);
    case Or(l, r) => FullPair(verdict, c, h, b);
    case Test(t, ops, _) => assert |h + [Tested(t, ops)]| == |h| + 1;
  }

  lemma {:induction false} FullPair(verdict: seq<Event> -> Verdict, c: Cond, h: seq<Event>, b: bool)
    requires (c.And? || c.Or?) && Answered(verdict, |h|, Answers(c, b))
    ensures var run := Actual(verdict, c, h);
            && run.o.status == Num(b)
            && |run.o.history| == |h| + |Answers(c, b)|
            && run.short == EndsInSlot(c)
    decreases c, 0
  {
    var b' := b != EndsInSlot(c.left);
    AnsweredParts(verdict, |h|, Answers(c.left, c.And?), Answers(c.right, b'));
    FullRun(verdict, c.left, h, c.And?);
    FullRun(verdict, c.right, Actual(verdict, c.left, h).o.history, b');
  }

  function Tests(c: Cond): nat {
    match c
    case Not(a) => Tests(a)
    case And(l, r) => Tests(l) + Tests(r)
    case Or(l, r) => Tests(l) + Tests(r)
    case Test(_, _, _) => 1
  }

  lemma {:induction false} AtMostTests(verdict: seq<Event> -> Verdict, c: Cond, h: seq<Event>)
    ensures |Actual(verdict, c, h).o.history| <= |h| + Tests(c)
    decreases c
  {
    match c
    case Not(a) => AtMostTests(verdict, a, h);
    case And(l, r) => AtMostTests(verdict, l, h); AtMostTests(verdict, r, Actual(verdict, l, h).o.history);
    case Or(l, r) => AtMostTests(verdict, l, h); AtMostTests(verdict, r, Actual(verdict, l, h).o.history);
    case Test(_, _, _) =>
  }

  lemma {:induction false} AnswersLength(c: Cond, b: bool)
    ensures |Answers(c, b)| == Tests(c)
  {
    match c
    case Not(a) => AnswersLength(a, !b);
    case And(l, r) => AnswersLength(l, true); AnswersLength(r, b != EndsInSlot(l));
    case Or(l, r) => AnswersLength(l, false); AnswersLength(r, b != EndsInSlot(l));
    case Test(_, _, _) =>
  }

  /** The condition as it is meant to be laid out. */
  function Bare(c: Cond): (r: Cond)
    ensures !EndsInSlot(r) && SlotSafe(r) && Tests(r) == Tests(c)
  {
    match c
    case Not(a) => Not(Bare(a))
    case And(l, r) => And(Bare(l), Bare(r))
    case Or(l, r) => Or(Bare(l), Bare(r))
    case Test(t, ops, _) => Test(t, ops, NoSlot)
  }

  lemma {:induction false} BareMeans(verdict: seq<Event> -> Verdict, c: Cond, h: seq<Event>)
    ensures Actual(verdict, Bare(c), h).o == Eval(verdict, Bare(c), h) == Eval(verdict, c, h)
    decreases c
  {
    SafeNeverMisread(verdict, Bare(c), h);
    ReadRight(verdict, Bare(c), h);
    BareEval(verdict, c, h);
  }

  lemma {:induction false} BareEval(verdict: seq<Event> -> Verdict, c: Cond, h: seq<Event>)
    ensures Eval(verdict, Bare(c), h) == Eval(verdict, c, h)
    decreases c
  {
    match c
    case Not(a) => BareEval(verdict, a, h);
    case And(l, r) => BareEval(verdict, l, h); BareEval(verdict, r, Eval(verdict, l, h).history);
    case Or(l, r) => BareEval(verdict, l, h); BareEval(verdict, r, Eval(verdict, l, h).history);
    case Test(_, _, _) =>
  }

  function Num(b: bool): int { if b then 0 else 1 }

  /** Answers under which a condition comes out as `x` and nothing has been misread;
      `free` if `x` can be chosen; otherwise the run does not stop short. */
  datatype Plan = Plan(s: seq<bool>, x: bool, short: bool, free: bool)

  function Agreeing(c: Cond, b: bool): (p: Plan)
    ensures if p.free then p.x == b else !p.short
    decreases c
  {
    match c
    case Not(a) => var p := Agreeing(a, !b); p.(x := !p.x)
    case And(l, r) => AgreeingAfter(Agreeing(l, false), c, b)
    case Or(l, r) => AgreeingAfter(Agreeing(l, true), c, b)
    case Test(_, _, slot) => Plan([b], b, slot.Slot?, true)
  }

  function AgreeingAfter(p: Plan, c: Cond, b: bool): (q: Plan)
    requires c.And? || c.Or?
    ensures if q.free then q.x == b else !q.short
    decreases c, 0
  {
    if p.x != c.And? then Plan(p.s, p.x, false, false)
    else var q := Agreeing(c.right, b); q.(s := p.s + q.s)
  }

  /** Both evaluations of `&&` and `||`, once the left operand is done. */
  lemma PairStep(verdict: seq<Event> -> Verdict, c: Cond, h: seq<Event>)
    requires c.And? || c.Or?
    ensures var left := Actual(verdict, c.left, h);
            var run := Actual(verdict, c.right, left.o.history);
            Actual(verdict, c, h) ==
            if !GoesOn(c, left.o.status) then Run(left.o, false)
            else if left.short then run.(o := Negate(run.o))
            else run
    ensures var left := Eval(verdict, c.left, h);
            Eval(verdict, c, h) == if GoesOn(c, left.status) then Eval(verdict, c.right, left.history) else left
  {
  }

  lemma {:induction false} Agrees(verdict: seq<Event> -> Verdict, c: Cond, h: seq<Event>, b: bool)
    requires Answered(verdict, |h|, Agreeing(c, b).s)
    ensures var (p, run) := (Agreeing(c, b), Actual(verdict, c, h));
            && run == Run(Eval(verdict, c, h), p.short)
            && run.o.status == Num(p.x)
            && |run.o.history| == |h| + |p.s|
    decreases c
  {
    match c
    case Not(a) => Agrees(verdict, a, h, !b);
    case And(l, r) => AgreesAfter(verdict, c, h, b);
    case Or(l, r) => AgreesAfter(verdict, c, h, b);
    case Test(t, ops, _) => assert |h + [Tested(t, ops)]| == |h| + 1;
  }

  lemma {:induction false} AgreesAfter(verdict: seq<Event> -> Verdict, c: Cond, h: seq<Event>, b: bool)
    requires (c.And? || c.Or?) && Answered(verdict, |h|, Agreeing(c, b).s)
    ensures var (p, run) := (Agreeing(c, b), Actual(verdict, c, h));
            && run == Run(Eval(verdict, c, h), p.short)
            && run.o.status == Num(p.x)
            && |run.o.history| == |h| + |p.s|
    decreases c, 0
  {
    hide OnlyTests, EndsInSlot, SlotSafe, Tests, ActualAfter, Actual, Eval, Answered;
    PairStep(verdict, c, h);
    var p := Agreeing(c.left, !c.And?);
    assert Agreeing(c, b) == AgreeingAfter(p, c, b);
    if p.x != c.And? {
      Agrees(verdict, c.left, h, !c.And?);
    } else {
      AnsweredParts(verdict, |h|, p.s, Agreeing(c.right, b).s);
      Agrees(verdict, c.left, h, !c.And?);
      Agrees(verdict, c.right, Actual(verdict, c.left, h).o.history, b);
    }
  }

  /** How two runs on the same answers differ: in their status after the same tests, or
      one is still testing when the other has ended. */
  datatype Kind = Opposite | ActualLonger | MeantLonger

  datatype Telling = Telling(s: seq<bool>, kind: Kind, x: bool, short: bool)

  /** Answers that tell the evaluator from what is meant, and what it then gives. */
  function Tell(c: Cond, b: bool): (t: Telling)
    requires !SlotSafe(c)
    ensures !t.kind.Opposite? ==> t.x == b
    decreases c
  {
    match c
    case Not(a) => var t := Tell(a, !b); t.(x := !t.x)
    case And(l, r) => if SlotSafe(l) then TellRight(c, b) else TellAfter(Tell(l, true), c, b)
    case Or(l, r) => if SlotSafe(l) then TellRight(c, b) else TellAfter(Tell(l, false), c, b)
  }

  predicate ActualNext(t: Telling, c: Cond)
    requires c.And? || c.Or?
  {
    t.kind.ActualLonger? || (t.kind.Opposite? && t.x == c.And?)
  }

  /** The answers for the operand that is still tested. */
  function Rest(t: Telling, c: Cond, b: bool): seq<bool>
    requires c.And? || c.Or?
  {
    if ActualNext(t, c) then Answers(c.right, b != t.short) else Answers(Bare(c.right), b)
  }

  /** The operands differ in who goes on, and the one that does is kept busy. */
  function TellAfter(t: Telling, c: Cond, b: bool): (u: Telling)
    requires c.And? || c.Or?
    ensures u.x == b && !u.kind.Opposite?
  {
    if ActualNext(t, c) then Telling(t.s + Rest(t, c, b), ActualLonger, b, EndsInSlot(c.right))
    else Telling(t.s + Rest(t, c, b), MeantLonger, b, false)
  }

  function TellRight(c: Cond, b: bool): (t: Telling)
    requires (c.And? || c.Or?) && !SlotSafe(c) && SlotSafe(c.left)
    ensures !t.kind.Opposite? ==> t.x == b
    decreases c, 0
  {
    var first := Answers(c.left, c.And?);
    if EndsInSlot(c.left) then Flipped(first, Agreeing(c.right, b)) else Passed(first, Tell(c.right, b))
  }

  function Flipped(first: seq<bool>, p: Plan): Telling {
    Telling(first + p.s, Opposite, !p.x, p.short)
  }

  function Passed(first: seq<bool>, t: Telling): Telling {
    t.(s := first + t.s)
  }

  predicate Differ(t: Telling, n: nat, done: Run, meant: Outcome) {
    match t.kind
    case Opposite =>
      && done.o == meant.(status := Num(t.x))
      && meant.status == Num(!t.x)
      && |meant.history| == n + |t.s|
      && done.short == t.short
    case ActualLonger =>
      && done.o.status == Num(t.x)
      && done.short == t.short
      && |meant.history| < |done.o.history| == n + |t.s|
    case MeantLonger =>
      && meant.status == Num(t.x)
      && |done.o.history| < |meant.history| == n + |t.s|
  }

  lemma {:induction false} Tells(verdict: seq<Event> -> Verdict, c: Cond, h: seq<Event>, b: bool)
    requires !SlotSafe(c) && Answered(verdict, |h|, Tell(c, b).s)
    ensures Differ(Tell(c, b), |h|, Actual(verdict, c, h), Eval(verdict, c, h))
    decreases c
  {
    match c
    case Not(a) => Tells(verdict, a, h, !b);
    case And(l, r) => if SlotSafe(l) { TellsRight(verdict, c, h, b); } else { TellsAfter(verdict, c, h, b); }
    case Or(l, r) => if SlotSafe(l) { TellsRight(verdict, c, h, b); } else { TellsAfter(verdict, c, h, b); }
  }

  lemma TellStep(c: Cond, b: bool)
    requires (c.And? || c.Or?) && !SlotSafe(c)
    ensures Tell(c, b) == if SlotSafe(c.left) then TellRight(c, b) else TellAfter(Tell(c.left, c.And?), c, b)
    ensures !SlotSafe(c.left) ==> var t := Tell(c.left, c.And?); Tell(c, b).s == t.s + Rest(t, c, b)
  {
  }

  /** The operands differ, and the evaluator goes on. */
  lemma ActualGoes(t: Telling, c: Cond, b: bool, n: nat, left: Run, meant: Outcome, right: Run, run: Run, m: Outcome)
    requires (c.And? || c.Or?) && Differ(t, n, left, meant) && t.x == c.And? && !t.kind.MeantLonger?
    requires run == if left.short then right.(o := Negate(right.o)) else right
    requires right.o.status == Num(b != t.short) && right.short == EndsInSlot(c.right)
    requires |right.o.history| == |left.o.history| + Tests(c.right)
    requires if GoesOn(c, meant.status) then |m.history| <= |meant.history| + Tests(c.right) else m == meant
    ensures Differ(TellAfter(t, c, b), n, run, m)
  {
    AnswersLength(c.right, b != t.short);
    TestsSome(c.right);
  }

  /** The operands differ, and what is meant goes on. */
  lemma MeantGoes(t: Telling, c: Cond, b: bool, n: nat, left: Run, meant: Outcome, run: Run, m: Outcome)
    requires (c.And? || c.Or?) && Differ(t, n, left, meant)
    requires (t.kind.MeantLonger? && t.x == c.And?) || (t.kind.Opposite? && t.x != c.And?)
    requires m.status == Num(b) && |m.history| == |meant.history| + Tests(c.right)
    requires if GoesOn(c, left.o.status) then |run.o.history| <= |left.o.history| + Tests(c.right) else run.o == left.o
    ensures Differ(TellAfter(t, c, b), n, run, m)
  {
    AnswersLength(Bare(c.right), b);
    TestsSome(c.right);
  }

  lemma {:induction false} TestsSome(c: Cond)
    ensures 1 <= Tests(c)
  {
    match c
    case Not(a) => TestsSome(a);
    case And(l, _) => TestsSome(l);
    case Or(l, _) => TestsSome(l);
    case Test(_, _, _) =>
  }

  lemma UnsafeLeft(c: Cond)
    requires (c.And? || c.Or?) && !SlotSafe(c.left)
    ensures !SlotSafe(c)
  {
  }

  lemma {:induction false} TellsAfter(verdict: seq<Event> -> Verdict, c: Cond, h: seq<Event>, b: bool)
    requires (c.And? || c.Or?) && !SlotSafe(c.left) && Answered(verdict, |h|, Tell(c, b).s)
    ensures Differ(Tell(c, b), |h|, Actual(verdict, c, h), Eval(verdict, c, h))
    decreases c, 0
  {
    hide *;
    UnsafeLeft(c);
    TellStep(c, b);
    var t := Tell(c.left, c.And?);
    AnsweredParts(verdict, |h|, t.s, Rest(t, c, b));
    Tells(verdict, c.left, h, c.And?);
    if ActualNext(t, c) {
      ActualOn(verdict, t, c, h, b);
    } else {
      MeantOn(verdict, t, c, h, b);
    }
  }

  lemma ActualOn(verdict: seq<Event> -> Verdict, t: Telling, c: Cond, h: seq<Event>, b: bool)
    requires (c.And? || c.Or?) && ActualNext(t, c) && (!t.kind.Opposite? ==> t.x == c.And?)
    requires Differ(t, |h|, Actual(verdict, c.left, h), Eval(verdict, c.left, h))
    requires Answered(verdict, |h| + |t.s|, Rest(t, c, b))
    ensures Differ(TellAfter(t, c, b), |h|, Actual(verdict, c, h), Eval(verdict, c, h))
  {
    hide *;
    RestStep(t, c, b);
    NegateKeeps(Actual(verdict, c.right, Actual(verdict, c.left, h).o.history).o);
    PairStep(verdict, c, h);
    var (done, meant) := (Actual(verdict, c.left, h), Eval(verdict, c.left, h));
    AtMostTests(verdict, Bare(c.right), meant.history);
    BareMeans(verdict, c.right, meant.history);
    AnswersLength(c.right, b != t.short);
    DifferLength(t, |h|, done, meant);
    FullRun(verdict, c.right, done.o.history, b != t.short);
    OnTarget(t, c, |h|, done, meant);
    ActualGoes(t, c, b, |h|, done, meant, Actual(verdict, c.right, done.o.history),
               Actual(verdict, c, h), Eval(verdict, c, h));
  }

  lemma MeantOn(verdict: seq<Event> -> Verdict, t: Telling, c: Cond, h: seq<Event>, b: bool)
    requires (c.And? || c.Or?) && !ActualNext(t, c) && (!t.kind.Opposite? ==> t.x == c.And?)
    requires Differ(t, |h|, Actual(verdict, c.left, h), Eval(verdict, c.left, h))
    requires Answered(verdict, |h| + |t.s|, Rest(t, c, b))
    ensures Differ(TellAfter(t, c, b), |h|, Actual(verdict, c, h), Eval(verdict, c, h))
  {
    hide *;
    var (done, meant) := (Actual(verdict, c.left, h), Eval(verdict, c.left, h));
    RestStep(t, c, b);
    PairStep(verdict, c, h);
    NegateKeeps(Actual(verdict, c.right, done.o.history).o);
    AtMostTests(verdict, c.right, done.o.history);
    BareMeans(verdict, c.right, meant.history);
    AnswersLength(Bare(c.right), b);
    DifferLength(t, |h|, done, meant);
    FullRun(verdict, Bare(c.right), meant.history, b);
    OnTarget(t, c, |h|, done, meant);
    MeantGoes(t, c, b, |h|, done, meant, Actual(verdict, c, h), Eval(verdict, c, h));
  }

  lemma RestStep(t: Telling, c: Cond, b: bool)
    requires c.And? || c.Or?
    ensures ActualNext(t, c) <==> t.kind.ActualLonger? || (t.kind.Opposite? && t.x == c.And?)
    ensures Rest(t, c, b) == if ActualNext(t, c) then Answers(c.right, b != t.short) else Answers(Bare(c.right), b)
  {
  }

  lemma NegateKeeps(o: Outcome)
    ensures Negate(o).history == o.history
  {
  }

  lemma OnTarget(t: Telling, c: Cond, n: nat, done: Run, meant: Outcome)
    requires (c.And? || c.Or?) && Differ(t, n, done, meant)
    ensures t.x == c.And? && !t.kind.MeantLonger? ==> GoesOn(c, done.o.status)
    ensures t.kind.Opposite? && t.x != c.And? ==> GoesOn(c, meant.status)
    ensures t.kind.MeantLonger? && t.x == c.And? ==> GoesOn(c, meant.status)
  {
  }

  lemma DifferLength(t: Telling, n: nat, done: Run, meant: Outcome)
    requires Differ(t, n, done, meant)
    ensures !t.kind.MeantLonger? ==> |done.o.history| == n + |t.s|
    ensures !t.kind.ActualLonger? ==> |meant.history| == n + |t.s|
  {
  }

  lemma {:induction false} TellsRight(verdict: seq<Event> -> Verdict, c: Cond, h: seq<Event>, b: bool)
    requires (c.And? || c.Or?) && !SlotSafe(c) && SlotSafe(c.left)
    requires Answered(verdict, |h|, TellRight(c, b).s)
    ensures Differ(TellRight(c, b), |h|, Actual(verdict, c, h), Eval(verdict, c, h))
    decreases c, 0
  {
    hide *;
    RightStep(c, b);
    var first := Answers(c.left, c.And?);
    var h' := Actual(verdict, c.left, h).o.history;
    if EndsInSlot(c.left) {
      AnsweredParts(verdict, |h|, first, Agreeing(c.right, b).s);
      LeftRuns(verdict, c, h);
      Agrees(verdict, c.right, h', b);
      SlotFlips(Agreeing(c.right, b), first, |h|, Actual(verdict, c.right, h'));
    } else {
      AnsweredParts(verdict, |h|, first, Tell(c.right, b).s);
      LeftRuns(verdict, c, h);
      Tells(verdict, c.right, h', b);
      SlotPasses(Tell(c.right, b), first, |h|, Actual(verdict, c.right, h'), Eval(verdict, c.right, h'));
    }
  }

  lemma RightStep(c: Cond, b: bool)
    requires (c.And? || c.Or?) && !SlotSafe(c) && SlotSafe(c.left)
    ensures !EndsInSlot(c.left) ==> !SlotSafe(c.right)
    ensures var first := Answers(c.left, c.And?);
            TellRight(c, b) ==
            if EndsInSlot(c.left) then Flipped(first, Agreeing(c.right, b)) else Passed(first, Tell(c.right, b))
    ensures TellRight(c, b).s == Answers(c.left, c.And?) +
                                 if EndsInSlot(c.left) then Agreeing(c.right, b).s else Tell(c.right, b).s
  {
  }

  lemma SlotFlips(p: Plan, first: seq<bool>, n: nat, run: Run)
    requires run.o.status == Num(p.x) && run.short == p.short && |run.o.history| == n + |first| + |p.s|
    ensures Differ(Flipped(first, p), n, run.(o := Negate(run.o)), run.o)
  {
  }

  lemma SlotPasses(t: Telling, first: seq<bool>, n: nat, run: Run, meant: Outcome)
    requires Differ(t, n + |first|, run, meant)
    ensures Differ(Passed(first, t), n, run, meant)
  {
  }

  /** A left operand that is read right goes on with all its tests made. */
  lemma LeftRuns(verdict: seq<Event> -> Verdict, c: Cond, h: seq<Event>)
    requires (c.And? || c.Or?) && SlotSafe(c.left) && Answered(verdict, |h|, Answers(c.left, c.And?))
    ensures var left := Actual(verdict, c.left, h);
            && |left.o.history| == |h| + |Answers(c.left, c.And?)|
            && Eval(verdict, c, h) == Eval(verdict, c.right, left.o.history)
            && var run := Actual(verdict, c.right, left.o.history);
            && Actual(verdict, c, h) == if EndsInSlot(c.left) then run.(o := Negate(run.o)) else run
  {
    hide OnlyTests, EndsInSlot, SlotSafe, Tests, ActualAfter, Actual, Eval, Answered, Answers;
    PairStep(verdict, c, h);
    FullRun(verdict, c.left, h, c.And?);
    SafeNeverMisread(verdict, c.left, h);
    ReadRight(verdict, c.left, h);
  }

  predicate AsMeant(verdict: seq<Event> -> Verdict, c: Cond, h: seq<Event>) {
    Actual(verdict, c, h).o == Eval(verdict, c, h)
  }

  /** Exactly the conditions without a slot at the end of a left operand are evaluated
      as meant, whatever their tests report. */
  lemma SafeExactly(c: Cond)
    ensures SlotSafe(c) <==> forall verdict, h :: AsMeant(verdict, c, h)
  {
    if SlotSafe(c) {
      forall verdict, h ensures AsMeant(verdict, c, h) {
        SafeNeverMisread(verdict, c, h);
        ReadRight(verdict, c, h);
      }
    } else {
      var s := Tell(c, true).s;
      var verdict: seq<Event> -> Verdict := h => if 0 < |h| <= |s| && !s[|h| - 1] then False else True;
      Tells(verdict, c, [], true);
      assert !AsMeant(verdict, c, []);
    }
  }
}
