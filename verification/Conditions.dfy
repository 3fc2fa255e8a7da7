/** Conditions `[[ ... ]]` and `test ...`: the tree the parser lays out in wordcode,
    what the evaluator reads back, and the status it should return (cond.c, parse.c). */
module Conditions {
  import opened Wordcode

  const COND_NOT: nat := 0
  const COND_AND: nat := 1
  const COND_OR: nat := 2
  const COND_STREQ: nat := 3
  const COND_STRNEQ: nat := 5
  const COND_STRLT: nat := 6
  const COND_STRGTR: nat := 7
  const COND_REGEX: nat := 17
  const COND_MOD: nat := 18
  const COND_MODI: nat := 19

  /** One word may follow the operands of a leaf that the evaluator never reads. */
  datatype Slot = NoSlot | Slot(word: Word)

  datatype Cond =
    | Not(arg: Cond)
    | And(left: Cond, right: Cond)
    | Or(left: Cond, right: Cond)
    | Test(ctype: nat, operands: seq<Word>, slot: Slot)

  /** What a single test reports: `Bad` is an error (an unusable pattern, an unknown
      module condition), `Unknown` the missing option of `-o`. */
  datatype Verdict = True | False | Bad | Unknown

  /** Everything the executor does that can be seen from outside, oldest first; a simple
      command sees the status before it. */
  datatype Event =
    | Ran(args: seq<Word>, seen: int)
    | Computed(expr: Word)
    | Tested(ctype: nat, operands: seq<Word>)
    | Failed(status: int)

  datatype Outcome = Outcome(status: int, history: seq<Event>)

  predicate IsPattern(ctype: nat) { COND_STREQ <= ctype <= COND_STRNEQ }

  predicate IsOrder(ctype: nat) { ctype == COND_STRLT || ctype == COND_STRGTR }

  predicate WellFormed(c: Cond) {
    match c
    case Not(a) => WellFormed(a)
    case And(l, r) => WellFormed(l) && WellFormed(r)
    case Or(l, r) => WellFormed(l) && WellFormed(r)
    case Test(t, ops, slot) =>
      && COND_STREQ <= t < 128
      && (slot.Slot? ==> IsOrder(t))
      && (if t == COND_MOD then 1 <= |ops|
          else |ops| == OperandCount(t))
  }

  /** Words a test other than COND_MOD reads after its code. */
  function OperandCount(ctype: nat): nat {
    if IsPattern(ctype) || ctype == COND_MODI then 3
    else if ctype <= COND_REGEX then 2
    else 1
  }

  function SlotWords(slot: Slot): (ws: seq<Word>)
    ensures |ws| <= 1
  {
    if slot.Slot? then [slot.word] else []
  }

  /** The parser's layout (`par_cond`, `par_cond_1`, `par_cond_2` and their helpers). */
  function Layout(c: Cond): seq<Word>
    requires WellFormed(c)
  {
    match c
    case Not(a) => [BuildCond(COND_NOT, 0)] + Layout(a)
    case And(l, r) => [BuildCond(COND_AND, |Layout(l)| + |Layout(r)|)] + (Layout(l) + Layout(r))
    case Or(l, r) => [BuildCond(COND_OR, |Layout(l)| + |Layout(r)|)] + (Layout(l) + Layout(r))
    case Test(t, ops, slot) =>
      [BuildCond(t, if t == COND_MOD then |ops| - 1 else 0)] + (ops + SlotWords(slot))
  }

  function Size(c: Cond): (n: nat)
    ensures 1 <= n
  {
    match c
    case Not(a) => 1 + Size(a)
    case And(l, r) => 1 + Size(l) + Size(r)
    case Or(l, r) => 1 + Size(l) + Size(r)
    case Test(_, ops, slot) => 1 + |ops| + |SlotWords(slot)|
  }

  /** `c` is what an evaluator that looks only at type bits, skip bits, operands and slots
      finds from `pc` on. */
  predicate Reads(prog: seq<Word>, pc: nat, c: Cond)
    decreases Size(c)
  {
    && pc + Size(c) <= |prog|
    && match c
       case Not(a) => CondType(prog[pc]) == COND_NOT && Reads(prog, pc + 1, a)
       case And(l, r) => CondType(prog[pc]) == COND_AND && ReadsPair(prog, pc, l, r)
       case Or(l, r) => CondType(prog[pc]) == COND_OR && ReadsPair(prog, pc, l, r)
       case Test(t, ops, slot) =>
         && CondType(prog[pc]) == t
         && At(prog, pc + 1, ops)
         && (t == COND_MOD ==> CondSkip(prog[pc]) == |ops| - 1)
         && (slot.Slot? ==> prog[pc + 1 + |ops|] == slot.word)
  }

  predicate ReadsPair(prog: seq<Word>, pc: nat, l: Cond, r: Cond)
    decreases Size(l) + Size(r)
  {
    && pc + 1 + Size(l) + Size(r) <= |prog|
    && CondSkip(prog[pc]) == Size(l) + Size(r)
    && Reads(prog, pc + 1, l)
    && Reads(prog, pc + 1 + Size(l), r)
  }

  /** All skip offsets fit their 20 bits. */
  predicate Fits(c: Cond) {
    match c
    case Not(a) => Fits(a)
    case And(l, r) => Size(c) <= COND_SKIP_SPAN && Fits(l) && Fits(r)
    case Or(l, r) => Size(c) <= COND_SKIP_SPAN && Fits(l) && Fits(r)
    case Test(_, ops, _) => |ops| <= COND_SKIP_SPAN
  }

  lemma {:induction false} LayoutSize(c: Cond)
    requires WellFormed(c)
    ensures |Layout(c)| == Size(c)
  {
    match c
    case Not(a) => LayoutSize(a);
    case And(l, r) => LayoutSize(l); LayoutSize(r);
    case Or(l, r) => LayoutSize(l); LayoutSize(r);
    case Test(_, _, _) =>
  }

  /** The evaluator reads back the tree the parser laid out. */
  lemma {:induction false} LayoutReads(prog: seq<Word>, pc: nat, c: Cond)
    requires WellFormed(c) && Fits(c) && At(prog, pc, Layout(c))
    ensures Reads(prog, pc, c)
    decreases Size(c)
  {
    hide At, CondType, CondSkip, BuildCond;
    LayoutSize(c);
    AtBound(prog, pc, Layout(c));
    match c
    case Not(a) =>
      AtFirst(prog, pc, BuildCond(COND_NOT, 0), Layout(a));
      CondRoundTrip(COND_NOT, 0);
      LayoutReads(prog, pc + 1, a);
    case And(l, r) => PairReads(prog, pc, COND_AND, l, r);
    case Or(l, r) => PairReads(prog, pc, COND_OR, l, r);
    case Test(_, _, _) => TestReads(prog, pc, c);
  }

  lemma TestReads(prog: seq<Word>, pc: nat, c: Cond)
    requires c.Test? && WellFormed(c) && Fits(c) && At(prog, pc, Layout(c))
    ensures Reads(prog, pc, c)
  {
    hide At, CondType, CondSkip, BuildCond;
    var Test(t, ops, slot) := c;
    var skip := if t == COND_MOD then |ops| - 1 else 0;
    AtBound(prog, pc, Layout(c));
    AtFirst(prog, pc, BuildCond(t, skip), ops + SlotWords(slot));
    AtSplit(prog, pc + 1, ops, SlotWords(slot));
    CondRoundTrip(t, skip);
    if slot.Slot? {
      assert SlotWords(slot) == [slot.word] + [];
      AtFirst(prog, pc + 1 + |ops|, slot.word, []);
    }
  }

  lemma {:induction false} PairReads(prog: seq<Word>, pc: nat, ctype: nat, l: Cond, r: Cond)
    requires WellFormed(l) && WellFormed(r) && Fits(l) && Fits(r)
    requires ctype < 128 && 1 + Size(l) + Size(r) <= COND_SKIP_SPAN
    requires At(prog, pc, [BuildCond(ctype, |Layout(l)| + |Layout(r)|)] + (Layout(l) + Layout(r)))
    ensures pc < |prog| && CondType(prog[pc]) == ctype && ReadsPair(prog, pc, l, r)
    decreases Size(l) + Size(r)
  {
    hide At, CondType, CondSkip, BuildCond, Layout, Reads, WellFormed, Fits;
    AtBound(prog, pc, [BuildCond(ctype, |Layout(l)| + |Layout(r)|)] + (Layout(l) + Layout(r)));
    LayoutSize(l);
    LayoutSize(r);
    AtFirst(prog, pc, BuildCond(ctype, |Layout(l)| + |Layout(r)|), Layout(l) + Layout(r));
    AtSplit(prog, pc + 1, Layout(l), Layout(r));
    CondRoundTrip(ctype, |Layout(l)| + |Layout(r)|);
    LayoutReads(prog, pc + 1, l);
    LayoutReads(prog, pc + 1 + Size(l), r);
  }

  /** The status the shell documents: 0 true, 1 false, 2 error, 3 no such option. */
  function Status(v: Verdict): int {
    match v
    case True => 0
    case False => 1
    case Bad => 2
    case Unknown => 3
  }

  /** Evaluation adds nothing but tests to what has happened. */
  predicate OnlyTests(h: seq<Event>, h': seq<Event>) {
    h <= h' && forall i :: |h| <= i < |h'| ==> h'[i].Tested?
  }

  /** Four-valued meaning: negation swaps 0 and 1 only, `&&` goes on after 0 only,
      `||` goes on after 1 and 3. */
  function Eval(verdict: seq<Event> -> Verdict, c: Cond, h: seq<Event>): (o: Outcome)
    ensures OnlyTests(h, o.history) && |h| < |o.history|
    decreases c
  {
    match c
    case Not(a) =>
      var o := Eval(verdict, a, h);
      if o.status == 0 || o.status == 1 then o.(status := 1 - o.status) else o
    case And(l, r) =>
      var o := Eval(verdict, l, h);
      if o.status == 0 then Eval(verdict, r, o.history) else o
    case Or(l, r) =>
      var o := Eval(verdict, l, h);
      if o.status == 1 || o.status == 3 then Eval(verdict, r, o.history) else o
    case Test(t, ops, _) =>
      var h' := h + [Tested(t, ops)];
      Outcome(Status(verdict(h')), h')
  }

  /** The evaluation ends with `pc` before the end of the laid-out words: the last
      test done carried an unread slot, or was a pattern match whose pattern is bad. */
  predicate StopsShort(verdict: seq<Event> -> Verdict, c: Cond, h: seq<Event>)
    decreases c
  {
    match c
    case Not(a) => StopsShort(verdict, a, h)
    case And(l, r) =>
      var o := Eval(verdict, l, h);
      o.status == 0 && StopsShort(verdict, r, o.history)
    case Or(l, r) =>
      var o := Eval(verdict, l, h);
      (o.status == 1 || o.status == 3) && StopsShort(verdict, r, o.history)
    case Test(t, ops, slot) =>
      slot.Slot? || (IsPattern(t) && verdict(h + [Tested(t, ops)]).Bad?)
  }

  /** The last test of `c` in layout order carries a slot. */
  predicate EndsInSlot(c: Cond) {
    match c
    case Not(a) => EndsInSlot(a)
    case And(_, r) => EndsInSlot(r)
    case Or(_, r) => EndsInSlot(r)
    case Test(_, _, slot) => slot.Slot?
  }

  /** No left operand of `&&` or `||` ends in a slot. */
  predicate SlotSafe(c: Cond) {
    match c
    case Not(a) => SlotSafe(a)
    case And(l, r) => SlotSafe(l) && SlotSafe(r) && !EndsInSlot(l)
    case Or(l, r) => SlotSafe(l) && SlotSafe(r) && !EndsInSlot(l)
    case Test(_, _, _) => true
  }

  /** Statuses are 0..3. */
  lemma {:induction false} StatusRange(verdict: seq<Event> -> Verdict, c: Cond, h: seq<Event>)
    ensures 0 <= Eval(verdict, c, h).status <= 3
    decreases c
  {
    match c
    case Not(a) => StatusRange(verdict, a, h);
    case And(l, r) => StatusRange(verdict, l, h); StatusRange(verdict, r, Eval(verdict, l, h).history);
    case Or(l, r) => StatusRange(verdict, l, h); StatusRange(verdict, r, Eval(verdict, l, h).history);
    case Test(_, _, _) =>
  }

  // ----- What the evaluator does -----

  /** The words of a slot whose number is below 32 are those of a negation. */
  predicate LowSlot(c: Cond) {
    match c
    case Not(a) => LowSlot(a)
    case And(_, r) => LowSlot(r)
    case Or(_, r) => LowSlot(r)
    case Test(_, _, slot) => slot.Slot? ==> slot.word < 32
  }

  /** A left operand that ends in a slot ends in a low one. */
  predicate LowSlots(c: Cond) {
    match c
    case Not(a) => LowSlots(a)
    case And(l, r) => LowSlots(l) && LowSlots(r) && LowSlot(l)
    case Or(l, r) => LowSlots(l) && LowSlots(r) && LowSlot(l)
    case Test(_, _, _) => true
  }

  /** The left operand of `c` does not decide the result. */
  predicate GoesOn(c: Cond, status: int)
    requires c.And? || c.Or?
  {
    if c.And? then status == 0 else status == 1 || status == 3
  }

  /** The evaluator's result, and whether it has left `pc` before the end of the words. */
  datatype Run = Run(o: Outcome, short: bool)

  function Negate(o: Outcome): Outcome {
    if o.status == 0 || o.status == 1 then o.(status := 1 - o.status) else o
  }

  /** As `Eval`, but a left operand that goes on having stopped short has left `pc` on
      a slot, and the slot is taken for a negation of the right operand. */
  function Actual(verdict: seq<Event> -> Verdict, c: Cond, h: seq<Event>): (run: Run)
    ensures OnlyTests(h, run.o.history) && |h| < |run.o.history|
    decreases c
  {
    match c
    case Not(a) =>
      var run := Actual(verdict, a, h);
      run.(o := Negate(run.o))
    case And(l, r) => ActualAfter(verdict, Actual(verdict, l, h), c)
    case Or(l, r) => ActualAfter(verdict, Actual(verdict, l, h), c)
    case Test(t, ops, slot) =>
      var h' := h + [Tested(t, ops)];
      Run(Outcome(Status(verdict(h')), h'), slot.Slot? || (IsPattern(t) && verdict(h').Bad?))
  }

  function ActualAfter(verdict: seq<Event> -> Verdict, left: Run, c: Cond): (run: Run)
    requires c.And? || c.Or?
    ensures OnlyTests(left.o.history, run.o.history)
    decreases c, 0
  {
    if !GoesOn(c, left.o.status) then Run(left.o, false)
    else
      var run := Actual(verdict, c.right, left.o.history);
      if left.short then run.(o := Negate(run.o)) else run
  }

  /** Some left operand goes on having stopped short. */
  predicate Misread(verdict: seq<Event> -> Verdict, c: Cond, h: seq<Event>)
    decreases c
  {
    match c
    case Not(a) => Misread(verdict, a, h)
    case And(l, r) => Misread(verdict, l, h) || MisreadAfter(verdict, Actual(verdict, l, h), c)
    case Or(l, r) => Misread(verdict, l, h) || MisreadAfter(verdict, Actual(verdict, l, h), c)
    case Test(_, _, _) => false
  }

  predicate MisreadAfter(verdict: seq<Event> -> Verdict, left: Run, c: Cond)
    requires c.And? || c.Or?
    decreases c, 0
  {
    GoesOn(c, left.o.status) && (left.short || Misread(verdict, c.right, left.o.history))
  }

  /** Stopping short of the words means an error, or standing on a slot. */
  lemma {:induction false} ShortActual(verdict: seq<Event> -> Verdict, c: Cond, h: seq<Event>)
    requires Actual(verdict, c, h).short
    ensures EndsInSlot(c) || Actual(verdict, c, h).o.status == 2
    decreases c
  {
    match c
    case Not(a) => ShortActual(verdict, a, h);
    case And(l, r) => ShortActual(verdict, r, Actual(verdict, l, h).o.history);
    case Or(l, r) => ShortActual(verdict, r, Actual(verdict, l, h).o.history);
    case Test(_, _, _) =>
  }

  /** A run without a misreading is evaluation as it should be. */
  lemma {:induction false} ReadRight(verdict: seq<Event> -> Verdict, c: Cond, h: seq<Event>)
    requires !Misread(verdict, c, h)
    ensures Actual(verdict, c, h) == Run(Eval(verdict, c, h), StopsShort(verdict, c, h))
    decreases c
  {
    match c
    case Not(a) => ReadRight(verdict, a, h);
    case And(l, r) => RightAfter(verdict, c, h);
    case Or(l, r) => RightAfter(verdict, c, h);
    case Test(_, _, _) =>
  }

  lemma {:induction false} RightAfter(verdict: seq<Event> -> Verdict, c: Cond, h: seq<Event>)
    requires (c.And? || c.Or?) && !Misread(verdict, c, h)
    ensures Actual(verdict, c, h) == Run(Eval(verdict, c, h), StopsShort(verdict, c, h))
    decreases c, 0
  {
    ReadRight(verdict, c.left, h);
    if GoesOn(c, Eval(verdict, c.left, h).status) {
      ReadRight(verdict, c.right, Eval(verdict, c.left, h).history);
    }
  }

  /** Without a slot at the end of a left operand nothing is ever misread. */
  lemma {:induction false} SafeNeverMisread(verdict: seq<Event> -> Verdict, c: Cond, h: seq<Event>)
    requires SlotSafe(c)
    ensures !Misread(verdict, c, h)
    decreases c
  {
    match c
    case Not(a) => SafeNeverMisread(verdict, a, h);
    case And(l, r) => SafeAfter(verdict, c, h);
    case Or(l, r) => SafeAfter(verdict, c, h);
    case Test(_, _, _) =>
  }

  lemma {:induction false} SafeAfter(verdict: seq<Event> -> Verdict, c: Cond, h: seq<Event>)
    requires (c.And? || c.Or?) && SlotSafe(c)
    ensures !Misread(verdict, c, h)
    decreases c, 0
  {
    var left := Actual(verdict, c.left, h);
    SafeNeverMisread(verdict, c.left, h);
    SafeNeverMisread(verdict, c.right, left.o.history);
    if left.short {
      ShortActual(verdict, c.left, h);
    }
  }

  /** What the evaluator may be started on. */
  predicate Runnable(prog: seq<Word>, pc: nat, c: Cond) {
    WellFormed(c) && Reads(prog, pc, c) && LowSlots(c)
  }

  lemma {:induction false} SafeIsLow(c: Cond)
    ensures !EndsInSlot(c) ==> LowSlot(c)
    ensures SlotSafe(c) ==> LowSlots(c)
  {
    match c
    case Not(a) => SafeIsLow(a);
    case And(l, r) => SafeIsLow(l); SafeIsLow(r);
    case Or(l, r) => SafeIsLow(l); SafeIsLow(r);
    case Test(_, _, _) =>
  }

  /** The type bits tell the constructor, and where the operands are. */
  lemma Operands(prog: seq<Word>, pc: nat, c: Cond)
    requires Runnable(prog, pc, c)
    ensures pc < |prog|
    ensures c.Not? <==> CondType(prog[pc]) == COND_NOT
    ensures c.And? <==> CondType(prog[pc]) == COND_AND
    ensures c.Or? <==> CondType(prog[pc]) == COND_OR
    ensures c.Not? ==> Runnable(prog, pc + 1, c.arg)
    ensures c.And? || c.Or? ==>
              && Runnable(prog, pc + 1, c.left)
              && Runnable(prog, pc + 1 + Size(c.left), c.right)
              && CondSkip(prog[pc]) + 1 == Size(c)
  {
    match c
    case Not(_) =>
    case And(_, _) => assert ReadsPair(prog, pc, c.left, c.right);
    case Or(_, _) => assert ReadsPair(prog, pc, c.left, c.right);
    case Test(_, _, _) =>
  }

  lemma LowIsNot(w: Word)
    requires w < 32
    ensures CondType(w) == COND_NOT
  {
  }

  /** The last word of a condition that ends in a low slot has the type bits of a negation. */
  lemma {:induction false} SlotAtEnd(prog: seq<Word>, pc: nat, c: Cond)
    requires WellFormed(c) && Reads(prog, pc, c) && EndsInSlot(c) && LowSlot(c)
    ensures CondType(prog[pc + Size(c) - 1]) == COND_NOT
    decreases Size(c)
  {
    hide At, CondType, CondSkip;
    match c
    case Not(a) => SlotAtEnd(prog, pc + 1, a);
    case And(l, r) =>
      assert ReadsPair(prog, pc, l, r);
      SlotAtEnd(prog, pc + 1 + Size(l), r);
    case Or(l, r) =>
      assert ReadsPair(prog, pc, l, r);
      SlotAtEnd(prog, pc + 1 + Size(l), r);
    case Test(_, ops, slot) => LowIsNot(slot.word);
  }

  lemma NegationStep(verdict: seq<Event> -> Verdict, c: Cond, h: seq<Event>)
    requires c.Not?
    ensures var run := Actual(verdict, c.arg, h);
            Actual(verdict, c, h) == run.(o := Negate(run.o))
  {
  }

  lemma SizeStep(c: Cond)
    ensures c.Not? ==> Size(c) == 1 + Size(c.arg)
    ensures c.And? || c.Or? ==> Size(c) == 1 + Size(c.left) + Size(c.right) == Size(c.left) + Size(Not(c.right))
  {
  }

  /** What is read after a left operand that goes on: the right operand, or, from the
      slot where the left one has stopped, its negation. */
  function Next(left: Run, c: Cond): Cond
    requires c.And? || c.Or?
  {
    if left.short then Not(c.right) else c.right
  }

  /** One step of `&&` or `||`: what the whole does, once the left operand is done. */
  lemma AfterLeft(prog: seq<Word>, pc: nat, verdict: seq<Event> -> Verdict, c: Cond, h: seq<Event>)
    requires Runnable(prog, pc, c) && (c.And? || c.Or?)
    ensures var left := Actual(verdict, c.left, h);
            if GoesOn(c, left.o.status) then
              && Actual(verdict, c, h) == Actual(verdict, Next(left, c), left.o.history)
              && Runnable(prog, pc + 1 + Size(c.left) - (if left.short then 1 else 0), Next(left, c))
            else
              Actual(verdict, c, h) == Run(left.o, false)
  {
    var left := Actual(verdict, c.left, h);
    assert ReadsPair(prog, pc, c.left, c.right);
    if GoesOn(c, left.o.status) && left.short {
      ShortActual(verdict, c.left, h);
      SlotAtEnd(prog, pc + 1, c.left);
    }
  }
}
