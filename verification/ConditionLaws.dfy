/** What `!`, `&&` and `||` make of the four statuses of a condition. */
module ConditionLaws {
  import opened Wordcode
  import opened Conditions

  /** How many words a test has behind its code. */
  lemma OperandWords(t: nat, ops: seq<Word>, slot: Slot)
    requires WellFormed(Test(t, ops, slot))
    ensures 3 <= t <= 5 || t == 19 ==> |ops| == 3
    ensures 6 <= t <= 17 ==> |ops| == 2
    ensures t == 18 ==> |ops| >= 1
    ensures t >= 20 ==> |ops| == 1
  {
  }

  /** Truth in the usual sense, of a condition whose tests hold or do not. */
  predicate Truth(holds: (nat, seq<Word>) -> bool, c: Cond) {
    match c
    case Not(a) => !Truth(holds, a)
    case And(l, r) => Truth(holds, l) && Truth(holds, r)
    case Or(l, r) => Truth(holds, l) || Truth(holds, r)
    case Test(t, ops, _) => holds(t, ops)
  }

  /** Where no test goes wrong the status is 0 for a true condition and 1 for a false one. */
  lemma {:induction false} StatusIsTruth(
      holds: (nat, seq<Word>) -> bool, verdict: seq<Event> -> Verdict, c: Cond, h: seq<Event>)
    requires forall h, t, ops :: verdict(h + [Tested(t, ops)]) == if holds(t, ops) then True else False
    ensures Eval(verdict, c, h).status == if Truth(holds, c) then 0 else 1
    decreases c
  {
    match c
    case Not(a) => StatusIsTruth(holds, verdict, a, h);
    case And(l, r) =>
      StatusIsTruth(holds, verdict, l, h);
      StatusIsTruth(holds, verdict, r, Eval(verdict, l, h).history);
    case Or(l, r) =>
      StatusIsTruth(holds, verdict, l, h);
      StatusIsTruth(holds, verdict, r, Eval(verdict, l, h).history);
    case Test(t, ops, _) => assert verdict(h + [Tested(t, ops)]) == if holds(t, ops) then True else False;
  }

  /** An option that does not exist has status 3.  `!` leaves it, `&&` stops at it, and `||`
      goes on to its other operand. */
  lemma UnknownOption(verdict: seq<Event> -> Verdict, t: nat, ops: seq<Word>, slot: Slot, c: Cond, h: seq<Event>)
    requires verdict(h + [Tested(t, ops)]) == Unknown
    ensures var (test, h') := (Test(t, ops, slot), h + [Tested(t, ops)]);
            && Eval(verdict, test, h) == Eval(verdict, Not(test), h) == Outcome(3, h')
            && Eval(verdict, And(test, c), h) == Outcome(3, h')
            && Eval(verdict, Or(test, c), h) == Eval(verdict, c, h')
  {
  }

  /** An error has status 2, and whatever it is the first test of stops with it. */
  lemma {:induction false} ErrorStops(verdict: seq<Event> -> Verdict, c: Cond, h: seq<Event>)
    requires var test := FirstTest(c); verdict(h + [Tested(test.ctype, test.operands)]) == Bad
    ensures var test := FirstTest(c); Eval(verdict, c, h) == Outcome(2, h + [Tested(test.ctype, test.operands)])
    decreases c
  {
    match c
    case Not(a) => ErrorStops(verdict, a, h);
    case And(l, _) => ErrorStops(verdict, l, h);
    case Or(l, _) => ErrorStops(verdict, l, h);
    case Test(_, _, _) =>
  }

  function FirstTest(c: Cond): (r: Cond)
    ensures r.Test?
  {
    match c
    case Not(a) => FirstTest(a)
    case And(l, _) => FirstTest(l)
    case Or(l, _) => FirstTest(l)
    case Test(_, _, _) => c
  }

  lemma DoubleNegation(verdict: seq<Event> -> Verdict, c: Cond, h: seq<Event>)
    ensures Eval(verdict, Not(Not(c)), h) == Eval(verdict, c, h)
  {
  }

  /** De Morgan's laws hold, in status and in the tests made, exactly where the left operand
      does not ask for an unknown option. */
  lemma DeMorganExactly(verdict: seq<Event> -> Verdict, a: Cond, b: Cond, h: seq<Event>)
    ensures Eval(verdict, Not(And(a, b)), h) == Eval(verdict, Or(Not(a), Not(b)), h)
            <==> Eval(verdict, a, h).status != 3
    ensures Eval(verdict, Not(Or(a, b)), h) == Eval(verdict, And(Not(a), Not(b)), h)
            <==> Eval(verdict, a, h).status != 3
  {
    StatusRange(verdict, a, h);
  }

  /** Both connectives associate, in status and in the tests made. */
  lemma Associates(verdict: seq<Event> -> Verdict, a: Cond, b: Cond, c: Cond, h: seq<Event>)
    ensures Eval(verdict, And(And(a, b), c), h) == Eval(verdict, And(a, And(b, c)), h)
    ensures Eval(verdict, Or(Or(a, b), c), h) == Eval(verdict, Or(a, Or(b, c)), h)
  {
  }
}
