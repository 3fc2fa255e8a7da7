/** What a command tree means: no program counter, no skip offsets, no suppression
    flags, only the tree and one context saying whether a failure may end the shell
    (`set -e`, section 2.14 of the POSIX.1-2017 Shell Command Language) or return
    from the function. */
module Semantics {
  import opened Wordcode
  import opened Conditions
  import opened Programs

  datatype Option<+T> = None | Some(value: T)

  /** What the first word of a simple command turns out to be. */
  datatype Action = External | Exit(value: Option<int>) | Return(value: Option<int>) | Call(f: nat)

  datatype Result = Result(status: int, error: bool)

  /** `(( ))` succeeds for a value other than zero; an error leaves status 2. */
  function ArithStatus(v: Option<int>): int {
    match v
    case None => 2
    case Some(n) => if n == 0 then 1 else 0
  }

  /** Options, functions, and the outcome of everything run as a function of all that
      happened before. */
  datatype World = World(
    verdict: seq<Event> -> Verdict,
    result: seq<Event> -> Result,
    value: seq<Event> -> Option<int>,
    action: seq<Word> -> Action,
    bodies: nat -> List,
    funcnest: nat,
    forklevel: nat,
    errexit: bool,
    errreturn: bool,
    interactive: bool,
    shinstdin: bool,
    sourcing: bool)

  datatype Pending = Pending(level: nat, value: int)

  /** `ret`: unwinding to the end of a function; `err`: unwinding after an error;
      `pending`: an `exit` waiting for functions to end; `exited`: the shell is gone. */
  datatype St = St(
    history: seq<Event>,
    lastval: int,
    ret: bool,
    err: bool,
    pending: Option<Pending>,
    exited: Option<int>)

  /** Where we are: under `!` or to the left of `&&`/`||`, at any depth. */
  datatype Context = Context(noExit: bool, noReturn: bool)

  const SUPPRESSED := Context(true, true)

  function ExitStatus(st: St): int {
    if st.pending.Some? then st.pending.value.value else st.lastval
  }

  predicate Unwinding(st: St) { st.ret || st.err || st.exited.Some? }

  function Nest(w: World, d: nat): nat { if d <= w.funcnest then w.funcnest - d else 0 }

  /** After a pipeline whose failure counts: note it, then exit or return if asked to. */
  function Check(w: World, cx: Context, d: nat, st: St): (r: St)
    ensures st.history <= r.history
  {
    if st.lastval == 0 then st
    else
      var noted := if cx.noExit then st else st.(history := st.history + [Failed(ExitStatus(st))]);
      var unwinds := w.errreturn && (w.interactive || d > 0 || w.sourcing) && !cx.noReturn;
      if (w.errexit || (w.errreturn && !unwinds)) && !cx.noExit then
        noted.(err := false, exited := Some(ExitStatus(st)))
      else
        noted.(ret := noted.ret || unwinds)
  }

  function EvalBody(w: World, cx: Context, d: nat, l: List, st: St): (r: St)
    ensures st.history <= r.history
    decreases Nest(w, d), 1, l, 1
  {
    if l.Nil? then st.(lastval := 0) else EvalList(w, cx, d, l, st)
  }

  function EvalList(w: World, cx: Context, d: nat, l: List, st: St): (r: St)
    ensures st.history <= r.history
    decreases Nest(w, d), 1, l, 0
  {
    if l.Nil? || Unwinding(st) then st
    else EvalList(w, cx, d, l.rest, EvalItem(w, cx, d, l.s, st))
  }

  function EvalItem(w: World, cx: Context, d: nat, s: Sub, st: St): (r: St)
    ensures st.history <= r.history
    decreases Nest(w, d), 1, s, 1
  {
    var (st', quiet) := EvalSub(w, cx, d, s, st);
    if quiet || st'.exited.Some? then st' else Check(w, cx, d, st')
  }

  /** The flag says that a failure here does not count. */
  function EvalSub(w: World, cx: Context, d: nat, s: Sub, st: St): (r: (St, bool))
    ensures st.history <= r.0.history
    decreases Nest(w, d), 1, s, 0
  {
    match s
    case Last(e) =>
      var (st', quiet) := EvalElem(w, if Negated(e) then SUPPRESSED else cx, d, e, st);
      (st', quiet || Negated(e))
    case More(e, conj, rest) =>
      var (st', _) := EvalElem(w, SUPPRESSED, d, e, st);
      if st'.exited.Some? then (st', true) else EvalAfter(w, cx, d, conj, rest, st')
  }

  /** `&&` goes on after success, `||` after failure; otherwise the next pipeline is
      passed over and its own connective decides, still on the same status. */
  function EvalAfter(w: World, cx: Context, d: nat, conj: bool, rest: Sub, st: St): (r: (St, bool))
    ensures st.history <= r.0.history
    decreases Nest(w, d), 1, rest, 1
  {
    if conj == (st.lastval == 0) then EvalSub(w, cx, d, rest, st)
    else
      match rest
      case Last(_) => (st, true)
      case More(_, conj', rest') => EvalAfter(w, cx, d, conj', rest', st)
  }

  function EvalElem(w: World, cx: Context, d: nat, e: Elem, st: St): (r: (St, bool))
    ensures st.history <= r.0.history
    decreases Nest(w, d), 1, e
  {
    match e
    case Bare => (st.(lastval := 1), false)
    case Elem(neg, _, c) =>
      if !ComplexElem(e) then
        if st.err then (st.(lastval := 1), false) else EvalCmd(w, cx, d, c, st)
      else if st.ret then (st, false)
      else if st.err then (st.(lastval := if st.lastval == 0 then 1 else st.lastval), false)
      else
        var (st', quiet) := EvalCmd(w, cx, d, c, st);
        if neg && !Unwinding(st') then (st'.(lastval := if st'.lastval == 0 then 1 else 0), quiet)
        else (st', quiet)
  }

  function EvalCmd(w: World, cx: Context, d: nat, c: Cmd, st: St): (r: (St, bool))
    ensures st.history <= r.0.history
    decreases Nest(w, d), 1, c
  {
    match c
    case Simple(args) =>
      (EvalSimple(w, cx, d, args, st.(history := st.history + [Ran(args, st.lastval)])), false)
    case Arith(expr) =>
      var h := st.history + [Computed(expr)];
      (st.(history := h, lastval := ArithStatus(w.value(h))), false)
    case Cond(cond) =>
      var o := Eval(w.verdict, cond, st.history);
      (st.(history := o.history, lastval := o.status, err := o.status == 2), false)
    case Group(b) => (EvalBody(w, cx, d, b, st), true)
  }

  function EvalSimple(w: World, cx: Context, d: nat, args: seq<Word>, st: St): (r: St)
    ensures st.history <= r.history
    decreases Nest(w, d), 0, 1
  {
    match w.action(args)
    case External =>
      var r := w.result(st.history);
      st.(lastval := r.status, err := r.error)
    case Exit(v) =>
      var n := if v.Some? then v.value else st.lastval;
      if d > w.forklevel then
        st.(ret := true, pending := Some(Pending(d, n)), lastval := 0)
      else
        st.(exited := Some(n))
    case Return(v) =>
      var n := if v.Some? then v.value else st.lastval;
      if (w.interactive && w.shinstdin) || d > 0 || w.sourcing then
        st.(ret := true, lastval := n)
      else
        st.(exited := Some(n))
    case Call(f) => EvalCall(w, cx, d, f, st)
  }

  /** A call ends a `return`; an `exit` is passed on to the caller, and obeyed where
      the (sub)shell began. */
  function EvalCall(w: World, cx: Context, d: nat, f: nat, st: St): (r: St)
    ensures st.history <= r.history
    decreases Nest(w, d), 0, 0
  {
    var st' := if d + 1 > w.funcnest then st.(err := true, lastval := 1)
               else EvalBody(w, cx.(noReturn := false), d + 1, w.bodies(f), st);
    if st'.exited.Some? then st'
    else if st'.pending.Some? && st'.pending.value.level >= d + 1 then
      if d > w.forklevel then st'.(ret := true)
      else st'.(ret := false, exited := Some(st'.pending.value.value))
    else
      st'.(ret := false)
  }

  /** The meaning of a list, one item at a time. */
  lemma ListStep(w: World, cx: Context, d: nat, l: List, st: St)
    ensures EvalList(w, cx, d, l, st) ==
            if l.Nil? || Unwinding(st) then st
            else EvalList(w, cx, d, l.rest, EvalItem(w, cx, d, l.s, st))
  {
  }

  lemma ItemStep(w: World, cx: Context, d: nat, s: Sub, st: St)
    ensures var (st', quiet) := EvalSub(w, cx, d, s, st);
            EvalItem(w, cx, d, s, st) == if quiet || st'.exited.Some? then st' else Check(w, cx, d, st')
  {
  }

  lemma SubStep(w: World, cx: Context, d: nat, s: Sub, st: St)
    ensures var (st', quiet) :=
              EvalElem(w, if s.More? || Negated(s.e) then SUPPRESSED else cx, d, s.e, st);
            EvalSub(w, cx, d, s, st) ==
            if s.Last? then (st', quiet || Negated(s.e))
            else if st'.exited.Some? then (st', true)
            else EvalAfter(w, cx, d, s.conj, s.rest, st')
  {
  }

  lemma AfterStep(w: World, cx: Context, d: nat, conj: bool, rest: Sub, st: St)
    ensures EvalAfter(w, cx, d, conj, rest, st) ==
            if conj == (st.lastval == 0) then EvalSub(w, cx, d, rest, st)
            else if rest.Last? then (st, true)
            else EvalAfter(w, cx, d, rest.conj, rest.rest, st)
  {
  }
}
