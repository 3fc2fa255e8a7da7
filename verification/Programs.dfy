/** Command trees and the wordcode the parser flattens them into
    (`par_list`, `par_sublist`, `par_pline`, `par_subsh`, `set_list_code` and
    `set_sublist_code` in parse.c; the layout macros of bsh.h). */
module Programs {
  import opened Wordcode
  import C = Conditions

  /** One command.  `Arith` and `Cond` never need a fork. */
  datatype Cmd =
    | Simple(args: seq<Word>)
    | Arith(expr: Word)
    | Cond(cond: C.Cond)
    | Group(body: List)

  /** A pipeline of one command, perhaps negated; `Bare` is a lone `!`. */
  datatype Elem = Bare | Elem(neg: bool, line: nat, cmd: Cmd)

  /** Pipelines joined by `&&` (`conj`) and `||`. */
  datatype Sub = Last(e: Elem) | More(e: Elem, conj: bool, rest: Sub)

  datatype List = Nil | Cons(s: Sub, rest: List)

  /** The parser's `cmplx`: the command may need job control. */
  predicate ComplexCmd(c: Cmd) {
    match c
    case Simple(_) => true
    case Arith(_) => false
    case Cond(_) => false
    case Group(b) => ComplexList(b)
  }

  predicate ComplexElem(e: Elem) {
    match e
    case Bare => true
    case Elem(neg, _, c) => neg || ComplexCmd(c)
  }

  predicate ComplexSub(s: Sub) {
    match s
    case Last(e) => ComplexElem(e)
    case More(e, _, rest) => ComplexElem(e) || ComplexSub(rest)
  }

  predicate ComplexList(l: List) {
    match l
    case Nil => false
    case Cons(s, rest) => ComplexSub(s) || ComplexList(rest)
  }

  predicate Negated(e: Elem) { e.Bare? || e.neg }

  function Flags(e: Elem): (f: nat)
    ensures f < 32 && f % 4 == 0
  {
    (if Negated(e) then SUBLIST_NOT else 0) + (if ComplexElem(e) then 0 else SUBLIST_SIMPLE)
  }

  function LayoutCmd(c: Cmd): seq<Word>
    requires WellFormedCmd(c)
  {
    match c
    case Simple(args) => [BuildSimple(|args|)] + args
    case Arith(expr) => [Build(WC_ARITH, 0), expr]
    case Cond(cond) => C.Layout(cond)
    case Group(b) => [BuildCursh(|LayoutList(b)| + 2), 0] + (LayoutList(b) + [WC_END])
  }

  function LayoutElem(e: Elem): seq<Word>
    requires WellFormedElem(e)
  {
    match e
    case Bare => []
    case Elem(_, line, c) =>
      [if ComplexElem(e) then BuildPipe(line) else PipeLine(BuildPipe(line))] + LayoutCmd(c)
  }

  function LayoutSub(s: Sub): seq<Word>
    requires WellFormedSub(s)
    decreases s, 0
  {
    match s
    case Last(e) => [BuildSublist(SUBLIST_END, Flags(e), |LayoutElem(e)|)] + LayoutElem(e)
    case More(e, conj, rest) =>
      [BuildSublist(if conj then SUBLIST_AND else SUBLIST_OR, Flags(e), |LayoutElem(e)|)]
      + (LayoutElem(e) + LayoutSub(rest))
  }

  /** A list of one uncomplicated pipeline loses its sublist word. */
  predicate Simplified(s: Sub) { s.Last? && !ComplexElem(s.e) }

  function LayoutItem(s: Sub, last: bool): seq<Word>
    requires WellFormedSub(s)
    decreases s, 1
  {
    var ltype := Z_SYNC + if last then Z_END else 0;
    if Simplified(s) then
      [BuildList(ltype + Z_SIMPLE, |LayoutElem(s.e)|)] + LayoutElem(s.e)
    else
      [BuildList(ltype, 0)] + LayoutSub(s)
  }

  function LayoutList(l: List): seq<Word>
    requires WellFormedList(l)
  {
    match l
    case Nil => []
    case Cons(s, rest) => LayoutItem(s, rest.Nil?) + LayoutList(rest)
  }

  function LayoutProgram(l: List): seq<Word>
    requires WellFormedList(l)
  {
    LayoutList(l) + [WC_END]
  }

  /** Trees the parser builds: a simple command has a command word, and conditions
      inside `[[ ]]` never carry an unread slot before a connective. */
  predicate WellFormedCmd(c: Cmd) {
    match c
    case Simple(args) => 1 <= |args|
    case Arith(_) => true
    case Cond(cond) => C.WellFormed(cond) && C.SlotSafe(cond)
    case Group(b) => WellFormedList(b)
  }

  predicate WellFormedElem(e: Elem) { e.Elem? ==> WellFormedCmd(e.cmd) }

  predicate WellFormedSub(s: Sub) {
    WellFormedElem(s.e) && (s.More? ==> WellFormedSub(s.rest))
  }

  predicate WellFormedList(l: List) {
    l.Cons? ==> WellFormedSub(l.s) && WellFormedList(l.rest)
  }

  /** Every skip offset and count fits the bits its word has for it. */
  predicate FitsCmd(c: Cmd)
    requires WellFormedCmd(c)
  {
    match c
    case Simple(args) => |args| < DATA_SPAN
    case Arith(_) => true
    case Cond(cond) => C.Fits(cond)
    case Group(b) => |LayoutList(b)| + 2 < DATA_SPAN && FitsList(b)
  }

  predicate FitsElem(e: Elem)
    requires WellFormedElem(e)
  {
    e.Elem? ==> FitsCmd(e.cmd)
  }

  predicate FitsSub(s: Sub)
    requires WellFormedSub(s)
  {
    && FitsElem(s.e)
    && |LayoutElem(s.e)| < SUBLIST_SKIP_SPAN
    && (s.More? ==> FitsSub(s.rest))
  }

  predicate FitsList(l: List)
    requires WellFormedList(l)
  {
    l.Cons? ==>
      && FitsSub(l.s)
      && (Simplified(l.s) ==> |LayoutElem(l.s.e)| < LIST_SKIP_SPAN)
      && FitsList(l.rest)
  }

  predicate Loadable(l: List) { WellFormedList(l) && FitsList(l) }
}
