/** What redirections mean, without descriptors being moved: which files each descriptor
    gets, which redirection of a command fails, and what a failure leaves open. */
module Plans {
  import opened Descriptors

  /** The redirections without `{varid}`.  `file` is what opening the name gives, if it
      can be opened; `given` is a process substitution's descriptor. */
  datatype Redir =
    | Read(fd1: int, file: Option<File>)
    | Write(fd1: int, file: Option<File>)
    | ErrWrite(fd1: int, file: Option<File>)
    | Close(fd1: int)
    | Merge(fd1: int, fd2: int, out: bool)
    | Pipe(fd1: int, given: int, out: bool)

  /** Descriptors handed over by process substitutions. */
  function Givens(rs: seq<Redir>): set<int> {
    if rs == [] then {}
    else (if rs[0].Pipe? && rs[0].given != -1 then {rs[0].given} else {}) + Givens(rs[1..])
  }

  predicate GivenOnce(rs: seq<Redir>) {
    rs != [] ==>
      && GivenOnce(rs[1..])
      && (rs[0].Pipe? && rs[0].given != -1 ==> rs[0].given >= 10 && rs[0].given !in Givens(rs[1..]))
  }

  lemma NoGivens(rs: seq<Redir>)
    requires forall k :: 0 <= k < |rs| ==> !rs[k].Pipe?
    ensures Givens(rs) == {} && GivenOnce(rs)
  {
    if rs != [] {
      NoGivens(rs[1..]);
    }
  }

  predicate WellFormed(r: Redir) {
    0 <= r.fd1 < 10 && (r.Merge? ==> r.fd2 == -2 || r.fd2 >= 0)
  }

  function Given(fd: int): set<int> {
    if fd == 0 then {} else {fd}
  }

  /** The ends of the pipeline a command is in, as redirections. */
  function Ends(input: int, output: int): seq<Redir> {
    (if input == 0 then [] else [Pipe(0, input, false)]) + if output == 0 then [] else [Pipe(1, output, true)]
  }

  /** What the shell starts from: the open files, those of them that are not handed over to
      the command, its own table, and the descriptors of the coprocess. */
  datatype Setup = Setup(before: map<int, File>, start: map<int, File>, table: map<int, int>,
                         coprocin: int, coprocout: int, multios: bool)

  predicate Marked(s: Setup, fd: int) {
    Kind(s.table, fd) != FDT_UNUSED && Kind(s.table, fd) != FDT_EXTERNAL
  }

  /** The coprocess has descriptors of the shell, if there is one. */
  predicate Sane(s: Setup) {
    && (s.coprocin != -1 ==> s.coprocin >= 10 && s.coprocin in s.start && Marked(s, s.coprocin))
    && (s.coprocout != -1 ==> s.coprocout >= 10 && s.coprocout in s.start && Marked(s, s.coprocout))
  }

  /** What has become of a descriptor: it has these files, in order, behind the pipe `id` if
      there are several; or it is closed, `stale` if it was split before. */
  datatype Aim = Open(out: bool, files: seq<File>, id: nat) | Shut(stale: bool)

  datatype Plan = Plan(aims: map<int, Aim>, pipes: nat, copies: seq<Copier>)

  predicate Splits(plan: Plan, i: int) {
    i in plan.aims && plan.aims[i].Open? && |plan.aims[i].files| >= 2
  }

  function Somes(files: seq<File>): seq<Option<File>> {
    seq(|files|, k requires 0 <= k < |files| => Some(files[k]))
  }

  /** The process for a split stream: it has the other end of the pipe. */
  function CopierOf(a: Aim): Copier
    requires a.Open?
  {
    Copier(Some(End(a.id, !a.out)), a.out, Somes(a.files))
  }

  /** A file for a descriptor: with MULTIOS it joins those there. A stream has one direction,
      and one that was split and then closed takes nothing more. */
  function Put(multios: bool, plan: Plan, fd: int, out: bool, file: File): Option<Plan> {
    var first := Open(out, [file], 0);
    if !multios || fd !in plan.aims then Some(plan.(aims := plan.aims[fd := first]))
    else
      match plan.aims[fd]
      case Shut(stale) => if stale then None else Some(plan.(aims := plan.aims[fd := first]))
      case Open(o, files, id) =>
        if o != out then None
        else if |files| >= 2 then Some(plan.(aims := plan.aims[fd := Open(out, files + [file], id)]))
        else Some(plan.(aims := plan.aims[fd := Open(out, files + [file], plan.pipes)], pipes := plan.pipes + 1))
  }

  /** A split stream is handed over; the descriptor keeps its end of the pipe. */
  function HandOver(plan: Plan, fd: int): Plan {
    if !Splits(plan, fd) then plan
    else
      var a := plan.aims[fd];
      plan.(aims := plan.aims[fd := Open(a.out, [End(a.id, a.out)], 0)], copies := plan.copies + [CopierOf(a)])
  }

  /** The file of a merge's source, where it has one and may be used. */
  function Source(s: Setup, plan: Plan, out: bool, fd2: int): Option<(File, Plan)> {
    if fd2 in plan.aims then
      match HandOver(plan, fd2).aims[fd2]
      case Shut(_) => None
      case Open(_, files, _) => if files == [] then None else Some((files[0], HandOver(plan, fd2)))
    else
      var c := if fd2 == -2 then (if out then s.coprocout else s.coprocin) else fd2;
      if c in s.start && (fd2 >= 10 ==> !Marked(s, fd2) && fd2 != s.coprocin && fd2 != s.coprocout)
      then Some((s.start[c], plan)) else None
  }

  /** The descriptor is open. */
  predicate OpenNow(s: Setup, plan: Plan, i: int) {
    if i in plan.aims then plan.aims[i].Open? else i in s.start
  }

  function LowestFree(s: Setup, plan: Plan, i: nat): (d: nat)
    ensures d < 10 ==> !OpenNow(s, plan, d)
    ensures forall j :: i <= j < d && j < 10 ==> OpenNow(s, plan, j)
    ensures i <= 10 ==> i <= d <= 10
    decreases 10 - i
  {
    if i >= 10 || !OpenNow(s, plan, i) then i else LowestFree(s, plan, i + 1)
  }

  /** A file opened now and not placed stays open, as nothing is restored over it. */
  predicate Strays(s: Setup, plan: Plan) {
    var d := LowestFree(s, plan, 0);
    d >= 10 || d !in plan.aims
  }

  /** The pipes that closing the multios leaves open. */
  function Dropped(plan: Plan): set<File> {
    set i | 0 <= i < 10 && Splits(plan, i) :: End(plan.aims[i].id, !plan.aims[i].out)
  }

  /** A redirection goes well, or ends it all and leaves some files open; a failing process
      substitution leaves its file, and does not end it. */
  datatype Step = Goes(plan: Plan) | Stops(lost: set<File>) | Wrecks(plan: Plan, lost: set<File>)

  function StepOf(s: Setup, plan: Plan, wreck: bool, r: Redir): Step {
    if wreck && !r.Pipe? then Stops(Dropped(plan))
    else
      match r
      case Read(fd1, file) => StepOpen(s, plan, fd1, false, file)
      case Write(fd1, file) => StepOpen(s, plan, fd1, true, file)
      case ErrWrite(fd1, file) => StepBoth(s, plan, fd1, file)
      case Close(fd1) =>
        Goes(HandOver(plan, fd1).(aims := HandOver(plan, fd1).aims[fd1 := Shut(Splits(plan, fd1))]))
      case Merge(fd1, fd2, out) => StepMerge(s, plan, fd1, fd2, out)
      case Pipe(fd1, given, out) =>
        if given !in s.before then Stops(Dropped(plan))
        else
          var next := Put(s.multios, plan, fd1, out, s.before[given]);
          if next.Some? then Goes(next.value) else Wrecks(Bare(plan), Dropped(plan) + {s.before[given]})
  }

  /** After the multios have been given up. */
  function Bare(plan: Plan): Plan {
    plan.(aims := map[])
  }

  function StepOpen(s: Setup, plan: Plan, fd1: int, out: bool, file: Option<File>): Step {
    if file.None? then Stops(Dropped(plan))
    else
      var next := Put(s.multios, plan, fd1, out, file.value);
      if next.Some? then Goes(next.value)
      else Stops(Dropped(plan) + if Strays(s, plan) then {file.value} else {})
  }

  function StepBoth(s: Setup, plan: Plan, fd1: int, file: Option<File>): Step {
    var first := StepOpen(s, plan, fd1, true, file);
    if !first.Goes? then first
    else
      var next := Put(s.multios, first.plan, 2, true, file.value);
      if next.Some? then Goes(next.value) else Stops(Dropped(first.plan) + {file.value})
  }

  function StepMerge(s: Setup, plan: Plan, fd1: int, fd2: int, out: bool): Step {
    var source := Source(s, plan, out, fd2);
    if source.None? then Stops(Dropped(plan))
    else
      var (file, mid) := source.value;
      var next := Put(s.multios, mid, fd1, out, file);
      if next.Some? then Goes(next.value) else Stops(Dropped(mid) + {file})
  }

  /** How far redirection has come: the plan, whether a process substitution has failed,
      what has been left open, and whether it is all over. */
  datatype Run = Run(plan: Plan, wreck: bool, lost: set<File>, stopped: bool)

  const START := Run(Plan(map[], 0, []), false, {}, false)

  predicate Fine(run: Run) { !run.stopped && !run.wreck }

  function After(s: Setup, run: Run, r: Redir): Run {
    if run.stopped then run
    else
      match StepOf(s, run.plan, run.wreck, r)
      case Goes(plan) => run.(plan := plan)
      case Stops(lost) => Failed(run, lost)
      case Wrecks(plan, lost) => Run(plan, true, run.lost + lost, false)
  }

  lemma FineBack(s: Setup, run: Run, r: Redir)
    requires Fine(After(s, run, r))
    ensures Fine(run)
  {
  }

  /** Opening a file for one descriptor. */
  lemma OpenAfter(s: Setup, run: Run, r: Redir)
    requires r.Read? || r.Write?
    ensures Fine(After(s, run, r)) ==> Fine(run)
    ensures Fine(run) ==>
              After(s, run, r) ==
              if r.file.None? then Failed(run, Dropped(run.plan))
              else
                var next := Put(s.multios, run.plan, r.fd1, r.Write?, r.file.value);
                if next.Some? then run.(plan := next.value)
                else Failed(run, Dropped(run.plan) + if Strays(s, run.plan) then {r.file.value} else {})
  {
  }

  lemma MergeAfter(s: Setup, run: Run, r: Redir)
    requires r.Merge?
    ensures Fine(After(s, run, r)) ==> Fine(run)
    ensures Fine(run) ==>
              var src := Source(s, run.plan, r.out, r.fd2);
              After(s, run, r) ==
              if src.None? then Failed(run, Dropped(run.plan))
              else
                var next := Put(s.multios, src.value.1, r.fd1, r.out, src.value.0);
                if next.Some? then run.(plan := next.value)
                else Failed(run, Dropped(src.value.1) + {src.value.0})
  {
  }

  lemma BothAfter(s: Setup, run: Run, r: Redir)
    requires r.ErrWrite?
    ensures Fine(After(s, run, r)) ==> Fine(run)
    ensures Fine(run) ==>
              After(s, run, r) ==
              if r.file.None? then Failed(run, Dropped(run.plan))
              else
                var one := Put(s.multios, run.plan, r.fd1, true, r.file.value);
                if one.None? then Failed(run, Dropped(run.plan) + if Strays(s, run.plan) then {r.file.value} else {})
                else
                  var two := Put(s.multios, one.value, 2, true, r.file.value);
                  if two.Some? then run.(plan := two.value)
                  else Failed(run, Dropped(one.value) + {r.file.value})
  {
  }

  function Failed(run: Run, lost: set<File>): Run {
    run.(lost := run.lost + lost, stopped := true)
  }

  function RunAll(s: Setup, run: Run, rs: seq<Redir>): Run
    decreases |rs|
  {
    if rs == [] then run else RunAll(s, After(s, run, rs[0]), rs[1..])
  }

  lemma {:induction false} RunAllSplit(s: Setup, run: Run, xs: seq<Redir>, ys: seq<Redir>)
    ensures RunAll(s, run, xs + ys) == RunAll(s, RunAll(s, run, xs), ys)
    decreases |xs|
  {
    if xs == [] {
      assert xs + ys == ys;
    } else {
      assert (xs + ys)[0] == xs[0] && (xs + ys)[1..] == xs[1..] + ys;
      RunAllSplit(s, After(s, run, xs[0]), xs[1..], ys);
    }
  }

  lemma RunAllOne(s: Setup, run: Run, r: Redir)
    ensures RunAll(s, run, [r]) == After(s, run, r)
  {
    assert [r][1..] == [];
  }

  /** A run that has stopped, or failed, does not recover. */
  lemma {:induction false} FineBefore(s: Setup, run: Run, rs: seq<Redir>)
    requires Fine(RunAll(s, run, rs))
    ensures Fine(run)
    decreases |rs|
  {
    if rs != [] {
      FineBefore(s, After(s, run, rs[0]), rs[1..]);
    }
  }

  /** No merge is from a split stream, so that no redirection depends on a process. */
  predicate Plain(plan: Plan, r: Redir) {
    r.Merge? ==> !Splits(plan, r.fd2)
  }

  predicate PlainAll(s: Setup, run: Run, rs: seq<Redir>)
    decreases |rs|
  {
    rs != [] ==> Plain(run.plan, rs[0]) && PlainAll(s, After(s, run, rs[0]), rs[1..])
  }

  /** The source of a merge is no descriptor handed over to the command. */
  predicate Own(s: Setup, r: Redir) {
    r.Merge? && r.fd2 in s.before ==> r.fd2 in s.start
  }

  /** A descriptor can take a file in this direction. */
  predicate CanTake(multios: bool, plan: Plan, fd: int, out: bool) {
    multios && fd in plan.aims ==>
      match plan.aims[fd]
      case Shut(stale) => !stale
      case Open(o, _, _) => o == out
  }

  /** Nothing is missing for a redirection. */
  predicate Possible(s: Setup, plan: Plan, r: Redir) {
    match r
    case Read(fd1, file) => file.Some? && CanTake(s.multios, plan, fd1, false)
    case Write(fd1, file) => file.Some? && CanTake(s.multios, plan, fd1, true)
    case ErrWrite(fd1, file) =>
      file.Some? && CanTake(s.multios, plan, fd1, true) && (fd1 == 2 || CanTake(s.multios, plan, 2, true))
    case Close(_) => true
    case Merge(fd1, fd2, out) => Source(s, plan, out, fd2).Some? && CanTake(s.multios, plan, fd1, out)
    case Pipe(fd1, given, out) => given in s.before && CanTake(s.multios, plan, fd1, out)
  }

  predicate AllPossible(s: Setup, run: Run, rs: seq<Redir>)
    decreases |rs|
  {
    rs != [] ==> Possible(s, run.plan, rs[0]) && AllPossible(s, After(s, run, rs[0]), rs[1..])
  }

  lemma PossibleStep(s: Setup, run: Run, r: Redir)
    ensures Fine(After(s, run, r)) <==> Fine(run) && Possible(s, run.plan, r)
  {
    hide Dropped, Strays;
    if r.Merge? && r.fd2 in run.plan.aims {
      assert HandOver(run.plan, r.fd2).aims.Keys == run.plan.aims.Keys;
    }
  }

  /** A run goes well exactly if every redirection in turn is possible. */
  lemma {:induction false} FineExactly(s: Setup, run: Run, rs: seq<Redir>)
    ensures Fine(RunAll(s, run, rs)) <==> Fine(run) && AllPossible(s, run, rs)
    decreases |rs|
  {
    hide After, Possible;
    if rs != [] {
      PossibleStep(s, run, rs[0]);
      FineExactly(s, After(s, run, rs[0]), rs[1..]);
    }
  }

  lemma EndsRun(s: Setup, input: int, output: int)
    ensures var one := if input == 0 then START else After(s, START, Pipe(0, input, false));
            RunAll(s, START, Ends(input, output)) ==
            if output == 0 then one else After(s, one, Pipe(1, output, true))
  {
    var xs, ys := if input == 0 then [] else [Pipe(0, input, false)], if output == 0 then [] else [Pipe(1, output, true)];
    RunAllSplit(s, START, xs, ys);
    RunAllOne(s, START, Pipe(0, input, false));
    RunAllOne(s, RunAll(s, START, xs), Pipe(1, output, true));
  }

  predicate OwnAll(s: Setup, rs: seq<Redir>) {
    forall k :: 0 <= k < |rs| ==> Own(s, rs[k])
  }

  lemma {:induction false} StaysStopped(s: Setup, run: Run, rs: seq<Redir>)
    requires run.stopped
    ensures RunAll(s, run, rs) == run
    decreases |rs|
  {
    if rs != [] {
      StaysStopped(s, run, rs[1..]);
    }
  }

  lemma {:induction false} PlainAllSplit(s: Setup, run: Run, xs: seq<Redir>, ys: seq<Redir>)
    requires PlainAll(s, run, xs + ys)
    ensures PlainAll(s, RunAll(s, run, xs), ys)
    decreases |xs|
  {
    if xs == [] {
      assert xs + ys == ys;
    } else {
      assert (xs + ys)[0] == xs[0] && (xs + ys)[1..] == xs[1..] + ys;
      PlainAllSplit(s, After(s, run, xs[0]), xs[1..], ys);
    }
  }
}
