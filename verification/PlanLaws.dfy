/** What plans come to for the usual redirections. */
module PlanLaws {
  import opened Descriptors
  import opened Plans

  /** A descriptor has just this file. */
  predicate Has(plan: Plan, fd: int, file: File) {
    fd in plan.aims && plan.aims[fd].Open? && plan.aims[fd].files == [file]
  }

  /** `>&p` makes a descriptor the writing end of the coprocess, `<&p` its reading end, and
      without a coprocess they fail. */
  lemma CoprocessEnds(s: Setup, fd1: int, out: bool)
    ensures var c := if out then s.coprocout else s.coprocin;
            var run := RunAll(s, START, [Merge(fd1, -2, out)]);
            if c in s.start then
              Fine(run) && Has(run.plan, fd1, s.start[c]) && run.plan.aims.Keys == {fd1}
            else
              run.stopped && run.lost == {}
  {
    RunAllOne(s, START, Merge(fd1, -2, out));
    MergeAfter(s, START, Merge(fd1, -2, out));
    NothingDropped(START.plan);
  }

  lemma NothingDropped(plan: Plan)
    requires forall i :: !Splits(plan, i)
    ensures Dropped(plan) == {}
  {
  }

  /** `>&n` makes a descriptor the file of another. */
  lemma MergeCopies(s: Setup, fd1: int, fd2: int, out: bool)
    requires 0 <= fd2 < 10
    ensures var run := RunAll(s, START, [Merge(fd1, fd2, out)]);
            if fd2 in s.start then
              Fine(run) && Has(run.plan, fd1, s.start[fd2]) && run.plan.aims.Keys == {fd1}
            else
              run.stopped && run.lost == {}
  {
    RunAllOne(s, START, Merge(fd1, fd2, out));
    MergeAfter(s, START, Merge(fd1, fd2, out));
    NothingDropped(START.plan);
  }

  /** Order matters: after `>f 2>&1` both descriptors are `f`, after `2>&1 >f` the second is
      what the first was. */
  lemma OrderMatters(s: Setup, f: File)
    ensures var plan := RunAll(s, START, [Write(1, Some(f)), Merge(2, 1, true)]).plan;
            Has(plan, 1, f) && Has(plan, 2, f)
    ensures 1 in s.start ==>
              var plan := RunAll(s, START, [Merge(2, 1, true), Write(1, Some(f))]).plan;
              Has(plan, 1, f) && Has(plan, 2, s.start[1])
  {
    var (x, y) := (Write(1, Some(f)), Merge(2, 1, true));
    assert [x, y] == [x] + [y] && [y, x] == [y] + [x];
    RunAllSplit(s, START, [x], [y]);
    RunAllSplit(s, START, [y], [x]);
    RunAllOne(s, START, x);
    RunAllOne(s, START, y);
    RunAllOne(s, After(s, START, x), y);
    RunAllOne(s, After(s, START, y), x);
    MergeAfter(s, After(s, START, x), y);
    MergeAfter(s, START, y);
  }

  function Writes(fd: int, files: seq<File>): seq<Redir> {
    seq(|files|, k requires 0 <= k < |files| => Write(fd, Some(files[k])))
  }

  /** Several outputs of one descriptor: with MULTIOS it has all files, in order, and without
      the last of them. */
  lemma {:induction false} WritesJoin(s: Setup, fd: int, files: seq<File>)
    requires files != []
    ensures var run := RunAll(s, START, Writes(fd, files));
            && Fine(run) && fd in run.plan.aims && run.plan.aims[fd].Open? && run.plan.aims[fd].out
            && run.plan.aims[fd].files == if s.multios then files else [files[|files| - 1]]
    decreases |files|
  {
    var (front, last) := (files[..|files| - 1], files[|files| - 1]);
    assert Writes(fd, files) == Writes(fd, front) + [Write(fd, Some(last))];
    RunAllSplit(s, START, Writes(fd, front), [Write(fd, Some(last))]);
    var run := RunAll(s, START, Writes(fd, front));
    RunAllOne(s, run, Write(fd, Some(last)));
    assert files == front + [last];
    if front == [] {
      assert run == START;
    } else {
      WritesJoin(s, fd, front);
    }
    OpenAfter(s, run, Write(fd, Some(last)));
  }

  /** With MULTIOS a descriptor cannot be output and input both; without the last counts. */
  lemma Directions(s: Setup, fd: int, f: File, g: File)
    ensures var run := RunAll(s, START, [Write(fd, Some(f)), Read(fd, Some(g))]);
            if s.multios then run.stopped else Fine(run) && Has(run.plan, fd, g)
  {
    var (x, y) := (Write(fd, Some(f)), Read(fd, Some(g)));
    assert [x, y] == [x] + [y];
    RunAllSplit(s, START, [x], [y]);
    RunAllOne(s, START, x);
    RunAllOne(s, After(s, START, x), y);
  }

  /** `>&f` and `&>f` send a descriptor and the standard error to the file. */
  lemma BothGo(s: Setup, fd: int, f: File)
    requires 0 <= fd < 10 && fd != 2
    ensures var run := RunAll(s, START, [ErrWrite(fd, Some(f))]);
            Fine(run) && Has(run.plan, fd, f) && Has(run.plan, 2, f) && run.plan.aims.Keys == {fd, 2}
  {
    RunAllOne(s, START, ErrWrite(fd, Some(f)));
    BothAfter(s, START, ErrWrite(fd, Some(f)));
  }

  /** A descriptor that was closed can be redirected again, and then has just the new file. */
  lemma CloseThenOpen(s: Setup, fd: int, f: File)
    ensures var run := RunAll(s, START, [Close(fd)]); Fine(run) && run.plan.aims == map[fd := Shut(false)]
    ensures var run := RunAll(s, START, [Close(fd), Write(fd, Some(f))]); Fine(run) && Has(run.plan, fd, f)
    ensures var run := RunAll(s, START, [Write(fd, Some(f)), Close(fd)]); Fine(run) && run.plan.aims == map[fd := Shut(false)]
  {
    var (x, y) := (Close(fd), Write(fd, Some(f)));
    assert [x, y] == [x] + [y] && [y, x] == [y] + [x];
    RunAllSplit(s, START, [x], [y]);
    RunAllSplit(s, START, [y], [x]);
    RunAllOne(s, START, x);
    RunAllOne(s, START, y);
    RunAllOne(s, After(s, START, x), y);
    RunAllOne(s, After(s, START, y), x);
  }

  /** The ends of a pipeline become the command's input and output. */
  lemma PipelineEnds(s: Setup, input: int, output: int)
    requires input != 0 && output != 0 && input in s.before && output in s.before
    ensures var run := RunAll(s, START, Ends(input, output));
            Fine(run) && Has(run.plan, 0, s.before[input]) && Has(run.plan, 1, s.before[output])
  {
    EndsRun(s, input, output);
  }
}
