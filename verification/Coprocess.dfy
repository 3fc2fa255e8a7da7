/** Redirection to and from the coprocess, on the descriptors themselves. */
module Coprocess {
  import opened Descriptors
  import opened Plans
  import opened Aiming
  import opened PlanLaws
  import opened Redirection

  /** `>&p` and `<&p`: while the command runs, its output or input is the end of the
      coprocess that the shell writes to or reads from. */
  method ToCoprocess(shell: Redirector, out: bool) returns (ok: bool)
    requires shell.Valid() && shell.Fresh() && shell.loose == {} && Sane(shell.setup)
    modifies shell, shell.save, shell.mfds
    ensures var c := if out then old(shell.coprocout) else old(shell.coprocin);
            && (ok && !shell.errflag && c in old(shell.os) ==>
                  FileAt(shell.os, if out then 1 else 0) == Some(old(shell.os)[c]))
            && (!shell.Denied(0, shell.calls) ==> (ok && !shell.errflag <==> c in old(shell.os)))
  {
    hide *;
    ghost var (c, os) := (if out then shell.coprocout else shell.coprocin, shell.os);
    var r := Merge(if out then 1 else 0, -2, out);
    Start(shell, r);
    ok := shell.Redirect(0, 0, [r]);
    CoprocessEnds(shell.setup, r.fd1, out);
    Outcome(shell, r, ok, os, c);
  }

  /** The command may be given that redirection. */
  lemma Start(shell: Redirector, r: Redir)
    requires shell.Fresh() && shell.loose == {} && r.Merge? && r.fd2 == -2 && 0 <= r.fd1 < 10
    ensures forall k :: 0 <= k < |[r]| ==> WellFormed([r][k])
    ensures GivenOnce([r]) && shell.loose == Given(0) + Given(0) + Givens([r]) && Given(0) !! Given(0) !! Givens([r])
    ensures Ends(0, 0) + [r] == [r] && OwnAll(shell.setup, [r]) && PlainAll(shell.setup, START, [r])
    ensures shell.setup.start == shell.os && shell.setup.coprocin == shell.coprocin && shell.setup.coprocout == shell.coprocout
  {
    assert shell.os - {} == shell.os;
    NoGivens([r]);
  }

  lemma Outcome(shell: Redirector, r: Redir, ok: bool, os: map<int, File>, c: int)
    requires 0 <= r.fd1 < 10 && shell.setup.start == os
    requires shell.Planned(RunAll(shell.setup, START, [r]), true, ok) && Sane(shell.setup)
    requires PlainAll(shell.setup, START, [r])
    requires ok && !shell.errflag && shell.Certain([r]) ==>
               var run := RunAll(shell.setup, START, [r]);
               Fine(run) ==> Running(shell.Now(), run.plan, shell.setup, shell.Denied(0, shell.calls))
    requires var run := RunAll(shell.setup, START, [r]);
             if c in os then Fine(run) && Has(run.plan, r.fd1, os[c]) else run.stopped
    ensures ok && !shell.errflag && c in os ==> FileAt(shell.os, r.fd1) == Some(os[c])
    ensures !shell.Denied(0, shell.calls) ==> (ok && !shell.errflag <==> c in os)
  {
    hide RunAll;
  }
}
