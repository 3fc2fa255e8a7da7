/** Redirections of a command that runs in the shell itself (exec.c): descriptors are
    saved above 9 on first use, split when redirected more than once, and restored. */
module Redirection {
  import opened Descriptors
  import opened Plans
  import opened Aiming

  /** After a failure: every pipe of a stream split before stays open, and apart from
      them at most what the redirection itself had in hand. */
  ghost predicate Left(leaked: map<int, File>, leaked0: map<int, File>, mfds0: seq<Option<Multio>>,
                       os0: map<int, File>, fd2: int)
  {
    && PipeSet(mfds0) <= leaked.Keys
    && (forall f :: f in leaked0 && f >= 10 ==> f in leaked)
    && forall f :: f in leaked ==> f in leaked0 || f in PipeSet(mfds0) || f == fd2 || (f >= 10 && f !in os0)
  }

  lemma LeftAtOnce(leaked: map<int, File>, leaked0: map<int, File>, mfds0: seq<Option<Multio>>, os0: map<int, File>, fd2: int)
    requires var pipes := leaked0.Keys + PipeSet(mfds0); pipes <= leaked.Keys <= pipes + {fd2}
    ensures Left(leaked, leaked0, mfds0, os0, fd2)
  {
    assert forall f :: f in leaked0 ==> f in leaked0.Keys;
    forall f | f in leaked ensures f in leaked0 || f in PipeSet(mfds0) || f == fd2 {
      assert f in leaked.Keys;
    }
  }

  /** The same, seen from an earlier moment. */
  lemma LeftBefore(leaked: map<int, File>, leaked0: map<int, File>, mfds0: seq<Option<Multio>>, mfds1: seq<Option<Multio>>,
                   os0: map<int, File>, os1: map<int, File>, moved: int, x: int, fd2: int)
    requires Left(leaked, leaked0, mfds1, os1, x) && PipeSet(mfds1) == PipeSet(mfds0)
    requires Frame(os0, os1, moved, moved) && (moved < 10 || moved in os1)
    requires x == fd2 || (x >= 10 && x !in os0)
    ensures Left(leaked, leaked0, mfds0, os0, fd2)
  {
    forall f | f in leaked
      ensures f in leaked0 || f in PipeSet(mfds0) || f == fd2 || (f >= 10 && f !in os0)
    {
      if f in os0 && f != moved {
        assert Agree(os1, os0, f);
      }
    }
  }

  lemma LeftSaved(leaked: map<int, File>, mid: map<int, File>, leaked0: map<int, File>, mfds0: seq<Option<Multio>>,
                  os0: map<int, File>, fd1: int, fd2: int)
    requires Left(leaked, mid, mfds0, os0, fd2) && mid == leaked0 - {fd1} && fd1 < 10
    ensures Left(leaked, leaked0, mfds0, os0, fd2)
  {
  }

  ghost predicate SettledBut(mfds: seq<Option<Multio>>, fd1: int) {
    forall i :: 0 <= i < |mfds| && i != fd1 && mfds[i].Some? ==> var fds := mfds[i].value.fds; fds == [i] || |fds| >= 2
  }

  lemma SettledOthers(was: seq<Option<Multio>>, mfds: seq<Option<Multio>>, multios: bool, fd1: int)
    requires Settled(was, multios) && 0 <= fd1 < |was| == |mfds| && mfds == was[fd1 := mfds[fd1]]
    ensures SettledBut(mfds, fd1)
  {
  }

  /** A descriptor has been moved above 9, or closed. */
  lemma MovedFrame(os0: map<int, File>, os1: map<int, File>, fd: int, r: int)
    requires 0 <= fd < 10 && (r == -1 || (r >= 10 && r !in os0 && fd in os0))
    requires os1 == (if r == -1 then os0 else os0[r := os0[fd]]) - {fd}
    ensures Frame(os0, os1, fd, fd) && fd !in os1 && forall f :: f in os1 && f < 10 ==> f in os0
  {
  }

  /** The same with a descriptor that may be above 9 already. */
  lemma RaisedFrame(os0: map<int, File>, os1: map<int, File>, fd: int, r: int)
    requires fd >= 0 && (r == -1 ==> fd < 10 && os1 == os0 - {fd})
    requires r != -1 ==>
               && r >= 10 && fd in os0 && (r == fd || (fd < 10 && r !in os0))
               && os1 == if r == fd then os0 else os0[r := os0[fd]] - {fd}
    ensures Frame(os0, os1, fd, fd) && (fd < 10 ==> fd !in os1) && forall f :: f in os1 && f < 10 ==> f in os0
    ensures forall f :: f != fd && f != r ==> Agree(os1, os0, f)
    ensures r != -1 ==> r in os1 && FileAt(os1, r) == FileAt(os0, fd)
  {
  }

  /** The two ends of a pipe are open above 9, where they are not -1. */
  ghost predicate EndsMade(os0: map<int, File>, os1: map<int, File>, table: map<int, int>, pipe: nat, reader: int, writer: int) {
    && (reader != -1 ==>
          && reader >= 10 && reader !in os0 && Internal(table, reader) && reader != writer
          && FileAt(os1, reader) == Some(End(pipe, false)))
    && (writer != -1 ==>
          writer >= 10 && writer !in os0 && Internal(table, writer) && FileAt(os1, writer) == Some(End(pipe, true)))
    && forall f :: f != reader && f != writer ==> Agree(os1, os0, f)
  }

  lemma EndsNew(os0: map<int, File>, os1: map<int, File>, table: map<int, int>, pipe: nat, reader: int, writer: int)
    requires EndsMade(os0, os1, table, pipe, reader, writer)
    ensures reader != -1 ==> reader >= 10 && reader !in os0 && reader in os1
    ensures writer != -1 ==> writer >= 10 && writer !in os0 && writer in os1
    ensures forall f :: f != reader && f != writer ==> Agree(os1, os0, f)
  {
  }

  lemma SameFrame(os0: map<int, File>, os1: map<int, File>, fd1: int)
    requires os1 == os0
    ensures Frame(os0, os1, fd1, fd1)
  {
  }

  /** One end of the pipe is in place of a descriptor, and the other as it was. */
  lemma EndPut(os0: map<int, File>, mid: map<int, File>, os1: map<int, File>, table: map<int, int>, pipe: nat,
               reader: int, writer: int, out: bool, fd1: int)
    requires EndsMade(os0, mid, table, pipe, reader, writer) && 0 <= fd1 < 10 && (forall f :: f in os0 ==> f >= 0)
    requires var x := if out then writer else reader;
             && (forall f :: f != x && f != fd1 ==> Agree(os1, mid, f))
             && FileAt(os1, fd1) == if x == -1 then None else FileAt(mid, x)
    ensures Frame(os0, os1, fd1, fd1) && forall f :: f in os1 && 0 <= f < 10 ==> f in os0 || f == fd1
    ensures var y := if out then reader else writer;
            y != -1 ==>
              && FileAt(os1, y) == Some(End(pipe, !out)) && y >= 10 && y !in os0 && Internal(table, y)
              && y != if out then writer else reader
    ensures var x := if out then writer else reader;
            if x == -1 then fd1 !in os1 else fd1 in os1 && os1[fd1] == End(pipe, out)
  {
    forall f | f != reader && f != writer && f != fd1
      ensures Agree(os1, os0, f)
    {
      assert Agree(os1, mid, f) && Agree(mid, os0, f);
    }
    forall f | f in os1 && 0 <= f < 10 && f != fd1
      ensures f in os0
    {
      assert Agree(os1, os0, f);
    }
    var y := if out then reader else writer;
    assert y != -1 ==> Agree(os1, mid, y);
  }

  /** What is not held stays open. */
  lemma GoneOnly(os0: map<int, File>, gone: set<int>, m: Multio)
    requires forall f :: f in gone ==> Holds(m, f)
    ensures forall f :: f in os0 && !Holds(m, f) ==> Agree(os0 - gone, os0, f)
    ensures forall f :: f in os0 - gone ==> f in os0
  {
  }

  lemma SettledSet(was: seq<Option<Multio>>, mfds: seq<Option<Multio>>, multios: bool, i: int)
    requires Settled(was, multios) && 0 <= i < |was| == |mfds| && mfds == was[i := mfds[i]]
    requires mfds[i].Some? ==> mfds[i].value.fds == [i]
    ensures Settled(mfds, multios)
  {
  }

  lemma SettledAgain(was: seq<Option<Multio>>, mfds: seq<Option<Multio>>, multios: bool, fd1: int)
    requires SettledBut(was, fd1) && multios && 0 <= fd1 < |was| == |mfds| && mfds == was[fd1 := mfds[fd1]]
    requires mfds[fd1].Some? && |mfds[fd1].value.fds| >= 2
    ensures Settled(mfds, multios)
  {
  }

  /** The stream at `fd1`, whose file is `first`, and the file at `fd2` are joined behind a
      new pipe. */
  ghost predicate SplitBy(v: View, v': View, fd1: int, fd2: int, first: Option<File>, denied: bool) {
    && |v.mfds| == |v'.mfds| == 10 && 0 <= fd1 < 10 && v.mfds[fd1].Some? && |v.mfds[fd1].value.fds| == 1
    && v'.goal == v.goal && Frame(v.os, v'.os, fd1, fd2) && fd1 != fd2
    && JoinedBy(v.mfds, v'.mfds, fd1)
    && FileAt(v'.os, v'.mfds[fd1].value.fds[0]) == first
    && FileAt(v'.os, v'.mfds[fd1].value.fds[1]) == FileAt(v.os, fd2)
    && (forall f :: f in v'.os && f < 10 ==> f == fd1 || (f in v.os && f != fd2))
    && v'.pipes == v.pipes + 1 && Tied(v', fd1, v.pipes, denied)
  }

  lemma SplitFrom(v: View, mid: View, w: View, fd1: int, fd2: int, fdN: int, denied: bool)
    requires |v.mfds| == 10 && 0 <= fd1 < 10 && v.mfds[fd1].Some? && |v.mfds[fd1].value.fds| == 1 && fd2 in v.os
    requires mid.goal == v.goal && mid.pipes == v.pipes && Frame(v.os, mid.os, fd1, fd1) && forall f :: f in mid.os && f < 10 ==> f in v.os
    requires mid.mfds == v.mfds[fd1 := Some(v.mfds[fd1].value.(fds := [fdN]))]
    requires SplitBy(mid, w, fd1, fd2, FileAt(v.os, fd1), denied)
    ensures SplitBy(v, w, fd1, fd2, FileAt(v.os, fd1), denied)
  {
    FrameTrans(v.os, mid.os, w.os, fd1, fd1, fd2);
    assert Agree(mid.os, v.os, fd2);
  }

  lemma SplitFromThird(v: View, mid: View, w: View, fd1: int, fd2: int, fdN: int, fdM: int, denied: bool)
    requires |v.mfds| == |w.mfds| == 10 && 0 <= fd1 < 10 && v.mfds[fd1].Some? && v.mfds[fd1].value.fds == [fdN]
    requires fd1 !in v.os && fdN >= 10 && fdN != fd2 && fdN in v.os && mid.mfds == v.mfds && w.goal == mid.goal == v.goal
    requires Frame(v.os, mid.os, fd2, fd2) && (forall f :: f in mid.os && f < 10 ==> f in v.os) && (fd2 < 10 ==> fd2 !in mid.os)
    requires fdM >= 10 && fdM in mid.os && FileAt(mid.os, fdM) == FileAt(v.os, fd2)
    requires Frame(mid.os, w.os, fd1, fd1) && forall f :: f in w.os && f < 10 ==> f == fd1 || f in mid.os
    requires w.mfds == v.mfds[fd1 := w.mfds[fd1]] && w.mfds[fd1].Some?
    requires w.mfds[fd1].value.fds == [fdN, fdM] && w.mfds[fd1].value.out == v.mfds[fd1].value.out
    requires w.pipes == v.pipes + 1 && Tied(w, fd1, v.pipes, denied)
    ensures SplitBy(v, w, fd1, fd2, FileAt(v.os, fdN), denied)
  {
    FrameTrans(v.os, mid.os, w.os, fd2, fd1, fd1);
    assert Agree(w.os, mid.os, fdM) && Agree(mid.os, v.os, fdN) && Agree(w.os, mid.os, fdN);
  }

  /** What a failure of `addfd` leaves, if nothing was denied. */
  ghost predicate Spilt(v: View, w: View, leaked0: map<int, File>, leaked: map<int, File>, fd2: int) {
    && leaked == leaked0 + LeakOf(v) + StrayOf(v, fd2)
    && w.pipes == v.pipes && w.copiers == v.copiers && w.loose == v.loose - {fd2}
    && forall f :: f in w.loose ==> Agree(w.os, v.os, f)
  }

  lemma SpiltSame(v: View, mid: View, w: View, leaked0: map<int, File>, leaked: map<int, File>, fd2: int)
    requires mid.os == v.os && mid.mfds == v.mfds && mid.loose == v.loose && mid.save == v.save
    requires mid.pipes == v.pipes && mid.copiers == v.copiers && Spilt(mid, w, leaked0, leaked, fd2)
    ensures Spilt(v, w, leaked0, leaked, fd2)
  {
  }

  /** The stream that was to be split had only the file to be joined. */
  lemma SpiltLifted(v: View, mid: View, w: View, leaked0: map<int, File>, leaked: map<int, File>, fd1: int)
    requires v.Inv() && Spilt(mid, w, leaked0, leaked, fd1) && 0 <= fd1 < 10 && v.save[fd1] != UNTOUCHED
    requires PipeSet(mid.mfds) == PipeSet(v.mfds) && mid.loose == v.loose - {fd1}
    requires mid.pipes == v.pipes && mid.copiers == v.copiers && Frame(v.os, mid.os, fd1, fd1)
    ensures Spilt(v, w, leaked0, leaked, fd1)
  {
    Known(v);
    forall p | p in PipeSet(v.mfds)
      ensures p in v.os && Agree(mid.os, v.os, p)
    {
      var i :| 0 <= i < 10 && HasPipe(v.mfds[i]) && v.mfds[i].value.pipe == p;
      KnownSplit(v, i);
    }
    assert LeakOf(mid) == LeakOf(v);
    assert StrayOf(mid, fd1) == StrayOf(v, fd1) == map[];
    forall f | f in w.loose
      ensures Agree(w.os, v.os, f)
    {
      assert Agree(w.os, mid.os, f) && f in v.os && Agree(mid.os, v.os, f);
    }
  }

  /** The stream at one descriptor is as a redirection without errors leaves it. */
  ghost predicate Streamed(mfds0: seq<Option<Multio>>, mfds: seq<Option<Multio>>, fd1: int, out: bool, denied: bool) {
    && 0 <= fd1 < |mfds0| == |mfds| && mfds == mfds0[fd1 := mfds[fd1]]
    && mfds[fd1].Some? && mfds[fd1].value.out == out
    && (HasPipe(mfds[fd1]) || |mfds[fd1].value.fds| != 2 || denied)
  }

  /** The source of a merge is no stream that is split. */
  ghost predicate Unsplit(mfds0: seq<Option<Multio>>, fd2: int) {
    0 <= fd2 < |mfds0| && mfds0[fd2].Some? ==> |mfds0[fd2].value.fds| < 2
  }

  /** After a failure: the pipes of the streams split then stay open, and no other
      descriptor that was open before. */
  ghost predicate LeftOpen(leaked: map<int, File>, leaked0: map<int, File>, mfds0: seq<Option<Multio>>,
                           os0: map<int, File>, r: Redir)
  {
    && SplitAt(mfds0, r) <= leaked.Keys
    && (!r.ErrWrite? && (r.Merge? ==> Unsplit(mfds0, r.fd2)) ==>
          forall f :: f in leaked ==> f in leaked0 || f in PipeSet(mfds0) || f !in os0)
  }

  /** A new descriptor was in hand. */
  lemma LeftIsOpen(leaked: map<int, File>, leaked0: map<int, File>, mfds0: seq<Option<Multio>>, mfds1: seq<Option<Multio>>,
                   os0: map<int, File>, os1: map<int, File>, r: Redir, fil: int)
    requires Left(leaked, leaked0, mfds1, os1, fil) && SplitAt(mfds0, r) <= PipeSet(mfds1) <= PipeSet(mfds0)
    requires (r.Merge? ==> Unsplit(mfds0, r.fd2)) ==> fil !in os0 && os0.Keys <= os1.Keys
    ensures LeftOpen(leaked, leaked0, mfds0, os0, r)
  {
    assert forall f :: f in os0 ==> f in os0.Keys;
    assert forall f :: f in os1 <==> f in os1.Keys;
  }

  lemma LeftAll(leaked: map<int, File>, leaked0: map<int, File>, mfds0: seq<Option<Multio>>, mfds1: seq<Option<Multio>>,
                os0: map<int, File>, r: Redir)
    requires leaked.Keys == leaked0.Keys + PipeSet(mfds1) && SplitAt(mfds0, r) <= PipeSet(mfds1) <= PipeSet(mfds0)
    ensures LeftOpen(leaked, leaked0, mfds0, os0, r)
  {
    forall f | f in leaked ensures f in leaked0 || f in PipeSet(mfds0) {
      assert f in leaked.Keys;
    }
  }

  lemma LeftBoth(leaked: map<int, File>, leaked0: map<int, File>, mfds0: seq<Option<Multio>>, os0: map<int, File>, r: Redir)
    requires r.ErrWrite? && PipeSet(mfds0) <= leaked.Keys
    ensures LeftOpen(leaked, leaked0, mfds0, os0, r)
  {
  }

  /** The streams split when a redirection is given up; a merge hands its source over. */
  function SplitAt(mfds: seq<Option<Multio>>, r: Redir): set<int> {
    if r.Merge? && 0 <= r.fd2 < |mfds| then PipeSet(mfds[r.fd2 := None]) else PipeSet(mfds)
  }

  /** The pipes of split streams are open. */
  lemma LeakKeys(v: View)
    requires v.Inv()
    ensures LeakOf(v).Keys == PipeSet(v.mfds)
  {
    forall p | p in PipeSet(v.mfds)
      ensures p in v.os
    {
      var i :| 0 <= i < 10 && HasPipe(v.mfds[i]) && v.mfds[i].value.pipe == p;
      KnownSplit(v, i);
    }
  }

  /** Before anything is touched the goal is what is open now. */
  lemma GoalIsRest(v: View)
    requires v.Inv() && (forall i :: 0 <= i < 10 ==> v.save[i] == UNTOUCHED)
    requires forall f :: f in v.loose ==> f >= 10
    ensures v.goal == v.os - v.loose
  {
    AllRestored(v);
    forall fd
      ensures fd in v.goal <==> fd in v.os - v.loose
      ensures fd in v.goal ==> v.goal[fd] == v.os[fd]
    {
      assert v.HighOk(fd);
      assert fd >= 0 && fd !in v.loose ==> Agree(v.os, v.goal, fd);
    }
  }

  lemma NoNegative(v: View)
    requires v.Inv()
    ensures forall fd :: fd in v.goal ==> fd >= 0
  {
    assert forall fd :: fd in v.goal ==> v.HighOk(fd);
  }

  /** The pipe of one stream, with its file. */
  function PipeAt(os: map<int, File>, m: Option<Multio>): map<int, File> {
    if HasPipe(m) && m.value.pipe in os then map[m.value.pipe := os[m.value.pipe]] else map[]
  }

  /** Of what one stream holds besides its pipe nothing is another's pipe, and nothing is
      to be placed that is not restored over. */
  lemma NodeShut(v: View, i: int, gone: set<int>)
    requires v.Inv() && 0 <= i < 10 && v.mfds[i].Some?
    requires forall f :: f in gone ==> f >= 0 && f in v.mfds[i].value.fds
    ensures forall p :: p in PipeSet(v.mfds[i := None]) ==> Agree(v.os - gone, v.os, p)
    ensures forall f :: f in v.loose && Pinned(v.save, f) ==> f in v.loose - gone && Agree(v.os - gone, v.os, f)
    ensures forall f :: f in gone && f >= 10 ==> f in v.owner
  {
    KnownSplit(v, i);
    forall f | f in gone && f != i
      ensures f in v.owner && v.owner[f] == Split(i) && f !in v.loose
    {
      HeldOnce(v, i, f);
    }
    forall p | p in PipeSet(v.mfds[i := None])
      ensures p !in gone
    {
      var j :| 0 <= j < 10 && HasPipe(v.mfds[i := None][j]) && v.mfds[i := None][j].value.pipe == p;
      KnownSplit(v, j);
      HeldOnce(v, j, p);
    }
  }

  /** What closing the streams leaves open stays the same when one has been closed. */
  lemma NodeLeak(v: View, w: View, i: int, leaked: map<int, File>)
    requires v.Inv() && 0 <= i < 10 == |v.mfds| && w.mfds == v.mfds[i := None]
    requires forall p :: p in PipeSet(w.mfds) ==> Agree(w.os, v.os, p)
    ensures leaked + PipeAt(v.os, v.mfds[i]) + LeakOf(w) == leaked + LeakOf(v)
  {
    hide View.Inv, PipeSet, HasPipe;
    PipeSetAt(v.mfds, i);
    forall p
      ensures p in LeakOf(v) <==> p in PipeAt(v.os, v.mfds[i]) || p in LeakOf(w)
      ensures p in LeakOf(w) ==> LeakOf(w)[p] == LeakOf(v)[p]
      ensures p in PipeAt(v.os, v.mfds[i]) ==> PipeAt(v.os, v.mfds[i])[p] == LeakOf(v)[p]
    {
      assert p in PipeSet(w.mfds) ==> Agree(w.os, v.os, p);
    }
    Merged(leaked, PipeAt(v.os, v.mfds[i]), LeakOf(w), LeakOf(v));
  }

  lemma Merged(a: map<int, File>, b: map<int, File>, c: map<int, File>, d: map<int, File>)
    requires forall p :: p in d <==> p in b || p in c
    requires (forall p :: p in c ==> c[p] == d[p]) && forall p :: p in b ==> b[p] == d[p]
    ensures a + b + c == a + d
  {
    forall k
      ensures k in a + b + c <==> k in a + d
      ensures k in a + d ==> (a + b + c)[k] == (a + d)[k]
    {
    }
  }

  lemma PlacedFrame(v: View, w: View, multios: bool, fd1: int, fil: int, out: bool, denied: bool)
    requires v.Inv() && Placed(v, w, multios, fd1, fil, out, denied)
    ensures w.goal == v.goal && w.mfds == v.mfds[fd1 := w.mfds[fd1]] && forall f :: f in w.loose ==> Agree(w.os, v.os, f)
  {
    Known(v);
    forall f | f in w.loose ensures Agree(w.os, v.os, f) {
      assert f in v.os && f != fd1 && f != fil;
    }
  }

  lemma SpiltIs(v: View, w: View, leaked0: map<int, File>, leaked1: map<int, File>, fd2: int)
    requires v.Inv() && Spilt(v, w, leaked0, leaked1, fd2)
    ensures leaked1 == leaked0 + LeakOf(v) + StrayOf(v, fd2) && w.loose == v.loose - {fd2}
    ensures w.pipes == v.pipes && w.copiers == v.copiers && forall f :: f in w.loose ==> Agree(w.os, v.os, f)
    ensures fd2 >= 10 && fd2 in v.loose ==> fd2 in v.os && StrayOf(v, fd2) == map[fd2 := v.os[fd2]]
  {
    Known(v);
  }

  lemma GivenIs(v: View, plan: Plan, s: Setup, denied: bool, wreck: bool, given: int)
    requires v.Inv() && Aimed(v, plan, s, {}, denied, wreck) && given in v.loose
    ensures given in v.os && given in s.before && v.os[given] == s.before[given]
  {
    Known(v);
    assert Agree(v.os, s.before, given);
  }

  /** One moment, with what else the account depends on. */
  datatype Moment = Moment(view: View, calls: nat, errflag: bool, leaked: map<int, File>)

  class Redirector {
    /** What the operating system has open, and the shell's own `fdtable`. */
    var os: map<int, File>
    var table: map<int, int>
    var maxFd: int
    const save: array<int>
    const mfds: array<Option<Multio>>
    var coprocin: int
    var coprocout: int
    var errflag: bool
    const multios: bool

    /** Which of its requests for a duplicate, a pipe or a process the system grants, and
        how many there have been. */
    const grants: nat -> bool
    var calls: nat

    /** How many pipes the system has made for redirections: the next one's number. */
    var pipes: nat

    /** The processes that copy streams by now. */
    ghost var copiers: seq<Copier>

    ghost var goal: map<int, File>
    ghost var owner: map<int, Owner>
    ghost var loose: set<int>
    /** What is to be open afterwards as long as all goes well. */
    ghost const start: map<int, File>
    ghost const setup: Setup
    /** For descriptors below 10, the request that first asked for a duplicate. */
    ghost var firsts: map<int, nat>
    /** Descriptors that have been forgotten, so that they stay open for good. */
    ghost var leaked: map<int, File>

    ghost function Now(): View
      reads this, save, mfds
    {
      View(os, table, save[..], mfds[..], goal, owner, loose, pipes, copiers)
    }

    /** Descriptors whose first duplicate the system refused: they cannot be restored. */
    ghost function Lost(): set<int>
      reads `firsts
    {
      LostOf(firsts, grants)
    }

    /** Between these requests one was not granted. */
    ghost predicate Denied(from: nat, to: nat) {
      exists k :: from <= k < to && !grants(k)
    }

    /** `max_bsh_fd` is the last entry of `fdtable` that is in use, or beyond it. */
    ghost predicate TableOk()
      reads `table, `maxFd
    {
      forall fd :: fd in table && table[fd] != FDT_UNUSED ==> fd <= maxFd
    }

    /** Every request for a duplicate has been made. */
    ghost predicate Made()
      reads `firsts, `calls
    {
      forall i :: i in firsts ==> firsts[i] < calls
    }

    /** The goal is what was open at the start, less what is lost, plus what is leaked. */
    ghost predicate Accounted()
      reads `goal, `firsts, `leaked, `calls, save
    {
      && save.Length == 10
      && Account(save[..], goal, start, firsts, leaked, grants)
      && Unasked(save[..], start, firsts)
      && Made()
    }

    /** What the shell's table said of the descriptors of the start above 9 it still says. */
    ghost predicate Shielded()
      reads `table, `coprocin, `coprocout
    {
      && setup.start == start && setup.multios == multios && -1 !in setup.before && -1 !in setup.start
      && (forall f :: f in start && f >= 10 ==> Kind(table, f) == Kind(setup.table, f))
      && (Sane(setup) ==> coprocin == setup.coprocin && coprocout == setup.coprocout)
    }

    /** The shell's table has changed at these descriptors only, or below 10. */
    twostate predicate Spares(except: set<int>)
      reads `table, `coprocin, `coprocout
    {
      && SameAbove(old(table), table, except)
      && (coprocin == old(coprocin) || 0 <= old(coprocin) < 10 || (old(coprocin) >= 10 && old(coprocin) in except))
      && (coprocout == old(coprocout) || 0 <= old(coprocout) < 10 || (old(coprocout) >= 10 && old(coprocout) in except))
    }

    twostate lemma ShieldKept(except: set<int>)
      requires old(Shielded()) && Spares(except) && forall f :: f in except && f >= 10 ==> f !in start
      ensures Shielded()
    {
    }

    /** What is handed out, held or not open is no descriptor of the start. */
    twostate lemma Shields(except: set<int>)
      requires old(Ready()) && Spares(except)
      requires forall f :: f in except && f >= 10 && f in old(os) ==> f in old(loose) || f in old(owner)
      ensures Shielded() && forall f :: f in except && f >= 10 ==> f !in start
    {
      StartHigh(old(Now()), start, old(firsts), old(leaked), grants);
      ShieldKept(except);
    }

    ghost predicate Ready()
      reads this, save, mfds
    {
      save.Length == 10 && mfds.Length == 10 && TableOk() && Now().Inv() && Accounted() && Shielded()
    }

    ghost predicate Valid()
      reads this, save, mfds
    {
      Ready() && Settled(mfds[..], multios)
    }

    ghost function Here(): Moment
      reads this, save, mfds
    {
      Moment(Now(), calls, errflag, leaked)
    }

    /** Everything is as planned, apart from what is in hand; `wreck` once multios have been
        given up. */
    ghost predicate OnAt(m: Moment, plan: Plan, inHand: set<int>, wreck: bool) {
      Aimed(m.view, plan, setup, inHand, Denied(0, m.calls), wreck)
    }

    /** Redirection has come exactly this far. */
    ghost predicate ExactAt(m: Moment, run: Run) {
      !run.stopped && m.errflag == run.wreck && OnAt(m, run.plan, {}, run.wreck) && Files(m.leaked) == run.lost
    }

    /** From one stage to the next. Without errors everything is as planned, unless the system
        denied something that a merge depends on. With nothing denied redirection goes on
        exactly as planned, and fails exactly where the plan does. */
    ghost predicate Turned(m: Moment, n: Moment, run: Run, next: Run, plain: bool, own: bool, ok: bool) {
      && (ok && !n.errflag && Fine(next) && OnAt(m, run.plan, {}, false) && Sane(setup) && (Denied(0, n.calls) ==> plain) ==>
            OnAt(n, next.plan, {}, false))
      && (!Denied(0, n.calls) && own && Sane(setup) && ExactAt(m, run) ==>
            && Files(n.leaked) == next.lost
            && if ok then ExactAt(n, next) else next.stopped)
    }

    /** A file was to be placed: it goes just where the plan says, and fails, with nothing
        denied, just where the plan does. */
    ghost predicate Tried(m: Moment, n: Moment, plan: Plan, inHand: set<int>, wreck: bool, fd1: int, fil: int, out: bool,
                          placed: bool)
    {
      && (OnAt(m, plan, inHand, wreck) && fil in m.view.os ==>
            var next := Put(setup.multios, plan, fd1, out, m.view.os[fil]);
            && (placed && next.Some? ==> OnAt(n, next.value, inHand - {fil}, wreck))
            && (!Denied(0, n.calls) ==> (placed <==> next.Some?)))
      && (!placed && !Denied(m.calls, n.calls) ==> n.leaked == m.leaked + LeakOf(m.view) + StrayOf(m.view, fil))
    }

    /** `zclose`. */
    method ZClose(fd: int)
      requires TableOk()
      modifies `os, `table, `maxFd, `coprocin, `coprocout
      ensures os == (if fd >= 0 then old(os) - {fd} else old(os))
      ensures forall f :: Kind(table, f) == if f == fd && fd >= 0 then FDT_UNUSED else Kind(old(table), f)
      ensures TableOk()
      ensures if 0 <= fd <= old(maxFd) then maxFd <= 0 || Kind(table, maxFd) != FDT_UNUSED else maxFd == old(maxFd)
      ensures coprocin == if 0 <= fd <= old(maxFd) && fd == old(coprocin) then -1 else old(coprocin)
      ensures coprocout == if 0 <= fd <= old(maxFd) && fd == old(coprocout) then -1 else old(coprocout)
    {
      if fd >= 0 {
        if fd <= maxFd {
          table := table - {fd};
          while maxFd > 0 && Kind(table, maxFd) == FDT_UNUSED
            modifies `maxFd
            invariant TableOk()
          {
            maxFd := maxFd - 1;
          }
          if fd == coprocin {
            coprocin := -1;
          }
          if fd == coprocout {
            coprocout := -1;
          }
        }
        os := os - {fd};
      }
    }

    /** `check_fd_table`. */
    method CheckFdTable(fd: int)
      modifies `maxFd
      ensures maxFd == if fd <= old(maxFd) then old(maxFd) else fd
    {
      if fd > maxFd {
        maxFd := fd;
      }
    }

    method MarkSaved(fd: int)
      requires TableOk() && Kind(table, fd) == FDT_INTERNAL
      modifies `table
      ensures forall f :: Kind(table, f) == if f == fd then FDT_INTERNAL + FDT_SAVED_MASK else Kind(old(table), f)
      ensures TableOk() && Spares({fd})
    {
      table := table[fd := FDT_INTERNAL + FDT_SAVED_MASK];
    }

    /** The answer to the next request. */
    method Request() returns (granted: bool)
      modifies `calls
      ensures granted == grants(old(calls)) && calls == old(calls) + 1
    {
      granted := grants(calls);
      calls := calls + 1;
    }

    /** `movefd`: a duplicate above 9 replaces a descriptor below 10. The system may
        refuse it (`refused`); the descriptor is closed all the same. */
    method MoveFd(fd: int) returns (r: int, refused: bool)
      requires TableOk() && fd >= -1 && forall f :: f in os ==> f >= 0
      requires fd >= 10 ==> fd in os
      modifies `os, `table, `maxFd, `coprocin, `coprocout, `calls, `firsts
      ensures var asks := 0 <= fd < 10 && fd in old(os);
              && refused == (asks && !grants(old(calls)))
              && calls == old(calls) + (if asks then 1 else 0)
              && firsts == (if asks then Asked(old(firsts), fd, old(calls)) else old(firsts))
      ensures fd == -1 || (0 <= fd < 10 && (refused || fd !in old(os))) ==> r == -1
      ensures 0 <= fd < 10 && !refused && fd in old(os) ==> r >= 10 && r !in old(os)
      ensures fd >= 10 ==> r == fd
      ensures os == (if r == -1 || r == fd then old(os) else old(os)[r := old(os)[fd]]) - (if 0 <= fd < 10 then {fd} else {})
      ensures forall f :: Kind(table, f) ==
                          if r != -1 && f == r then FDT_INTERNAL
                          else if 0 <= fd < 10 && f == fd then FDT_UNUSED
                          else Kind(old(table), f)
      ensures TableOk() && Spares({r})
    {
      r, refused := fd, false;
      if fd != -1 && fd < 10 {
        var fe := -1;
        if fd in os {
          firsts := Asked(firsts, fd, calls);
          var granted := Request();
          refused := !granted;
          if granted {
            fe := FreeFd(10);
            os := os[fe := os[fd]];
          }
        }
        ZClose(fd);
        r := fe;
      }
      if r != -1 {
        ghost var mid := table;
        CheckFdTable(r);
        table := table[r := FDT_INTERNAL];
        assert forall f :: Kind(table, f) == if f == r then FDT_INTERNAL else Kind(mid, f);
      }
    }

    /** A descriptor of at least `low` that is not open. */
    method FreeFd(low: int) returns (fd: int)
      ensures fd >= low && fd !in os && forall f :: low <= f < fd ==> f in os
    {
      fd := low;
      ghost var left := set f | f in os && f >= low;
      while fd in os
        invariant fd >= low && forall f :: low <= f < fd ==> f in os
        invariant left == set f | f in os && f >= fd
        decreases |left|
      {
        left := left - {fd};
        fd := fd + 1;
      }
    }

    /** `redup`. */
    method ReDup(x: int, y: int)
      requires TableOk() && y >= 0
      modifies `os, `table, `maxFd, `coprocin, `coprocout
      ensures os == (if x < 0 then old(os) - {y}
                     else if x == y then old(os)
                     else if x in old(os) then old(os)[y := old(os)[x]] - {x}
                     else old(os))
      ensures forall fd :: fd != x && fd != y ==> Kind(table, fd) == Kind(old(table), fd)
      ensures TableOk() && Spares({x, y})
    {
      if x < 0 {
        ZClose(y);
      } else if x != y {
        if x in os {
          os := os[y := os[x]];
          CheckFdTable(y);
          table := table[y := Kind(table, x)];
        }
        ZClose(x);
      }
    }

    /** Put `save[fd1]` in order before the descriptor is first replaced by `fd2`. */
    method SaveFd(fd1: int, fd2: int) returns (ok: bool)
      requires Valid() && 0 <= fd1 < 10 && fd2 in loose && (fd1 in loose ==> fd1 == fd2)
      modifies `os, `table, `maxFd, `coprocin, `coprocout, `calls, `firsts, `errflag, `goal, `owner, `leaked, save
      ensures Valid() && (forall i :: 0 <= i < 10 && i != fd1 ==> save[i] == old(save[i]))
      ensures Agree(os, old(os), fd2) && Frame(old(os), os, fd1, fd1)
      ensures forall f :: f in os && f < 10 ==> f in old(os)
      ensures old(calls) <= calls
      ensures ok ==> save[fd1] != UNTOUCHED && goal == old(goal) && leaked == old(leaked) && errflag == old(errflag)
      ensures !ok ==> errflag && GivenUp(fd1, old(goal), old(leaked)) && Denied(old(calls), calls)
    {
      hide View.Inv, View.SaveOk, View.SplitOk, View.OwnerOk, View.HighOk, TableOk, Account, Unasked, Asked, LostOf,
           Settled, Shielded, Spares;
      ok := true;
      ghost var v := Now();
      Known(v);
      if save[fd1] == UNTOUCHED {
        if fd1 == fd2 {
          AccountFree(v, start, firsts, leaked, grants, fd1);
          save[fd1] := -1;
          SaveFree(v, fd1, table, Now());
        } else {
          ok := SaveAbove(fd1);
        }
      }
    }

    /** A descriptor is neither to be restored nor known to be leaked any more. */
    ghost predicate GivenUp(fd: int, goal0: map<int, File>, leaked0: map<int, File>)
      reads `goal, `leaked
    {
      goal == goal0 - {fd} && leaked == leaked0 - {fd}
    }

    method SaveAbove(fd1: int) returns (ok: bool)
      requires Valid() && 0 <= fd1 < 10 && save[fd1] == UNTOUCHED && fd1 !in loose
      modifies `os, `table, `maxFd, `coprocin, `coprocout, `calls, `firsts, `errflag, `goal, `owner, `leaked, save
      ensures Valid() && Frame(old(os), os, fd1, fd1) && (forall i :: 0 <= i < 10 && i != fd1 ==> save[i] == old(save[i]))
      ensures forall f :: f in os && f < 10 ==> f in old(os)
      ensures old(calls) <= calls
      ensures ok ==> save[fd1] != UNTOUCHED && goal == old(goal) && leaked == old(leaked) && errflag == old(errflag)
      ensures !ok ==> errflag && GivenUp(fd1, old(goal), old(leaked)) && Denied(old(calls), calls)
    {
      hide View.Inv, Accounted, Settled, Shielded, TableOk, Frame, Moved;
      ok := true;
      ghost var v, f0, k0 := Now(), firsts, calls;
      var fdN, refused := Detach(fd1);
      if refused {
        LoseMoved(v, fd1, f0, k0);
        errflag := true;
        return false;
      }
      Store(fd1, fdN, v, f0, k0);
    }

    /** `movefd` of a descriptor that is not saved yet. */
    method Detach(fd1: int) returns (fdN: int, refused: bool)
      requires Valid() && 0 <= fd1 < 10 && save[fd1] == UNTOUCHED && fd1 !in loose
      modifies `os, `table, `maxFd, `coprocin, `coprocout, `calls, `firsts
      ensures Moved(old(Now()), fd1, fdN, refused, old(firsts), old(calls))
      ensures refused == (fd1 in old(os) && !grants(old(calls))) && (refused ==> fdN == -1)
      ensures calls == old(calls) + (if fd1 in old(os) then 1 else 0)
      ensures firsts == if fd1 in old(os) then Asked(old(firsts), fd1, old(calls)) else old(firsts)
      ensures Frame(old(os), os, fd1, fd1) && fd1 !in os && forall f :: f in os && f < 10 ==> f in old(os)
    {
      hide View.Inv, View.SaveOk, View.SplitOk, View.OwnerOk, View.HighOk, TableOk, Account, Unasked, Asked, LostOf,
           Settled, Frame, Agree, Shielded, Spares;
      ghost var v := Now();
      Known(v);
      fdN, refused := MoveFd(fd1);
      MovedFrame(v.os, os, fd1, fdN);
      Shields({fdN});
    }

    /** A descriptor that was not saved has been moved above 9, or only closed. */
    ghost predicate Moved(v: View, fd1: int, fdN: int, refused: bool, f0: map<int, nat>, k0: nat)
      reads this, save, mfds
    {
      && v.Inv() && |v.mfds| == 10 && 0 <= fd1 < 10 && v.save[fd1] == UNTOUCHED && fd1 !in v.loose
      && save.Length == mfds.Length == 10 && TableOk() && Shielded() && Settled(v.mfds, multios)
      && Account(v.save, v.goal, start, f0, leaked, grants) && Unasked(v.save, start, f0) && (forall i :: i in f0 ==> f0[i] < k0)
      && (if fd1 in v.os then firsts == Asked(f0, fd1, k0) && calls == k0 + 1 && grants(k0) == !refused
          else firsts == f0 && calls == k0 && !refused)
      && if fd1 in v.os && !refused then
           && fdN >= 10 && fdN !in v.os && fdN !in start && Kind(table, fdN) == FDT_INTERNAL && SameAbove(v.table, table, {fdN})
           && Now() == v.(os := v.os[fdN := v.os[fd1]] - {fd1}, table := table)
         else
           fdN == -1 && SameAbove(v.table, table, {}) && Now() == v.(os := v.os - {fd1}, table := table)
    }

    ghost method LoseMoved(v: View, fd1: int, f0: map<int, nat>, k0: nat)
      requires Moved(v, fd1, -1, true, f0, k0)
      modifies `goal, `leaked
      ensures Valid() && GivenUp(fd1, old(goal), old(leaked))
    {
      hide View.Inv, TableOk, Account, Unasked, Asked, Settled, Shielded, SameAbove;
      assert save[..] == v.save[fd1 := UNTOUCHED];
      Lose(v, fd1, f0, k0, UNTOUCHED);
    }

    /** `save[fd1]` is set, to the duplicate if there was something to duplicate. */
    method Store(fd1: int, fdN: int, ghost v: View, ghost f0: map<int, nat>, ghost k0: nat)
      requires Moved(v, fd1, fdN, false, f0, k0)
      modifies `table, `owner, save
      ensures Valid() && save[fd1] != UNTOUCHED && forall i :: 0 <= i < 10 && i != fd1 ==> save[i] == old(save[i])
    {
      hide View.Inv, View.SaveOk, View.SplitOk, View.OwnerOk, View.HighOk, TableOk, Account, Unasked, Asked, LostOf,
           Settled, Frame, Agree, Shielded, Spares;
      save[fd1] := fdN;
      if fdN < 0 {
        AccountFree(v, start, f0, leaked, grants, fd1);
        assert v.os - {fd1} == v.os;
        SaveFree(v, fd1, table, Now());
      } else {
        MarkSaved(fdN);
        ShieldKept({fdN});
        Keep(v, fd1, fdN, f0, k0);
      }
    }

    /** The duplicate of an open descriptor is kept as the one to restore it from. */
    ghost method Keep(v: View, fd1: int, fdN: int, f0: map<int, nat>, k0: nat)
      requires v.Inv() && |v.mfds| == 10 && 0 <= fd1 < 10 && v.save[fd1] == UNTOUCHED && fd1 in v.os && fd1 !in v.loose
      requires save.Length == mfds.Length == 10 && TableOk() && Shielded() && Settled(v.mfds, multios)
      requires fdN >= 10 && fdN !in v.os && Internal(table, fdN) && SameAbove(v.table, table, {fdN})
      requires Now() == v.(os := v.os[fdN := v.os[fd1]] - {fd1}, table := table, save := v.save[fd1 := fdN])
      requires Account(v.save, v.goal, start, f0, leaked, grants) && Unasked(v.save, start, f0)
      requires (forall i :: i in f0 ==> f0[i] < k0) && firsts == Asked(f0, fd1, k0) && grants(k0) && calls == k0 + 1
      modifies `owner
      ensures Valid() && owner == old(owner)[fdN := Saved(fd1)]
    {
      hide View.Inv, View.SaveOk, View.SplitOk, View.OwnerOk, View.HighOk, TableOk, Account, Unasked, Asked, LostOf,
           Settled, Shielded, Spares;
      owner := owner[fdN := Saved(fd1)];
      AccountSave(v.save, goal, start, f0, leaked, grants, fd1, k0, fdN);
      AskedBelow(f0, fd1, k0);
      SaveStep(v, fd1, fdN, table, Now());
    }

    /** The duplicate of an open descriptor was refused, and it is closed by now. */
    ghost method Lose(v: View, fd1: int, f0: map<int, nat>, k0: nat, x: int)
      requires v.Inv() && |v.mfds| == 10 && 0 <= fd1 < 10 && v.save[fd1] == UNTOUCHED && fd1 !in v.loose
      requires save.Length == mfds.Length == 10 && TableOk() && Shielded() && SameAbove(v.table, table, {}) && Settled(v.mfds, multios)
      requires |v.save| == 10 && (x == UNTOUCHED || x == -1)
      requires Now() == v.(os := v.os - {fd1}, table := table, save := v.save[fd1 := x])
      requires Account(v.save, v.goal, start, f0, leaked, grants) && Unasked(v.save, start, f0)
      requires (forall i :: i in f0 ==> f0[i] < k0) && firsts == Asked(f0, fd1, k0) && !grants(k0) && calls == k0 + 1
      modifies `goal, `leaked
      ensures Valid() && GivenUp(fd1, old(goal), old(leaked))
    {
      hide View.Inv, View.SaveOk, View.SplitOk, View.OwnerOk, View.HighOk, TableOk, Account, Unasked, Asked, LostOf,
           Settled, Shielded, Spares;
      assert v.save[fd1 := UNTOUCHED] == v.save;
      goal, leaked := goal - {fd1}, leaked - {fd1};
      AccountSave(v.save, v.goal, start, f0, old(leaked), grants, fd1, k0, x);
      AskedBelow(f0, fd1, k0);
      SaveClosed(v, fd1, table, save[..], Now());
    }

    /** `closemn`: a multio that is split is handed to a process of its own, which the
        system may fail to start; of one that is not, closing forgets it. */
    method CloseMn(fd: int, closing: bool)
      requires Valid() && fd < 10
      modifies `os, `table, `maxFd, `coprocin, `coprocout, `calls, `copiers, `owner, mfds
      ensures Valid() && old(calls) <= calls && forall f :: f in os ==> f in old(os)
      ensures forall i :: 0 <= i < 10 && i != fd ==> mfds[i] == old(mfds[i])
      ensures fd >= 0 && mfds[fd].Some? ==> mfds[fd].value.fds == [fd]
      ensures HeldApart(old(Now()), fd) ==> Parted(old(Now()), fd, grants(old(calls))) && calls == old(calls) + 1
      ensures !HeldApart(old(Now()), fd) ==>
                && unchanged(`os, `table, `maxFd, `coprocin, `coprocout, `calls, `copiers, `owner)
                && (fd >= 0 ==> mfds[fd] == if closing then None else old(mfds[fd]))
    {
      hide View.Inv, View.SaveOk, View.SplitOk, View.OwnerOk, View.HighOk, TableOk, Accounted, Shielded, Parted;
      if fd >= 0 && mfds[fd].Some? && |mfds[fd].value.fds| >= 2 {
        PassOn(fd);
      } else if fd >= 0 && closing {
        ghost var v := Now();
        if mfds[fd].Some? {
          AgainSettled(fd);
        }
        mfds[fd] := None;
        ForgetStep(v, fd, Now());
      }
    }

    /** A split stream is closed here; the process for it has been started, or not. */
    ghost predicate Parted(v: View, fd: int, started: bool)
      reads this, save, mfds
    {
      && 0 <= fd < 10 == mfds.Length && HeldApart(v, fd)
      && (forall f :: f in v.os && !Holds(v.mfds[fd].value, f) ==> Agree(os, v.os, f))
      && if started then Passed(v, Now(), fd) else mfds[fd] == None && copiers == v.copiers
    }

    method PassOn(fd: int)
      requires Valid() && HeldApart(Now(), fd)
      modifies `os, `table, `maxFd, `coprocin, `coprocout, `calls, `copiers, `owner, mfds
      ensures Valid() && calls == old(calls) + 1 && forall f :: f in os ==> f in old(os)
      ensures forall i :: 0 <= i < 10 && i != fd ==> mfds[i] == old(mfds[i])
      ensures Parted(old(Now()), fd, grants(old(calls))) && (mfds[fd].Some? ==> mfds[fd].value.fds == [fd])
    {
      hide View.Inv, View.SaveOk, View.SplitOk, View.OwnerOk, View.HighOk, TableOk, Accounted, Settled, Agree,
           Targets, Shielded, Handed;
      ghost var v := Now();
      var pid := Request();
      Uncounted();
      if pid {
        copiers := copiers + Handed(v, fd);
        PipesMade(v, pipes, copiers);
        Release(fd, Some(mfds[fd].value.(fds := [fd])));
      } else {
        Release(fd, None);
      }
    }

    /** The descriptors a stream holds are closed. */
    method Release(fd: int, left: Option<Multio>)
      requires Valid() && 0 <= fd < 10 && mfds[fd].Some? && |mfds[fd].value.fds| >= 2
      requires left.Some? ==> left.value.fds == [fd]
      modifies `os, `table, `maxFd, `coprocin, `coprocout, `owner, mfds
      ensures Valid() && forall f :: f in os ==> f in old(os)
      ensures mfds[..] == old(mfds[..])[fd := left]
      ensures forall f :: f in old(os) && !Holds(old(mfds[fd]).value, f) ==> Agree(os, old(os), f)
    {
      hide View.Inv, View.SaveOk, View.SplitOk, View.OwnerOk, View.HighOk, TableOk, Accounted, Settled, Agree,
           Targets, Shielded, Spares;
      ghost var v := Now();
      KnownSplit(v, fd);
      ghost var gone := CloseAll(mfds[fd].value);
      GoneOnly(v.os, gone, mfds[fd].value);
      forall f | f in gone && f >= 10 && f in v.os ensures f in v.owner {
        HeldOnce(v, fd, f);
      }
      Shields(gone);
      mfds[fd] := left;
      owner := owner - gone;
      Released(v, fd, gone);
      SettledSet(v.mfds, mfds[..], multios, fd);
    }

    /** What a multio held is closed by now. */
    lemma Released(v: View, i: int, gone: set<int>)
      requires v.Inv() && 0 <= i < 10 && v.mfds[i].Some? && save.Length == mfds.Length == 10
      requires forall fd :: fd in gone <==> fd >= 0 && Holds(v.mfds[i].value, fd)
      requires SameAbove(v.table, table, gone) && (mfds[i].Some? ==> mfds[i].value.fds == [i])
      requires loose == v.loose - gone || (loose == v.loose && v.mfds[i].value.fds != [i])
      requires Now() == v.(os := v.os - gone, table := table, mfds := v.mfds[i := mfds[i]], owner := v.owner - gone,
                           loose := loose)
      ensures Now().Inv()
    {
      hide View.Inv, View.SaveOk, View.SplitOk, View.OwnerOk, View.HighOk;
      ShutStep(v, i, gone, mfds[i], table, Now().(loose := v.loose - gone));
    }

    /** Requests that ask for no duplicate make no difference. */
    twostate lemma Uncounted()
      requires old(Accounted()) && old(calls) <= calls
      requires save[..] == old(save[..]) && goal == old(goal) && firsts == old(firsts) && leaked == old(leaked)
      ensures Accounted()
    {
    }

    lemma AgainSettled(i: int)
      requires Valid() && 0 <= i < 10 && mfds[i].Some?
      ensures mfds[i].value.fds == [i] || (multios && |mfds[i].value.fds| >= 2)
    {
    }

    /** Close what a split multio holds. */
    method CloseAll(mn: Multio) returns (ghost gone: set<int>)
      requires TableOk()
      modifies `os, `table, `maxFd, `coprocin, `coprocout
      ensures forall f :: f in gone <==> f >= 0 && (f in mn.fds || f == mn.pipe)
      ensures os == old(os) - gone && SameAbove(old(table), table, gone) && TableOk() && Spares(gone)
    {
      gone := {};
      var j := 0;
      while j < |mn.fds|
        invariant 0 <= j <= |mn.fds|
        invariant forall f :: f in gone <==> f >= 0 && f in mn.fds[..j]
        invariant os == old(os) - gone && SameAbove(old(table), table, gone) && TableOk() && Spares(gone)
      {
        ZClose(mn.fds[j]);
        gone := gone + if mn.fds[j] >= 0 then {mn.fds[j]} else {};
        j := j + 1;
      }
      ZClose(mn.pipe);
      gone := gone + if mn.pipe >= 0 then {mn.pipe} else {};
    }

    /** `closemnodes`, after a failure. The pipe of a stream that was split is not
        closed: it stays open for good. */
    method CloseMnodes()
      requires Ready()
      modifies `os, `table, `maxFd, `coprocin, `coprocout, `owner, `loose, `goal, `leaked, mfds
      ensures Valid() && NoStreams() && leaked == old(leaked) + LeakOf(old(Now()))
      ensures loose <= old(loose) && forall f :: f in old(loose) && Pinned(save[..], f) ==> f in loose && Agree(os, old(os), f)
    {
      hide View.Inv, View.SaveOk, View.SplitOk, View.OwnerOk, View.HighOk, TableOk, Accounted, Shielded, LeakOf;
      ghost var v := Now();
      var i := 0;
      while i < 10
        invariant 0 <= i <= 10
        invariant Ready() && (forall j :: 0 <= j < i ==> mfds[j] == None)
        invariant leaked + LeakOf(Now()) == old(leaked) + LeakOf(v)
        invariant loose <= old(loose) && forall f :: f in old(loose) && Pinned(save[..], f) ==> f in loose && Agree(os, old(os), f)
      {
        ghost var mid := os;
        if mfds[i].Some? {
          CloseNode(i);
        }
        assert forall f :: f in old(loose) && Pinned(save[..], f) ==> Agree(os, mid, f);
        i := i + 1;
      }
      NoLeak();
    }

    ghost predicate NoStreams()
      reads mfds
    {
      forall i :: 0 <= i < mfds.Length ==> mfds[i] == None
    }

    lemma NoLeak()
      requires NoStreams()
      ensures LeakOf(Now()) == map[] && PipeSet(mfds[..]) == {}
    {
      assert PipeSet(mfds[..]) == {};
    }

    method CloseNode(i: int)
      requires Ready() && 0 <= i < 10 && mfds[i].Some?
      modifies `os, `table, `maxFd, `coprocin, `coprocout, `owner, `loose, `goal, `leaked, mfds
      ensures Ready() && mfds[..] == old(mfds[..])[i := None]
      ensures leaked + LeakOf(Now()) == old(leaked) + LeakOf(old(Now()))
      ensures loose <= old(loose) && forall f :: f in old(loose) && Pinned(save[..], f) ==> f in loose && Agree(os, old(os), f)
    {
      hide View.Inv, TableOk, Accounted, Shielded, Spares, LeakOf, Agree, Pinned, PipeSet, PipeAt, Settled, Denied,
           Internal, SameAbove, Frame, HasPipe, FileAt;
      var m := mfds[i].value;
      ghost var v := Now();
      ghost var v' := LeakPipe(i);
      KnownSplit(v', i);
      ghost var gone := CloseAll(m.(pipe := -1));
      NodeShut(v, i, gone);
      Shields(gone);
      Forget(i, v', gone);
      NodeLeak(v, Now(), i, old(leaked));
    }

    /** The multio is gone, and so is what it held. */
    method Forget(i: int, ghost v': View, ghost gone: set<int>)
      requires save.Length == mfds.Length == 10 && TableOk() && Accounted() && Shielded()
      requires v'.Inv() && 0 <= i < 10 && v'.mfds == mfds[..][i := v'.mfds[i]] && v'.mfds[i].Some?
      requires forall fd :: fd in gone <==> fd >= 0 && Holds(v'.mfds[i].value, fd)
      requires SameAbove(v'.table, table, gone) && Now() == v'.(os := v'.os - gone, table := table, mfds := mfds[..])
      modifies `owner, `loose, mfds
      ensures Ready() && mfds[..] == old(mfds[..])[i := None] && loose == old(loose) - gone
    {
      hide View.Inv, View.SaveOk, View.SplitOk, View.OwnerOk, View.HighOk, TableOk, Accounted, Shielded, SameAbove, Holds;
      mfds[i] := None;
      owner, loose := owner - gone, loose - gone;
      Released(v', i, gone);
    }

    /** The pipe of a stream is not closed with it. */
    ghost method LeakPipe(i: int) returns (v': View)
      requires Ready() && 0 <= i < 10 && mfds[i].Some?
      modifies `goal, `leaked, `owner
      ensures Accounted() && v'.Inv() && leaked == old(leaked) + PipeAt(os, mfds[i])
      ensures v'.mfds[i].Some? && v'.mfds[i].value.fds == mfds[i].value.fds
      ensures |mfds[i].value.fds| >= 2 ==> v'.mfds[i].value.pipe == -1
      ensures v'.(mfds := mfds[..]) == Now() && v'.mfds == mfds[..][i := v'.mfds[i]]
    {
      hide View.Inv, View.SaveOk, View.SplitOk, View.OwnerOk, View.HighOk, TableOk, Accounted, Shielded;
      var v := Now();
      KnownSplit(v, i);
      v' := v;
      var m := mfds[i].value;
      if |m.fds| >= 2 && m.pipe != -1 {
        Leak(m.pipe);
        owner := owner - {m.pipe};
        v' := v.(goal := goal, owner := owner, mfds := v.mfds[i := Some(m.(pipe := -1))]);
        PipeLeakStep(v, i, v');
      }
    }

    /** A descriptor that nothing was to restore will not be closed by anyone. */
    ghost method Leak(fd: int)
      requires Accounted() && fd in os && fd !in goal
      modifies `goal, `leaked
      ensures Accounted() && goal == old(goal)[fd := os[fd]] && leaked == old(leaked)[fd := os[fd]]
    {
      goal, leaked := goal[fd := os[fd]], leaked[fd := os[fd]];
      assert goal == (start - LostOf(firsts, grants)) + leaked;
    }

    /** `fixfds`. */
    method FixFds()
      requires Valid() && forall i :: 0 <= i < 10 && mfds[i].Some? ==> mfds[i].value.fds == [i]
      requires forall f :: f in loose ==> f >= 10
      modifies `os, `table, `maxFd, `coprocin, `coprocout
      ensures Restored()
    {
      hide View.Inv, View.SaveOk, View.SplitOk, View.OwnerOk, View.HighOk, TableOk, Accounted, Shielded, Spares;
      ghost var v := Now();
      var i := 0;
      while i < 10
        invariant 0 <= i <= 10
        invariant TableOk() && |v.save| == |v.mfds| == 10
        invariant v.Inv() && v.os == os && v.table == table && v.goal == goal && v.loose == loose
        invariant forall j :: i <= j < 10 ==> v.save[j] == save[j] && v.mfds[j] == mfds[j]
        invariant forall j :: 0 <= j < i ==> v.save[j] == UNTOUCHED
      {
        if save[i] != UNTOUCHED {
          Known(v);
          ReDup(save[i], i);
          ghost var v' := v.(os := os, table := table, save := v.save[i := UNTOUCHED], mfds := v.mfds[i := None],
                             owner := v.owner - {save[i]});
          RestoreStep(v, i, table, v');
          v := v';
        }
        i := i + 1;
      }
      AllRestored(v);
      Known(v);
      NoNegative(v);
    }

    /** Every descriptor that is not still to be placed is what it is meant to be. */
    ghost predicate Restored()
      reads this
    {
      && (forall fd :: fd in os ==> fd >= 0)
      && (forall fd :: fd >= 0 && fd !in loose ==> Agree(os, goal, fd))
      && (forall fd :: fd in loose ==> fd in os && fd !in goal)
      && forall fd :: fd in goal ==> fd >= 0
    }

    /** `movefd` with what matters of it to a stream being split. */
    method Raise(fd: int) returns (r: int)
      requires TableOk() && Made() && 0 <= fd && (fd >= 10 ==> fd in os) && forall f :: f in os ==> f >= 0
      modifies `os, `table, `maxFd, `coprocin, `coprocout, `calls, `firsts
      ensures TableOk() && Made() && (forall f :: f in os ==> f >= 0) && r >= -1
      ensures r == -1 ==> fd < 10 && (fd in old(os) ==> Denied(old(calls), calls))
      ensures fd < 10 && fd !in old(os) ==> r == -1
      ensures r == -1 ==> os == old(os) - {fd}
      ensures r != -1 ==>
                && r >= 10 && Internal(table, r) && fd in old(os) && (r == fd >= 10 || (fd < 10 && r !in old(os)))
                && os == if r == fd then old(os) else old(os)[r := old(os)[fd]] - {fd}
      ensures SameAbove(old(table), table, {r}) && Spares({r})
      ensures old(calls) <= calls && Later(old(firsts), firsts)
      ensures forall i :: i in firsts && i !in old(firsts) ==> i == fd < 10
    {
      hide Asked, TableOk;
      AskedBelow(firsts, fd, calls);
      AskedLater(firsts, fd, calls);
      var refused;
      r, refused := MoveFd(fd);
    }

    /** `mpipe`: both ends above 9, or -1 where the system refuses. */
    method MPipe() returns (ok: bool, reader: int, writer: int)
      requires TableOk() && Made() && (forall f :: f in os ==> f >= 0)
      modifies `os, `table, `maxFd, `coprocin, `coprocout, `calls, `firsts, `pipes
      ensures TableOk() && Made() && forall f :: f in os ==> f >= 0
      ensures !ok ==> os == old(os) && table == old(table) && reader == writer == -1
      ensures pipes == old(pipes) + if ok then 1 else 0
      ensures EndsMade(old(os), os, table, old(pipes), reader, writer)
      ensures !ok || reader == -1 || writer == -1 ==> Denied(old(calls), calls)
      ensures SameAbove(old(table), table, {reader, writer}) && Spares({reader, writer})
      ensures old(calls) <= calls && Later(old(firsts), firsts)
      ensures forall i :: i in firsts && i !in old(firsts) ==> 0 <= i < 10 && i !in old(os)
    {
      hide TableOk;
      reader, writer := -1, -1;
      ok := Request();
      if !ok {
        return;
      }
      var a, b := NewPipe();
      reader := Raise(a);
      ghost var mid := os;
      writer := Raise(b);
      forall f | f != reader && f != writer ensures Agree(os, old(os), f) {
        assert f != a && f != b ==> Agree(mid, old(os), f);
      }
    }

    /** `pipe`: the two lowest descriptors that are free. */
    method NewPipe() returns (reader: int, writer: int)
      modifies `os, `pipes
      ensures reader >= 0 && writer >= 0 && reader !in old(os) && writer !in old(os) && reader != writer
      ensures os == old(os)[reader := End(old(pipes), false)][writer := End(old(pipes), true)] && pipes == old(pipes) + 1
    {
      reader := FreeFd(0);
      os := os[reader := End(pipes, false)];
      writer := FreeFd(0);
      os := os[writer := End(pipes, true)];
      pipes := pipes + 1;
    }

    /** Requests for descriptors that were not open at the start, or have been asked for. */
    twostate lemma Elsewhere()
      requires old(Ready()) && save.Length == 10 && save[..] == old(save[..]) && goal == old(goal) && leaked == old(leaked)
      requires Later(old(firsts), firsts) && Made()
      requires forall i :: i in firsts && i !in old(firsts) ==>
                 0 <= i < 10 && (i !in old(os) || i in old(loose) || old(save[i]) != UNTOUCHED)
      ensures Accounted()
    {
      forall i | i in firsts && i !in old(firsts)
        ensures i !in start
      {
        if i in start {
          AskedBefore(old(Now()), start, old(firsts), leaked, grants, i);
        }
      }
      AccountGrow(save[..], goal, start, old(firsts), firsts, leaked, grants);
    }

    lemma AllMade()
      requires Accounted()
      ensures Made()
    {
    }

    /** `movefd` of a descriptor that is to be placed or will be restored. */
    method MoveLoose(fd: int) returns (r: int)
      requires Ready()
      requires fd in loose || (0 <= fd < 10 && save[fd] != UNTOUCHED)
      modifies `os, `table, `maxFd, `coprocin, `coprocout, `calls, `firsts, `loose
      ensures Ready() && r >= -1
      ensures r == -1 ==> loose == old(loose) - {fd} && os == old(os) - {fd} && (fd in old(os) ==> Denied(old(calls), calls))
      ensures 0 <= fd < 10 ==> fd !in os && (fd !in old(os) ==> r == -1)
      ensures fd >= 10 ==> r == fd
      ensures forall f :: f in os && f < 10 ==> f in old(os)
      ensures r != -1 ==> loose == old(loose) - {fd} + {r} && r >= 10 && Internal(table, r) && r in os && (r == fd || r !in old(os))
      ensures SameAbove(old(table), table, {r})
      ensures forall f :: f != fd && f != r ==> Agree(os, old(os), f)
      ensures r != -1 ==> FileAt(os, r) == FileAt(old(os), fd)
      ensures Frame(old(os), os, fd, fd) && old(calls) <= calls
    {
      hide View.Inv, TableOk, Accounted, Shielded, Denied, SameAbove, Internal, Frame, Agree, FileAt;
      ghost var v := Now();
      Known(v);
      r := MoveOut(fd);
      RaisedFrame(v.os, os, fd, r);
      loose := loose - {fd} + if r == -1 then {} else {r};
      RaiseStep(v, Now(), fd, r);
    }

    /** The same before it is said what is to be placed. */
    method MoveOut(fd: int) returns (r: int)
      requires Ready()
      requires fd in loose || (0 <= fd < 10 && save[fd] != UNTOUCHED)
      modifies `os, `table, `maxFd, `coprocin, `coprocout, `calls, `firsts
      ensures TableOk() && Accounted() && Shielded() && fd >= 0 && r >= -1 && old(calls) <= calls
      ensures r == -1 ==> fd < 10 && os == old(os) - {fd} && (fd in old(os) ==> Denied(old(calls), calls))
      ensures fd < 10 && fd !in old(os) ==> r == -1
      ensures r != -1 ==>
                && r >= 10 && Internal(table, r) && fd in old(os) && (r == fd >= 10 || (fd < 10 && r !in old(os)))
                && os == if r == fd then old(os) else old(os)[r := old(os)[fd]] - {fd}
      ensures SameAbove(old(table), table, {r})
    {
      hide View.Inv, TableOk, Accounted, Shielded, Spares, Denied, SameAbove, Internal;
      Known(Now());
      AllMade();
      r := Raise(fd);
      Shields({r});
      Elsewhere();
    }

    /** `mpipe`, its ends to be placed. */
    method LoosePipe() returns (ok: bool, reader: int, writer: int)
      requires Ready()
      modifies `os, `table, `maxFd, `coprocin, `coprocout, `calls, `firsts, `loose, `pipes
      ensures Ready()
      ensures pipes == old(pipes) + if ok then 1 else 0
      ensures EndsMade(old(os), os, table, old(pipes), reader, writer)
      ensures !ok || reader == -1 || writer == -1 ==> Denied(old(calls), calls)
      ensures !ok ==> reader == writer == -1 && os == old(os)
      ensures loose == old(loose) + ({reader, writer} - {-1})
      ensures SameAbove(old(table), table, {reader, writer}) && old(calls) <= calls
    {
      hide View.Inv, TableOk, Accounted, Shielded, Denied, SameAbove, EndsMade;
      ghost var v := Now();
      ok, reader, writer := OpenPipe();
      EndsNew(v.os, os, table, v.pipes, reader, writer);
      loose := loose + ({reader, writer} - {-1});
      PipeStep(v, Now(), reader, writer);
    }

    /** The same before the ends are counted among what is to be placed. */
    method OpenPipe() returns (ok: bool, reader: int, writer: int)
      requires Ready()
      modifies `os, `table, `maxFd, `coprocin, `coprocout, `calls, `firsts, `pipes
      ensures TableOk() && Accounted() && Shielded() && forall f :: f in os ==> f >= 0
      ensures pipes == old(pipes) + if ok then 1 else 0
      ensures EndsMade(old(os), os, table, old(pipes), reader, writer)
      ensures !ok || reader == -1 || writer == -1 ==> Denied(old(calls), calls)
      ensures !ok ==> reader == writer == -1 && os == old(os)
      ensures SameAbove(old(table), table, {reader, writer}) && old(calls) <= calls
    {
      hide View.Inv, TableOk, Accounted, Shielded, Spares, Denied, SameAbove, EndsMade;
      Known(Now());
      AllMade();
      ok, reader, writer := MPipe();
      EndsNew(old(os), os, table, old(pipes), reader, writer);
      Shields({reader, writer});
      Elsewhere();
    }

    /** `redup` of a descriptor to be placed onto one that will be restored. */
    method ReDupLoose(x: int, fd1: int)
      requires Ready()
      requires (x == -1 || x in loose) && 0 <= fd1 < 10 && save[fd1] != UNTOUCHED && fd1 !in loose
      modifies `os, `table, `maxFd, `coprocin, `coprocout, `loose
      ensures Ready() && loose == old(loose) - {x} && SameAbove(old(table), table, {x})
      ensures forall f :: f != x && f != fd1 ==> Agree(os, old(os), f)
      ensures FileAt(os, fd1) == if x == -1 then None else FileAt(old(os), x)
    {
      hide View.Inv, View.SaveOk, View.SplitOk, View.OwnerOk, View.HighOk, TableOk, Accounted, Shielded, Spares;
      ghost var v := Now();
      Known(v);
      ReDup(x, fd1);
      Shields({x, fd1});
      loose := loose - {x};
      Shuffle(v, Now());
    }

    /** `mpipe` for a stream being split, and one end put in the stream's place. */
    method PipeInto(fd1: int, out: bool) returns (ok: bool, pipe: int)
      requires Ready()
      requires 0 <= fd1 < 10 && save[fd1] != UNTOUCHED && fd1 !in loose
      modifies `os, `table, `maxFd, `coprocin, `coprocout, `calls, `firsts, `loose, `pipes
      ensures Ready()
      ensures pipes == old(pipes) + if ok then 1 else 0
      ensures ok && pipe != -1 ==> FileAt(os, pipe) == Some(End(old(pipes), !out))
      ensures ok && fd1 in os ==> os[fd1] == End(old(pipes), out)
      ensures ok && !Denied(old(calls), calls) ==> fd1 in os
      ensures ok ==> loose == old(loose) + ({pipe} - {-1})
      ensures ok && pipe != -1 ==> pipe >= 10 && pipe !in old(os) && pipe !in old(loose) && Internal(table, pipe)
      ensures !ok ==> loose == old(loose)
      ensures !ok || pipe == -1 ==> Denied(old(calls), calls)
      ensures forall f :: f >= 10 && f in old(os) ==> Kind(table, f) == Kind(old(table), f)
      ensures Frame(old(os), os, fd1, fd1) && old(calls) <= calls
      ensures forall f :: f in os && f < 10 ==> f in old(os) || f == fd1
    {
      hide View.Inv, TableOk, Accounted, Shielded, Spares, Settled, Denied, Pinned, Frame, Agree, EndsMade;
      ghost var was, n := os, pipes;
      Known(Now());
      var reader, writer;
      ok, reader, writer := LoosePipe();
      EndsNew(was, os, table, n, reader, writer);
      if !ok {
        SameFrame(was, os, fd1);
        return false, -1;
      }
      pipe := if out then reader else writer;
      ghost var mid, t := os, table;
      ReDupLoose(if out then writer else reader, fd1);
      EndPut(was, mid, os, t, n, reader, writer, out, fd1);
      Known(Now());
    }

    /** A multio takes over loose descriptors. */
    method Hold(i: int, fds: seq<int>, pipe: int, ghost more: set<int>)
      requires Ready() && 0 <= i < 10 && mfds[i].Some?
      requires var was := mfds[i].value;
               || was.fds == [i]
               || ((forall fd :: fd in was.fds ==> fd in fds) && |was.fds| <= |fds| && (|was.fds| >= 2 ==> pipe == was.pipe))
      requires fds != [] && (|fds| == 1 ==> |mfds[i].value.fds| == 1)
      requires more <= loose && (forall fd :: fd in more ==> fd >= 10 && Internal(table, fd))
      requires forall fd :: fd in more ==> fd in fds || (|fds| >= 2 && fd == pipe)
      requires forall fd :: fd in fds ==> fd in more || (fd in mfds[i].value.fds && fd >= 10)
      requires |fds| >= 2 ==> pipe in more || pipe == -1 || (|mfds[i].value.fds| >= 2 && pipe == mfds[i].value.pipe)
      requires |fds| >= 2 ==> pipe !in fds && pipe != i
      modifies `owner, `loose, mfds
      ensures Ready() && loose == old(loose) - more
      ensures mfds[..] == old(mfds[..])[i := Some(Multio(old(mfds[i]).value.out, pipe, fds))]
    {
      hide View.Inv, View.SaveOk, View.SplitOk, View.OwnerOk, View.HighOk, TableOk, Accounted, Settled, Agree,
           Targets;
      ghost var v := Now();
      var m := mfds[i].value.(fds := fds, pipe := pipe);
      mfds[i] := Some(m);
      owner := map fd | fd in owner.Keys + more :: if fd in more then Split(i) else owner[fd];
      loose := loose - more;
      HoldMore(v, i, m, more, owner, Now());
    }

    /** `zerr`, then `closemnodes`: what is loose besides stays open for good. */
    method Fail(fd: int)
      requires Ready()
      requires forall f :: f in loose && f < 10 ==> f == fd
      modifies `os, `table, `maxFd, `coprocin, `coprocout, `owner, `loose, `goal, `leaked, `errflag, mfds
      ensures Valid() && errflag && NoStreams()
      ensures loose == old(loose) - {fd} && Spilt(old(Now()), Now(), old(leaked), leaked, fd)
      ensures var pipes := old(leaked).Keys + PipeSet(old(mfds[..])); pipes <= leaked.Keys <= pipes + {fd}
    {
      hide View.Inv, View.SaveOk, View.SplitOk, View.OwnerOk, View.HighOk, TableOk, Accounted, Settled, Shielded, LeakOf;
      errflag := true;
      ghost var v := Now();
      LeakKeys(v);
      CloseMnodes();
      ghost var mid := Now();
      LooseStay(v, mid, fd);
      Abandon(fd);
    }

    /** What is loose stays so, apart from what will be restored over. */
    lemma LooseStay(v: View, mid: View, fd: int)
      requires mid.loose <= v.loose && mid.save == v.save && forall f :: f in v.loose && f < 10 ==> f == fd
      requires forall f :: f in v.loose && Pinned(v.save, f) ==> f in mid.loose && Agree(mid.os, v.os, f)
      ensures mid.loose - {fd} == v.loose - {fd} && StrayOf(mid, fd) == StrayOf(v, fd)
      ensures forall f :: f in mid.loose - {fd} ==> Agree(mid.os, v.os, f)
    {
      forall f | f != fd
        ensures f in mid.loose <==> f in v.loose
      {
        assert f in v.loose ==> Pinned(v.save, f);
      }
      assert mid.loose - {fd} == v.loose - {fd};
      assert Pinned(v.save, fd) && fd in v.loose ==> Agree(mid.os, v.os, fd);
    }

    /** The same, seen from before something that could not be moved was tried. */
    method FailSince(fd: int, ghost v: View, ghost same: bool)
      requires Ready() && forall f :: f in loose && f < 10 ==> f == fd
      requires v.mfds == mfds[..] && v.save == save[..] && pipes == v.pipes && copiers == v.copiers
      requires same ==> os == v.os && loose == v.loose
      modifies `os, `table, `maxFd, `coprocin, `coprocout, `owner, `loose, `goal, `leaked, `errflag, mfds
      ensures Valid() && errflag && NoStreams() && loose == old(loose) - {fd}
      ensures Left(leaked, old(leaked), v.mfds, v.os, fd) && (same ==> Spilt(v, Now(), old(leaked), leaked, fd))
    {
      hide View.Inv, TableOk, Accounted, Settled, Left, Shielded, Spilt, PipeSet;
      ghost var mid := Now();
      Fail(fd);
      LeftAtOnce(leaked, old(leaked), v.mfds, v.os, fd);
      if same {
        SpiltSame(v, mid, Now(), old(leaked), leaked, fd);
      }
    }

    /** A descriptor that was to be placed is forgotten. */
    ghost method Abandon(fd: int)
      requires Ready()
      modifies `loose, `goal, `leaked
      ensures Ready() && loose == old(loose) - {fd} && leaked == old(leaked) + StrayOf(old(Now()), fd)
    {
      hide View.Inv, View.SaveOk, View.SplitOk, View.OwnerOk, View.HighOk, TableOk, Accounted, Settled, Shielded;
      var v := Now();
      Known(v);
      if fd in loose {
        if Pinned(save[..], fd) {
          Leak(fd);
        }
        loose := loose - {fd};
        LeakStep(v, fd, Now());
      }
    }

    /** The branch of `addfd` for a stream redirected a second time. */
    method SplitStream(fd1: int, fd2: int, out: bool)
      requires Valid() && 0 <= fd1 < 10 && mfds[fd1].Some? && mfds[fd1].value.fds == [fd1] && fd2 in loose && multios
      requires mfds[fd1].value.out == out
      requires forall f :: f in loose && f < 10 ==> f == fd2
      modifies `os, `table, `maxFd, `coprocin, `coprocout, `calls, `firsts, `owner, `loose, `goal, `leaked,
               `errflag, `pipes, mfds
      ensures Valid() && loose == old(loose) - {fd2} && old(calls) <= calls
      ensures mfds[fd1].Some? ==>
                && leaked == old(leaked) && errflag == old(errflag) && fd1 in old(os)
                && SplitBy(old(Now()), Now(), fd1, fd2, FileAt(old(os), fd1), Denied(0, calls))
                && (mfds[fd1].value.pipe != -1 || Denied(old(calls), calls))
      ensures mfds[fd1] == None ==>
                && errflag && NoStreams() && Left(leaked, old(leaked), old(mfds[..]), old(os), fd2)
                && (fd1 !in old(os) || fd1 == fd2 || Denied(old(calls), calls))
      ensures mfds[fd1] == None && !Denied(old(calls), calls) ==> Spilt(old(Now()), Now(), old(leaked), leaked, fd2)
    {
      hide View.Inv, TableOk, Accounted, Settled, SettledBut, Left, SplitBy, Shielded, Spilt, Spares, Internal,
           SameAbove, Pinned, Frame, Agree, PipeSet, Holds, LeakOf, FileAt;
      ghost var v := Now();
      KnownSplit(v, fd1);
      Known(v);
      var fdN := LiftStream(fd1);
      if fdN < 0 {
        assert fd1 !in v.os ==> v.os - {fd1} == v.os && v.loose - {fd1} == v.loose;
        FailSince(fd2, v, fd1 !in v.os);
        return;
      }
      ghost var mid := Now();
      SamePipes(v.mfds, mid.mfds, fd1);
      SettledOthers(v.mfds, mid.mfds, multios, fd1);
      SplitSecond(fd1, fd2, out, fdN);
      if mfds[fd1].Some? {
        SplitFrom(v, mid, Now(), fd1, fd2, fdN, Denied(0, calls));
      } else {
        LeftBefore(leaked, old(leaked), v.mfds, mid.mfds, v.os, mid.os, fd1, fd2, fd2);
        if !Denied(old(calls), calls) {
          SpiltLifted(v, mid, Now(), old(leaked), leaked, fd1);
        }
      }
    }

    /** The stream itself goes above 9. */
    method LiftStream(fd1: int) returns (fdN: int)
      requires Ready() && 0 <= fd1 < 10 && mfds[fd1].Some? && mfds[fd1].value.fds == [fd1]
      modifies `os, `table, `maxFd, `coprocin, `coprocout, `calls, `firsts, `owner, `loose, mfds
      ensures Ready() && old(calls) <= calls && loose == old(loose) - {fd1} && fd1 !in os
      ensures fdN < 0 ==> mfds[..] == old(mfds[..]) && os == old(os) - {fd1} && (fd1 in old(os) ==> Denied(old(calls), calls))
      ensures fdN >= 0 ==>
                && mfds[..] == old(mfds[..])[fd1 := Some(old(mfds[fd1]).value.(fds := [fdN]))]
                && fdN >= 10 && fd1 in old(os) && FileAt(os, fdN) == FileAt(old(os), fd1)
      ensures Frame(old(os), os, fd1, fd1) && forall f :: f in os && f < 10 ==> f in old(os)
    {
      hide View.Inv, View.SaveOk, View.SplitOk, View.OwnerOk, View.HighOk, TableOk, Accounted;
      KnownSplit(Now(), fd1);
      Known(Now());
      fdN := MoveLoose(fd1);
      if fdN >= 0 {
        Hold(fd1, [fdN], mfds[fd1].value.pipe, {fdN});
      }
    }

    /** `movefd` of the file to be joined, or failure. */
    method MoveOrFail(fd2: int) returns (r: int)
      requires Ready() && (fd2 in loose || (0 <= fd2 < 10 && save[fd2] != UNTOUCHED))
      requires forall f :: f in loose && f < 10 ==> f == fd2
      modifies `os, `table, `maxFd, `coprocin, `coprocout, `calls, `firsts, `owner, `loose, `goal, `leaked,
               `errflag, mfds
      ensures Ready() && old(calls) <= calls && r >= -1
      ensures r != -1 ==>
                && unchanged(`owner, `goal, `leaked, `errflag) && mfds[..] == old(mfds[..]) && (fd2 >= 10 ==> r == fd2)
                && loose == old(loose) - {fd2} + {r} && r >= 10 && Internal(table, r) && r in os && (r == fd2 || r !in old(os))
                && FileAt(os, r) == FileAt(old(os), fd2) && Frame(old(os), os, fd2, fd2)
                && (fd2 < 10 ==> fd2 !in os) && fd2 in old(os) && (forall f :: f in os && f < 10 ==> f in old(os))
                && (forall f :: f != fd2 && f != r ==> Agree(os, old(os), f))
      ensures r == -1 ==>
                && Valid() && loose == old(loose) - {fd2} && errflag && NoStreams()
                && Left(leaked, old(leaked), old(mfds[..]), old(os), fd2) && (fd2 !in old(os) || Denied(old(calls), calls))
                && (!Denied(old(calls), calls) ==> Spilt(old(Now()), Now(), old(leaked), leaked, fd2))
    {
      hide View.Inv, TableOk, Accounted, Settled, Left, Shielded, Spilt, Spares, Internal, SameAbove, Pinned, Frame, LeakOf,
           StrayOf, PipeSet;
      ghost var v := Now();
      Known(v);
      r := MoveLoose(fd2);
      if r < 0 {
        assert fd2 !in v.os ==> v.os - {fd2} == v.os && v.loose - {fd2} == v.loose;
        FailSince(fd2, v, fd2 !in v.os);
      }
    }

    /** The rest of it: the stream itself is at `fdN`. */
    method SplitSecond(fd1: int, fd2: int, out: bool, fdN: int)
      requires Ready() && multios && SettledBut(mfds[..], fd1)
      requires 0 <= fd1 < 10 && mfds[fd1].Some? && mfds[fd1].value.fds == [fdN] && fdN >= 10 && fd1 !in loose && fd1 !in os
      requires mfds[fd1].value.out == out
      requires fd2 in loose || fd2 == fd1
      requires forall f :: f in loose && f < 10 ==> f == fd2
      modifies `os, `table, `maxFd, `coprocin, `coprocout, `calls, `firsts, `owner, `loose, `goal, `leaked,
               `errflag, `pipes, mfds
      ensures Valid() && loose == old(loose) - {fd2} && old(calls) <= calls
      ensures mfds[fd1].Some? ==>
                && leaked == old(leaked) && errflag == old(errflag)
                && SplitBy(old(Now()), Now(), fd1, fd2, FileAt(old(os), fdN), Denied(0, calls))
                && (mfds[fd1].value.pipe != -1 || Denied(old(calls), calls))
      ensures mfds[fd1] == None ==>
                && errflag && NoStreams() && Left(leaked, old(leaked), old(mfds[..]), old(os), fd2)
                && (fd1 == fd2 || Denied(old(calls), calls))
      ensures mfds[fd1] == None && !Denied(old(calls), calls) ==> Spilt(old(Now()), Now(), old(leaked), leaked, fd2)
    {
      hide View.Inv, TableOk, Accounted, Settled, SettledBut, Left, SplitBy, Shielded, Spilt, Spares, Internal,
           SameAbove, Pinned, Frame, HasPipe, PipeSet, Holds, LeakOf;
      ghost var v := Now();
      KnownSplit(v, fd1);
      Known(v);
      var fdM := MoveOrFail(fd2);
      if fdM < 0 {
        return;
      }
      ghost var mid := Now();
      assert Agree(mid.os, v.os, fdN);
      SplitThird(fd1, out, fdN, fdM);
      assert loose == mid.loose - {fdM} == old(loose) - {fd2};
      if mfds[fd1].Some? {
        SplitFromThird(v, mid, Now(), fd1, fd2, fdN, fdM, Denied(0, calls));
      } else {
        LeftBefore(leaked, old(leaked), v.mfds, mid.mfds, v.os, mid.os, fd2, fdM, fd2);
      }
    }

    /** And with the joined file at `fdM`. */
    method SplitThird(fd1: int, out: bool, fdN: int, fdM: int)
      requires Ready() && multios && SettledBut(mfds[..], fd1)
      requires 0 <= fd1 < 10 && mfds[fd1].Some? && mfds[fd1].value.fds == [fdN] && fdN >= 10 && fd1 !in loose
      requires fdM in loose && Internal(table, fdM) && fdN in os && forall f :: f in loose ==> f >= 10
      requires mfds[fd1].value.out == out
      modifies `os, `table, `maxFd, `coprocin, `coprocout, `calls, `firsts, `owner, `loose, `goal, `leaked,
               `errflag, `pipes, mfds
      ensures Valid() && loose == old(loose) - {fdM} && old(calls) <= calls
      ensures mfds[fd1].Some? ==>
                && leaked == old(leaked) && errflag == old(errflag) && goal == old(goal)
                && Frame(old(os), os, fd1, fd1) && (forall f :: f in os && f < 10 ==> f == fd1 || f in old(os))
                && mfds[..] == old(mfds[..])[fd1 := mfds[fd1]]
                && mfds[fd1].value.fds == [fdN, fdM] && mfds[fd1].value.out == old(mfds[fd1]).value.out
                && pipes == old(pipes) + 1 && Tied(Now(), fd1, old(pipes), Denied(0, calls))
                && (mfds[fd1].value.pipe != -1 || Denied(old(calls), calls))
      ensures mfds[fd1] == None ==>
                && errflag && NoStreams() && Left(leaked, old(leaked), old(mfds[..]), old(os), fdM)
                && Denied(old(calls), calls)
    {
      hide View.Inv, TableOk, Accounted, Settled, SettledBut, Left, SplitBy, Shielded, Spilt, Spares, SameAbove,
           Pinned, Frame, Agree, HasPipe, PipeSet, Holds, LeakOf, FileAt;
      KnownSplit(Now(), fd1);
      Known(Now());
      ghost var v := Now();
      var ok, pipe := PipeInto(fd1, out);
      if !ok {
        Fail(fdM);
        LeftAtOnce(leaked, old(leaked), v.mfds, v.os, fdM);
        return;
      }
      HoldTwo(fd1, fdN, fdM, pipe);
      assert loose == v.loose - {fdM};
    }

    /** The stream consists of two descriptors now, and the end of a pipe. */
    method HoldTwo(fd1: int, fdN: int, fdM: int, pipe: int)
      requires Ready() && multios && SettledBut(mfds[..], fd1)
      requires 0 <= fd1 < 10 && mfds[fd1].Some? && mfds[fd1].value.fds == [fdN] && fdN >= 10 && fdN !in loose
      requires fdM in loose && fdM >= 10 && Internal(table, fdM)
      requires pipe != -1 ==> pipe in loose && pipe >= 10 && pipe != fdM && Internal(table, pipe)
      modifies `owner, `loose, mfds
      ensures Valid() && loose == old(loose) - {fdM, pipe}
      ensures mfds[..] == old(mfds[..])[fd1 := Some(Multio(old(mfds[fd1]).value.out, pipe, [fdN, fdM]))]
    {
      hide View.Inv, TableOk, Accounted, Settled, SettledBut, Shielded, Internal;
      ghost var v := Now();
      Known(v);
      Hold(fd1, [fdN, fdM], pipe, {fdM} + ({pipe} - {-1}));
      SettledAgain(v.mfds, mfds[..], multios, fd1);
    }

    /** One more descriptor is part of a split stream. */
    method HoldOne(fd1: int, fdN: int)
      requires Valid() && multios && 0 <= fd1 < 10 && mfds[fd1].Some? && |mfds[fd1].value.fds| >= 2
      requires fdN in loose && fdN >= 10 && Internal(table, fdN)
      modifies `owner, `loose, mfds
      ensures Valid() && loose == old(loose) - {fdN} && JoinedBy(old(mfds[..]), mfds[..], fd1)
      ensures mfds[fd1].value.fds == old(mfds[fd1]).value.fds + [fdN]
    {
      hide View.Inv, TableOk, Accounted, Settled, SettledBut, Shielded, Internal;
      ghost var v := Now();
      Known(v);
      KnownSplit(v, fd1);
      var mn := mfds[fd1].value;
      Hold(fd1, mn.fds + [fdN], mn.pipe, {fdN});
      SettledOthers(v.mfds, v.mfds, multios, fd1);
      SettledAgain(v.mfds, mfds[..], multios, fd1);
    }

    /** The branch of `addfd` for a stream that is split already. */
    method AddToSplit(fd1: int, fd2: int)
      requires Valid() && 0 <= fd1 < 10 && mfds[fd1].Some? && |mfds[fd1].value.fds| >= 2 && fd2 in loose && multios
      requires forall f :: f in loose && f < 10 ==> f == fd2
      modifies `os, `table, `maxFd, `coprocin, `coprocout, `calls, `firsts, `owner, `loose, `goal, `leaked,
               `errflag, mfds
      ensures Valid() && loose == old(loose) - {fd2} && old(calls) <= calls
      ensures mfds[fd1].Some? ==>
                && goal == old(goal) && leaked == old(leaked) && errflag == old(errflag)
                && Frame(old(os), os, fd1, fd2)
                && JoinedBy(old(mfds[..]), mfds[..], fd1)
                && FileAt(os, mfds[fd1].value.fds[|old(mfds[fd1]).value.fds|]) == FileAt(old(os), fd2)
                && (if fd1 == fd2 then fd1 !in os else Agree(os, old(os), fd1))
                && (forall f :: f in os && f < 10 ==> f == fd1 || (f in old(os) && f != fd2))
      ensures mfds[fd1] == None ==>
                errflag && NoStreams() && Left(leaked, old(leaked), old(mfds[..]), old(os), fd2) && Denied(old(calls), calls)
    {
      hide View.Inv, TableOk, Accounted, Settled, SettledBut, Left, SplitBy, Shielded, Spilt, Spares, Denied,
           Internal, SameAbove, Pinned, Agree, HasPipe, PipeSet, Holds, LeakOf, FileAt;
      ghost var v := Now();
      KnownSplit(v, fd1);
      Known(v);
      var fdN := MoveOrFail(fd2);
      if fdN < 0 {
        return;
      }
      HoldOne(fd1, fdN);
      assert fdN != fd2 ==> fdN !in old(loose);
      assert loose == old(loose) - {fd2};
    }

    /** `addfd`: descriptor `fd2` is used up, whatever happens. */
    method AddFd(fd1: int, fd2: int, out: bool)
      requires Valid() && 0 <= fd1 < 10 && fd2 in loose
      requires forall f :: f in loose && f < 10 ==> f == fd2
      modifies `os, `table, `maxFd, `coprocin, `coprocout, `calls, `firsts, `owner, `loose, `goal, `leaked,
               `errflag, `pipes, save, mfds
      ensures Valid() && loose == old(loose) - {fd2} && old(calls) <= calls
      ensures mfds[fd1].Some? ==>
                && Placed(old(Now()), Now(), multios, fd1, fd2, out, Denied(0, calls))
                && leaked == old(leaked) && errflag == old(errflag) && mfds[fd1].value.out == out
                && (HasPipe(old(mfds[fd1])) ==> mfds[fd1].value.pipe == old(mfds[fd1]).value.pipe && HasPipe(mfds[fd1]))
                && (HasPipe(mfds[fd1]) || |mfds[fd1].value.fds| != 2 || Denied(old(calls), calls))
      ensures old(mfds[fd1]) == None && mfds[fd1].Some? ==> mfds[fd1].value.fds == [fd1]
      ensures Unfit(multios, old(mfds[fd1]), old(os), fd1, fd2, out) ==> mfds[fd1] == None
      ensures mfds[fd1] == None ==>
                && errflag && NoStreams() && Left(leaked, old(leaked), old(mfds[..]), old(os), fd2)
                && (Unfit(multios, old(mfds[fd1]), old(os), fd1, fd2, out) || Denied(old(calls), calls))
      ensures mfds[fd1] == None && !Denied(old(calls), calls) ==> Spilt(old(Now()), Now(), old(leaked), leaked, fd2)
    {
      hide View.Inv, TableOk, Accounted, Settled, Shielded, Spilt, Spares, Denied, Internal, SameAbove, Pinned,
           Frame, Agree, PipeSet, Holds, LeakOf, FileAt;
      Known(Now());
      if mfds[fd1].Some? {
        AgainSettled(fd1);
      }
      if mfds[fd1] == None || !multios {
        AddFirst(fd1, fd2, out);
      } else {
        ghost var v := Now();
        if mfds[fd1].value.out != out {
          Fail(fd2);
          LeftAtOnce(leaked, old(leaked), v.mfds, v.os, fd2);
        } else if |mfds[fd1].value.fds| == 1 {
          SplitStream(fd1, fd2, out);
        } else {
          AddToSplit(fd1, fd2);
        }
        if mfds[fd1].Some? {
          TargetsJoin(v, os, mfds[..], fd1, fd2);
        }
      }
    }

    /** The branch of `addfd` that starts a multio, or replaces it without MULTIOS. */
    method AddFirst(fd1: int, fd2: int, out: bool)
      requires Valid() && 0 <= fd1 < 10 && fd2 in loose && (mfds[fd1] == None || !multios)
      requires forall f :: f in loose && f < 10 ==> f == fd2
      modifies `os, `table, `maxFd, `coprocin, `coprocout, `calls, `firsts, `owner, `loose, `goal, `leaked,
               `errflag, save, mfds
      ensures Valid() && loose == old(loose) - {fd2} && old(calls) <= calls
      ensures mfds[fd1].Some? ==>
                && goal == old(goal) && leaked == old(leaked) && errflag == old(errflag)
                && Frame(old(os), os, fd1, fd2)
                && mfds[..] == old(mfds[..])[fd1 := Some(Multio(out, -1, [fd1]))]
                && (forall i :: 0 <= i < 10 && i != fd1 ==> save[i] == old(save[i]))
                && FileAt(os, fd1) == FileAt(old(os), fd2)
                && (forall f :: f in os && f < 10 ==> f == fd1 || (f in old(os) && f != fd2))
      ensures mfds[fd1] == None ==>
                errflag && NoStreams() && Left(leaked, old(leaked), old(mfds[..]), old(os), fd2) && Denied(old(calls), calls)
    {
      hide View.Inv, TableOk, Accounted, Shielded, Spares, Settled, Denied, Internal, SameAbove, Pinned, HasPipe,
           PipeSet, Holds, LeakOf;
      Known(Now());
      if mfds[fd1] == None {
        ghost var v := Now();
        var ok := SaveFd(fd1, fd2);
        if !ok {
          ghost var mid := leaked;
          Fail(fd2);
          LeftAtOnce(leaked, mid, v.mfds, v.os, fd2);
          LeftSaved(leaked, mid, old(leaked), v.mfds, v.os, fd1, fd2);
          return;
        }
      }
      PlaceFirst(fd1, fd2, out);
    }

    method PlaceFirst(fd1: int, fd2: int, out: bool)
      requires Valid() && 0 <= fd1 < 10 && fd2 in loose && (mfds[fd1] == None || !multios) && save[fd1] != UNTOUCHED
      requires forall f :: f in loose && f < 10 ==> f == fd2
      modifies `os, `table, `maxFd, `coprocin, `coprocout, `loose, mfds
      ensures Valid() && loose == old(loose) - {fd2} && Frame(old(os), os, fd1, fd2)
      ensures mfds[..] == old(mfds[..])[fd1 := Some(Multio(out, -1, [fd1]))]
      ensures FileAt(os, fd1) == FileAt(old(os), fd2)
      ensures forall f :: f in os && f < 10 ==> f == fd1 || (f in old(os) && f != fd2)
    {
      hide View.Inv, TableOk, Accounted, Shielded, Spares, Denied, Internal, SameAbove, Pinned, HasPipe, PipeSet,
           Holds, LeakOf;
      ghost var v := Now();
      Known(v);
      ReDup(fd2, fd1);
      Shields({fd2, fd1});
      mfds[fd1] := Some(Multio(out, -1, [fd1]));
      loose := loose - {fd2};
      PlaceStep(v, fd1, fd2, mfds[fd1].value, table, Now());
    }

    /** `open`: the lowest descriptor that is free, or -1. */
    method OpenFile(file: Option<File>) returns (fd: int)
      requires Ready()
      modifies `os, `loose
      ensures Ready()
      ensures file == None ==> fd == -1 && os == old(os) && loose == old(loose)
      ensures file.Some? ==> fd >= 0 && fd !in old(os) && os == old(os)[fd := file.value] && loose == old(loose) + {fd}
      ensures forall f :: 0 <= f < fd ==> f in old(os)
    {
      hide View.Inv, View.SaveOk, View.SplitOk, View.OwnerOk, View.HighOk, Accounted;
      if file == None {
        return -1;
      }
      ghost var v := Now();
      Known(v);
      fd := FreeFd(0);
      os := os[fd := file.value];
      loose := loose + {fd};
      Shuffle(v, Now());
    }

    /** `dup`: the lowest descriptor that is free, or -1. */
    method Dup(fd: int) returns (d: int)
      requires Ready()
      modifies `os, `calls, `loose
      ensures Ready() && old(calls) <= calls
      ensures d == -1 ==> Now() == old(Now()) && (fd !in old(os) || Denied(old(calls), calls))
      ensures d != -1 ==>
                && fd in old(os) && d >= 0 && d !in old(os)
                && Now() == old(Now()).(os := old(os)[d := old(os)[fd]], loose := old(loose) + {d})
    {
      hide View.Inv, View.SaveOk, View.SplitOk, View.OwnerOk, View.HighOk, TableOk, Accounted, Shielded, Settled;
      if fd !in os {
        return -1;
      }
      var granted := Request();
      Uncounted();
      if !granted {
        return -1;
      }
      ghost var v := Now();
      Known(v);
      d := FreeFd(0);
      os := os[d := os[fd]];
      loose := loose + {d};
      Shuffle(v, Now());
    }

    /** `movefd(dup(fd))`. */
    method DupHigh(fd: int) returns (r: int)
      requires Ready()
      modifies `os, `table, `maxFd, `coprocin, `coprocout, `calls, `firsts, `loose
      ensures Ready() && old(calls) <= calls
      ensures r == -1 ==> Now() == old(Now()).(table := table) && (fd !in old(os) || Denied(old(calls), calls))
      ensures r != -1 ==> r >= 10 && Opened(old(Now()), Now(), r) && fd in old(os) && os[r] == old(os)[fd]
    {
      hide View.Inv, View.SaveOk, View.SplitOk, View.OwnerOk, View.HighOk, TableOk, Accounted, Shielded, Settled,
           Frame, Pinned, Internal;
      ghost var v := Now();
      Known(v);
      var d := Dup(fd);
      if d == -1 {
        return -1;
      }
      ghost var mid := os;
      r := MoveLoose(d);
      DupIs(v.os, mid, os, fd, d, r);
      assert v.loose + {d} - {d} == v.loose;
    }

    lemma DupIs(os0: map<int, File>, mid: map<int, File>, os1: map<int, File>, fd: int, d: int, r: int)
      requires fd in os0 && d !in os0 && d >= 0 && mid == os0[d := os0[fd]] && forall f :: f != d && f != r ==> Agree(os1, mid, f)
      requires if r == -1 then os1 == mid - {d} else r in os1 && os1[r] == os0[fd] && (r == d || r !in mid)
      requires r != d ==> d !in os1
      ensures r == -1 ==> os1 == os0
      ensures r != -1 ==> Frame(os0, os1, -1, -1) && r !in os0 && forall f :: f in os1 ==> f in os0 || f == r
    {
      forall f | f != r && f != d
        ensures Agree(os1, os0, f)
      {
        assert Agree(os1, mid, f);
      }
      assert forall f :: f in os1 && f != r && f != d ==> Agree(os1, os0, f);
    }

    /** `REDIR_CLOSE`. When the system refuses the duplicate the descriptor is lost. */
    method CloseFd(fd1: int)
      requires Valid() && 0 <= fd1 < 10 && forall f :: f in loose ==> f >= 10
      modifies `os, `table, `maxFd, `coprocin, `coprocout, `calls, `firsts, `copiers, `goal, `leaked, `owner, save,
               mfds
      ensures Valid() && Ended(old(Now()), Now(), fd1, Denied(0, calls)) && old(calls) <= calls
      ensures var first := old(save[fd1]) == UNTOUCHED && fd1 in old(os);
              && firsts == (if first then Asked(old(firsts), fd1, old(calls)) else old(firsts))
              && (first ==> old(calls) < calls)
              && if first && !grants(old(calls)) then GivenUp(fd1, old(goal), old(leaked))
                 else goal == old(goal) && leaked == old(leaked)
    {
      hide View.Inv, TableOk, Accounted, Shielded, Spares, Settled, Denied, Internal, SameAbove, Pinned, HasPipe,
           PipeSet, Holds, LeakOf, FileAt;
      var closed := false;
      ghost var v := Now();
      if save[fd1] == UNTOUCHED {
        closed := SaveClose(fd1);
      }
      ghost var mid := Now();
      EndStream(fd1, closed);
      HandedSame(v, mid, fd1);
      forall f | f in v.os && f != fd1 && !(v.mfds[fd1].Some? && Holds(v.mfds[fd1].value, f))
        ensures Agree(os, v.os, f)
      {
        assert Agree(os, mid.os, f);
      }
    }

    /** The stream there is handed over, and the descriptor itself closed. */
    method EndStream(fd1: int, closed: bool)
      requires Valid() && 0 <= fd1 < 10 && save[fd1] != UNTOUCHED && (closed ==> fd1 !in os)
      requires forall f :: f in loose ==> f >= 10
      modifies `os, `table, `maxFd, `coprocin, `coprocout, `calls, `copiers, `owner, mfds
      ensures Valid() && fd1 !in os && old(calls) <= calls
      ensures mfds[..] == old(mfds[..])[fd1 := mfds[fd1]] && (mfds[fd1].Some? ==> mfds[fd1].value.fds == [fd1])
      ensures mfds[fd1].Some? ==> HeldApart(old(Now()), fd1)
      ensures !Denied(0, calls) ==>
                (HeldApart(old(Now()), fd1) ==> mfds[fd1].Some?) && copiers == old(copiers) + Handed(old(Now()), fd1)
      ensures forall f :: f in os ==> f in old(os)
      ensures forall f :: f != fd1 && !(old(mfds[fd1]).Some? && Holds(old(mfds[fd1]).value, f)) ==> Agree(os, old(os), f)
    {
      hide View.Inv, View.SaveOk, View.SplitOk, View.OwnerOk, View.HighOk, TableOk, Accounted, Shielded;
      ghost var was := Now();
      CloseMn(fd1, true);
      ghost var v := Now();
      if !closed {
        CloseLow(fd1);
      }
      forall f | f != fd1 && !(was.mfds[fd1].Some? && Holds(was.mfds[fd1].value, f))
        ensures Agree(os, was.os, f)
      {
        assert Agree(os, v.os, f) && Agree(v.os, was.os, f);
      }
    }

    /** A descriptor that will be restored is closed. */
    method CloseLow(fd1: int)
      requires Valid() && 0 <= fd1 < 10 && save[fd1] != UNTOUCHED && forall f :: f in loose ==> f >= 10
      modifies `os, `table, `maxFd, `coprocin, `coprocout
      ensures Valid() && os == old(os) - {fd1}
    {
      hide View.Inv, View.SaveOk, View.SplitOk, View.OwnerOk, View.HighOk, TableOk, Accounted, Shielded;
      ghost var v := Now();
      Known(v);
      ZClose(fd1);
      Shields({});
      Shuffle(v, Now());
    }

    /** Saving a descriptor leaves its stream as it is. */
    lemma HandedSame(v: View, mid: View, fd1: int)
      requires v.Inv() && 0 <= fd1 < 10 && mid.mfds == v.mfds && Frame(v.os, mid.os, fd1, fd1)
      requires forall f :: f in mid.os && f < 10 ==> f in v.os
      ensures Handed(mid, fd1) == Handed(v, fd1) && HeldApart(mid, fd1) == HeldApart(v, fd1)
    {
      if HeldApart(v, fd1) {
        var m := v.mfds[fd1].value;
        KnownSplit(v, fd1);
        assert Agree(mid.os, v.os, m.pipe);
        forall k | 0 <= k < |m.fds| ensures Agree(mid.os, v.os, m.fds[k]) {
          assert m.fds[k] in m.fds;
        }
        assert Targets(mid.os, mid.mfds[fd1], fd1) == Targets(v.os, v.mfds[fd1], fd1);
      }
    }

    method SaveClose(fd1: int) returns (closed: bool)
      requires Valid() && 0 <= fd1 < 10 && save[fd1] == UNTOUCHED && fd1 !in loose
      modifies `os, `table, `maxFd, `coprocin, `coprocout, `calls, `firsts, `goal, `leaked, `owner, save
      ensures Valid() && fd1 !in os && save[fd1] != UNTOUCHED && old(calls) <= calls
      ensures (forall i :: 0 <= i < 10 && i != fd1 ==> save[i] == old(save[i]))
      ensures Frame(old(os), os, fd1, fd1) && forall f :: f in os && f < 10 ==> f in old(os)
      ensures firsts == (if fd1 in old(os) then Asked(old(firsts), fd1, old(calls)) else old(firsts))
      ensures if fd1 in old(os) && !grants(old(calls)) then GivenUp(fd1, old(goal), old(leaked))
              else goal == old(goal) && leaked == old(leaked)
      ensures fd1 in old(os) ==> old(calls) < calls
    {
      hide View.Inv, Accounted, Settled, Shielded, TableOk, Frame, Moved, Asked;
      ghost var v, f0, k0 := Now(), firsts, calls;
      var r, refused := Detach(fd1);
      StoreClosed(fd1, r, refused, v, f0, k0);
      closed := r >= 0;
    }

    /** `save[fd1]` is set, even if there is no duplicate. */
    method StoreClosed(fd1: int, r: int, ghost refused: bool, ghost v: View, ghost f0: map<int, nat>, ghost k0: nat)
      requires Moved(v, fd1, r, refused, f0, k0)
      modifies `goal, `leaked, `owner, save
      ensures Valid() && save[fd1] != UNTOUCHED && forall i :: 0 <= i < 10 && i != fd1 ==> save[i] == old(save[i])
      ensures if refused then GivenUp(fd1, old(goal), old(leaked)) else goal == old(goal) && leaked == old(leaked)
    {
      hide View.Inv, View.SaveOk, View.SplitOk, View.OwnerOk, View.HighOk, TableOk, Account, Unasked, Asked, LostOf,
           Settled, Frame, Agree, Shielded, SameAbove;
      save[fd1] := r;
      if refused {
        Lose(v, fd1, f0, k0, -1);
      } else if r < 0 {
        AccountFree(v, start, f0, leaked, grants, fd1);
        assert v.os - {fd1} == v.os;
        SaveFree(v, fd1, table, Now());
      } else {
        Keep(v, fd1, r, f0, k0);
      }
    }

    /** At the start nothing is saved, and what redirection is handed is still to be placed. */
    constructor (os: map<int, File>, table: map<int, int>, maxFd: int, coprocin: int, coprocout: int, multios: bool,
                 grants: nat -> bool, ghost loose: set<int>)
      requires loose <= os.Keys && (forall fd :: fd in loose ==> fd >= 10) && forall fd :: fd in os ==> fd >= 0
      requires forall fd :: fd in table && table[fd] != FDT_UNUSED ==> fd <= maxFd
      ensures Valid() && Fresh() && this.loose == loose && this.grants == grants
      ensures this.os == os && this.table == table && this.maxFd == maxFd && this.multios == multios
      ensures this.coprocin == coprocin && this.coprocout == coprocout && fresh(save) && fresh(mfds)
      ensures setup == Setup(os, os - loose, table, coprocin, coprocout, multios)
    {
      this.os, this.table, this.maxFd, this.coprocin, this.coprocout := os, table, maxFd, coprocin, coprocout;
      this.multios, this.errflag, this.loose, this.grants, calls := multios, false, loose, grants, 0;
      start, goal, owner, firsts, leaked, copiers := os - loose, os - loose, map[], map[], map[], [];
      pipes, setup := 0, Setup(os, os - loose, table, coprocin, coprocout, multios);
      save := new int[10](_ => UNTOUCHED);
      mfds := new Option<Multio>[10](_ => None);
      new;
      assert LostOf(firsts, grants) == {};
      assert start - {} == start && start + map[] == start;
    }

    ghost predicate Fresh()
      reads this, save, mfds
    {
      && save.Length == mfds.Length == 10 && firsts == map[] && leaked == map[] && calls == 0 && !errflag
      && copiers == [] && pipes == 0 && goal == start == os - loose
      && setup == Setup(os, start, table, coprocin, coprocout, multios)
      && forall i :: 0 <= i < 10 ==> save[i] == UNTOUCHED && mfds[i] == None
    }

    /** `closemnodes` and `fixfds`, when a redirection fails. */
    method GiveUp()
      requires Ready() && forall f :: f in loose ==> f >= 10
      modifies `os, `table, `maxFd, `coprocin, `coprocout, `owner, `loose, `goal, `leaked, mfds
      ensures Restored() && Accounted() && loose == old(loose)
      ensures leaked == old(leaked) + LeakOf(old(Now())) && leaked.Keys == old(leaked).Keys + PipeSet(old(mfds[..]))
    {
      hide View.Inv, View.SaveOk, View.SplitOk, View.OwnerOk, View.HighOk, TableOk, Accounted, Shielded, LeakOf;
      LeakKeys(Now());
      CloseMnodes();
      forall f
        ensures f in loose <==> f in old(loose)
      {
        assert f in old(loose) ==> Pinned(save[..], f);
      }
      assert loose == old(loose);
      FixFds();
    }

    /** The source of a merge: refused if the shell uses the descriptor. `mid` is the moment
        at which it is to be duplicated. */
    method MergeSource(fd2: int, out: bool) returns (fil: int, ghost mid: View)
      requires Valid() && (fd2 == -2 || fd2 >= 0)
      modifies `os, `table, `maxFd, `coprocin, `coprocout, `calls, `firsts, `copiers, `owner, `loose, mfds
      ensures Valid() && old(calls) <= calls && mid.Inv()
      ensures loose == old(loose) + ({fil} - {-1}) && (fil == -1 || (fil >= 10 && fil !in old(loose)))
      ensures mfds[..] == if 0 <= fd2 < 10 then old(mfds[..])[fd2 := mfds[fd2]] else old(mfds[..])
      ensures 0 <= fd2 < 10 && mfds[fd2].Some? ==> mfds[fd2].value.fds == [fd2]
      ensures if HeldApart(old(Now()), fd2) then Denied(old(calls), calls) || Passed(old(Now()), mid, fd2)
              else mid == old(Now())
      ensures fil != -1 ==>
                && !Refused(old(table), old(maxFd), old(coprocin), old(coprocout), fd2)
                && var c := Wanted(old(coprocin), old(coprocout), fd2, out);
                   Opened(mid, Now(), fil) && c in mid.os && os[fil] == mid.os[c]
      ensures fil == -1 ==>
                && Now() == mid.(table := table)
                && (Refused(old(table), old(maxFd), old(coprocin), old(coprocout), fd2)
                    || Wanted(old(coprocin), old(coprocout), fd2, out) !in mid.os || Denied(old(calls), calls))
    {
      hide View.Inv, View.SaveOk, View.SplitOk, View.OwnerOk, View.HighOk, TableOk, Accounted, Shielded, Passed, Opened;
      Known(Now());
      if fd2 < 10 {
        CloseMn(fd2, false);
      }
      mid := Now();
      if Refused(table, maxFd, coprocin, coprocout, fd2) {
        return -1, mid;
      }
      var fd := if fd2 == -2 then (if out then coprocout else coprocin) else fd2;
      fil := DupHigh(fd);
      OpenedLoose(mid, Now(), fil);
    }

    lemma OpenedLoose(mid: View, w: View, fil: int)
      requires mid.Inv() && (if fil == -1 then w.loose == mid.loose else Opened(mid, w, fil))
      ensures w.loose == mid.loose + ({fil} - {-1}) && (fil != -1 ==> fil !in mid.loose && w.mfds == mid.mfds)
    {
      Known(mid);
    }

    /** A file is put in its place, or joined, just as the plan has it. */
    method PutFile(fd1: int, fil: int, out: bool, ghost plan: Plan, ghost inHand: set<int>, ghost wreck: bool)
      requires Valid() && 0 <= fd1 < 10 && fil in loose
      requires forall f :: f in loose && f < 10 ==> f == fil
      modifies `os, `table, `maxFd, `coprocin, `coprocout, `calls, `firsts, `owner, `loose, `goal, `leaked,
               `errflag, `pipes, save, mfds
      ensures Valid() && loose == old(loose) - {fil} && old(calls) <= calls && (old(errflag) ==> errflag)
      ensures mfds[fd1].Some? ==>
                && goal == old(goal) && leaked == old(leaked) && errflag == old(errflag)
                && mfds[fd1].value.out == out
                && (HasPipe(old(mfds[fd1])) ==> mfds[fd1].value.pipe == old(mfds[fd1]).value.pipe && HasPipe(mfds[fd1]))
                && (HasPipe(mfds[fd1]) || |mfds[fd1].value.fds| != 2 || Denied(old(calls), calls))
                && mfds[..] == old(mfds[..])[fd1 := mfds[fd1]]
                && (forall f :: f in loose ==> Agree(os, old(os), f))
                && (old(mfds[fd1]) == None ==> mfds[fd1].value.fds == [fd1])
      ensures fil in old(os) && Tried(old(Here()), Here(), plan, inHand, wreck, fd1, fil, out, mfds[fd1].Some?)
      ensures mfds[fd1] == None ==>
                && errflag && NoStreams() && Left(leaked, old(leaked), old(mfds[..]), old(os), fil)
                && (Unfit(multios, old(mfds[fd1]), old(os), fd1, fil, out) || Denied(old(calls), calls))
                && (!Denied(old(calls), calls) ==> Spilt(old(Now()), Now(), old(leaked), leaked, fil))
    {
      hide View.Inv, View.SaveOk, View.SplitOk, View.OwnerOk, View.HighOk, TableOk, Accounted, Settled, Aimed, Placed,
           Left, Spilt, Put, Unfit, Tried;
      ghost var m := Here();
      Known(m.view);
      AddFd(fd1, fil, out);
      PutTried(m, Here(), plan, inHand, wreck, fd1, fil, out);
      if mfds[fd1].Some? {
        PlacedFrame(m.view, Now(), multios, fd1, fil, out, Denied(0, calls));
      }
    }

    lemma PutTried(m: Moment, n: Moment, plan: Plan, inHand: set<int>, wreck: bool, fd1: int, fil: int, out: bool)
      requires m.view.Inv() && n.view.Inv() && Settled(m.view.mfds, multios) && Settled(n.view.mfds, multios)
      requires setup.multios == multios && m.calls <= n.calls && 0 <= fd1 < 10 == |m.view.mfds| == |n.view.mfds|
      requires fil in m.view.os && fil in m.view.loose && forall f :: f in m.view.loose && f < 10 ==> f == fil
      requires if n.view.mfds[fd1].Some? then Placed(m.view, n.view, multios, fd1, fil, out, Denied(0, n.calls))
               else Unfit(multios, m.view.mfds[fd1], m.view.os, fd1, fil, out) || Denied(m.calls, n.calls)
      requires n.view.mfds[fd1] == None && !Denied(m.calls, n.calls) ==> Spilt(m.view, n.view, m.leaked, n.leaked, fil)
      ensures Tried(m, n, plan, inHand, wreck, fd1, fil, out, n.view.mfds[fd1].Some?)
    {
      hide View.Inv, Settled, Aimed, Placed, Put, Unfit, Targets;
      if OnAt(m, plan, inHand, wreck) {
        if n.view.mfds[fd1].Some? {
          AimPut(m.view, n.view, plan, setup, inHand, Denied(0, m.calls), wreck, fd1, fil, out, Denied(0, n.calls));
        } else if !Denied(0, n.calls) {
          PutFits(m.view, plan, setup, inHand, wreck, fd1, fil, out);
        }
      }
    }

    /** A stream cannot be joined by a file in this direction, or is closed. */
    ghost predicate Blocked(m: Option<Multio>, os0: map<int, File>, fd1: int, out: bool) {
      multios && m.Some? && (m.value.out != out || fd1 !in os0)
    }

    /** What a command is handed is put in its place. */
    method PlacePipe(r: Redir, ghost run: Run)
      requires Valid() && WellFormed(r) && r.Pipe? && r.given in loose && forall f :: f in loose ==> f >= 10
      modifies `os, `table, `maxFd, `coprocin, `coprocout, `calls, `firsts, `owner, `loose, `goal, `leaked,
               `errflag, `pipes, save, mfds
      ensures Valid() && loose == old(loose) - {r.given} && old(calls) <= calls && (old(errflag) ==> errflag)
      ensures !errflag ==> goal == old(goal) && leaked == old(leaked)
      ensures Turned(old(Here()), Here(), run, After(setup, run, r), true, true, true)
    {
      hide View.Inv, View.SaveOk, View.SplitOk, View.OwnerOk, View.HighOk, TableOk, Accounted, Settled, Aimed, Shielded,
           Left, Spilt, Put, Unfit, Tried, Turned, After;
      ghost var m := Here();
      LeakedMeant();
      PutFile(r.fd1, r.given, r.out, run.plan, {r.given}, run.wreck);
      PipeTurned(m, Here(), run, r, mfds[r.fd1].Some?);
    }

    lemma PipeTurned(m: Moment, n: Moment, run: Run, r: Redir, placed: bool)
      requires m.view.Inv() && |n.view.save| == |n.view.mfds| == 10 && r.Pipe? && 0 <= r.fd1 < 10 && m.calls <= n.calls
      requires r.given in m.view.loose && r.given >= 10 && m.leaked.Keys <= m.view.goal.Keys
      requires Tried(m, n, run.plan, {r.given}, run.wreck, r.fd1, r.given, r.out, placed)
      requires if placed then n.leaked == m.leaked && n.errflag == m.errflag
               else n.errflag && (forall i :: 0 <= i < 10 ==> n.view.mfds[i] == None)
                    && (!Denied(m.calls, n.calls) ==> Spilt(m.view, n.view, m.leaked, n.leaked, r.given))
      ensures Turned(m, n, run, After(setup, run, r), true, true, true)
    {
      hide View.Inv, Aimed, Put, LeakOf, Files, Dropped, StrayOf;
      Known(m.view);
      assert {r.given} - {r.given} == {};
      if OnAt(m, run.plan, {}, run.wreck) {
        AimHand(m.view, run.plan, setup, {r.given}, Denied(0, m.calls), run.wreck);
        GivenIs(m.view, run.plan, setup, Denied(0, m.calls), run.wreck, r.given);
        if !placed && !Denied(0, n.calls) {
          SpiltIs(m.view, n.view, m.leaked, n.leaked, r.given);
          AimBare(m.view, n.view, run.plan, setup, {r.given}, run.wreck);
          LeftFiles(m.view, run.plan, setup, {}, run.wreck, m.leaked, r.given);
          OneFile(r.given, m.view.os[r.given]);
        }
      }
    }

    /** What is leaked is to be open afterwards. */
    lemma LeakedMeant()
      requires Accounted()
      ensures leaked.Keys <= goal.Keys
    {
    }

    /** Everything is given up where the plan stops. */
    lemma StopTurned(m: Moment, n: Moment, run: Run, next: Run, plain: bool, own: bool)
      requires m.view.Inv() && m.leaked.Keys <= m.view.goal.Keys && m.calls <= n.calls
      requires !Denied(0, n.calls) && own ==> n.leaked == m.leaked + LeakOf(m.view)
      requires !Denied(0, n.calls) && own && Sane(setup) && ExactAt(m, run) ==> next == Failed(run, Dropped(run.plan))
      ensures Turned(m, n, run, next, plain, own, false)
    {
      hide View.Inv, Aimed, LeakOf, Files, Dropped;
      if !Denied(0, n.calls) && own && Sane(setup) && ExactAt(m, run) {
        LeftFiles(m.view, run.plan, setup, {}, run.wreck, m.leaked, 0);
      }
    }

    /** A file is opened for reading or writing. */
    method OpenOne(r: Redir, ghost run: Run) returns (ok: bool)
      requires Valid() && !errflag && WellFormed(r) && (r.Read? || r.Write?) && forall f :: f in loose ==> f >= 10
      modifies `os, `table, `maxFd, `coprocin, `coprocout, `calls, `firsts, `owner, `loose, `goal, `leaked,
               `errflag, `pipes, save, mfds
      ensures old(calls) <= calls
      ensures ok ==> Valid() && !errflag && loose == old(loose) && goal == old(goal) && leaked == old(leaked)
      ensures ok ==> Streamed(old(mfds[..]), mfds[..], r.fd1, r.Write?, Denied(old(calls), calls))
      ensures Turned(old(Here()), Here(), run, After(setup, run, r), true, true, ok)
      ensures !ok ==>
                && Restored() && Accounted() && loose <= old(loose)
                && LeftOpen(leaked, old(leaked), old(mfds[..]), old(os), r)
      ensures r.file == None ==> !ok
      ensures !ok && r.file.Some? ==>
                Denied(old(calls), calls) || Blocked(old(mfds[r.fd1]), old(os), r.fd1, r.Write?)
    {
      hide View.Inv, View.SaveOk, View.SplitOk, View.OwnerOk, View.HighOk, TableOk, Accounted, Settled, Aimed, Shielded,
           Put, Left, LeftOpen, Streamed, Unfit, Blocked, LeakOf, Opened, StrayOf, Tried, Turned, After, Restored, PipeSet,
           Denied;
      ghost var m := Here();
      LeakedMeant();
      OpenAfter(setup, run, r);
      var fil := TakeFile(r);
      ghost var mid := Here();
      if fil == -1 {
        GiveUp();
        LeftAll(leaked, old(leaked), m.view.mfds, m.view.mfds, m.view.os, r);
        StopTurned(m, Here(), run, After(setup, run, r), true, true);
        return false;
      }
      OpenedIs(m.view, mid.view, fil);
      ok := PutOrGiveUp(r.fd1, fil, r.Write?, run.plan);
      OpenTurned(m, mid, Here(), run, r, fil, ok);
      if !ok {
        LeftIsOpen(leaked, old(leaked), m.view.mfds, mid.view.mfds, m.view.os, mid.view.os, r, fil);
        StillBlocked(m.view.mfds[r.fd1], m.view.os, mid.view.os, r.fd1, fil, r.Write?);
      }
    }

    lemma OpenTurned(m: Moment, mid: Moment, n: Moment, run: Run, r: Redir, fil: int, ok: bool)
      requires m.view.Inv() && mid.view.Inv() && (r.Read? || r.Write?) && mid == m.(view := mid.view) && m.calls <= n.calls
      requires Opened(m.view, mid.view, fil) && fil >= 0 && r.file == Some(mid.view.os[fil])
      requires (forall f :: 0 <= f < fil ==> f in m.view.os) && (forall f :: f in m.view.loose ==> f >= 10) && !m.errflag
      requires m.leaked.Keys <= m.view.goal.Keys && Tried(mid, n, run.plan, {fil}, false, r.fd1, fil, r.Write?, ok)
      requires ok ==> n.leaked == m.leaked && !n.errflag
      ensures Turned(m, n, run, After(setup, run, r), true, true, ok)
    {
      hide View.Inv, Aimed, LeakOf, Files, Dropped, After, Opened, StrayOf, Strays, Put;
      OpenAfter(setup, run, r);
      OpenedIs(m.view, mid.view, fil);
      if OnAt(m, run.plan, {}, false) {
        AimMore(m.view, mid.view, run.plan, setup, {}, Denied(0, m.calls), Denied(0, m.calls), false, fil);
        assert {} + {fil} == {fil};
        if !ok && !Denied(0, n.calls) {
          StrayFile(m.view, mid.view, run.plan, setup, fil);
          LeftFiles(mid.view, run.plan, setup, {fil}, false, m.leaked, fil);
        }
      }
    }

    lemma OpenedIs(v: View, w: View, fil: int)
      requires v.Inv() && Opened(v, w, fil)
      ensures fil in w.os && fil in w.loose && fil !in v.os && w.goal == v.goal && w.mfds == v.mfds
      ensures v.os.Keys <= w.os.Keys && w.loose == v.loose + {fil} && fil !in v.loose
    {
      Known(v);
      forall f | f in v.os ensures f in w.os { assert Agree(w.os, v.os, f); }
    }

    lemma StillBlocked(m: Option<Multio>, os0: map<int, File>, os1: map<int, File>, fd1: int, fil: int, out: bool)
      requires fil !in os0 && os0.Keys <= os1.Keys
      ensures Unfit(multios, m, os1, fd1, fil, out) ==> Blocked(m, os0, fd1, out)
    {
      assert fd1 in os0.Keys ==> fd1 in os1.Keys;
    }

    /** The descriptor of the file, if it can be opened. */
    method TakeFile(r: Redir) returns (fil: int)
      requires Valid() && (r.Read? || r.Write? || r.ErrWrite?)
      modifies `os, `loose
      ensures Valid() && (fil == -1 <==> r.file == None)
      ensures loose == old(loose) + ({fil} - {-1}) && (fil == -1 || fil !in old(loose))
      ensures fil !in old(os) && old(os).Keys <= os.Keys
      ensures fil == -1 ==> Now() == old(Now())
      ensures fil != -1 ==>
                && fil >= 0 && Opened(old(Now()), Now(), fil) && r.file == Some(os[fil])
                && (forall f :: 0 <= f < fil ==> f in old(os))
    {
      hide View.Inv, View.SaveOk, View.SplitOk, View.OwnerOk, View.HighOk, TableOk, Accounted, Settled, Shielded;
      Known(Now());
      fil := OpenFile(r.file);
    }

    /** `addfd`, and everything undone if it has failed. */
    method PutOrGiveUp(fd1: int, fil: int, out: bool, ghost plan: Plan) returns (ok: bool)
      requires Valid() && !errflag && 0 <= fd1 < 10 && fil in loose
      requires (forall f :: f in loose && f < 10 ==> f == fil) && forall f :: f in loose && f != fil ==> f >= 10
      modifies `os, `table, `maxFd, `coprocin, `coprocout, `calls, `firsts, `owner, `loose, `goal, `leaked,
               `errflag, `pipes, save, mfds
      ensures old(calls) <= calls && loose == old(loose) - {fil} && fil in old(os)
      ensures ok ==>
                && Valid() && !errflag && goal == old(goal) && leaked == old(leaked)
                && Streamed(old(mfds[..]), mfds[..], fd1, out, Denied(old(calls), calls))
      ensures Tried(old(Here()), Here(), plan, {fil}, false, fd1, fil, out, ok)
      ensures !ok ==>
                && Restored() && Accounted() && Left(leaked, old(leaked), old(mfds[..]), old(os), fil)
                && (Unfit(multios, old(mfds[fd1]), old(os), fd1, fil, out) || Denied(old(calls), calls))
    {
      hide View.Inv, View.SaveOk, View.SplitOk, View.OwnerOk, View.HighOk, TableOk, Accounted, Settled, Aimed, Shielded,
           Put, Left, Unfit, LeakOf, StrayOf, Spilt;
      PutFile(fd1, fil, out, plan, {fil}, false);
      ok := !errflag;
      if !ok {
        NoLeak();
        assert leaked + map[] == leaked;
        GiveUp();
      }
    }

    method MergeOne(r: Redir, ghost run: Run) returns (ok: bool)
      requires Valid() && !errflag && WellFormed(r) && r.Merge? && forall f :: f in loose ==> f >= 10
      modifies `os, `table, `maxFd, `coprocin, `coprocout, `calls, `firsts, `copiers, `owner, `loose, `goal,
               `leaked, `errflag, `pipes, save, mfds
      ensures old(calls) <= calls
      ensures ok ==> Valid() && !errflag && loose == old(loose) && goal == old(goal) && leaked == old(leaked)
      ensures Turned(old(Here()), Here(), run, After(setup, run, r), Plain(run.plan, r), Own(setup, r), ok)
      ensures !ok ==>
                && Restored() && Accounted() && loose <= old(loose)
                && LeftOpen(leaked, old(leaked), old(mfds[..]), old(os), r)
    {
      hide View.Inv, View.SaveOk, View.SplitOk, View.OwnerOk, View.HighOk, TableOk, Accounted, Settled, Aimed, Shielded,
           Put, Left, LeftOpen, Streamed, Unfit, LeakOf, Opened, StrayOf, Tried, Turned, After, Restored, PipeSet,
           Denied, Found, Passed, HandOver, SplitAt, Unsplit;
      ghost var m := Here();
      LeakedMeant();
      SetupKnown();
      var fil, mid := TakeSource(r);
      ghost var w := Here();
      if fil == -1 {
        GiveUp();
        LeftAll(leaked, old(leaked), m.view.mfds, w.view.mfds, m.view.os, r);
        ok := false;
      } else {
        ok := PutOrGiveUp(r.fd1, fil, r.out, HandOver(run.plan, r.fd2));
        if !ok {
          LeftIsOpen(leaked, old(leaked), m.view.mfds, w.view.mfds, m.view.os, w.view.os, r, fil);
        }
      }
      MergeTurned(m, mid, w, Here(), run, r, fil, ok);
    }

    /** What a merge has found: the file of its source, unless that is not open, the shell
        uses it, or the system denied the duplicate. */
    ghost predicate Found(mid: View, w: View, r: Redir, fil: int, denied: bool)
      requires r.Merge?
    {
      var c := Wanted(setup.coprocin, setup.coprocout, r.fd2, r.out);
      if fil == -1 then
        && w == mid.(table := w.table)
        && (denied || c !in mid.os || (r.fd2 >= 10 && (r.fd2 in setup.start ==> Barred(r.fd2))))
      else
        && fil >= 10 && Opened(mid, w, fil) && c in mid.os && w.os[fil] == mid.os[c]
        && !Barred(r.fd2) && (r.fd2 >= 0 ==> c !in mid.owner)
    }

    /** The shell itself uses this descriptor of the start. */
    ghost predicate Barred(fd2: int) {
      fd2 >= 10 && fd2 in setup.start && (Marked(setup, fd2) || fd2 == setup.coprocin || fd2 == setup.coprocout)
    }

    /** The source of a merge. */
    method TakeSource(r: Redir) returns (fil: int, ghost mid: View)
      requires Valid() && WellFormed(r) && r.Merge?
      modifies `os, `table, `maxFd, `coprocin, `coprocout, `calls, `firsts, `copiers, `owner, `loose, mfds
      ensures Valid() && old(calls) <= calls && SplitAt(old(mfds[..]), r) <= PipeSet(mfds[..]) <= PipeSet(old(mfds[..]))
      ensures loose == old(loose) + ({fil} - {-1}) && (fil == -1 || (fil >= 10 && fil !in old(loose)))
      ensures Unsplit(old(mfds[..]), r.fd2) ==> fil !in old(os) && old(os).Keys <= os.Keys
      ensures mid.Inv() && Sane(setup) ==> Found(mid, Now(), r, fil, Denied(old(calls), calls))
      ensures mid.Inv()
      ensures if HeldApart(old(Now()), r.fd2) then Denied(old(calls), calls) || Passed(old(Now()), mid, r.fd2)
              else mid == old(Now())
    {
      hide View.Inv, View.SaveOk, View.SplitOk, View.OwnerOk, View.HighOk, TableOk, Accounted, Settled, Aimed, Shielded,
           Opened, Passed, Refused, Denied, Sane;
      ghost var v := Now();
      Known(v);
      if r.fd2 in owner {
        TableKnown();
        OwnedRefused(v, maxFd, coprocin, coprocout, r.fd2);
      }
      RefusedIs(r.fd2, r.out);
      fil, mid := MergeSource(r.fd2, r.out);
      SourcePipes(v.mfds, mfds[..], r);
      Known(mid);
      assert Unsplit(v.mfds, r.fd2) ==> mid == v;
      if fil != -1 {
        OpenedIs(mid, Now(), fil);
      }
    }

    /** The shell's table refuses just what it did at the start. */
    lemma RefusedIs(fd2: int, out: bool)
      requires Valid()
      ensures Refused(table, maxFd, coprocin, coprocout, fd2) ==> fd2 >= 10
      ensures Sane(setup) ==>
                && (fd2 in setup.start ==> (Refused(table, maxFd, coprocin, coprocout, fd2) <==> Barred(fd2)))
                && Wanted(coprocin, coprocout, fd2, out) == Wanted(setup.coprocin, setup.coprocout, fd2, out)
    {
      hide View.Inv, Accounted, Settled;
    }

    lemma SetupKnown()
      requires Shielded()
      ensures -1 !in setup.before && -1 !in setup.start && setup.start == start && setup.multios == multios
    {
    }

    lemma TableKnown()
      requires TableOk()
      ensures forall fd :: fd in table && table[fd] != FDT_UNUSED ==> fd <= maxFd
    {
    }

    lemma SourcePipes(was: seq<Option<Multio>>, mfds0: seq<Option<Multio>>, r: Redir)
      requires |was| == |mfds0| == 10 && r.Merge?
      requires if 0 <= r.fd2 < 10 then mfds0 == was[r.fd2 := mfds0[r.fd2]] && !HasPipe(mfds0[r.fd2]) else mfds0 == was
      ensures SplitAt(was, r) <= PipeSet(mfds0) <= PipeSet(was)
    {
      if 0 <= r.fd2 < 10 {
        PipeSetAt(was, r.fd2);
        PipeSetAt(mfds0, r.fd2);
        assert mfds0[r.fd2 := None] == was[r.fd2 := None];
      }
    }

    lemma MergeTurned(m: Moment, mid: View, w: Moment, n: Moment, run: Run, r: Redir, fil: int, ok: bool)
      requires m.view.Inv() && mid.Inv() && w.view.Inv() && r.Merge? && WellFormed(r) && !m.errflag && -1 !in setup.start
      requires w.leaked == m.leaked && m.calls <= w.calls <= n.calls
      requires w.leaked.Keys <= w.view.goal.Keys && forall f :: f in m.view.loose ==> f >= 10
      requires if HeldApart(m.view, r.fd2) then Denied(m.calls, w.calls) || Passed(m.view, mid, r.fd2) else mid == m.view
      requires Sane(setup) ==> Found(mid, w.view, r, fil, Denied(m.calls, w.calls))
      requires if fil == -1 then !ok && n.leaked == m.leaked + LeakOf(w.view)
               else Tried(w, n, HandOver(run.plan, r.fd2), {fil}, false, r.fd1, fil, r.out, ok)
      requires ok ==> n.leaked == m.leaked && !n.errflag
      ensures Turned(m, n, run, After(setup, run, r), Plain(run.plan, r), Own(setup, r), ok)
    {
      hide View.Inv, Aimed, LeakOf, Files, Dropped, After, Opened, StrayOf, Put, Passed, Source, HandOver, Found, Tried;
      MergeAfter(setup, run, r);
      if OnAt(m, run.plan, {}, false) && Sane(setup) && (Denied(0, n.calls) ==> Plain(run.plan, r)) {
        MergeReached(m, mid, n, run.plan, r);
        if fil != -1 {
          MergeFound(m, mid, w, n, run.plan, r, fil, ok);
        } else if !Denied(0, n.calls) && Own(setup, r) {
          MergeMissed(m, mid, w, run.plan, r);
        }
      }
    }

    lemma MergeReached(m: Moment, mid: View, n: Moment, plan: Plan, r: Redir)
      requires m.view.Inv() && mid.Inv() && r.Merge? && m.calls <= n.calls && forall f :: f in m.view.loose ==> f >= 10
      requires if HeldApart(m.view, r.fd2) then Denied(0, n.calls) || Passed(m.view, mid, r.fd2) else mid == m.view
      requires OnAt(m, plan, {}, false) && (Denied(0, n.calls) ==> Plain(plan, r))
      ensures Aimed(mid, HandOver(plan, r.fd2), setup, {}, Denied(0, m.calls), false)
      ensures forall f :: f in mid.loose ==> f >= 10
    {
      hide View.Inv, Aimed;
      HeldIs(m.view, plan, setup, {}, Denied(0, m.calls), false, r.fd2);
      if HeldApart(m.view, r.fd2) {
        AimPass(m.view, mid, plan, setup, r.fd2);
      }
    }

    lemma MergeFound(m: Moment, mid: View, w: Moment, n: Moment, plan: Plan, r: Redir, fil: int, ok: bool)
      requires mid.Inv() && w.view.Inv() && r.Merge? && WellFormed(r) && Sane(setup) && -1 !in setup.start && fil != -1
      requires m.calls <= w.calls <= n.calls && w.leaked.Keys <= w.view.goal.Keys && forall f :: f in mid.loose ==> f >= 10
      requires Aimed(mid, HandOver(plan, r.fd2), setup, {}, Denied(0, m.calls), false)
      requires Found(mid, w.view, r, fil, Denied(m.calls, w.calls))
      requires Tried(w, n, HandOver(plan, r.fd2), {fil}, false, r.fd1, fil, r.out, ok)
      ensures var src := Source(setup, plan, r.out, r.fd2);
              && (!Denied(0, n.calls) && Own(setup, r) ==> src.Some?)
              && (src.Some? ==>
                    var (file, plan1) := src.value;
                    var next := Put(setup.multios, plan1, r.fd1, r.out, file);
                    && (ok && next.Some? ==> OnAt(n, next.value, {}, false))
                    && (!Denied(0, n.calls) ==>
                          && (ok <==> next.Some?)
                          && (!ok ==> Files(n.leaked) == Files(w.leaked) + Dropped(plan1) + {file})))
    {
      hide View.Inv, Aimed, LeakOf, Files, Dropped, Opened, Put, Source, HandOver;
      var plan1 := HandOver(plan, r.fd2);
      Known(mid);
      SourceIs(mid, plan, setup, Denied(0, m.calls), r.fd2, r.out);
      OpenedIs(mid, w.view, fil);
      AimMore(mid, w.view, plan1, setup, {}, Denied(0, m.calls), Denied(0, w.calls), false, fil);
      assert {} + {fil} == {fil} && {fil} - {fil} == {};
      if !ok && !Denied(0, n.calls) {
        LeftFiles(w.view, plan1, setup, {fil}, false, w.leaked, fil);
        OneFile(fil, w.view.os[fil]);
      }
    }

    lemma MergeMissed(m: Moment, mid: View, w: Moment, plan: Plan, r: Redir)
      requires mid.Inv() && r.Merge? && WellFormed(r) && Sane(setup) && -1 !in setup.start
      requires m.calls <= w.calls && w.leaked.Keys <= w.view.goal.Keys && forall f :: f in mid.loose ==> f >= 10
      requires !Denied(0, w.calls) && Own(setup, r)
      requires Aimed(mid, HandOver(plan, r.fd2), setup, {}, Denied(0, m.calls), false)
      requires Found(mid, w.view, r, -1, Denied(m.calls, w.calls))
      ensures Source(setup, plan, r.out, r.fd2).None?
      ensures Files(w.leaked + LeakOf(w.view)) == Files(w.leaked) + Dropped(plan)
    {
      hide View.Inv, Aimed, Files, Dropped;
      SourceIs(mid, plan, setup, Denied(0, m.calls), r.fd2, r.out);
      assert LeakOf(w.view) == LeakOf(mid);
      LeftFiles(mid, HandOver(plan, r.fd2), setup, {}, false, w.leaked, 0);
    }

    /** `&>`: the file is opened for `fd1`, and a duplicate of it for descriptor 2. */
    method OpenBoth(r: Redir, ghost run: Run) returns (ok: bool)
      requires Valid() && !errflag && WellFormed(r) && r.ErrWrite? && forall f :: f in loose ==> f >= 10
      modifies `os, `table, `maxFd, `coprocin, `coprocout, `calls, `firsts, `owner, `loose, `goal, `leaked,
               `errflag, `pipes, save, mfds
      ensures old(calls) <= calls
      ensures ok ==> Valid() && !errflag && loose == old(loose) && goal == old(goal) && leaked == old(leaked)
      ensures Turned(old(Here()), Here(), run, After(setup, run, r), true, true, ok)
      ensures !ok ==>
                && Restored() && Accounted() && loose <= old(loose)
                && LeftOpen(leaked, old(leaked), old(mfds[..]), old(os), r)
    {
      hide View.Inv, View.SaveOk, View.SplitOk, View.OwnerOk, View.HighOk, TableOk, Accounted, Settled, Aimed, Shielded,
           Put, Left, LeftOpen, LeakOf, Opened, StrayOf, TriedBoth, Turned, After, Restored, PipeSet, Denied;
      ghost var m := Here();
      LeakedMeant();
      var fil, dfil, mid := OpenTwo(r);
      ghost var w := Here();
      if fil == -1 {
        GiveUp();
        LeftAll(leaked, old(leaked), m.view.mfds, m.view.mfds, m.view.os, r);
        BothMissed(m, w, Here(), run, r);
        return false;
      }
      OpenedIs(m.view, mid, fil);
      OpenedIs(mid, w.view, dfil);
      OpenedSame(mid, w.view, dfil, fil);
      assert m.view.loose + {fil} + {dfil} - {fil, dfil} == m.view.loose;
      ok := PutBoth(r.fd1, fil, dfil, run.plan);
      BothTurned(m, mid, w, Here(), run, r, fil, dfil, ok);
      if !ok {
        LeftBoth(leaked, old(leaked), m.view.mfds, m.view.os, r);
      }
    }

    lemma BothMissed(m: Moment, w: Moment, n: Moment, run: Run, r: Redir)
      requires m.view.Inv() && r.ErrWrite? && m.leaked.Keys <= m.view.goal.Keys && m.calls <= w.calls == n.calls && !m.errflag
      requires (r.file == None && w.view == m.view) || Denied(m.calls, w.calls)
      requires n.leaked == m.leaked + LeakOf(w.view)
      ensures Turned(m, n, run, After(setup, run, r), true, true, false)
    {
      hide View.Inv, Aimed, LeakOf, Files, Dropped;
      StopTurned(m, n, run, After(setup, run, r), true, true);
    }

    /** Both descriptors, or neither. */
    method OpenTwo(r: Redir) returns (fil: int, dfil: int, ghost mid: View)
      requires Valid() && WellFormed(r) && r.ErrWrite? && forall f :: f in loose ==> f >= 10
      modifies `os, `table, `maxFd, `coprocin, `coprocout, `calls, `firsts, `loose
      ensures Valid() && old(calls) <= calls && mid.Inv()
      ensures fil == -1 ==> loose == old(loose) && ((r.file == None && Now() == old(Now())) || Denied(old(calls), calls))
      ensures fil != -1 ==>
                && fil >= 0 && Opened(old(Now()), mid, fil) && r.file == FileAt(mid.os, fil)
                && (forall f :: 0 <= f < fil ==> f in old(os))
                && dfil >= 10 && Opened(mid, Now(), dfil) && FileAt(os, dfil) == FileAt(mid.os, fil)
    {
      hide View.Inv, View.SaveOk, View.SplitOk, View.OwnerOk, View.HighOk, TableOk, Accounted, Settled, Shielded,
           Opened, Denied;
      ghost var v := Now();
      Known(v);
      fil := TakeFile(r);
      mid := Now();
      if fil == -1 {
        return -1, -1, mid;
      }
      OpenedIs(v, mid, fil);
      dfil := DupHigh(fil);
      if dfil == -1 {
        Discard(fil);
        return -1, -1, mid;
      }
      OpenedIs(mid, Now(), dfil);
    }

    lemma BothTurned(m: Moment, mid: View, w: Moment, n: Moment, run: Run, r: Redir, fil: int, dfil: int, ok: bool)
      requires m.view.Inv() && mid.Inv() && w.view.Inv() && r.ErrWrite? && !m.errflag && m.calls <= w.calls <= n.calls
      requires w.leaked == m.leaked && m.leaked.Keys <= m.view.goal.Keys && forall f :: f in m.view.loose ==> f >= 10
      requires fil >= 0 && Opened(m.view, mid, fil) && r.file == FileAt(mid.os, fil)
      requires (forall f :: 0 <= f < fil ==> f in m.view.os) && dfil >= 10 && Opened(mid, w.view, dfil)
      requires TriedBoth(w, n, run.plan, r.fd1, fil, dfil, ok) && (ok ==> n.leaked == m.leaked && !n.errflag)
      ensures Turned(m, n, run, After(setup, run, r), true, true, ok)
    {
      hide View.Inv, Aimed, LeakOf, Files, Dropped, After, Opened, StrayOf, Strays, Put;
      BothAfter(setup, run, r);
      OpenedIs(m.view, mid, fil);
      OpenedIs(mid, w.view, dfil);
      OpenedSame(mid, w.view, dfil, fil);
      if OnAt(m, run.plan, {}, false) {
        AimMore(m.view, mid, run.plan, setup, {}, Denied(0, m.calls), Denied(0, w.calls), false, fil);
        AimMore(mid, w.view, run.plan, setup, {} + {fil}, Denied(0, w.calls), Denied(0, w.calls), false, dfil);
        assert {} + {fil} + {dfil} == {fil, dfil};
        if !ok && !Denied(0, n.calls) {
          StrayFile(m.view, mid, run.plan, setup, fil);
        }
      }
    }

    /** Another descriptor is as before, placed or not. */
    lemma OpenedSame(v: View, w: View, dfil: int, fil: int)
      requires v.Inv() && Opened(v, w, dfil) && fil in v.os
      ensures FileAt(w.os, fil) == FileAt(v.os, fil) && StrayOf(w, fil) == StrayOf(v, fil) && fil != dfil
    {
      Known(v);
      assert Agree(w.os, v.os, fil);
    }

    /** One file was to be placed twice. */
    ghost predicate TriedBoth(m: Moment, n: Moment, plan: Plan, fd1: int, fil: int, dfil: int, ok: bool) {
      OnAt(m, plan, {fil, dfil}, false) && fil in m.view.os ==>
        var file := m.view.os[fil];
        var one := Put(setup.multios, plan, fd1, true, file);
        if one.None? then
          !Denied(0, n.calls) ==> !ok && Files(n.leaked) == Files(m.leaked) + Dropped(plan) + Files(StrayOf(m.view, fil))
        else
          var two := Put(setup.multios, one.value, 2, true, file);
          if two.None? then
            !Denied(0, n.calls) ==> !ok && Files(n.leaked) == Files(m.leaked) + Dropped(one.value) + {file}
          else (ok ==> OnAt(n, two.value, {}, false)) && (!Denied(0, n.calls) ==> ok)
    }

    /** Both are placed, even if the first cannot be. */
    method PutBoth(fd1: int, fil: int, dfil: int, ghost plan: Plan) returns (ok: bool)
      requires Valid() && !errflag && 0 <= fd1 < 10 && fil in loose && dfil in loose && fil != dfil && dfil >= 10
      requires forall f :: f in loose && f != fil ==> f >= 10
      requires fil in os && dfil in os && os[dfil] == os[fil]
      modifies `os, `table, `maxFd, `coprocin, `coprocout, `calls, `firsts, `owner, `loose, `goal, `leaked,
               `errflag, `pipes, save, mfds
      ensures old(calls) <= calls && loose == old(loose) - {fil, dfil}
      ensures ok ==> Valid() && !errflag && goal == old(goal) && leaked == old(leaked)
      ensures TriedBoth(old(Here()), Here(), plan, fd1, fil, dfil, ok)
      ensures !ok ==> Restored() && Accounted() && PipeSet(old(mfds[..])) <= leaked.Keys
    {
      hide View.Inv, View.SaveOk, View.SplitOk, View.OwnerOk, View.HighOk, TableOk, Accounted, Settled, Shielded, Aimed,
           Put, Unfit, LeakOf, StrayOf, Spilt, Tried, TriedBoth, Denied, Restored;
      ghost var m, next := Here(), Put(setup.multios, plan, fd1, true, os[fil]);
      PipesHigh(m.view);
      LeakedMeant();
      PutFile(fd1, fil, true, plan, {fil, dfil}, false);
      ghost var mid, first := Here(), mfds[fd1].Some?;
      if first {
        PipesMore(m.view.mfds, mid.view.mfds, fd1);
      }
      Known(mid.view);
      LeakedMeant();
      ghost var n, second;
      ok, n, second := PutSecond(dfil, if next.Some? then next.value else plan);
      BothTried(m, mid, n, plan, fd1, fil, dfil, first, second);
      BothGiven(m, n, Here(), plan, fd1, fil, dfil, first && second);
    }

    /** The duplicate is placed, and everything undone if that or the first has failed. */
    method PutSecond(dfil: int, ghost plan: Plan) returns (ok: bool, ghost n: Moment, ghost second: bool)
      requires Valid() && dfil in loose && dfil >= 10 && (forall f :: f in loose ==> f >= 10) && (errflag ==> NoStreams())
      modifies `os, `table, `maxFd, `coprocin, `coprocout, `calls, `firsts, `owner, `loose, `goal, `leaked,
               `errflag, `pipes, save, mfds
      ensures old(calls) <= calls == n.calls && n.leaked == leaked && loose == old(loose) - {dfil}
      ensures Tried(old(Here()), n, plan, {dfil}, false, 2, dfil, true, second) && ok == (second && !old(errflag))
      ensures if second then leaked == old(leaked) else old(errflag) ==> Denied(old(calls), calls)
      ensures ok ==> Valid() && !errflag && n == Here() && goal == old(goal)
      ensures !ok ==>
                && Restored() && Accounted() && PipeSet(old(mfds[..])) <= leaked.Keys
                && forall f :: f in old(leaked) && f >= 10 ==> f in leaked
    {
      hide View.Inv, View.SaveOk, View.SplitOk, View.OwnerOk, View.HighOk, TableOk, Accounted, Settled, Shielded, Aimed,
           Put, LeakOf, StrayOf, Spilt, Tried, Denied, Restored, PipeSet;
      if errflag {
        NoLeak();
      }
      PutFile(2, dfil, true, plan, {dfil}, false);
      n, second := Here(), mfds[2].Some?;
      ok := !errflag;
      if !ok {
        FewStreams();
        assert leaked + map[] == leaked;
        GiveUp();
      }
    }

    /** No stream is split that placing has not split. */
    lemma FewStreams()
      requires mfds.Length == 10 && (forall i :: 0 <= i < 10 && i != 2 ==> mfds[i] == None)
      requires mfds[2].Some? ==> mfds[2].value.fds == [2]
      ensures LeakOf(Now()) == map[]
    {
      assert PipeSet(mfds[..]) == {};
    }

    lemma BothGiven(m: Moment, n: Moment, n': Moment, plan: Plan, fd1: int, fil: int, dfil: int, ok: bool)
      requires TriedBoth(m, n, plan, fd1, fil, dfil, ok) && n'.calls == n.calls && n'.leaked == n.leaked && (ok ==> n' == n)
      ensures TriedBoth(m, n', plan, fd1, fil, dfil, ok)
    {
      hide Aimed, LeakOf, Files, Dropped, StrayOf, Put;
    }

    lemma BothTried(m: Moment, mid: Moment, n: Moment, plan: Plan, fd1: int, fil: int, dfil: int, first: bool, second: bool)
      requires m.view.Inv() && mid.view.Inv() && m.calls <= mid.calls <= n.calls && fil in m.view.os && fil != dfil && dfil >= 10
      requires m.leaked.Keys <= m.view.goal.Keys && mid.leaked.Keys <= mid.view.goal.Keys
      requires Tried(m, mid, plan, {fil, dfil}, false, fd1, fil, true, first)
      requires var next := Put(setup.multios, plan, fd1, true, m.view.os[fil]);
               Tried(mid, n, if next.Some? then next.value else plan, {dfil}, false, 2, dfil, true, second)
      requires first ==> mid.leaked == m.leaked && dfil in mid.view.loose && FileAt(mid.view.os, dfil) == FileAt(m.view.os, fil)
      requires (second ==> n.leaked == mid.leaked) && (!first && !second ==> Denied(mid.calls, n.calls))
      ensures TriedBoth(m, n, plan, fd1, fil, dfil, first && second)
    {
      hide View.Inv, Aimed, LeakOf, Files, Dropped, Put;
      var file := m.view.os[fil];
      assert {fil, dfil} - {fil} == {dfil} && {dfil} - {dfil} == {};
      if OnAt(m, plan, {fil, dfil}, false) && !Denied(0, n.calls) {
        if first {
          LeftFiles(mid.view, Put(setup.multios, plan, fd1, true, file).value, setup, {dfil}, false, mid.leaked, dfil);
          OneFile(dfil, file);
        } else {
          LeftFiles(m.view, plan, setup, {fil, dfil}, false, m.leaked, fil);
        }
      }
    }

    lemma PipesHigh(v: View)
      requires v.Inv()
      ensures forall p :: p in PipeSet(v.mfds) ==> p >= 10
    {
      forall p | p in PipeSet(v.mfds)
        ensures p >= 10
      {
        var i :| 0 <= i < 10 && HasPipe(v.mfds[i]) && v.mfds[i].value.pipe == p;
        KnownSplit(v, i);
      }
    }

    lemma PipesMore(was: seq<Option<Multio>>, mfds0: seq<Option<Multio>>, i: int)
      requires 0 <= i < |was| == |mfds0| && mfds0 == was[i := mfds0[i]]
      requires HasPipe(was[i]) ==> HasPipe(mfds0[i]) && mfds0[i].value.pipe == was[i].value.pipe
      ensures PipeSet(was) <= PipeSet(mfds0)
    {
      PipeSetAt(was, i);
      PipeSetAt(mfds0, i);
      assert mfds0[i := None] == was[i := None];
    }

    /** `close`, without the shell's table. */
    method Discard(fd: int)
      requires Valid() && fd in loose
      modifies `os, `loose
      ensures Valid() && loose == old(loose) - {fd}
    {
      hide View.Inv, View.SaveOk, View.SplitOk, View.OwnerOk, View.HighOk, TableOk, Accounted, Settled, Shielded;
      ghost var v := Now();
      Known(v);
      os, loose := os - {fd}, loose - {fd};
      Shuffle(v, Now());
    }

    lemma CloseTurned(m: Moment, n: Moment, run: Run, r: Redir)
      requires m.view.Inv() && r.Close? && !m.errflag && !n.errflag && m.calls <= n.calls
      requires Ended(m.view, n.view, r.fd1, Denied(0, n.calls)) && forall f :: f in m.view.loose ==> f >= 10
      requires !Denied(0, n.calls) ==> n.leaked == m.leaked
      ensures Turned(m, n, run, After(setup, run, r), true, true, true)
    {
      hide View.Inv, Aimed, Files, Dropped, Ended;
      if OnAt(m, run.plan, {}, false) {
        AimShut(m.view, n.view, run.plan, setup, Denied(0, m.calls), Denied(0, n.calls), r.fd1);
      }
    }

    /** One turn of the redirection loop; on failure everything has been undone. */
    method RedirectOne(r: Redir, ghost run: Run) returns (ok: bool)
      requires Valid() && WellFormed(r) && forall f :: f in loose ==> f >= 10
      requires r.Pipe? && r.given != -1 ==> r.given in loose
      modifies `os, `table, `maxFd, `coprocin, `coprocout, `calls, `firsts, `copiers, `owner, `loose, `goal,
               `leaked, `errflag, `pipes, save, mfds
      ensures old(calls) <= calls && (old(errflag) ==> errflag)
      ensures ok ==> Valid() && loose == old(loose) - if r.Pipe? then {r.given} else {}
      ensures ok && !r.Pipe? ==> !errflag
      ensures Turned(old(Here()), Here(), run, After(setup, run, r), Plain(run.plan, r), Own(setup, r), ok)
      ensures ok && !errflag ==>
                && leaked.Keys <= old(leaked).Keys
                && (goal == old(goal) || (r.Close? && goal == old(goal) - {r.fd1}))
      ensures ok && (r.Read? || r.Write?) ==>
                Streamed(old(mfds[..]), mfds[..], r.fd1, r.Write?, Denied(old(calls), calls))
      ensures !ok ==>
                && Restored() && Accounted() && loose <= old(loose)
                && LeftOpen(leaked, old(leaked), old(mfds[..]), old(os), r)
      ensures (r.Read? || r.Write?) && r.file == None ==> !ok
      ensures r.Close? && !old(errflag) ==> ok
      ensures !ok && !old(errflag) && (r.Read? || r.Write?) && r.file.Some? ==>
                Denied(old(calls), calls) || Blocked(old(mfds[r.fd1]), old(os), r.fd1, r.Write?)
    {
      hide View.Inv, View.SaveOk, View.SplitOk, View.OwnerOk, View.HighOk, TableOk, Accounted, Settled, Shielded, Aimed,
           Restored, LeftOpen, Streamed, LeakOf, PipeSet, Turned, Blocked, Ended, After, OnAt, Sane, Marked, Dropped;
      ghost var m := Here();
      LeakedMeant();
      SetupKnown();
      if (errflag && !r.Pipe?) || (r.Pipe? && r.given == -1) {
        PipesLess(m.view.mfds, r);
        GiveUp();
        LeftAll(leaked, old(leaked), m.view.mfds, m.view.mfds, m.view.os, r);
        HaltTurned(m, Here(), run, r);
        return false;
      }
      match r {
        case Pipe(fd1, given, out) =>
          PlacePipe(r, run);
          ok := true;
        case Close(fd1) =>
          CloseFd(fd1);
          CloseTurned(m, Here(), run, r);
          ok := true;
        case Merge(_, _, _) =>
          ok := MergeOne(r, run);
        case ErrWrite(_, _) =>
          ok := OpenBoth(r, run);
        case _ =>
          ok := OpenOne(r, run);
      }
      PlainTurned(m, Here(), run, After(setup, run, r), Plain(run.plan, r), Own(setup, r), ok);
    }

    /** It ends at once, as an error has been left before, or nothing was handed over. */
    lemma HaltTurned(m: Moment, n: Moment, run: Run, r: Redir)
      requires m.view.Inv() && m.leaked.Keys <= m.view.goal.Keys && m.calls <= n.calls && n.leaked == m.leaked + LeakOf(m.view)
      requires (m.errflag && !r.Pipe?) || (r.Pipe? && r.given !in setup.before)
      ensures Turned(m, n, run, After(setup, run, r), Plain(run.plan, r), Own(setup, r), false)
    {
      hide View.Inv, Aimed, LeakOf, Files, Dropped;
      StopTurned(m, n, run, After(setup, run, r), Plain(run.plan, r), Own(setup, r));
    }

    lemma PlainTurned(m: Moment, n: Moment, run: Run, next: Run, plain: bool, own: bool, ok: bool)
      ensures Turned(m, n, run, next, true, true, ok) ==> Turned(m, n, run, next, plain, own, ok)
    {
      hide Aimed, Files;
    }

    lemma PipesLess(mfds0: seq<Option<Multio>>, r: Redir)
      ensures SplitAt(mfds0, r) <= PipeSet(mfds0)
    {
      if r.Merge? && 0 <= r.fd2 < |mfds0| {
        PipeSetAt(mfds0, r.fd2);
      }
    }

    /** The redirection loop. */
    method RedirectAll(rs: seq<Redir>, ghost run: Run) returns (ok: bool)
      requires Valid() && forall k :: 0 <= k < |rs| ==> WellFormed(rs[k])
      requires GivenOnce(rs) && loose == Givens(rs) && forall f :: f in loose ==> f >= 10
      modifies `os, `table, `maxFd, `coprocin, `coprocout, `calls, `firsts, `copiers, `owner, `loose, `goal,
               `leaked, `errflag, `pipes, save, mfds
      ensures old(calls) <= calls && (old(errflag) && ok ==> errflag)
      ensures ok ==> Valid() && loose == {}
      ensures ok && !errflag ==>
                && leaked.Keys <= old(leaked).Keys
                && (forall i :: i in old(goal) && i !in goal ==> Close(i) in rs)
      ensures Turned(old(Here()), Here(), run, RunAll(setup, run, rs), PlainAll(setup, run, rs), OwnAll(setup, rs), ok)
      ensures !ok ==> Restored() && Accounted() && loose <= old(loose)
      ensures !old(errflag) && (forall k :: 0 <= k < |rs| ==> rs[k].Close?) ==> ok && !errflag
    {
      hide View.Inv, View.SaveOk, View.SplitOk, View.OwnerOk, View.HighOk, TableOk, Accounted, Settled, Shielded, Aimed,
           Restored, Left, LeftOpen, Streamed, Unfit, Blocked, Turned, Plain, Own, Sane, Marked, After, OnAt;
      assert rs[0..] == rs;
      ghost var m, cur := Here(), run;
      NotTurned(m, run);
      var k := 0;
      while k < |rs|
        invariant 0 <= k <= |rs| && Valid() && GivenOnce(rs[k..]) && loose == Givens(rs[k..])
        invariant loose <= old(loose) && old(calls) <= calls && (old(errflag) ==> errflag)
        invariant !errflag ==> leaked.Keys <= old(leaked).Keys && forall i :: i in old(goal) && i !in goal ==> Close(i) in rs
        invariant !old(errflag) && (forall k :: 0 <= k < |rs| ==> rs[k].Close?) ==> !errflag
        invariant RunAll(setup, run, rs) == RunAll(setup, cur, rs[k..])
        invariant PlainAll(setup, run, rs) ==> PlainAll(setup, cur, rs[k..])
        invariant Turned(m, Here(), run, cur, PlainAll(setup, run, rs), OwnAll(setup, rs), true)
      {
        assert rs[k..][0] == rs[k] && rs[k..][1..] == rs[k + 1..];
        assert rs[k] in rs;
        ghost var mid, was := Here(), cur;
        ok := RedirectOne(rs[k], cur);
        cur := After(setup, was, rs[k]);
        TurnedOn(m, mid, Here(), run, was, rs[k], PlainAll(setup, run, rs), OwnAll(setup, rs), ok);
        if !ok {
          StoppedTurned(m, Here(), run, cur, rs[k + 1..], PlainAll(setup, run, rs), OwnAll(setup, rs));
          return;
        }
        k := k + 1;
      }
      assert rs[k..] == [];
      ok := true;
    }

    lemma NotTurned(m: Moment, run: Run)
      ensures forall plain, own :: Turned(m, m, run, run, plain, own, true)
    {
      hide Aimed, Files;
    }

    /** Two stages make one. */
    lemma TurnedOn(m: Moment, mid: Moment, n: Moment, run: Run, was: Run, r: Redir, plain: bool, own: bool, ok: bool)
      requires Turned(m, mid, run, was, plain, own, true) && m.calls <= mid.calls <= n.calls
      requires ok && mid.errflag ==> n.errflag
      requires Turned(mid, n, was, After(setup, was, r), Plain(was.plan, r), Own(setup, r), ok)
      requires (plain ==> Plain(was.plan, r)) && (own ==> Own(setup, r))
      ensures Turned(m, n, run, After(setup, was, r), plain, own, ok)
    {
      hide Aimed, Files, After, Plain, Own, Sane;
      if Fine(After(setup, was, r)) {
        FineBack(setup, was, r);
      }
    }

    /** Nothing happens after the redirection that fails. */
    lemma StoppedTurned(m: Moment, n: Moment, run: Run, cur: Run, rs: seq<Redir>, plain: bool, own: bool)
      requires Turned(m, n, run, cur, plain, own, false)
      ensures Turned(m, n, run, RunAll(setup, cur, rs), plain, own, false)
    {
      hide Aimed, Files, Sane;
      if cur.stopped {
        StaysStopped(setup, cur, rs);
      }
    }

    /** The loop after the redirections. */
    method CloseStreams()
      requires Valid()
      modifies `os, `table, `maxFd, `coprocin, `coprocout, `calls, `copiers, `owner, mfds
      ensures Valid() && old(calls) <= calls && forall i :: 0 <= i < 10 && mfds[i].Some? ==> mfds[i].value.fds == [i]
      ensures HandedTo(old(Now()), Now(), 10, Denied(0, calls))
    {
      hide View.Inv, View.SaveOk, View.SplitOk, View.OwnerOk, View.HighOk, TableOk, Accounted, Settled, Shielded, HandedTo,
           Agree, Handed;
      ghost var v := Now();
      HandedFirst(v, Denied(0, calls));
      var i := 0;
      while i < 10
        invariant 0 <= i <= 10 && Valid() && old(calls) <= calls
        invariant HandedTo(v, Now(), i, Denied(0, calls))
      {
        ghost var mid, was := Now(), Denied(0, calls);
        if mfds[i].Some? && |mfds[i].value.fds| >= 2 {
          CloseMn(i, true);
          PartedMore(mid, i, calls - 1);
          HandedMore(v, mid, Now(), i, was, Denied(0, calls));
        } else {
          if mfds[i].Some? {
            AgainSettled(i);
          }
          HandedNone(v, mid, i, was);
        }
        i := i + 1;
      }
      HandedAll(v, Now(), Denied(0, calls));
    }

    lemma PartedMore(mid: View, i: int, k: nat)
      requires mid.Inv() && Parted(mid, i, grants(k)) && mfds.Length == 10 && k < calls
      requires (forall f :: f in os ==> f in mid.os) && forall j :: 0 <= j < 10 && j != i ==> mfds[j] == mid.mfds[j]
      requires mfds[i].Some? ==> mfds[i].value.fds == [i]
      ensures forall j :: 0 <= j < 10 ==> Agree(os, mid.os, j)
      ensures forall j :: 0 <= j < 10 && j != i ==> Handed(Now(), j) == Handed(mid, j)
      ensures if mfds[i].Some? then copiers == mid.copiers + Handed(mid, i) else Denied(0, calls) && copiers == mid.copiers
    {
      hide View.Inv, Agree, Handed;
      OthersStay(mid, Now(), i);
    }

    /** The pipeline's ends, then the redirections of the command, then a process for
        each stream that was split. */
    method Redirect(input: int, output: int, rs: seq<Redir>) returns (ok: bool)
      requires Valid() && Fresh() && forall k :: 0 <= k < |rs| ==> WellFormed(rs[k])
      requires GivenOnce(rs) && loose == Given(input) + Given(output) + Givens(rs)
      requires forall f :: f in loose ==> f >= 10
      requires Given(input) !! Given(output) !! Givens(rs)
      modifies `os, `table, `maxFd, `coprocin, `coprocout, `calls, `firsts, `copiers, `owner, `loose, `goal,
               `leaked, `errflag, `pipes, save, mfds
      ensures ok ==> Valid() && loose == {} && forall i :: 0 <= i < 10 && mfds[i].Some? ==> mfds[i].value.fds == [i]
      ensures ok && !errflag ==> leaked == map[] && forall i :: i in start && i !in goal ==> Close(i) in rs
      ensures Planned(RunAll(setup, START, Ends(input, output) + rs), OwnAll(setup, rs), ok)
      ensures ok && !errflag && Certain(Ends(input, output) + rs) ==>
                var run := RunAll(setup, START, Ends(input, output) + rs);
                Fine(run) ==> Running(Now(), run.plan, setup, Denied(0, calls)) && AllAsked(run.plan)
      ensures !ok ==> Restored() && Accounted() && loose <= old(loose)
      ensures input == output == 0 && (forall k :: 0 <= k < |rs| ==> rs[k].Close?) ==> ok && !errflag
    {
      hide View.Inv, TableOk, Accounted, Settled, Shielded, Aimed, Restored, Turned, PlainAll, OwnAll, Sane, After,
           RunAll, Running, HandedTo, Ends, Spares, Denied, Internal, SameAbove, Pinned, Frame, Agree, HasPipe,
           PipeSet, Holds, LeakOf, FileAt;
      ghost var m, all := Here(), Ends(input, output) + rs;
      ghost var run := RunAll(setup, START, all);
      FirstExact();
      ok := RedirectEnds(input, output, rs);
      ghost var n := Here();
      if ok {
        AskedAll(run.plan);
        CloseStreams();
        EndRuns(m, n, run, PlainAll(setup, START, all), OwnAll(setup, rs));
      } else {
        EndStops(m, run, PlainAll(setup, START, all), OwnAll(setup, rs));
      }
    }

    /** All of it but the processes. */
    method RedirectEnds(input: int, output: int, rs: seq<Redir>) returns (ok: bool)
      requires Valid() && !errflag && forall k :: 0 <= k < |rs| ==> WellFormed(rs[k])
      requires GivenOnce(rs) && loose == Given(input) + Given(output) + Givens(rs)
      requires forall f :: f in loose ==> f >= 10
      requires Given(input) !! Given(output) !! Givens(rs)
      modifies `os, `table, `maxFd, `coprocin, `coprocout, `calls, `firsts, `copiers, `owner, `loose, `goal,
               `leaked, `errflag, `pipes, save, mfds
      ensures ok ==> Valid() && loose == {}
      ensures ok && !errflag ==>
                leaked.Keys <= old(leaked).Keys && forall i :: i in old(goal) && i !in goal ==> Close(i) in rs
      ensures var all := Ends(input, output) + rs;
              Turned(old(Here()), Here(), START, RunAll(setup, START, all), PlainAll(setup, START, all), OwnAll(setup, rs), ok)
      ensures !ok ==> Restored() && Accounted() && loose <= old(loose)
      ensures input == output == 0 && (forall k :: 0 <= k < |rs| ==> rs[k].Close?) ==> ok && !errflag
    {
      hide View.Inv, TableOk, Accounted, Settled, Shielded, Aimed, Restored, Turned, PlainAll, OwnAll, Sane, After, RunAll,
           Ends, Denied;
      ghost var m, ends := Here(), Ends(input, output);
      ghost var mid := PlaceEnds(input, output);
      ghost var near := Here();
      RunAllSplit(setup, START, ends, rs);
      ok := RedirectAll(rs, mid);
      ghost var run, all := RunAll(setup, START, ends + rs), PlainAll(setup, START, ends + rs);
      if all {
        PlainAllSplit(setup, START, ends, rs);
      }
      if Fine(run) {
        FineBefore(setup, mid, rs);
      }
      BothStages(m, near, Here(), mid, run, all, PlainAll(setup, mid, rs), OwnAll(setup, rs), ok);
    }

    /** It has gone as planned, in so far as nothing was denied. */
    ghost predicate Planned(run: Run, own: bool, ok: bool)
      reads `leaked, `errflag, `calls
    {
      !Denied(0, calls) && own && Sane(setup) ==>
        && Files(leaked) == run.lost
        && (ok <==> !run.stopped) && (ok && !errflag <==> Fine(run))
    }

    /** Whatever was denied does not change what these redirections mean. */
    ghost predicate Certain(rs: seq<Redir>)
      reads `calls
    {
      Sane(setup) && (Denied(0, calls) ==> PlainAll(setup, START, rs))
    }

    /** A duplicate of every descriptor that was redirected has been asked for. */
    ghost predicate AllAsked(plan: Plan)
      reads `firsts
    {
      forall i :: i in plan.aims && i in start ==> i in firsts
    }

    lemma FirstExact()
      requires Valid() && Fresh() && forall f :: f in loose ==> f >= 10
      ensures ExactAt(Here(), START)
    {
      hide View.Inv, Accounted, Settled, Aimed;
      AimedFirst(Now(), setup);
      assert Files(leaked) == {};
    }

    lemma AskedAll(plan: Plan)
      requires Valid()
      ensures OnAt(Here(), plan, {}, false) ==> AllAsked(plan)
    {
      hide View.Inv, Settled, Aimed, Account, Unasked;
      if OnAt(Here(), plan, {}, false) {
        AimAsked(Now(), plan, setup, Denied(0, calls), firsts, leaked, grants);
      }
    }

    lemma BothStages(m: Moment, near: Moment, n: Moment, mid: Run, run: Run, plain: bool, plain': bool, own: bool, ok: bool)
      requires m.calls <= near.calls <= n.calls && Turned(m, near, START, mid, true, true, true)
      requires Turned(near, n, mid, run, plain', own, ok) && (plain ==> plain') && (Fine(run) ==> Fine(mid))
      requires ok && near.errflag ==> n.errflag
      ensures Turned(m, n, START, run, plain, own, ok)
    {
      hide Aimed, Files, Sane;
    }

    lemma EndStops(m: Moment, run: Run, plain: bool, own: bool)
      requires Turned(m, Here(), START, run, plain, own, false) && ExactAt(m, START)
      ensures Planned(run, own, false)
    {
      hide Aimed, Files, Sane;
    }

    /** At the end the streams are handed over. */
    lemma EndRuns(m: Moment, n: Moment, run: Run, plain: bool, own: bool)
      requires Turned(m, n, START, run, plain, own, true) && ExactAt(m, START) && n.view.Inv() && n.view.loose == {}
      requires n.calls <= calls && n.leaked == leaked && n.errflag == errflag && |mfds[..]| == 10
      requires HandedTo(n.view, Now(), 10, Denied(0, calls))
      ensures Planned(run, own, true)
      ensures !errflag && Sane(setup) && (Denied(0, calls) ==> plain) && Fine(run) ==>
                Running(Now(), run.plan, setup, Denied(0, calls)) && OnAt(n, run.plan, {}, false)
    {
      hide View.Inv, Aimed, Files, HandedTo, Running, Sane;
      if !errflag && Sane(setup) && (Denied(0, calls) ==> plain) && Fine(run) {
        RunsAsAimed(n.view, Now(), run.plan, setup, Denied(0, n.calls), Denied(0, calls));
      }
    }

    /** What the command is handed as its input and output. */
    method PlaceEnds(input: int, output: int) returns (ghost run: Run)
      requires Valid() && Given(input) + Given(output) <= loose && Given(input) !! Given(output)
      requires forall f :: f in loose ==> f >= 10
      modifies `os, `table, `maxFd, `coprocin, `coprocout, `calls, `firsts, `owner, `loose, `goal, `leaked,
               `errflag, `pipes, save, mfds
      ensures Valid() && loose == old(loose) - Given(input) - Given(output) && old(calls) <= calls
      ensures old(errflag) ==> errflag
      ensures !errflag ==> goal == old(goal) && leaked == old(leaked)
      ensures run == RunAll(setup, START, Ends(input, output))
      ensures Turned(old(Here()), Here(), START, run, true, true, true)
      ensures input == output == 0 ==> !old(errflag) ==> !errflag
    {
      hide View.Inv, View.SaveOk, View.SplitOk, View.OwnerOk, View.HighOk, TableOk, Accounted, Settled, Shielded, Aimed,
           Turned, After, RunAll;
      ghost var m := Here();
      NotTurned(m, START);
      run := START;
      if input != 0 {
        PlacePipe(Pipe(0, input, false), START);
        run := After(setup, START, Pipe(0, input, false));
      }
      EndsRun(setup, input, output);
      if output != 0 {
        ghost var mid, was := Here(), run;
        PlacePipe(Pipe(1, output, true), run);
        run := After(setup, was, Pipe(1, output, true));
        TurnedOn(m, mid, Here(), START, was, Pipe(1, output, true), true, true, true);
      }
    }

    lemma RestIsGoal()
      requires Restored() && Accounted()
      ensures os - loose == (start - Lost()) + leaked
      ensures forall f :: f in start && f !in Lost() && f !in loose ==> f in os && os[f] == start[f]
    {
      forall fd
        ensures fd in os - loose <==> fd in goal
        ensures fd in goal ==> os[fd] == goal[fd]
      {
        assert fd >= 0 && fd !in loose ==> Agree(os, goal, fd);
      }
      assert os - loose == goal;
      forall f | f in start && f !in Lost() && f !in loose
        ensures f in os && os[f] == start[f]
      {
        LeakedApart(save[..], goal, start, firsts, leaked, grants, f);
      }
    }

    lemma AccountLost(i: int)
      requires Accounted() && leaked == map[] && i in Lost()
      ensures i !in goal
    {
    }

    lemma LostDenied()
      requires Accounted()
      ensures Lost() != {} ==> Denied(0, calls)
    {
      forall i | i in Lost() ensures Denied(0, calls) {
        assert firsts[i] < calls && !grants(firsts[i]);
      }
      if !Denied(0, calls) {
        assert Lost() == {};
      }
    }

    /** A builtin with redirections: afterwards the open files are those of before,
        without what it was handed, without descriptors whose duplicate the system refused
        when they were first touched, and with what a failed redirection has leaked. With
        nothing denied it succeeds just where the plan does, and leaks just what the plan does. */
    method RunBuiltin(input: int, output: int, rs: seq<Redir>) returns (ok: bool)
      requires Valid() && Fresh() && forall k :: 0 <= k < |rs| ==> WellFormed(rs[k])
      requires GivenOnce(rs) && loose == Given(input) + Given(output) + Givens(rs)
      requires forall f :: f in loose ==> f >= 10
      requires Given(input) !! Given(output) !! Givens(rs)
      modifies `os, `table, `maxFd, `coprocin, `coprocout, `calls, `firsts, `copiers, `owner, `loose, `goal,
               `leaked, `errflag, `pipes, save, mfds
      ensures os - loose == (old(os) - old(loose) - Lost()) + leaked
      ensures forall f :: f in old(os) && f !in old(loose) && f !in Lost() ==> f in os && os[f] == old(os)[f]
      ensures if ok then loose == {} else loose <= old(loose)
      ensures ok && !errflag ==> leaked == map[]
      ensures ok && !errflag ==> forall i :: i in Lost() && i in old(os) && i !in old(loose) ==> Close(i) in rs
      ensures !Denied(0, calls) ==> Lost() == {}
      ensures ok && !errflag && !Denied(0, calls) ==> os == old(os) - old(loose)
      ensures Planned(RunAll(setup, START, Ends(input, output) + rs), OwnAll(setup, rs), ok)
      ensures ok && !errflag && Certain(Ends(input, output) + rs) ==>
                var run := RunAll(setup, START, Ends(input, output) + rs);
                Fine(run) ==> AllAsked(run.plan)
      ensures input == output == 0 && (forall k :: 0 <= k < |rs| ==> rs[k].Close?) ==> ok && !errflag
    {
      hide View.Inv, View.SaveOk, View.SplitOk, View.OwnerOk, View.HighOk, TableOk, Accounted, Settled, Shielded, Aimed,
           Restored, PlainAll, OwnAll, Sane, After, RunAll, Running, Ends, Lost, AllAsked;
      GoalIsRest(Now());
      ok := Redirect(input, output, rs);
      if ok {
        FixFds();
      }
      RestIsGoal();
      LostDenied();
      if ok && !errflag {
        forall i | i in Lost() && i in start
          ensures i !in goal
        {
          AccountLost(i);
        }
        assert os - {} == os;
      }
    }
  }

  /** `>a >b <c` with no `c`: the output is split, and when the third redirection fails the
      pipe of the split stream is not closed. */
  lemma FailureLeavesPipe(s: Setup, a: File, b: File)
    requires s.multios
    ensures var run := RunAll(s, START, [Write(1, Some(a)), Write(1, Some(b)), Read(0, None)]);
            run.stopped && run.lost == {End(0, false)}
  {
    var rs := [Write(1, Some(a)), Write(1, Some(b)), Read(0, None)];
    var plan := Plan(map[1 := Open(true, [a, b], 0)], 1, []);
    TwoWrites(s, a, b, [Read(0, None)]);
    assert rs == [Write(1, Some(a)), Write(1, Some(b))] + [Read(0, None)];
    RunAllOne(s, Run(plan, false, {}, false), Read(0, None));
    assert Splits(plan, 1);
    assert Dropped(plan) == {End(0, false)};
  }

  /** `>a >b` splits the output. */
  lemma TwoWrites(s: Setup, a: File, b: File, rs: seq<Redir>)
    requires s.multios
    ensures RunAll(s, START, [Write(1, Some(a)), Write(1, Some(b))] + rs) ==
            RunAll(s, Run(Plan(map[1 := Open(true, [a, b], 0)], 1, []), false, {}, false), rs)
  {
    var (x, y) := (Write(1, Some(a)), Write(1, Some(b)));
    RunAllSplit(s, START, [x, y], rs);
    assert [x, y] == [x] + [y];
    RunAllSplit(s, START, [x], [y]);
    RunAllOne(s, START, x);
    var one := START.plan.(aims := START.plan.aims[1 := Open(true, [a], 0)]);
    assert After(s, START, x).plan == one;
    RunAllOne(s, After(s, START, x), y);
    assert [a] + [b] == [a, b] && one.aims[1 := Open(true, [a, b], 0)] == map[1 := Open(true, [a, b], 0)];
  }

  /** `>a >b >&- >c`: a stream that was split and closed takes nothing more. */
  lemma ClosedTakesNothing(s: Setup, a: File, b: File, c: File)
    requires s.multios && 0 in s.start
    ensures var run := RunAll(s, START, [Write(1, Some(a)), Write(1, Some(b)), Close(1), Write(1, Some(c))]);
            run.stopped && run.lost == {}
  {
    var rs := [Write(1, Some(a)), Write(1, Some(b)), Close(1), Write(1, Some(c))];
    TwoWrites(s, a, b, [Close(1), Write(1, Some(c))]);
    assert rs == [Write(1, Some(a)), Write(1, Some(b))] + [Close(1), Write(1, Some(c))];
    var two := Run(Plan(map[1 := Open(true, [a, b], 0)], 1, []), false, {}, false);
    assert [Close(1), Write(1, Some(c))][1..] == [Write(1, Some(c))];
    var shut := After(s, two, Close(1));
    assert shut.plan.aims == map[1 := Shut(true)];
    RunAllOne(s, shut, Write(1, Some(c)));
    assert Dropped(shut.plan) == {};
    assert OpenNow(s, shut.plan, 0) && !OpenNow(s, shut.plan, 1);
    assert !Strays(s, shut.plan);
  }

  /** The first of these as the shell does it. */
  method PipeStaysOpen() returns (shell: Redirector)
    ensures Files(shell.leaked) == {End(0, false)}
    ensures shell.os == map[0 := Named(10), 1 := Named(11), 2 := Named(12)] + shell.leaked
  {
    hide Redirector.Valid, Redirector.Fresh, Givens, GivenOnce, RunAll, Files;
    var before := map[0 := Named(10), 1 := Named(11), 2 := Named(12)];
    var rs := [Write(1, Some(Named(20))), Write(1, Some(Named(21))), Read(0, None)];
    NoGivens(rs);
    shell := new Redirector(before, map[], 9, -1, -1, true, _ => true, {});
    var ok := shell.RunBuiltin(0, 0, rs);
    assert Ends(0, 0) + rs == rs;
    FailureLeavesPipe(shell.setup, Named(20), Named(21));
    assert shell.loose == {} && shell.os - {} == shell.os && before - {} == before;
  }

  /** The second: it fails, and everything is restored. */
  method ClosedStreamFails() returns (shell: Redirector, ok: bool)
    ensures !ok && shell.os == map[0 := Named(10), 1 := Named(11), 2 := Named(12)]
  {
    hide Redirector.Valid, Redirector.Fresh, Givens, GivenOnce, RunAll;
    var before := map[0 := Named(10), 1 := Named(11), 2 := Named(12)];
    var rs := [Write(1, Some(Named(20))), Write(1, Some(Named(21))), Close(1), Write(1, Some(Named(22)))];
    NoGivens(rs);
    shell := new Redirector(before, map[], 9, -1, -1, true, _ => true, {});
    ok := shell.RunBuiltin(0, 0, rs);
    assert Ends(0, 0) + rs == rs;
    ClosedTakesNothing(shell.setup, Named(20), Named(21), Named(22));
    assert shell.loose == {} && shell.os - {} == shell.os && before - {} == before;
    NoFiles(shell.leaked);
    assert before + map[] == before;
  }

  lemma NoFiles(m: map<int, File>)
    requires Files(m) == {}
    ensures m == map[]
  {
    assert forall k :: k in m ==> m[k] in Files(m);
  }

  /** A descriptor is closed for a command where the system refuses every duplicate: the
      command runs, and afterwards the descriptor is gone. */
  method CloseRefused(shell: Redirector, fd1: int) returns (ok: bool)
    requires shell.Valid() && shell.Fresh() && shell.loose == {} && Sane(shell.setup)
    requires 0 <= fd1 < 10 && fd1 in shell.os && forall k :: !shell.grants(k)
    modifies shell, shell.save, shell.mfds
    ensures ok && !shell.errflag && shell.os == old(shell.os) - {fd1}
  {
    hide Redirector.Valid, Givens, GivenOnce, RunAll, PlainAll, LostOf, Sane, Fine, Redirector.Planned, After;
    NoGivens([Close(fd1)]);
    ghost var start := shell.os;
    assert start - {} == start;
    ok := shell.RunBuiltin(0, 0, [Close(fd1)]);
    assert Ends(0, 0) + [Close(fd1)] == [Close(fd1)];
    OneClose(shell.setup, fd1);
    assert shell.os - {} == shell.os;
    LostWhereAsked(start, shell.firsts, shell.grants, fd1);
  }

  /** The same for `>&-`. */
  method ClosedForGood() returns (shell: Redirector, ok: bool)
    ensures ok && !shell.errflag && shell.os == map[0 := Named(10), 2 := Named(12)]
  {
    hide Redirector.Valid, Redirector.Fresh;
    shell := new Redirector(map[0 := Named(10), 1 := Named(11), 2 := Named(12)], map[], 9, -1, -1, true, _ => false, {});
    ok := CloseRefused(shell, 1);
    assert map[0 := Named(10), 1 := Named(11), 2 := Named(12)] - {1} == map[0 := Named(10), 2 := Named(12)];
  }

  lemma OneClose(s: Setup, fd1: int)
    ensures PlainAll(s, START, [Close(fd1)])
    ensures Fine(RunAll(s, START, [Close(fd1)])) && fd1 in RunAll(s, START, [Close(fd1)]).plan.aims
  {
    RunAllOne(s, START, Close(fd1));
  }

  /** Of what was open only what was closed is lost. */
  lemma LostWhereAsked(os: map<int, File>, firsts: map<int, nat>, grants: nat -> bool, fd1: int)
    requires fd1 in firsts && !grants(firsts[fd1]) && forall i :: i in LostOf(firsts, grants) && i in os ==> i == fd1
    ensures os - LostOf(firsts, grants) + map[] == os - {fd1}
  {
    assert fd1 in LostOf(firsts, grants);
    assert forall i :: i in os ==> (i in LostOf(firsts, grants) <==> i == fd1);
  }
}
