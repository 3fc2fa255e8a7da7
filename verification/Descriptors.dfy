/** Descriptors during redirection (exec.c): which are open, saved above 9, or part of a
    split stream, what is to be open afterwards, and what each step keeps of it. */
module Descriptors {
  /** A file that was there before, or an end of a pipe. */
  datatype File = Named(name: int) | End(pipe: nat, writing: bool)

  datatype Option<+T> = None | Some(value: T)

  /** `struct multio`: what is redirected to or from one descriptor. */
  datatype Multio = Multio(out: bool, pipe: int, fds: seq<int>)

  const FDT_UNUSED := 0
  const FDT_INTERNAL := 1
  const FDT_EXTERNAL := 2
  const FDT_SAVED_MASK := 16

  /** `save[i]` before descriptor `i` is touched. */
  const UNTOUCHED := -2

  /** Why a descriptor above 9 is open during redirection. */
  datatype Owner = Saved(of: int) | Split(of: int)

  /** `fdtable[fd]`. */
  function Kind(table: map<int, int>, fd: int): int {
    if fd in table then table[fd] else FDT_UNUSED
  }

  predicate Internal(table: map<int, int>, fd: int) {
    Kind(table, fd) == FDT_INTERNAL || Kind(table, fd) == FDT_INTERNAL + FDT_SAVED_MASK
  }

  /** Descriptors a multio holds open. */
  predicate Holds(m: Multio, fd: int) {
    fd in m.fds || (|m.fds| >= 2 && m.pipe == fd)
  }

  function FileAt(os: map<int, File>, fd: int): Option<File> {
    if fd in os then Some(os[fd]) else None
  }

  predicate Agree(a: map<int, File>, b: map<int, File>, fd: int) {
    FileAt(a, fd) == FileAt(b, fd)
  }

  /** The files a descriptor reads from or writes to: several when it is split. */
  function Targets(os: map<int, File>, m: Option<Multio>, fd: int): seq<Option<File>> {
    if m.Some? && |m.value.fds| >= 2 then seq(|m.value.fds|, k requires 0 <= k < |m.value.fds| => FileAt(os, m.value.fds[k]))
    else [FileAt(os, fd)]
  }

  /** Every descriptor open before is as it was, apart from two. */
  predicate Frame(before: map<int, File>, after: map<int, File>, a: int, b: int) {
    forall fd :: fd in before && fd != a && fd != b ==> Agree(after, before, fd)
  }

  lemma FrameTrans(a: map<int, File>, b: map<int, File>, c: map<int, File>, x: int, y: int, z: int)
    requires Frame(a, b, x, x) && Frame(b, c, y, z)
    ensures forall fd :: fd in a && fd != x && fd != y && fd != z ==> Agree(c, a, fd)
  {
    forall fd | fd in a && fd != x && fd != y && fd != z
      ensures Agree(c, a, fd)
    {
      assert Agree(b, a, fd);
      assert Agree(c, b, fd);
    }
  }

  /** A process that copies between the pipe it has and the files of a split stream. */
  datatype Copier = Copier(pipe: Option<File>, out: bool, files: seq<Option<File>>)

  /** One moment of redirection. `goal` is the table of open files that `fixfds` is to
      leave, `owner` the descriptors made for redirection, `loose` the descriptors that
      are open but not yet placed, `pipes` how many pipes there have been, and `copiers`
      the processes started. */
  datatype View = View(os: map<int, File>, table: map<int, int>, save: seq<int>, mfds: seq<Option<Multio>>,
                       goal: map<int, File>, owner: map<int, Owner>, loose: set<int>,
                       pipes: nat, copiers: seq<Copier>)
  {
    /** What `save[i]` says of descriptor `i`. */
    predicate SaveOk(i: int)
      requires 0 <= i < |save|
    {
      var s := save[i];
      && s >= -2
      && (s == UNTOUCHED ==> if i in loose then i !in goal else Agree(os, goal, i))
      && (s == -1 ==> i !in goal)
      && (s >= 0 ==> s in owner && owner[s] == Saved(i))
    }

    predicate SplitOk(i: int)
      requires 0 <= i < |save| == |mfds|
    {
      mfds[i].Some? ==>
        var m := mfds[i].value;
        && save[i] != UNTOUCHED
        && m.fds != []
        && (|m.fds| >= 2 && m.pipe != -1 ==> m.pipe !in m.fds && m.pipe in owner && owner[m.pipe] == Split(i))
        && forall fd :: fd in m.fds && m.fds != [i] ==> fd in owner && owner[fd] == Split(i)
    }

    predicate OwnerOk(fd: int)
      requires |save| == |mfds| == 10
    {
      fd in owner ==>
        var i := owner[fd].of;
        && fd >= 10 && fd in os && fd !in goal && Internal(table, fd) && 0 <= i < 10
        && (owner[fd].Saved? ==> save[i] == fd && i in goal && os[fd] == goal[i])
        && (owner[fd].Split? ==> mfds[i].Some? && Holds(mfds[i].value, fd))
    }

    /** Descriptors above 9 are those of the start, saved, split, or still to be placed. */
    predicate HighOk(fd: int) {
      && (fd in loose ==> fd in os && fd >= 0 && fd !in owner && (fd >= 10 ==> fd !in goal))
      && (fd in os ==> fd >= 0 && (fd >= 10 ==> fd in loose || fd in owner || fd in goal))
      && (fd in goal ==> fd >= 0 && (fd >= 10 ==> fd in os && os[fd] == goal[fd]))
    }

    ghost predicate Inv() {
      && |save| == |mfds| == 10
      && (forall i :: 0 <= i < 10 ==> SaveOk(i) && SplitOk(i))
      && forall fd :: OwnerOk(fd) && HighOk(fd)
    }
  }

  /** A stream is split only with MULTIOS set, and never left half split. */
  predicate Settled(mfds: seq<Option<Multio>>, multios: bool) {
    forall i :: 0 <= i < |mfds| && mfds[i].Some? ==>
      var fds := mfds[i].value.fds;
      fds == [i] || (multios && |fds| >= 2)
  }

  ghost predicate SameAbove(t: map<int, int>, u: map<int, int>, except: set<int>) {
    forall fd :: fd >= 10 && fd !in except ==> Kind(t, fd) == Kind(u, fd)
  }

  lemma SaveStep(v: View, i: int, n: int, table: map<int, int>, v': View)
    requires v.Inv()
    requires 0 <= i < 10 && v.save[i] == UNTOUCHED && i in v.os && i !in v.loose
    requires n >= 10 && n !in v.os && Internal(table, n) && SameAbove(v.table, table, {n})
    requires v' == v.(os := v.os[n := v.os[i]] - {i}, table := table, save := v.save[i := n],
                      owner := v.owner[n := Saved(i)])
    ensures v'.Inv()
  {
    assert v.SaveOk(i) && v.SplitOk(i) && v.HighOk(n);
    forall j | 0 <= j < 10 ensures v'.SaveOk(j) && v'.SplitOk(j) { assert v.SaveOk(j) && v.SplitOk(j); }
    forall fd ensures v'.OwnerOk(fd) && v'.HighOk(fd) { assert v.OwnerOk(fd) && v.HighOk(fd); }
  }

  /** The descriptor was closed without a duplicate. */
  lemma SaveClosed(v: View, i: int, table: map<int, int>, save: seq<int>, v': View)
    requires v.Inv()
    requires 0 <= i < 10 && v.save[i] == UNTOUCHED && SameAbove(v.table, table, {})
    requires save == v.save || save == v.save[i := -1]
    requires v' == v.(os := v.os - {i}, table := table, save := save, goal := v.goal - {i}, loose := v.loose - {i})
    ensures v'.Inv()
  {
    assert v.SaveOk(i) && v.SplitOk(i);
    forall j | 0 <= j < 10 ensures v'.SaveOk(j) && v'.SplitOk(j) { assert v.SaveOk(j) && v.SplitOk(j); }
    forall fd ensures v'.OwnerOk(fd) && v'.HighOk(fd) { assert v.OwnerOk(fd) && v.HighOk(fd); }
  }

  lemma PlaceStep(v: View, fd1: int, fd2: int, m: Multio, table: map<int, int>, v': View)
    requires v.Inv()
    requires 0 <= fd1 < 10 && v.save[fd1] != UNTOUCHED && (v.mfds[fd1] == None || v.mfds[fd1].value.fds == [fd1])
    requires fd2 in v.loose && fd2 in v.os && (forall f :: f in v.loose && f < 10 ==> f == fd2)
    requires SameAbove(v.table, table, {fd2}) && m.fds == [fd1]
    requires v' == v.(os := if fd1 == fd2 then v.os else v.os[fd1 := v.os[fd2]] - {fd2}, table := table,
                      mfds := v.mfds[fd1 := Some(m)], loose := v.loose - {fd2})
    ensures v'.Inv()
  {
    assert v.HighOk(fd2);
    forall j | 0 <= j < 10 ensures v'.SaveOk(j) && v'.SplitOk(j) { assert v.SaveOk(j) && v.SplitOk(j); }
    forall fd ensures v'.OwnerOk(fd) && v'.HighOk(fd) { assert v.OwnerOk(fd) && v.HighOk(fd); }
  }

  /** A descriptor that was not open when it was first touched. */
  lemma SaveFree(v: View, i: int, table: map<int, int>, v': View)
    requires v.Inv()
    requires 0 <= i < 10 && v.save[i] == UNTOUCHED && i !in v.goal && SameAbove(v.table, table, {})
    requires v' == v.(table := table, save := v.save[i := -1])
    ensures v'.Inv()
  {
    assert v.SaveOk(i) && v.SplitOk(i);
    forall j | 0 <= j < 10 ensures v'.SaveOk(j) && v'.SplitOk(j) { assert v.SaveOk(j) && v.SplitOk(j); }
    forall fd ensures v'.OwnerOk(fd) && v'.HighOk(fd) { assert v.OwnerOk(fd) && v.HighOk(fd); }
  }

  /** Descriptors whose file matters before `fixfds`. */
  predicate Pinned(save: seq<int>, fd: int) {
    fd >= 10 || (0 <= fd < 10 && |save| == 10 && save[fd] == UNTOUCHED)
  }

  /** Only loose descriptors, and those that will be restored anyway, have changed. */
  lemma Shuffle(v: View, v': View)
    requires v.Inv()
    requires v' == v.(os := v'.os, table := v'.table, loose := v'.loose)
    requires forall fd :: Pinned(v.save, fd) ==> Agree(v'.os - v'.loose, v.os - v.loose, fd)
    requires forall fd :: fd in v'.loose ==> fd in v'.os && (fd in v.loose || fd !in v.os)
    requires forall fd :: fd in v'.os ==> fd >= 0
    requires forall fd :: fd in v.owner ==> Kind(v'.table, fd) == Kind(v.table, fd)
    ensures v'.Inv()
  {
    forall j | 0 <= j < 10 ensures v'.SaveOk(j) && v'.SplitOk(j) {
      assert v.SaveOk(j) && v.SplitOk(j);
      assert Pinned(v.save, j) ==> Agree(v'.os - v'.loose, v.os - v.loose, j);
    }
    forall fd ensures v'.OwnerOk(fd) && v'.HighOk(fd) {
      assert v.OwnerOk(fd) && v.HighOk(fd);
      assert Pinned(v.save, fd) ==> Agree(v'.os - v'.loose, v.os - v.loose, fd);
    }
  }

  /** A descriptor to be placed, or to be restored, has been moved above 9 or closed. */
  lemma RaiseStep(v: View, v': View, fd: int, r: int)
    requires v.Inv() && (fd in v.loose || (0 <= fd < 10 && v.save[fd] != UNTOUCHED))
    requires r == -1 || (r >= 10 && fd in v.os && (r == fd || (fd < 10 && r !in v.os)))
    requires r == -1 ==> fd < 10
    requires v' == v.(os := if r == -1 then v.os - {fd} else if r == fd then v.os else v.os[r := v.os[fd]] - {fd},
                      table := v'.table, loose := v.loose - {fd} + if r == -1 then {} else {r})
    requires SameAbove(v.table, v'.table, {r})
    ensures v'.Inv()
  {
    hide View.Inv, View.SaveOk, View.SplitOk, View.OwnerOk, View.HighOk;
    Known(v);
    if r == fd {
      assert fd in v.loose;
    }
    Shuffle(v, v');
  }

  /** The ends of a pipe, where there are any, have been opened. */
  lemma PipeStep(v: View, v': View, reader: int, writer: int)
    requires v.Inv()
    requires v' == v.(os := v'.os, table := v'.table, loose := v.loose + ({reader, writer} - {-1}), pipes := v'.pipes)
    requires reader != -1 ==> reader >= 10 && reader !in v.os && reader in v'.os
    requires writer != -1 ==> writer >= 10 && writer !in v.os && writer in v'.os
    requires (forall f :: f in v'.os ==> f >= 0) && SameAbove(v.table, v'.table, {reader, writer})
    requires forall f :: f != reader && f != writer ==> Agree(v'.os, v.os, f)
    ensures v'.Inv()
  {
    hide View.Inv, View.SaveOk, View.SplitOk, View.OwnerOk, View.HighOk;
    Known(v);
    PipesMade(v, v'.pipes, v.copiers);
    forall fd
      ensures fd in v.loose ==> fd in v'.os
      ensures Pinned(v.save, fd) ==> Agree(v'.os - v'.loose, v.os - v.loose, fd)
    {
      assert fd != reader && fd != writer ==> Agree(v'.os, v.os, fd);
    }
    Shuffle(v.(pipes := v'.pipes, copiers := v.copiers), v');
  }

  /** Pipes made and processes started do not matter to the invariant. */
  lemma PipesMade(v: View, n: nat, copiers: seq<Copier>)
    requires v.Inv()
    ensures v.(pipes := n, copiers := copiers).Inv()
  {
    var v' := v.(pipes := n, copiers := copiers);
    forall j | 0 <= j < 10 ensures v'.SaveOk(j) && v'.SplitOk(j) { assert v.SaveOk(j) && v.SplitOk(j); }
    forall fd ensures v'.OwnerOk(fd) && v'.HighOk(fd) { assert v.OwnerOk(fd) && v.HighOk(fd); }
  }

  /** Loose descriptors become part of a multio that is, or becomes, split. */
  lemma HoldStep(v: View, i: int, m: Multio, more: set<int>, owner: map<int, Owner>, v': View)
    requires v.Inv()
    requires 0 <= i < 10 && v.mfds[i].Some?
    requires var was := v.mfds[i].value;
             || was.fds == [i]
             || ((forall fd :: fd in was.fds ==> fd in m.fds) && (|was.fds| >= 2 ==> m.pipe == was.pipe))
    requires m.fds != [] && (|m.fds| == 1 ==> |v.mfds[i].value.fds| == 1)
    requires more <= v.loose && (forall fd :: fd in more ==> fd >= 10 && Internal(v.table, fd) && Holds(m, fd))
    requires forall fd :: Holds(m, fd) ==> fd in more || Holds(v.mfds[i].value, fd) || (fd == -1 && fd == m.pipe)
    requires (forall fd :: fd in m.fds ==> fd >= 0) && i !in m.fds
    requires |m.fds| >= 2 ==> m.pipe != i && m.pipe !in m.fds
    requires owner.Keys == v.owner.Keys + more
    requires forall fd :: fd in owner ==> owner[fd] == if fd in more then Split(i) else v.owner[fd]
    requires v' == v.(mfds := v.mfds[i := Some(m)], owner := owner, loose := v.loose - more)
    ensures v'.Inv()
  {
    forall fd | fd in more ensures fd !in v.owner { assert v.HighOk(fd); }
    assert v.SplitOk(i);
    forall j | 0 <= j < 10 ensures v'.SaveOk(j) && v'.SplitOk(j) {
      assert v.SaveOk(j) && v.SplitOk(j);
      if j == i {
        forall fd | fd in m.fds ensures fd in owner && owner[fd] == Split(i) { assert Holds(m, fd); }
        assert |m.fds| >= 2 ==> Holds(m, m.pipe);
      }
    }
    forall fd ensures v'.OwnerOk(fd) && v'.HighOk(fd) { assert v.OwnerOk(fd) && v.HighOk(fd); }
  }

  /** The same for what `addfd` puts together. */
  lemma HoldMore(v: View, i: int, m: Multio, more: set<int>, owner: map<int, Owner>, v': View)
    requires v.Inv() && 0 <= i < 10 && v.mfds[i].Some?
    requires var was := v.mfds[i].value;
             || was.fds == [i]
             || ((forall fd :: fd in was.fds ==> fd in m.fds) && |was.fds| <= |m.fds| && (|was.fds| >= 2 ==> m.pipe == was.pipe))
    requires m.fds != [] && (|m.fds| == 1 ==> |v.mfds[i].value.fds| == 1)
    requires more <= v.loose && (forall fd :: fd in more ==> fd >= 10 && Internal(v.table, fd))
    requires forall fd :: fd in more ==> fd in m.fds || (|m.fds| >= 2 && fd == m.pipe)
    requires forall fd :: fd in m.fds ==> fd in more || (fd in v.mfds[i].value.fds && fd >= 10)
    requires |m.fds| >= 2 ==> m.pipe in more || m.pipe == -1 || (|v.mfds[i].value.fds| >= 2 && m.pipe == v.mfds[i].value.pipe)
    requires |m.fds| >= 2 ==> m.pipe !in m.fds && m.pipe != i
    requires owner == map fd | fd in v.owner.Keys + more :: if fd in more then Split(i) else v.owner[fd]
    requires v' == v.(mfds := v.mfds[i := Some(m)], owner := owner, loose := v.loose - more)
    ensures v'.Inv()
  {
    hide View.Inv, View.SaveOk, View.SplitOk, View.OwnerOk, View.HighOk;
    HoldStep(v, i, m, more, owner, v');
  }

  /** The state after what a multio holds is closed. */
  ghost predicate Shut(v: View, i: int, gone: set<int>, left: Option<Multio>, table: map<int, int>, v': View) {
    && v.Inv()
    && 0 <= i < 10 && v.mfds[i].Some? && (left.Some? ==> left.value.fds == [i])
    && (forall fd :: fd in gone <==> fd >= 0 && Holds(v.mfds[i].value, fd))
    && SameAbove(v.table, table, gone)
    && v' == v.(os := v.os - gone, table := table, mfds := v.mfds[i := left], owner := v.owner - gone,
                loose := v.loose - gone)
  }

  lemma ShutHeld(v: View, i: int, gone: set<int>, left: Option<Multio>, table: map<int, int>, v': View)
    requires Shut(v, i, gone, left, table, v')
    ensures forall fd :: fd in gone ==> if fd == i then fd !in v.owner else fd in v.owner && v.owner[fd] == Split(i)
    ensures forall fd :: fd in v.owner && v.owner[fd] == Split(i) ==> fd in gone
    ensures i in gone ==> v.mfds[i].value.fds == [i]
  {
    var m := v.mfds[i].value;
    assert v.SplitOk(i) && v.OwnerOk(i);
    forall fd | fd in gone && fd != i ensures fd in v.owner && v.owner[fd] == Split(i) {
      assert fd in m.fds || (|m.fds| >= 2 && m.pipe == fd);
    }
    forall fd | fd in v.owner && v.owner[fd] == Split(i) ensures fd in gone {
      assert v.OwnerOk(fd);
    }
  }

  lemma ShutLow(v: View, i: int, gone: set<int>, left: Option<Multio>, table: map<int, int>, v': View, j: int)
    requires Shut(v, i, gone, left, table, v') && 0 <= j < 10
    ensures v'.SaveOk(j) && v'.SplitOk(j)
  {
    ShutHeld(v, i, gone, left, table, v');
    assert v.SaveOk(j) && v.SplitOk(j) && v.SplitOk(i) && v.OwnerOk(j) && v.OwnerOk(v.save[j]);
  }

  lemma ShutHigh(v: View, i: int, gone: set<int>, left: Option<Multio>, table: map<int, int>, v': View, fd: int)
    requires Shut(v, i, gone, left, table, v')
    ensures v'.OwnerOk(fd) && v'.HighOk(fd)
  {
    ShutHeld(v, i, gone, left, table, v');
    assert v.OwnerOk(fd) && v.HighOk(fd);
  }

  /** What a multio holds is closed. */
  lemma ShutStep(v: View, i: int, gone: set<int>, left: Option<Multio>, table: map<int, int>, v': View)
    requires Shut(v, i, gone, left, table, v')
    ensures v'.Inv()
    ensures v.mfds[i].value.fds != [i] ==> v'.loose == v.loose
  {
    forall j | 0 <= j < 10 ensures v'.SaveOk(j) && v'.SplitOk(j) { ShutLow(v, i, gone, left, table, v', j); }
    forall fd ensures v'.OwnerOk(fd) && v'.HighOk(fd) { ShutHigh(v, i, gone, left, table, v', fd); }
    ShutHeld(v, i, gone, left, table, v');
    forall fd | fd in v.loose && fd in gone ensures v.mfds[i].value.fds == [i] {
      assert v.HighOk(fd);
    }
  }

  lemma ForgetStep(v: View, i: int, v': View)
    requires v.Inv() && 0 <= i < 10 && (v.mfds[i].Some? ==> |v.mfds[i].value.fds| < 2)
    requires v.mfds[i].Some? ==> v.mfds[i].value.fds == [i]
    requires v' == v.(mfds := v.mfds[i := None])
    ensures v'.Inv()
  {
    forall j | 0 <= j < 10 ensures v'.SaveOk(j) && v'.SplitOk(j) { assert v.SaveOk(j) && v.SplitOk(j); }
    forall f ensures v'.OwnerOk(f) && v'.HighOk(f) { assert v.OwnerOk(f) && v.HighOk(f) && v.OwnerOk(i); }
  }

  /** A loose descriptor that nothing will close stays open. */
  lemma LeakStep(v: View, fd: int, v': View)
    requires v.Inv() && fd in v.loose && fd in v.os
    requires v' == v.(goal := if Pinned(v.save, fd) then v.goal[fd := v.os[fd]] else v.goal, loose := v.loose - {fd})
    ensures v'.Inv()
  {
    assert v.HighOk(fd);
    forall j | 0 <= j < 10 ensures v'.SaveOk(j) && v'.SplitOk(j) { assert v.SaveOk(j) && v.SplitOk(j); }
    forall f ensures v'.OwnerOk(f) && v'.HighOk(f) { assert v.OwnerOk(f) && v.HighOk(f); }
  }

  /** The pipe of a multio is forgotten without being closed. */
  lemma PipeLeakStep(v: View, i: int, v': View)
    requires v.Inv() && 0 <= i < 10 && v.mfds[i].Some? && |v.mfds[i].value.fds| >= 2
    requires var m := v.mfds[i].value;
             && m.pipe in v.os && m.pipe >= 10
             && v' == v.(goal := v.goal[m.pipe := v.os[m.pipe]], owner := v.owner - {m.pipe},
                         mfds := v.mfds[i := Some(m.(pipe := -1))])
    ensures v'.Inv()
  {
    var p := v.mfds[i].value.pipe;
    assert v.SplitOk(i) && v.HighOk(p);
    forall j | 0 <= j < 10 ensures v'.SaveOk(j) && v'.SplitOk(j) { assert v.SaveOk(j) && v.SplitOk(j); }
    forall f ensures v'.OwnerOk(f) && v'.HighOk(f) { assert v.OwnerOk(f) && v.HighOk(f); }
  }

  /** `fixfds` on one descriptor. */
  lemma RestoreStep(v: View, i: int, table: map<int, int>, v': View)
    requires v.Inv() && 0 <= i < 10 && v.save[i] != UNTOUCHED && i !in v.loose
    requires v.mfds[i].Some? ==> v.mfds[i].value.fds == [i]
    requires SameAbove(v.table, table, {v.save[i]})
    requires v.save[i] >= 0 ==> v.save[i] in v.os
    requires var s := v.save[i];
             v' == v.(os := if s < 0 then v.os - {i} else v.os[i := v.os[s]] - {s}, table := table,
                      save := v.save[i := UNTOUCHED], mfds := v.mfds[i := None], owner := v.owner - {s})
    ensures v'.Inv()
  {
    assert v.SaveOk(i) && v.SplitOk(i) && v.OwnerOk(v.save[i]) && v.HighOk(v.save[i]);
    forall j | 0 <= j < 10 ensures v'.SaveOk(j) && v'.SplitOk(j) { assert v.SaveOk(j) && v.SplitOk(j); }
    forall f ensures v'.OwnerOk(f) && v'.HighOk(f) { assert v.OwnerOk(f) && v.HighOk(f); }
  }

  /** When every descriptor is restored the goal is reached. */
  lemma AllRestored(v: View)
    requires v.Inv() && (forall i :: 0 <= i < 10 ==> v.save[i] == UNTOUCHED)
    ensures forall fd :: fd !in v.loose ==> Agree(v.os, v.goal, fd) || fd < 0
  {
    forall fd | fd !in v.loose && fd >= 0
      ensures Agree(v.os, v.goal, fd)
    {
      assert v.HighOk(fd) && v.OwnerOk(fd);
      var i := if fd in v.owner then v.owner[fd].of else fd;
      if 0 <= i < 10 {
        assert v.SaveOk(i) && v.SplitOk(i);
      }
    }
  }

  lemma Known(v: View)
    requires v.Inv()
    ensures forall f :: f in v.os ==> f >= 0
    ensures forall f :: f in v.owner ==> f in v.os && f >= 10
    ensures forall f :: f in v.loose ==> f in v.os && f !in v.owner && (Pinned(v.save, f) ==> f !in v.goal)
    ensures forall i :: 0 <= i < 10 && v.mfds[i].Some? ==> v.save[i] != UNTOUCHED
    ensures forall i :: 0 <= i < 10 && v.save[i] == UNTOUCHED && i !in v.loose ==> Agree(v.os, v.goal, i)
    ensures forall i :: 0 <= i < 10 && v.save[i] >= 0 ==> v.save[i] in v.os && v.save[i] >= 10 && v.save[i] !in v.loose
  {
    assert forall f :: f in v.owner ==> v.OwnerOk(f);
    forall f | f in v.os || f in v.loose
      ensures f >= 0
      ensures f in v.loose ==> f in v.os && f !in v.owner && (Pinned(v.save, f) ==> f !in v.goal)
    {
      assert v.HighOk(f);
      if 0 <= f < 10 {
        assert v.SaveOk(f);
      }
    }
    forall i | 0 <= i < 10
      ensures v.mfds[i].Some? ==> v.save[i] != UNTOUCHED
      ensures v.save[i] == UNTOUCHED && i !in v.loose ==> Agree(v.os, v.goal, i)
      ensures v.save[i] >= 0 ==> v.save[i] in v.os && v.save[i] >= 10 && v.save[i] !in v.loose
    {
      assert v.SaveOk(i) && v.SplitOk(i) && v.OwnerOk(v.save[i]) && v.HighOk(v.save[i]);
    }
  }

  lemma KnownSplit(v: View, i: int)
    requires v.Inv() && 0 <= i < 10 && v.mfds[i].Some?
    ensures var m := v.mfds[i].value;
            && v.save[i] != UNTOUCHED && m.fds != []
            && (m.fds != [i] ==> i !in m.fds && forall f :: f in m.fds ==> f >= 10 && f !in v.loose && f in v.os)
            && (|m.fds| >= 2 && m.pipe != -1 ==>
                  m.pipe in v.owner && m.pipe in v.os && m.pipe >= 10 && m.pipe !in v.goal && m.pipe !in m.fds && m.pipe !in v.loose)
  {
    assert forall f :: f in v.owner ==> v.OwnerOk(f) && v.HighOk(f);
    assert v.OwnerOk(i) && v.SplitOk(i);
  }

  /** One more descriptor is in the multio of `i`; those of a stream split before stay,
      and no other multio changes. */
  predicate JoinedBy(was: seq<Option<Multio>>, mfds: seq<Option<Multio>>, i: int)
    requires |was| == |mfds| && 0 <= i < |mfds| && was[i].Some?
  {
    && mfds == was[i := mfds[i]] && mfds[i].Some?
    && var (m, m') := (was[i].value, mfds[i].value);
       && m'.out == m.out && |m'.fds| == |m.fds| + 1
       && (|m.fds| >= 2 ==> m'.pipe == m.pipe && m.fds <= m'.fds)
  }

  /** Joining a file to a stream appends it to the stream's files. */
  lemma TargetsJoin(v: View, os': map<int, File>, mfds': seq<Option<Multio>>, i: int, fd2: int)
    requires v.Inv() && 0 <= i < 10 && |mfds'| == 10 && v.mfds[i].Some? && fd2 in v.loose
    requires Frame(v.os, os', i, fd2) && JoinedBy(v.mfds, mfds', i)
    requires var (m, m') := (v.mfds[i].value, mfds'[i].value);
             && (|m.fds| == 1 ==> m.fds == [i] && FileAt(os', m'.fds[0]) == FileAt(v.os, i))
             && FileAt(os', m'.fds[|m.fds|]) == FileAt(v.os, fd2)
    ensures Targets(os', mfds'[i], i) == Targets(v.os, v.mfds[i], i) + [FileAt(v.os, fd2)]
  {
    KnownSplit(v, i);
    var (m, m') := (v.mfds[i].value, mfds'[i].value);
    forall k | 0 <= k < |m.fds|
      ensures Targets(os', mfds'[i], i)[k] == Targets(v.os, v.mfds[i], i)[k]
    {
      assert m.fds[k] in m.fds;
      if |m.fds| >= 2 {
        assert m'.fds[k] == m.fds[k];
        assert Agree(os', v.os, m.fds[k]);
      }
    }
  }

  /** A merge from this descriptor is refused: the shell uses it. */
  predicate Refused(table: map<int, int>, maxFd: int, coprocin: int, coprocout: int, fd2: int) {
    && fd2 > 9 && fd2 <= maxFd
    && ((Kind(table, fd2) != FDT_UNUSED && Kind(table, fd2) != FDT_EXTERNAL) || fd2 == coprocin || fd2 == coprocout)
  }

  /** Every descriptor that redirection saved, or made for a split stream, is refused. */
  lemma OwnedRefused(v: View, maxFd: int, coprocin: int, coprocout: int, fd2: int)
    requires v.Inv() && (forall fd :: fd in v.table && v.table[fd] != FDT_UNUSED ==> fd <= maxFd)
    requires fd2 in v.owner
    ensures Refused(v.table, maxFd, coprocin, coprocout, fd2)
  {
    assert v.OwnerOk(fd2);
  }

  // ----- What becomes of the descriptors of the start -----

  /** Descriptors whose first duplicate the system refused. `firsts` has the number of
      the request for it, `grants` the answers. */
  ghost function LostOf(firsts: map<int, nat>, grants: nat -> bool): set<int> {
    set i | i in firsts && !grants(firsts[i])
  }

  /** The request numbered `k` is for a duplicate of `fd`. */
  function Asked(firsts: map<int, nat>, fd: int, k: nat): map<int, nat> {
    if fd in firsts then firsts else firsts[fd := k]
  }

  lemma AskedBelow(firsts: map<int, nat>, fd: int, k: nat)
    requires forall i :: i in firsts ==> firsts[i] < k
    ensures forall i :: i in Asked(firsts, fd, k) ==> Asked(firsts, fd, k)[i] < k + 1
  {
  }

  lemma LostMore(firsts: map<int, nat>, grants: nat -> bool, fd: int, k: nat)
    ensures LostOf(Asked(firsts, fd, k), grants) ==
            LostOf(firsts, grants) + if fd in firsts || grants(k) then {} else {fd}
  {
  }

  /** `fixfds` is to leave what was open at the start, without what is lost, and with
      what has been leaked; only what has been saved has been asked for. */
  ghost predicate Account(save: seq<int>, goal: map<int, File>, start: map<int, File>, firsts: map<int, nat>,
                          leaked: map<int, File>, grants: nat -> bool)
  {
    && |save| == 10
    && goal == (start - LostOf(firsts, grants)) + leaked
    && (forall i :: i in leaked && i in start ==> i in LostOf(firsts, grants))
    && (forall i :: i in firsts ==> 0 <= i < 10)
    && forall i :: 0 <= i < 10 && i in start && save[i] == UNTOUCHED && i in firsts ==> !grants(firsts[i])
  }

  /** What was open at the start and not asked for yet is untouched. */
  ghost predicate Unasked(save: seq<int>, start: map<int, File>, firsts: map<int, nat>)
    requires |save| == 10
  {
    forall i :: 0 <= i < 10 && i in start && i !in firsts ==> save[i] == UNTOUCHED
  }

  ghost predicate Later(firsts: map<int, nat>, firsts': map<int, nat>) {
    forall i :: i in firsts ==> i in firsts' && firsts'[i] == firsts[i]
  }

  lemma AskedLater(firsts: map<int, nat>, fd: int, k: nat)
    ensures Later(firsts, Asked(firsts, fd, k)) && Asked(firsts, fd, k).Keys == firsts.Keys + {fd}
  {
  }

  /** Requests for other descriptors make no difference. */
  lemma AccountGrow(save: seq<int>, goal: map<int, File>, start: map<int, File>, firsts: map<int, nat>,
                    firsts': map<int, nat>, leaked: map<int, File>, grants: nat -> bool)
    requires Account(save, goal, start, firsts, leaked, grants) && Unasked(save, start, firsts)
    requires Later(firsts, firsts') && forall i :: i in firsts' && i !in firsts ==> i !in start && 0 <= i < 10
    ensures Account(save, goal, start, firsts', leaked, grants) && Unasked(save, start, firsts')
  {
    assert forall i :: i in start ==> (i in LostOf(firsts', grants) <==> i in LostOf(firsts, grants));
    assert start - LostOf(firsts', grants) == start - LostOf(firsts, grants);
  }

  /** A descriptor of the start that is not open, loose or saved has been asked for. */
  lemma AskedBefore(v: View, start: map<int, File>, firsts: map<int, nat>, leaked: map<int, File>,
                    grants: nat -> bool, i: int)
    requires v.Inv() && Account(v.save, v.goal, start, firsts, leaked, grants) && Unasked(v.save, start, firsts)
    requires 0 <= i < 10 && i in start && (i !in v.os || i in v.loose || v.save[i] != UNTOUCHED)
    ensures i in firsts
  {
    assert v.SaveOk(i);
  }

  /** A descriptor is asked for, to be saved, and `save` set unless the shell gives up. */
  lemma AccountSave(save: seq<int>, goal: map<int, File>, start: map<int, File>, firsts: map<int, nat>,
                    leaked: map<int, File>, grants: nat -> bool, i: int, k: nat, x: int)
    requires Account(save, goal, start, firsts, leaked, grants) && Unasked(save, start, firsts)
    requires 0 <= i < 10 && save[i] == UNTOUCHED && (x == UNTOUCHED ==> !grants(k))
    ensures var firsts' := Asked(firsts, i, k);
            && Unasked(save[i := x], start, firsts')
            && if grants(k) then Account(save[i := x], goal, start, firsts', leaked, grants)
               else Account(save[i := x], goal - {i}, start, firsts', leaked - {i}, grants)
  {
    LostMore(firsts, grants, i, k);
    var lost := LostOf(firsts, grants);
    if !grants(k) {
      assert i in start ==> i in LostOf(Asked(firsts, i, k), grants);
      assert (start - LostOf(Asked(firsts, i, k), grants)) + (leaked - {i}) == goal - {i};
    }
  }

  /** A descriptor that is not open is saved as such. */
  lemma AccountFree(v: View, start: map<int, File>, firsts: map<int, nat>, leaked: map<int, File>,
                    grants: nat -> bool, i: int)
    requires v.Inv() && Account(v.save, v.goal, start, firsts, leaked, grants) && Unasked(v.save, start, firsts)
    requires 0 <= i < 10 && (i !in v.os || i in v.loose)
    ensures Account(v.save[i := -1], v.goal, start, firsts, leaked, grants)
    ensures Unasked(v.save[i := -1], start, firsts) && (v.save[i] == UNTOUCHED ==> i !in v.goal)
  {
    assert v.SaveOk(i);
    if i in start {
      AskedBefore(v, start, firsts, leaked, grants, i);
    }
  }

  /** Above 9 what was open at the start stays as it is. */
  lemma StartHigh(v: View, start: map<int, File>, firsts: map<int, nat>, leaked: map<int, File>, grants: nat -> bool)
    requires v.Inv() && Account(v.save, v.goal, start, firsts, leaked, grants)
    ensures forall f :: f in start && f >= 10 ==> f in v.os && f !in v.loose && f !in v.owner
  {
    forall f | f in start && f >= 10
      ensures f in v.os && f !in v.loose && f !in v.owner
    {
      assert f in v.goal && v.HighOk(f) && v.OwnerOk(f);
    }
  }

  /** What is leaked was not open at the start, or has been lost since. */
  lemma LeakedApart(save: seq<int>, goal: map<int, File>, start: map<int, File>, firsts: map<int, nat>,
                    leaked: map<int, File>, grants: nat -> bool, f: int)
    requires Account(save, goal, start, firsts, leaked, grants)
    requires f in start && f !in LostOf(firsts, grants)
    ensures f in goal && goal[f] == start[f]
  {
  }

  // ----- Pipes of split streams -----

  predicate HasPipe(m: Option<Multio>) {
    m.Some? && |m.value.fds| >= 2 && m.value.pipe != -1
  }

  /** The pipes of the streams that are split. */
  function PipeSet(mfds: seq<Option<Multio>>): set<int> {
    set i | 0 <= i < |mfds| && HasPipe(mfds[i]) :: mfds[i].value.pipe
  }

  lemma PipeSetAt(mfds: seq<Option<Multio>>, i: int)
    requires 0 <= i < |mfds|
    ensures HasPipe(mfds[i]) ==> mfds[i].value.pipe in PipeSet(mfds)
    ensures PipeSet(mfds) == PipeSet(mfds[i := None]) + if HasPipe(mfds[i]) then {mfds[i].value.pipe} else {}
  {
    var rest := mfds[i := None];
    forall p | p in PipeSet(mfds)
      ensures p in PipeSet(rest) || (HasPipe(mfds[i]) && p == mfds[i].value.pipe)
    {
      var j :| 0 <= j < |mfds| && HasPipe(mfds[j]) && p == mfds[j].value.pipe;
      assert j != i ==> rest[j] == mfds[j];
    }
    forall p | p in PipeSet(rest)
      ensures p in PipeSet(mfds)
    {
      var j :| 0 <= j < |rest| && HasPipe(rest[j]) && p == rest[j].value.pipe;
      assert j != i && rest[j] == mfds[j];
    }
  }

  lemma SamePipes(was: seq<Option<Multio>>, mfds: seq<Option<Multio>>, i: int)
    requires 0 <= i < |was| == |mfds| && mfds == was[i := mfds[i]] && !HasPipe(was[i]) && !HasPipe(mfds[i])
    ensures PipeSet(mfds) == PipeSet(was)
  {
    PipeSetAt(was, i);
    PipeSetAt(mfds, i);
    assert mfds[i := None] == was[i := None];
  }

  /** What closing the multios leaves open: the pipes of the split streams. */
  function LeakOf(v: View): map<int, File> {
    map p | p in PipeSet(v.mfds) && p in v.os :: v.os[p]
  }

  /** What an unplaced descriptor leaves open, unless `fixfds` puts something in its place. */
  function StrayOf(v: View, fd: int): map<int, File> {
    if fd in v.loose && fd in v.os && Pinned(v.save, fd) then map[fd := v.os[fd]] else map[]
  }

  function Files(m: map<int, File>): set<File> {
    set k | k in m :: m[k]
  }

  lemma FilesJoin(a: map<int, File>, b: map<int, File>)
    requires a.Keys !! b.Keys
    ensures Files(a + b) == Files(a) + Files(b)
  {
    forall f | f in Files(a)
      ensures f in Files(a + b)
    {
      var k :| k in a && a[k] == f;
      assert k !in b.Keys;
      assert (a + b)[k] == f;
    }
    forall f | f in Files(b)
      ensures f in Files(a + b)
    {
      var k :| k in b && b[k] == f;
      assert (a + b)[k] == f;
    }
  }
}
