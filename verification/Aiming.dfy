/** When the descriptors are as a plan says, and what keeps them so. */
module Aiming {
  import opened Descriptors
  import opened Plans

  /** A split stream's descriptor and its process hold the two ends of one pipe. */
  ghost predicate Tied(v: View, i: int, id: nat, denied: bool)
    requires 0 <= i < |v.mfds| && v.mfds[i].Some?
  {
    var m := v.mfds[i].value;
    && (m.pipe != -1 ==> FileAt(v.os, m.pipe) == Some(End(id, !m.out)))
    && (i in v.os && i !in v.loose ==> v.os[i] == End(id, m.out))
    && (!denied ==> m.pipe != -1 && i in v.os && i !in v.loose)
  }

  /** The descriptor is as meant.  If the system has denied something, an end of a pipe, or
      the process for it, may be missing. */
  ghost predicate Stream(v: View, i: int, a: Aim, denied: bool)
    requires |v.save| == |v.mfds| == 10 && 0 <= i < 10
  {
    match a
    case Shut(stale) =>
      && (i in v.os ==> i in v.loose)
      && v.save[i] != UNTOUCHED
      && (v.mfds[i].Some? ==> stale && v.mfds[i].value.fds == [i])
      && (stale && !denied ==> v.mfds[i].Some?)
    case Open(out, files, id) =>
      && files != [] && v.mfds[i].Some? && v.mfds[i].value.out == out
      && |v.mfds[i].value.fds| == |files| && Targets(v.os, v.mfds[i], i) == Somes(files)
      && if |files| == 1 then i !in v.loose else Tied(v, i, id, denied)
  }

  /** A descriptor not redirected is as before, unless multios have been given up. */
  ghost predicate AimOk(v: View, plan: Plan, s: Setup, denied: bool, wreck: bool, i: int)
    requires |v.save| == |v.mfds| == 10 && 0 <= i < 10
  {
    if i in plan.aims then Stream(v, i, plan.aims[i], denied)
    else v.mfds[i] == None && (!wreck ==> v.save[i] == UNTOUCHED && Agree(v.goal, s.start, i))
  }

  /** Everything is as planned, apart from what is in hand. */
  ghost predicate Aimed(v: View, plan: Plan, s: Setup, inHand: set<int>, denied: bool, wreck: bool) {
    && |v.save| == |v.mfds| == 10
    && (forall i :: 0 <= i < 10 ==> AimOk(v, plan, s, denied, wreck, i))
    && (forall fd :: fd in plan.aims ==> 0 <= fd < 10)
    && (forall fd :: fd in v.loose && fd !in inHand ==> fd >= 10 && Agree(v.os, s.before, fd))
    && (!wreck ==> forall fd :: fd >= 10 ==> Agree(v.goal, s.start, fd))
    && v.pipes == plan.pipes
    && (!denied ==> v.copiers == plan.copies)
  }

  lemma SomeAt(files: seq<File>, k: nat)
    requires k < |files|
    ensures Somes(files)[k] == Some(files[k])
  {
  }

  /** A stream stays as meant if nothing it is made of changes. */
  lemma StreamKept(v: View, v': View, i: int, a: Aim, denied: bool, denied': bool)
    requires v.Inv() && |v'.save| == |v'.mfds| == 10 && 0 <= i < 10 && Stream(v, i, a, denied) && (denied ==> denied')
    requires v'.mfds[i] == v.mfds[i] && v'.save[i] == v.save[i]
    requires i in v'.os && i !in v'.loose ==> i in v.os && i !in v.loose
    requires i in v.os && i !in v.loose ==> Agree(v'.os, v.os, i) && i !in v'.loose
    requires v.mfds[i].Some? ==> forall f :: f != i && f in v.os && Holds(v.mfds[i].value, f) ==> Agree(v'.os, v.os, f)
    ensures Stream(v', i, a, denied')
  {
    if a.Open? {
      KnownSplit(v, i);
      var m := v.mfds[i].value;
      forall k | 0 <= k < |a.files|
        ensures Targets(v'.os, v'.mfds[i], i)[k] == Targets(v.os, v.mfds[i], i)[k]
      {
        SomeAt(a.files, k);
        assert Targets(v.os, v.mfds[i], i)[k].Some?;
        assert m.fds[k] in m.fds;
        assert |m.fds| >= 2 ==> Holds(m, m.fds[k]) && m.fds[k] in v.os && m.fds[k] != i;
      }
      assert Targets(v'.os, v'.mfds[i], i) == Somes(a.files);
      SomeAt(a.files, 0);
      assert Targets(v.os, v.mfds[i], i)[0].Some?;
      if |a.files| >= 2 {
        assert m.pipe != -1 ==> Holds(m, m.pipe) && m.pipe in v.os && m.pipe != i && Agree(v'.os, v.os, m.pipe);
        assert Tied(v', i, a.id, denied');
      }
    }
  }

  /** What placing does with pipes. */
  ghost predicate Piped(v: View, v': View, multios: bool, fd1: int, fd2: int, denied: bool)
    requires |v.mfds| == |v'.mfds| == 10 && 0 <= fd1 < 10 && v'.mfds[fd1].Some?
  {
    if !multios || v.mfds[fd1] == None then v'.pipes == v.pipes
    else if |v.mfds[fd1].value.fds| < 2 then v'.pipes == v.pipes + 1 && Tied(v', fd1, v.pipes, denied)
    else
      && v'.pipes == v.pipes && v'.mfds[fd1].value.pipe == v.mfds[fd1].value.pipe
      && if fd1 == fd2 then fd1 !in v'.os else Agree(v'.os, v.os, fd1)
  }

  /** A file has been put in a descriptor's place, or joined to the stream there. */
  ghost predicate Placed(v: View, v': View, multios: bool, fd1: int, fd2: int, out: bool, denied: bool) {
    && |v.save| == |v'.save| == |v.mfds| == |v'.mfds| == 10 && 0 <= fd1 < 10
    && fd2 in v.loose && fd2 in v.os && (forall f :: f in v.loose && f < 10 ==> f == fd2)
    && v'.goal == v.goal && v'.loose == v.loose - {fd2} && v'.copiers == v.copiers
    && Frame(v.os, v'.os, fd1, fd2)
    && v'.mfds == v.mfds[fd1 := v'.mfds[fd1]] && v'.mfds[fd1].Some? && v'.mfds[fd1].value.out == out
    && (forall i :: 0 <= i < 10 && i != fd1 ==> v'.save[i] == v.save[i])
    && Targets(v'.os, v'.mfds[fd1], fd1) ==
       (if v.mfds[fd1].Some? && multios then Targets(v.os, v.mfds[fd1], fd1) else []) + [FileAt(v.os, fd2)]
    && (v.mfds[fd1].Some? && multios ==>
          v.mfds[fd1].value.out == out && (|v.mfds[fd1].value.fds| == 1 ==> fd1 in v.os && fd1 != fd2))
    && (forall f :: f in v'.os && f < 10 ==> f == fd1 || (f in v.os && f != fd2))
    && Piped(v, v', multios, fd1, fd2, denied)
  }

  lemma AimOther(v: View, v': View, a: Aim, denied: bool, multios: bool, fd1: int, fd2: int, out: bool, denied': bool, i: int)
    requires v.Inv() && Placed(v, v', multios, fd1, fd2, out, denied') && (denied ==> denied')
    requires 0 <= i < 10 && i != fd1 && Stream(v, i, a, denied)
    ensures Stream(v', i, a, denied')
  {
    if v.mfds[i].Some? {
      forall f | f != i && f in v.os && Holds(v.mfds[i].value, f)
        ensures Agree(v'.os, v.os, f)
      {
        Known(v);
        HeldOnce(v, i, f);
      }
    }
    StreamKept(v, v', i, a, denied, denied');
  }

  lemma HeldOnce(v: View, i: int, f: int)
    requires v.Inv() && 0 <= i < 10 && v.mfds[i].Some? && Holds(v.mfds[i].value, f) && f != i && f != -1
    ensures f in v.owner && v.owner[f] == Split(i) && f >= 10 && f !in v.loose
  {
    assert v.SplitOk(i);
    assert v.OwnerOk(f) && v.HighOk(f);
  }

  /** The descriptor itself is as `Put` has it. */
  lemma AimThis(v: View, v': View, plan: Plan, s: Setup, denied: bool, wreck: bool, fd1: int, fd2: int, out: bool, denied': bool)
    requires v.Inv() && Settled(v.mfds, s.multios) && v'.Inv() && Settled(v'.mfds, s.multios)
    requires Placed(v, v', s.multios, fd1, fd2, out, denied') && (denied ==> denied')
    requires AimOk(v, plan, s, denied, wreck, fd1) && v.pipes == plan.pipes
    ensures var next := Put(s.multios, plan, fd1, out, v.os[fd2]);
            && (!denied' ==> next.Some?)
            && (next.Some? ==> Stream(v', fd1, next.value.aims[fd1], denied') && v'.pipes == next.value.pipes)
  {
    KnownSplit(v', fd1);
    var next := Put(s.multios, plan, fd1, out, v.os[fd2]);
    var joins := s.multios && v.mfds[fd1].Some?;
    if joins && plan.aims[fd1].Open? {
      var files := plan.aims[fd1].files;
      assert Somes(files + [v.os[fd2]]) == Somes(files) + [Some(v.os[fd2])];
      assert |Targets(v'.os, v'.mfds[fd1], fd1)| == |files| + 1;
      if |files| >= 2 {
        TiedStays(v, v', s.multios, fd1, fd2, out, denied, denied', plan.aims[fd1]);
      }
    } else if !joins {
      assert |Targets(v'.os, v'.mfds[fd1], fd1)| == 1;
      assert Somes([v.os[fd2]]) == [Some(v.os[fd2])];
    }
  }

  lemma TiedStays(v: View, v': View, multios: bool, fd1: int, fd2: int, out: bool, denied: bool, denied': bool, a: Aim)
    requires v.Inv() && Placed(v, v', multios, fd1, fd2, out, denied') && multios && (denied ==> denied')
    requires a.Open? && |a.files| >= 2 && Stream(v, fd1, a, denied)
    ensures Tied(v', fd1, a.id, denied')
  {
    KnownSplit(v, fd1);
    var p := v.mfds[fd1].value.pipe;
    if p != -1 {
      assert Agree(v'.os, v.os, p);
    }
  }

  /** Placing a file keeps everything as planned. */
  lemma AimPut(v: View, v': View, plan: Plan, s: Setup, inHand: set<int>, denied: bool, wreck: bool,
               fd1: int, fd2: int, out: bool, denied': bool)
    requires v.Inv() && Settled(v.mfds, s.multios) && v'.Inv() && Settled(v'.mfds, s.multios)
    requires Placed(v, v', s.multios, fd1, fd2, out, denied') && (denied ==> denied')
    requires Aimed(v, plan, s, inHand, denied, wreck)
    ensures var next := Put(s.multios, plan, fd1, out, v.os[fd2]);
            && (!denied' ==> next.Some?)
            && (next.Some? ==> Aimed(v', next.value, s, inHand - {fd2}, denied', wreck))
  {
    AimThis(v, v', plan, s, denied, wreck, fd1, fd2, out, denied');
    var next := Put(s.multios, plan, fd1, out, v.os[fd2]);
    if next.Some? {
      forall i | 0 <= i < 10
        ensures AimOk(v', next.value, s, denied', wreck, i)
      {
        assert AimOk(v, plan, s, denied, wreck, i);
        if i != fd1 && i in plan.aims {
          AimOther(v, v', plan.aims[i], denied, s.multios, fd1, fd2, out, denied', i);
        }
      }
      forall fd | fd in v'.loose && fd !in inHand - {fd2}
        ensures fd >= 10 && Agree(v'.os, s.before, fd)
      {
        assert v.HighOk(fd);
        assert fd >= 10 && Agree(v.os, s.before, fd) && fd in v.os;
        assert Agree(v'.os, v.os, fd);
      }
    }
  }

  /** What is in hand does not have to be as before. */
  lemma AimHand(v: View, plan: Plan, s: Setup, inHand: set<int>, denied: bool, wreck: bool)
    requires Aimed(v, plan, s, {}, denied, wreck)
    ensures Aimed(v, plan, s, inHand, denied, wreck)
  {
    forall i | 0 <= i < 10 ensures AimOk(v, plan, s, denied, wreck, i) {}
  }

  /** Before the first redirection. */
  lemma AimedFirst(v: View, s: Setup)
    requires v.Inv() && v.goal == s.start && s.before == v.os && forall f :: f in v.loose ==> f >= 10
    requires v.pipes == 0 && v.copiers == [] && forall i :: 0 <= i < 10 ==> v.save[i] == UNTOUCHED && v.mfds[i] == None
    ensures Aimed(v, START.plan, s, {}, false, false)
  {
    forall i | 0 <= i < 10 ensures AimOk(v, START.plan, s, false, false, i) {}
  }

  // ----- One more descriptor -----

  /** A descriptor has been opened, and nothing else has changed. */
  ghost predicate Opened(v: View, mid: View, fil: int) {
    && mid == v.(os := mid.os, table := mid.table, loose := v.loose + {fil})
    && Frame(v.os, mid.os, -1, -1) && fil !in v.os && fil in mid.os && forall f :: f in mid.os ==> f in v.os || f == fil
  }

  lemma AimMore(v: View, v': View, plan: Plan, s: Setup, inHand: set<int>, denied: bool, denied': bool, wreck: bool, fd: int)
    requires v.Inv() && Aimed(v, plan, s, inHand, denied, wreck) && Opened(v, v', fd) && (denied ==> denied')
    ensures Aimed(v', plan, s, inHand + {fd}, denied', wreck)
  {
    Known(v);
    forall i | 0 <= i < 10
      ensures AimOk(v', plan, s, denied', wreck, i)
    {
      assert AimOk(v, plan, s, denied, wreck, i);
      if i in plan.aims {
        StreamKept(v, v', i, plan.aims[i], denied, denied');
      }
    }
    forall f | f in v'.loose && f !in inHand + {fd}
      ensures f >= 10 && Agree(v'.os, s.before, f)
    {
      assert f in v.loose && f !in inHand;
      assert f >= 10 && Agree(v.os, s.before, f) && f in v.os;
      assert Agree(v'.os, v.os, f);
    }
  }

  // ----- Streams handed over -----

  /** The stream at `i` is split. */
  predicate HeldApart(v: View, i: int) {
    0 <= i < |v.mfds| && v.mfds[i].Some? && |v.mfds[i].value.fds| >= 2
  }

  /** The process that a split stream is handed to. */
  function Handed(v: View, i: int): seq<Copier> {
    if HeldApart(v, i) then
      [Copier(FileAt(v.os, v.mfds[i].value.pipe), v.mfds[i].value.out, Targets(v.os, v.mfds[i], i))]
    else []
  }

  lemma HeldIs(v: View, plan: Plan, s: Setup, inHand: set<int>, denied: bool, wreck: bool, i: int)
    requires Aimed(v, plan, s, inHand, denied, wreck)
    ensures HeldApart(v, i) <==> Splits(plan, i)
  {
    if 0 <= i < 10 {
      assert AimOk(v, plan, s, denied, wreck, i);
    }
  }

  lemma HandedIs(v: View, plan: Plan, s: Setup, inHand: set<int>, wreck: bool, i: int)
    requires Aimed(v, plan, s, inHand, false, wreck) && 0 <= i < 10 && v.Inv()
    ensures HeldApart(v, i) <==> Splits(plan, i)
    ensures Handed(v, i) == if Splits(plan, i) then [CopierOf(plan.aims[i])] else []
  {
    assert AimOk(v, plan, s, false, wreck, i);
  }

  /** What another stream holds stays open. */
  lemma StaysOpen(v: View, os': map<int, File>, fd1: int, i: int, f: int)
    requires v.Inv() && 0 <= i < 10 && i != fd1 && 0 <= fd1 < 10 && v.mfds[i].Some? && f in v.os && f >= 0
    requires f == i || Holds(v.mfds[i].value, f)
    requires forall g :: g in v.os && g != fd1 && !(v.mfds[fd1].Some? && Holds(v.mfds[fd1].value, g)) ==> Agree(os', v.os, g)
    ensures Agree(os', v.os, f)
  {
    if f != i {
      HeldOnce(v, i, f);
    }
    if v.mfds[fd1].Some? && Holds(v.mfds[fd1].value, f) && f != fd1 {
      HeldOnce(v, fd1, f);
    }
  }

  /** A descriptor has been closed, its stream handed over if it was split. */
  ghost predicate Ended(v: View, v': View, fd1: int, denied: bool) {
    && |v.save| == |v'.save| == |v.mfds| == |v'.mfds| == 10 && 0 <= fd1 < 10
    && fd1 !in v'.os && v'.save[fd1] != UNTOUCHED
    && v'.loose == v.loose && v'.pipes == v.pipes && (v'.goal == v.goal || v'.goal == v.goal - {fd1})
    && (forall i :: 0 <= i < 10 && i != fd1 ==> v'.save[i] == v.save[i])
    && v'.mfds == v.mfds[fd1 := v'.mfds[fd1]]
    && (v'.mfds[fd1].Some? ==> HeldApart(v, fd1) && v'.mfds[fd1].value.fds == [fd1])
    && (!denied ==> (HeldApart(v, fd1) ==> v'.mfds[fd1].Some?) && v'.copiers == v.copiers + Handed(v, fd1))
    && (forall f :: f in v.os && f != fd1 && !(v.mfds[fd1].Some? && Holds(v.mfds[fd1].value, f)) ==>
          Agree(v'.os, v.os, f))
    && forall f :: f in v'.os && f < 10 ==> f in v.os
  }

  lemma AimShut(v: View, v': View, plan: Plan, s: Setup, denied: bool, denied': bool, fd1: int)
    requires v.Inv() && Aimed(v, plan, s, {}, denied, false) && Ended(v, v', fd1, denied') && (denied ==> denied')
    requires forall f :: f in v.loose ==> f >= 10
    ensures Aimed(v', HandOver(plan, fd1).(aims := HandOver(plan, fd1).aims[fd1 := Shut(Splits(plan, fd1))]), s, {}, denied', false)
  {
    var plan' := HandOver(plan, fd1).(aims := HandOver(plan, fd1).aims[fd1 := Shut(Splits(plan, fd1))]);
    assert AimOk(v, plan, s, denied, false, fd1);
    if !denied {
      HandedIs(v, plan, s, {}, false, fd1);
    }
    forall i | 0 <= i < 10
      ensures AimOk(v', plan', s, denied', false, i)
    {
      assert AimOk(v, plan, s, denied, false, i);
      if i != fd1 && i in plan.aims {
        OtherKept(v, v', fd1, i, plan.aims[i], denied, denied');
      }
    }
    forall f | f in v'.loose
      ensures f >= 10 && Agree(v'.os, s.before, f)
    {
      LooseStays(v, v'.os, fd1, f);
    }
    forall fd | fd >= 10
      ensures Agree(v'.goal, s.start, fd)
    {
      assert Agree(v.goal, s.start, fd);
    }
  }

  lemma LooseStays(v: View, os': map<int, File>, fd1: int, f: int)
    requires v.Inv() && 0 <= fd1 < 10 && f in v.loose && f >= 10
    requires forall g :: g in v.os && g != fd1 && !(v.mfds[fd1].Some? && Holds(v.mfds[fd1].value, g)) ==> Agree(os', v.os, g)
    ensures f in v.os && Agree(os', v.os, f)
  {
    assert v.HighOk(f);
    if v.mfds[fd1].Some? && Holds(v.mfds[fd1].value, f) {
      HeldOnce(v, fd1, f);
    }
  }

  /** The other streams are as they were. */
  lemma OtherKept(v: View, v': View, fd1: int, i: int, a: Aim, denied: bool, denied': bool)
    requires v.Inv() && |v'.save| == |v'.mfds| == 10 && 0 <= i < 10 && 0 <= fd1 < 10 && i != fd1
    requires Stream(v, i, a, denied) && (denied ==> denied')
    requires v'.loose == v.loose && v'.mfds[i] == v.mfds[i] && v'.save[i] == v.save[i]
    requires forall g :: g in v.os && g != fd1 && !(v.mfds[fd1].Some? && Holds(v.mfds[fd1].value, g)) ==> Agree(v'.os, v.os, g)
    requires forall f :: f in v'.os && f < 10 ==> f in v.os
    ensures Stream(v', i, a, denied')
  {
    if i in v.os && v.mfds[i].Some? {
      StaysOpen(v, v'.os, fd1, i, i);
    }
    if v.mfds[i].Some? {
      forall f | f != i && f in v.os && Holds(v.mfds[i].value, f)
        ensures Agree(v'.os, v.os, f)
      {
        Known(v);
        HeldOnce(v, i, f);
        StaysOpen(v, v'.os, fd1, i, f);
      }
      StreamKept(v, v', i, a, denied, denied');
    }
  }

  /** The source of a merge has been handed over, if it was split. */
  ghost predicate Passed(v: View, v': View, fd2: int) {
    && |v.save| == |v'.save| == |v.mfds| == |v'.mfds| == 10 && 0 <= fd2 < 10 && HeldApart(v, fd2)
    && v' == v.(os := v'.os, table := v'.table, mfds := v'.mfds, owner := v'.owner, copiers := v.copiers + Handed(v, fd2))
    && v'.mfds == v.mfds[fd2 := Some(v.mfds[fd2].value.(fds := [fd2]))]
    && (forall f :: f in v.os && !Holds(v.mfds[fd2].value, f) ==> Agree(v'.os, v.os, f))
    && forall f :: f in v'.os ==> f in v.os
  }

  lemma AimPass(v: View, v': View, plan: Plan, s: Setup, fd2: int)
    requires v.Inv() && Aimed(v, plan, s, {}, false, false) && Passed(v, v', fd2)
    requires forall f :: f in v.loose ==> f >= 10
    ensures Aimed(v', HandOver(plan, fd2), s, {}, false, false)
  {
    var plan' := HandOver(plan, fd2);
    HandedIs(v, plan, s, {}, false, fd2);
    KnownSplit(v, fd2);
    assert Agree(v'.os, v.os, fd2);
    forall i | 0 <= i < 10
      ensures AimOk(v', plan', s, false, false, i)
    {
      assert AimOk(v, plan, s, false, false, i);
      if i != fd2 && i in plan.aims {
        OtherKept(v, v', fd2, i, plan.aims[i], false, false);
      } else if i == fd2 {
        assert Somes([v.os[fd2]]) == [Some(v.os[fd2])];
      }
    }
    forall f | f in v'.loose
      ensures f >= 10 && Agree(v'.os, s.before, f)
    {
      LooseStays(v, v'.os, fd2, f);
    }
  }

  // ----- What a merge finds -----

  /** A descriptor has the file it is meant to have. */
  lemma SourceLow(v: View, plan: Plan, s: Setup, denied: bool, c: int)
    requires v.Inv() && Aimed(v, plan, s, {}, denied, false) && 0 <= c < 10 && forall f :: f in v.loose ==> f >= 10
    requires !Splits(plan, c)
    ensures FileAt(v.os, c) ==
            if c !in plan.aims then FileAt(s.start, c)
            else if plan.aims[c].Shut? then None
            else if plan.aims[c].files == [] then FileAt(v.os, c)
            else Some(plan.aims[c].files[0])
  {
    assert AimOk(v, plan, s, denied, false, c) && v.SaveOk(c);
    if c in plan.aims && plan.aims[c].Open? {
      SomeAt(plan.aims[c].files, 0);
      assert Targets(v.os, v.mfds[c], c)[0] == FileAt(v.os, c);
    }
  }

  lemma SourceHigh(v: View, plan: Plan, s: Setup, denied: bool, c: int)
    requires v.Inv() && Aimed(v, plan, s, {}, denied, false) && c >= 10
    ensures c in s.start ==> FileAt(v.os, c) == Some(s.start[c]) && c !in v.owner && c !in v.loose
    ensures c !in s.start && c in v.os ==> c in v.owner || c in s.before
  {
    assert v.HighOk(c) && v.OwnerOk(c);
    assert Agree(v.goal, s.start, c);
    assert c in v.loose ==> Agree(v.os, s.before, c);
  }

  /** The descriptor that a merge duplicates. */
  function Wanted(coprocin: int, coprocout: int, fd2: int, out: bool): int {
    if fd2 == -2 then (if out then coprocout else coprocin) else fd2
  }

  /** The source of a merge has the file that the plan says, and has none otherwise unless
      the shell uses it, or it is handed over to the command. */
  lemma SourceIs(v: View, plan: Plan, s: Setup, denied: bool, fd2: int, out: bool)
    requires v.Inv() && Aimed(v, HandOver(plan, fd2), s, {}, denied, false) && forall f :: f in v.loose ==> f >= 10
    requires Sane(s) && -1 !in s.start && (fd2 == -2 || fd2 >= 0)
    ensures var src := Source(s, plan, out, fd2);
            var c := Wanted(s.coprocin, s.coprocout, fd2, out);
            && (src.Some? ==> FileAt(v.os, c) == Some(src.value.0) && src.value.1 == HandOver(plan, fd2))
            && (src.None? && c in v.os && c !in v.owner && (c in s.before ==> c in s.start) ==>
                  fd2 >= 10 && fd2 in s.start && (Marked(s, fd2) || fd2 == s.coprocin || fd2 == s.coprocout))
            && (fd2 >= 10 && src.Some? ==>
                  fd2 in s.start && !Marked(s, fd2) && fd2 != s.coprocin && fd2 != s.coprocout)
            && (fd2 == -2 && c in v.os ==> c !in v.owner)
  {
    var c := Wanted(s.coprocin, s.coprocout, fd2, out);
    Known(v);
    if 0 <= fd2 < 10 {
      assert AimOk(v, HandOver(plan, fd2), s, denied, false, fd2);
      SourceLow(v, HandOver(plan, fd2), s, denied, fd2);
    } else {
      assert fd2 !in HandOver(plan, fd2).aims;
    }
    if c >= 10 {
      SourceHigh(v, HandOver(plan, fd2), s, denied, c);
    }
  }

  // ----- What a failure leaves -----

  /** Two redirections in different directions cannot be joined, nor can one be joined
      to a stream that has been closed after it was split. */
  predicate Unfit(multios: bool, m: Option<Multio>, os0: map<int, File>, fd1: int, fd2: int, out: bool) {
    && multios && m.Some?
    && (m.value.out != out || (|m.value.fds| == 1 && (fd1 !in os0 || fd1 == fd2)))
  }

  /** Placing fails just when `Put` says so. */
  lemma PutFits(v: View, plan: Plan, s: Setup, inHand: set<int>, wreck: bool, fd1: int, fd2: int, out: bool)
    requires v.Inv() && Settled(v.mfds, s.multios) && Aimed(v, plan, s, inHand, false, wreck)
    requires 0 <= fd1 < 10 && fd2 in v.os && forall f :: f in v.loose && f < 10 ==> f == fd2
    requires fd2 in v.loose
    ensures Unfit(s.multios, v.mfds[fd1], v.os, fd1, fd2, out) <==> Put(s.multios, plan, fd1, out, v.os[fd2]).None?
  {
    assert AimOk(v, plan, s, false, wreck, fd1);
    if fd1 in plan.aims && plan.aims[fd1].Open? {
      SomeAt(plan.aims[fd1].files, 0);
      assert |plan.aims[fd1].files| == 1 ==> Targets(v.os, v.mfds[fd1], fd1)[0] == FileAt(v.os, fd1);
    }
  }

  /** The pipes left open are those of the streams that the plan has split. */
  lemma LeakFiles(v: View, plan: Plan, s: Setup, inHand: set<int>, wreck: bool)
    requires v.Inv() && Aimed(v, plan, s, inHand, false, wreck)
    ensures Files(LeakOf(v)) == Dropped(plan)
  {
    var leak := LeakOf(v);
    forall f | f in Files(leak)
      ensures f in Dropped(plan)
    {
      var p :| p in leak && leak[p] == f;
      var i :| 0 <= i < |v.mfds| && HasPipe(v.mfds[i]) && v.mfds[i].value.pipe == p;
      assert AimOk(v, plan, s, false, wreck, i);
    }
    forall f | f in Dropped(plan)
      ensures f in Files(leak)
    {
      var i :| 0 <= i < 10 && Splits(plan, i) && f == End(plan.aims[i].id, !plan.aims[i].out);
      assert AimOk(v, plan, s, false, wreck, i);
      var p := v.mfds[i].value.pipe;
      PipeSetAt(v.mfds, i);
      assert p in leak && leak[p] == f;
    }
  }

  /** Those pipes are to be closed otherwise, and so is what is not placed. */
  lemma LeakApart(v: View, fd: int)
    requires v.Inv()
    ensures LeakOf(v).Keys !! v.goal.Keys && StrayOf(v, fd).Keys !! v.goal.Keys && LeakOf(v).Keys !! StrayOf(v, fd).Keys
  {
    forall p | p in LeakOf(v)
      ensures p !in v.goal && p !in v.loose
    {
      var i :| 0 <= i < |v.mfds| && HasPipe(v.mfds[i]) && v.mfds[i].value.pipe == p;
      KnownSplit(v, i);
    }
    Known(v);
  }

  /** What is leaked in all, by its files. */
  lemma LeftFiles(v: View, plan: Plan, s: Setup, inHand: set<int>, wreck: bool, leaked: map<int, File>, fd: int)
    requires v.Inv() && Aimed(v, plan, s, inHand, false, wreck) && leaked.Keys <= v.goal.Keys
    ensures Files(leaked + LeakOf(v)) == Files(leaked) + Dropped(plan)
    ensures Files(leaked + LeakOf(v) + StrayOf(v, fd)) == Files(leaked) + Dropped(plan) + Files(StrayOf(v, fd))
  {
    LeakFiles(v, plan, s, inHand, wreck);
    LeakApart(v, fd);
    FilesJoin(leaked, LeakOf(v));
    FilesJoin(leaked + LeakOf(v), StrayOf(v, fd));
  }

  lemma OneFile(fd: int, file: File)
    ensures Files(map[fd := file]) == {file} && Files(map[]) == {}
  {
    assert map[fd := file][fd] == file;
    assert forall f :: f in Files(map[fd := file]) ==> f == file;
  }

  /** A new descriptor, the lowest that is free, stays open just when the plan says so. */
  lemma StrayFile(v: View, w: View, plan: Plan, s: Setup, fd: int)
    requires v.Inv() && Aimed(v, plan, s, {}, false, false) && forall f :: f in v.loose ==> f >= 10
    requires Opened(v, w, fd) && fd >= 0 && forall f :: 0 <= f < fd ==> f in v.os
    ensures Files(StrayOf(w, fd)) == if Strays(s, plan) then {w.os[fd]} else {}
  {
    forall j | 0 <= j < 10
      ensures OpenNow(s, plan, j) <==> j in v.os
      ensures j in plan.aims <==> v.save[j] != UNTOUCHED
    {
      OpenIs(v, plan, s, j);
    }
    var d := LowestFree(s, plan, 0);
    assert fd < 10 ==> !OpenNow(s, plan, fd);
    assert d < 10 ==> !OpenNow(s, plan, d);
    OneFile(fd, w.os[fd]);
  }

  lemma OpenIs(v: View, plan: Plan, s: Setup, j: int)
    requires v.Inv() && Aimed(v, plan, s, {}, false, false) && 0 <= j < 10 && forall f :: f in v.loose ==> f >= 10
    ensures OpenNow(s, plan, j) <==> j in v.os
    ensures j in plan.aims <==> v.save[j] != UNTOUCHED
  {
    assert AimOk(v, plan, s, false, false, j) && v.SaveOk(j) && v.SplitOk(j);
    if j in plan.aims && plan.aims[j].Open? {
      SomeAt(plan.aims[j].files, 0);
      assert |plan.aims[j].files| == 1 ==> Targets(v.os, v.mfds[j], j)[0] == FileAt(v.os, j);
    }
  }

  /** After the multios have been given up, what is still in hand apart. */
  lemma AimBare(v: View, v': View, plan: Plan, s: Setup, inHand: set<int>, wreck: bool)
    requires Aimed(v, plan, s, inHand, false, wreck) && |v'.save| == |v'.mfds| == 10
    requires forall i :: 0 <= i < 10 ==> v'.mfds[i] == None
    requires v'.loose == v.loose - inHand && v'.pipes == v.pipes && v'.copiers == v.copiers
    requires forall f :: f in v'.loose ==> Agree(v'.os, v.os, f)
    ensures Aimed(v', Bare(plan), s, {}, false, true)
  {
    forall i | 0 <= i < 10 ensures AimOk(v', Bare(plan), s, false, true, i) {}
    forall f | f in v'.loose
      ensures f >= 10 && Agree(v'.os, s.before, f)
    {
      assert Agree(v'.os, v.os, f) && Agree(v.os, s.before, f);
    }
  }

  // ----- What a command finds when it runs -----

  /** A split stream: the descriptor has one end of a pipe, and the process the other. */
  ghost predicate Copied(v: View, i: int, a: Aim, denied: bool)
    requires |v.mfds| == 10 && 0 <= i < 10 && a.Open?
  {
    && (i in v.os ==> v.os[i] == End(a.id, a.out))
    && (v.mfds[i].Some? ==> CopierOf(a) in v.copiers || (denied && CopierOf(a).(pipe := None) in v.copiers))
    && (!denied ==> i in v.os && v.mfds[i].Some?)
  }

  /** Each descriptor is its file, or is tied to a process that has its files; a closed one is
      not open, and the others are as before. Only what the system has denied is missing. */
  ghost predicate Running(v: View, plan: Plan, s: Setup, denied: bool) {
    && |v.mfds| == 10
    && (forall i :: 0 <= i < 10 ==>
          if i !in plan.aims then Agree(v.os, s.start, i)
          else match plan.aims[i]
            case Shut(_) => i !in v.os
            case Open(_, files, _) => if |files| == 1 then FileAt(v.os, i) == Some(files[0])
                                      else Copied(v, i, plan.aims[i], denied))
    && (!denied ==> v.copiers == plan.copies + Copying(plan, 10))
  }

  /** The processes for the streams that are split in the end. */
  function Copying(plan: Plan, n: nat): seq<Copier> {
    if n == 0 then [] else Copying(plan, n - 1) + if Splits(plan, n - 1) then [CopierOf(plan.aims[n - 1])] else []
  }

  /** The processes for the streams below `n`. */
  function Copies(v: View, n: nat): seq<Copier> {
    if n == 0 then [] else Copies(v, n - 1) + Handed(v, n - 1)
  }

  lemma {:induction false} CopiesAre(v: View, plan: Plan, s: Setup, n: nat)
    requires v.Inv() && Aimed(v, plan, s, {}, false, false) && n <= 10
    ensures Copies(v, n) == Copying(plan, n)
  {
    if n > 0 {
      CopiesAre(v, plan, s, n - 1);
      HandedIs(v, plan, s, {}, false, n - 1);
    }
  }

  /** Of the streams split in `v`, those below `i` have been handed over. */
  ghost predicate HandedTo(v: View, w: View, i: int, denied: bool) {
    && |v.mfds| == |w.mfds| == 10 && 0 <= i <= 10
    && (forall j :: 0 <= j < i ==> (w.mfds[j].Some? ==> w.mfds[j].value.fds == [j]))
    && (forall j :: i <= j < 10 ==> w.mfds[j] == v.mfds[j])
    && (forall j :: 0 <= j < 10 ==> Agree(w.os, v.os, j))
    && (forall j :: i <= j < 10 ==> Handed(w, j) == Handed(v, j))
    && (forall j :: 0 <= j < i && HeldApart(v, j) ==>
          if w.mfds[j].Some? then Handed(v, j)[0] in w.copiers else denied)
    && (!denied ==> w.copiers == v.copiers + Copies(v, i))
  }

  lemma HandedAll(v: View, w: View, denied: bool)
    requires HandedTo(v, w, 10, denied)
    ensures forall i :: 0 <= i < 10 && w.mfds[i].Some? ==> w.mfds[i].value.fds == [i]
  {
  }

  lemma HandedFirst(v: View, denied: bool)
    requires |v.mfds| == 10
    ensures HandedTo(v, v, 0, denied)
  {
  }

  lemma HandedNone(v: View, w: View, i: int, denied: bool)
    requires HandedTo(v, w, i, denied) && i < 10 && !HeldApart(w, i) && (w.mfds[i].Some? ==> w.mfds[i].value.fds == [i])
    ensures HandedTo(v, w, i + 1, denied)
  {
    assert !HeldApart(v, i);
  }

  lemma HandedMore(v: View, mid: View, w: View, i: int, denied: bool, denied': bool)
    requires HandedTo(v, mid, i, denied) && i < 10 && HeldApart(mid, i) && |w.mfds| == 10 && (denied ==> denied')
    requires forall j :: 0 <= j < 10 ==> Agree(w.os, mid.os, j)
    requires forall j :: 0 <= j < 10 && j != i ==> w.mfds[j] == mid.mfds[j] && Handed(w, j) == Handed(mid, j)
    requires if w.mfds[i].Some? then w.mfds[i].value.fds == [i] && w.copiers == mid.copiers + Handed(mid, i)
             else denied' && w.copiers == mid.copiers
    ensures HandedTo(v, w, i + 1, denied')
  {
    assert HeldApart(v, i) && Handed(mid, i) == Handed(v, i);
    forall j | 0 <= j < 10 ensures Agree(w.os, v.os, j) {
      assert Agree(w.os, mid.os, j) && Agree(mid.os, v.os, j);
    }
    if !denied' {
      assert w.copiers == v.copiers + Copies(v, i + 1);
    }
  }

  /** Handing over one stream leaves the others as they are. */
  lemma OthersStay(v: View, v': View, i: int)
    requires v.Inv() && HeldApart(v, i) && 0 <= i < 10 && |v'.mfds| == 10 && forall f :: f in v'.os ==> f in v.os
    requires forall j :: 0 <= j < 10 && j != i ==> v'.mfds[j] == v.mfds[j]
    requires forall f :: f in v.os && !Holds(v.mfds[i].value, f) ==> Agree(v'.os, v.os, f)
    ensures forall j :: 0 <= j < 10 ==> Agree(v'.os, v.os, j)
    ensures forall j :: 0 <= j < 10 && j != i ==> Handed(v', j) == Handed(v, j)
  {
    forall j | 0 <= j < 10 ensures Agree(v'.os, v.os, j) {
      KnownSplit(v, i);
      if Holds(v.mfds[i].value, j) && j != i {
        HeldOnce(v, i, j);
      }
    }
    forall j | 0 <= j < 10 && j != i
      ensures Handed(v', j) == Handed(v, j)
    {
      if HeldApart(v, j) {
        HandedStays(v, v', i, j);
      }
    }
  }

  lemma HandedStays(v: View, v': View, i: int, j: int)
    requires v.Inv() && HeldApart(v, i) && HeldApart(v, j) && i != j && |v'.mfds| == 10 && v'.mfds[j] == v.mfds[j]
    requires forall f :: f in v'.os ==> f in v.os
    requires forall f :: f in v.os && !Holds(v.mfds[i].value, f) ==> Agree(v'.os, v.os, f)
    ensures Handed(v', j) == Handed(v, j)
  {
    var m := v.mfds[j].value;
    KnownSplit(v, j);
    forall f | Holds(m, f)
      ensures Agree(v'.os, v.os, f)
    {
      if f in v.os && f != j {
        Known(v);
        HeldOnce(v, j, f);
        if Holds(v.mfds[i].value, f) && f != i {
          HeldOnce(v, i, f);
        }
      }
    }
    assert Agree(v'.os, v.os, m.pipe) by { assert Holds(m, m.pipe); }
    forall k | 0 <= k < |m.fds| ensures Agree(v'.os, v.os, m.fds[k]) {
      assert m.fds[k] in m.fds;
      assert Holds(m, m.fds[k]);
    }
    assert Targets(v'.os, v'.mfds[j], j) == Targets(v.os, v.mfds[j], j);
  }

  lemma RunsAsAimed(v: View, w: View, plan: Plan, s: Setup, denied: bool, denied': bool)
    requires v.Inv() && Aimed(v, plan, s, {}, denied, false) && v.loose == {} && HandedTo(v, w, 10, denied')
    requires denied ==> denied'
    ensures Running(w, plan, s, denied')
  {
    forall i | 0 <= i < 10
      ensures if i !in plan.aims then Agree(w.os, s.start, i)
              else match plan.aims[i]
                case Shut(_) => i !in w.os
                case Open(_, files, _) => if |files| == 1 then FileAt(w.os, i) == Some(files[0])
                                          else Copied(w, i, plan.aims[i], denied')
    {
      RunsAt(v, w, plan, s, denied, denied', i);
    }
    if !denied' {
      CopiesAre(v, plan, s, 10);
    }
  }

  lemma RunsAt(v: View, w: View, plan: Plan, s: Setup, denied: bool, denied': bool, i: int)
    requires v.Inv() && Aimed(v, plan, s, {}, denied, false) && v.loose == {} && HandedTo(v, w, 10, denied')
    requires 0 <= i < 10 && (denied ==> denied')
    ensures if i !in plan.aims then Agree(w.os, s.start, i)
            else match plan.aims[i]
              case Shut(_) => i !in w.os
              case Open(_, files, _) => if |files| == 1 then FileAt(w.os, i) == Some(files[0])
                                        else Copied(w, i, plan.aims[i], denied')
  {
    assert AimOk(v, plan, s, denied, false, i) && v.SaveOk(i);
    assert Agree(w.os, v.os, i);
    if Splits(plan, i) {
      var (a, m) := (plan.aims[i], v.mfds[i].value);
      assert HeldApart(v, i) && Handed(v, i)[0] == Copier(FileAt(v.os, m.pipe), a.out, Somes(a.files));
      NoMinus(v, i);
    } else if i in plan.aims && plan.aims[i].Open? {
      SomeAt(plan.aims[i].files, 0);
      assert Targets(v.os, v.mfds[i], i)[0] == FileAt(v.os, i);
    }
  }

  lemma NoMinus(v: View, i: int)
    requires v.Inv()
    ensures -1 !in v.os
  {
    Known(v);
  }

  /** A descriptor that was redirected has been asked for, if it was open at the start. */
  lemma AimAsked(v: View, plan: Plan, s: Setup, denied: bool, firsts: map<int, nat>, leaked: map<int, File>,
                 grants: nat -> bool)
    requires v.Inv() && Aimed(v, plan, s, {}, denied, false)
    requires Account(v.save, v.goal, s.start, firsts, leaked, grants) && Unasked(v.save, s.start, firsts)
    ensures forall i :: i in plan.aims && i in s.start ==> i in firsts
  {
    forall i | i in plan.aims && i in s.start
      ensures i in firsts
    {
      assert AimOk(v, plan, s, denied, false, i);
      KnownSave(v, i);
      AskedBefore(v, s.start, firsts, leaked, grants, i);
    }
  }

  lemma KnownSave(v: View, i: int)
    requires v.Inv() && 0 <= i < 10
    ensures v.mfds[i].Some? ==> v.save[i] != UNTOUCHED
  {
    Known(v);
  }
}
