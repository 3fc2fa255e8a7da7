/** Path normalisation in place (`fixdir`, builtin.c): the path is read through one pointer
    and written, unmetafied, through another into the same buffer. */
module FixDir {
  import opened Bytes
  import opened Metafied

  const SLASH: Byte := 47
  const DOT: Byte := 46

  type Segment = seq<Byte>

  /** Up to the next slash. */
  function Seg(r: seq<Byte>): (s: Segment)
    ensures s <= r && SLASH !in s && (|s| < |r| ==> r[|s|] == SLASH)
    ensures r != [] && r[0] != SLASH ==> s != []
  {
    if r == [] || r[0] == SLASH then [] else [r[0]] + Seg(r[1..])
  }

  /** The components of a path. */
  function Comps(r: seq<Byte>): seq<Segment> {
    if r == [] then []
    else if r[0] == SLASH then Comps(r[1..])
    else [Seg(r)] + Comps(r[|Seg(r)|..])
  }

  /** What components lead to: `.` nowhere, `..` back, but not above the root. */
  function Resolve(stack: seq<Segment>, cs: seq<Segment>): seq<Segment>
    decreases |cs|
  {
    if cs == [] then stack
    else if cs[0] == [DOT] then Resolve(stack, cs[1..])
    else if cs[0] == [DOT, DOT] then Resolve(if stack == [] then [] else stack[..|stack| - 1], cs[1..])
    else Resolve(stack + [cs[0]], cs[1..])
  }

  function Closed(stack: seq<Segment>): seq<Byte> {
    if stack == [] then [] else Closed(stack[..|stack| - 1]) + [SLASH] + stack[|stack| - 1]
  }

  function Open(stack: seq<Segment>): seq<Byte> {
    Closed(stack) + [SLASH]
  }

  /** The absolute path of these components, with no slash at the end but the root's. */
  function Render(stack: seq<Segment>): seq<Byte> {
    if stack == [] then [SLASH] else Closed(stack)
  }

  /** The path built, and whether links should be chased. */
  datatype Fixed = Fixed(path: seq<Byte>, chase: bool)

  /** Going back over a component that is no directory stops: what is left stays as it is. */
  function Walk(stack: seq<Segment>, r: seq<Byte>, chaseDots: bool, isDir: seq<Byte> -> bool, chase: bool): Fixed
    decreases |r|
  {
    if r == [] then Fixed(Render(stack), chase)
    else if r[0] == SLASH then Walk(stack, r[1..], chaseDots, isDir, chase)
    else
      var (c, rest) := (Seg(r), r[|Seg(r)|..]);
      if c == [DOT, DOT] && !chaseDots then
        if stack == [] then Walk([], rest, chaseDots, isDir, chase)
        else if !isDir(Open(stack)) then Fixed(Open(stack) + r, true)
        else Walk(stack[..|stack| - 1], rest, chaseDots, isDir, chase)
      else if c == [DOT] then Walk(stack, rest, chaseDots, isDir, chase)
      else Walk(stack + [c], rest, chaseDots, isDir, chase || c == [DOT, DOT])
  }

  /** Every path gone back over while these components are resolved is a directory: the
      paths are those tested, before each `..` that does not stand at the root. */
  predicate AllDirs(stack: seq<Segment>, cs: seq<Segment>, isDir: seq<Byte> -> bool)
    decreases |cs|
  {
    cs != [] ==>
      if cs[0] == [DOT] then AllDirs(stack, cs[1..], isDir)
      else if cs[0] == [DOT, DOT] then
        if stack == [] then AllDirs([], cs[1..], isDir)
        else isDir(Open(stack)) && AllDirs(stack[..|stack| - 1], cs[1..], isDir)
      else AllDirs(stack + [cs[0]], cs[1..], isDir)
  }

  /** Exactly when every path gone back over is a directory, the path is that of its
      resolved components; otherwise links are to be chased. */
  lemma {:induction false} WalkResolves(stack: seq<Segment>, r: seq<Byte>, isDir: seq<Byte> -> bool)
    ensures var fixed := Walk(stack, r, false, isDir, false);
            if AllDirs(stack, Comps(r), isDir) then fixed == Fixed(Render(Resolve(stack, Comps(r))), false)
            else fixed.chase
    decreases |r|
  {
    if r != [] {
      if r[0] == SLASH {
        WalkResolves(stack, r[1..], isDir);
      } else {
        var (c, rest) := (Seg(r), r[|Seg(r)|..]);
        WalkResolves(stack, rest, isDir);
        WalkResolves(stack + [c], rest, isDir);
        WalkResolves(if stack == [] then [] else stack[..|stack| - 1], rest, isDir);
        assert Comps(r)[1..] == Comps(rest);
      }
    }
  }

  /** The walk stops before the component `m`, a `..`, which stands at `at`: the path of the
      components before it is no directory. */
  ghost predicate Stuck(stack: seq<Segment>, r: seq<Byte>, isDir: seq<Byte> -> bool, m: nat, at: nat) {
    && m < |Comps(r)| && Comps(r)[m] == [46, 46] && AllDirs(stack, Comps(r)[..m], isDir)
    && at < |r| && r[at] != SLASH && Comps(r[at..]) == Comps(r)[m..]
    && var here := Resolve(stack, Comps(r)[..m]);
       && here != [] && !isDir(Open(here))
       && Walk(stack, r, false, isDir, false) == Fixed(Open(here) + r[at..], true)
  }

  function Step(stack: seq<Segment>, c: Segment): seq<Segment> {
    if c == [DOT] then stack
    else if c != [DOT, DOT] then stack + [c]
    else if stack == [] then [] else stack[..|stack| - 1]
  }

  lemma StuckOn(stack: seq<Segment>, r: seq<Byte>, isDir: seq<Byte> -> bool, m: nat, at: nat)
    requires r != [] && r[0] != SLASH && !(Seg(r) == [DOT, DOT] && stack != [] && !isDir(Open(stack)))
    requires Stuck(Step(stack, Seg(r)), r[|Seg(r)|..], isDir, m, at)
    ensures Stuck(stack, r, isDir, m + 1, at + |Seg(r)|)
  {
    hide Seg, Open, Render, NoDots, Comps, Walk, Resolve, AllDirs, Step;
    NextComp(r);
    var (c, rest) := (Seg(r), r[|Seg(r)|..]);
    assert rest[at..] == r[at + |c|..];
    var (cs, ds) := (Comps(r), Comps(rest));
    assert cs[..m + 1] == [c] + ds[..m] && cs[m + 1..] == ds[m..];
    StepOver(stack, c, ds[..m], isDir);
    WalkOver(stack, r, isDir);
  }

  lemma StepOver(stack: seq<Segment>, c: Segment, cs: seq<Segment>, isDir: seq<Byte> -> bool)
    requires !(c == [DOT, DOT] && stack != [] && !isDir(Open(stack)))
    ensures Resolve(stack, [c] + cs) == Resolve(Step(stack, c), cs)
    ensures AllDirs(stack, [c] + cs, isDir) <==> AllDirs(Step(stack, c), cs, isDir)
  {
    assert ([c] + cs)[1..] == cs;
  }

  lemma WalkOver(stack: seq<Segment>, r: seq<Byte>, isDir: seq<Byte> -> bool)
    requires r != [] && r[0] != SLASH && !(Seg(r) == [DOT, DOT] && stack != [] && !isDir(Open(stack)))
    ensures Walk(stack, r, false, isDir, false) == Walk(Step(stack, Seg(r)), r[|Seg(r)|..], false, isDir, false)
  {
  }

  lemma {:induction false} StuckSomewhere(stack: seq<Segment>, r: seq<Byte>, isDir: seq<Byte> -> bool)
    returns (m: nat, at: nat)
    requires !AllDirs(stack, Comps(r), isDir)
    ensures Stuck(stack, r, isDir, m, at)
    decreases |r|
  {
    hide Seg, Open, Render, NoDots;
    NextComp(r);
    if r[0] == SLASH {
      m, at := StuckSomewhere(stack, r[1..], isDir);
      assert r[1..][at..] == r[at + 1..];
      at := at + 1;
    } else if Seg(r) == [DOT, DOT] && stack != [] && !isDir(Open(stack)) {
      m, at := 0, 0;
    } else {
      hide Stuck;
      assert Comps(r)[1..] == Comps(r[|Seg(r)|..]);
      m, at := StuckSomewhere(Step(stack, Seg(r)), r[|Seg(r)|..], isDir);
      StuckOn(stack, r, isDir, m, at);
      m, at := m + 1, at + |Seg(r)|;
    }
  }

  /** Where a path gone back over is no directory, the rest of the path, from the first such
      `..` on, stays as it is, behind what the components before it lead to. */
  lemma WalkStops(stack: seq<Segment>, r: seq<Byte>, isDir: seq<Byte> -> bool) returns (m: nat, at: nat)
    requires !AllDirs(stack, Comps(r), isDir)
    ensures m < |Comps(r)| && Comps(r)[m] == [46, 46] && AllDirs(stack, Comps(r)[..m], isDir)
    ensures at < |r| && r[at] != SLASH && Comps(r[at..]) == Comps(r)[m..]
    ensures var here := Resolve(stack, Comps(r)[..m]);
            && here != [] && !isDir(Open(here))
            && Walk(stack, r, false, isDir, false) == Fixed(Open(here) + r[at..], true)
  {
    hide Comps, AllDirs, Resolve, Walk, Open;
    m, at := StuckSomewhere(stack, r, isDir);
  }

  /** All but `.` components. */
  function NoDots(cs: seq<Segment>): seq<Segment> {
    if cs == [] then [] else (if cs[0] == [46] then [] else [cs[0]]) + NoDots(cs[1..])
  }

  /** With CHASEDOTS each `..` is a component like any other, and if there is one links are to
      be chased. */
  lemma {:induction false} WalkKeepsDots(stack: seq<Segment>, r: seq<Byte>, isDir: seq<Byte> -> bool, chase: bool)
    ensures Walk(stack, r, true, isDir, chase) ==
            Fixed(Render(stack + NoDots(Comps(r))), chase || [46, 46] in Comps(r))
    decreases |r|
  {
    hide Comps, NoDots, Render, Seg;
    NextComp(r);
    if r == [] {
      assert stack + NoDots(Comps(r)) == stack;
    } else if r[0] == SLASH {
      WalkKeepsDots(stack, r[1..], isDir, chase);
    } else {
      var (c, rest) := (Seg(r), r[|Seg(r)|..]);
      if c == [DOT] {
        WalkKeepsDots(stack, rest, isDir, chase);
      } else {
        WalkKeepsDots(stack + [c], rest, isDir, chase || c == [DOT, DOT]);
        assert stack + [c] + NoDots(Comps(rest)) == stack + ([c] + NoDots(Comps(rest)));
      }
    }
  }

  lemma NextComp(r: seq<Byte>)
    ensures r == [] ==> NoDots(Comps(r)) == [] && Comps(r) == []
    ensures r != [] && r[0] == SLASH ==> Comps(r) == Comps(r[1..])
    ensures r != [] && r[0] != SLASH ==>
              var (c, rest) := (Seg(r), r[|Seg(r)|..]);
              && |rest| < |r| && Comps(r) == [c] + Comps(rest)
              && ([46, 46] in Comps(r) <==> c == [46, 46] || [46, 46] in Comps(rest))
              && NoDots(Comps(r)) == if c == [46] then NoDots(Comps(rest)) else [c] + NoDots(Comps(rest))
  {
    if r != [] && r[0] != SLASH {
      var rest := r[|Seg(r)|..];
      assert Comps(r)[1..] == Comps(rest);
      assert [] + NoDots(Comps(rest)) == NoDots(Comps(rest));
    }
  }

  lemma {:induction false} ResolveJoin(stack: seq<Segment>, a: seq<Segment>, b: seq<Segment>)
    ensures Resolve(stack, a + b) == Resolve(Resolve(stack, a), b)
    decreases |a|
  {
    if a == [] {
      assert a + b == b;
    } else {
      assert (a + b)[1..] == a[1..] + b;
      ResolveJoin(if a[0] == [DOT] then stack
                  else if a[0] != [DOT, DOT] then stack + [a[0]]
                  else if stack == [] then [] else stack[..|stack| - 1], a[1..], b);
    }
  }

  /** Anywhere in a path `.` leads nowhere, and a component with `..` behind it can be left
      out; at the root `..` leads nowhere. */
  lemma ResolveCancels(stack: seq<Segment>, a: seq<Segment>, c: Segment, b: seq<Segment>)
    ensures Resolve(stack, a + [[46]] + b) == Resolve(stack, a + b)
    ensures c != [46] && c != [46, 46] ==> Resolve(stack, a + [c, [46, 46]] + b) == Resolve(stack, a + b)
    ensures Resolve([], [[46, 46]] + b) == Resolve([], b)
  {
    hide Resolve;
    ResolveJoin(stack, a, b);
    ResolveJoin(stack, a + [[46]], b);
    ResolveJoin(stack, a, [[46]]);
    ResolveJoin(stack, a + [c, [46, 46]], b);
    ResolveJoin(stack, a, [c, [46, 46]]);
    ResolveJoin([], [[46, 46]], b);
    ResolveFew(Resolve(stack, a), c);
    ResolveFew([], c);
  }

  lemma ResolveFew(stack: seq<Segment>, c: Segment)
    ensures Resolve(stack, [[46]]) == stack && Resolve([], [[46, 46]]) == []
    ensures c != [46] && c != [46, 46] ==> Resolve(stack, [c, [46, 46]]) == stack
  {
    assert [c, [46, 46]][1..] == [[46, 46]];
    assert (stack + [c])[..|stack|] == stack;
  }

  /** A component proper: not empty, not `.` or `..`, without a slash. */
  predicate Proper(c: Segment) {
    c != [] && c != [DOT] && c != [DOT, DOT] && SLASH !in c
  }

  predicate AllProper(stack: seq<Segment>) {
    forall i :: 0 <= i < |stack| ==> Proper(stack[i])
  }

  lemma {:induction false} CompsFine(r: seq<Byte>)
    ensures forall i :: 0 <= i < |Comps(r)| ==> Comps(r)[i] != [] && SLASH !in Comps(r)[i]
    decreases |r|
  {
    if r != [] {
      CompsFine(if r[0] == SLASH then r[1..] else r[|Seg(r)|..]);
    }
  }

  lemma {:induction false} ResolveProper(stack: seq<Segment>, cs: seq<Segment>)
    requires AllProper(stack) && forall i :: 0 <= i < |cs| ==> cs[i] != [] && SLASH !in cs[i]
    ensures AllProper(Resolve(stack, cs))
    decreases |cs|
  {
    if cs != [] {
      if cs[0] == [DOT] {
        ResolveProper(stack, cs[1..]);
      } else if cs[0] == [DOT, DOT] {
        ResolveProper(if stack == [] then [] else stack[..|stack| - 1], cs[1..]);
      } else {
        ResolveProper(stack + [cs[0]], cs[1..]);
      }
    }
  }

  lemma {:induction false} CompsJoin(c: Segment, r: seq<Byte>)
    requires c != [] && SLASH !in c && (r == [] || r[0] == SLASH)
    ensures Comps([SLASH] + c + r) == [c] + Comps(r)
  {
    var t := [SLASH] + c + r;
    assert t[1..] == c + r;
    SegJoin(c, r);
    assert (c + r)[|c|..] == r;
  }

  lemma {:induction false} SegJoin(c: Segment, r: seq<Byte>)
    requires SLASH !in c && (r == [] || r[0] == SLASH)
    ensures Seg(c + r) == c
  {
    if c != [] {
      assert (c + r)[1..] == c[1..] + r;
      SegJoin(c[1..], r);
    }
  }

  /** The components of a rendered path are those it was made of. */
  lemma {:induction false} CompsClosed(stack: seq<Segment>, r: seq<Byte>)
    requires AllProper(stack) && (r == [] || r[0] == SLASH)
    ensures Comps(Closed(stack) + r) == stack + Comps(r)
    decreases |stack|
  {
    if stack == [] {
      assert Closed(stack) + r == r;
    } else {
      var (front, c) := (stack[..|stack| - 1], stack[|stack| - 1]);
      hide Comps;
      assert Closed(stack) == Closed(front) + [SLASH] + c;
      assert Closed(front) + [SLASH] + c + r == Closed(front) + ([SLASH] + c + r);
      CompsClosed(front, [SLASH] + c + r);
      CompsJoin(c, r);
      assert stack == front + [c];
    }
  }

  lemma {:induction false} ResolveIsProper(stack: seq<Segment>, cs: seq<Segment>)
    requires AllProper(cs)
    ensures Resolve(stack, cs) == stack + cs
    decreases |cs|
  {
    if cs != [] {
      ResolveIsProper(stack + [cs[0]], cs[1..]);
    }
  }

  /** Normalising a normal path changes nothing. */
  lemma Idempotent(u: seq<Byte>)
    ensures var path := Render(Resolve([], Comps(u)));
            Render(Resolve([], Comps(path))) == path
  {
    var stack := Resolve([], Comps(u));
    CompsFine(u);
    ResolveProper([], Comps(u));
    CompsClosed(stack, []);
    assert Closed(stack) + [] == Closed(stack);
    ResolveIsProper([], stack);
    assert [] + stack == stack && stack + Comps([]) == stack;
    assert Comps([SLASH]) == [];
  }

  /** A normal path is absolute, has no `.`, `..` or empty component, and ends in a slash
      only if it is the root. */
  lemma {:induction false} NormalForm(u: seq<Byte>)
    ensures var path := Render(Resolve([], Comps(u)));
            && AllProper(Comps(path))
            && path != [] && path[0] == SLASH
            && (forall i :: 0 <= i < |path| - 1 && path[i] == SLASH ==> path[i + 1] != SLASH)
            && (path[|path| - 1] == SLASH ==> path == [SLASH])
  {
    var stack := Resolve([], Comps(u));
    CompsFine(u);
    ResolveProper([], Comps(u));
    CompsClosed(stack, []);
    assert Closed(stack) + [] == Closed(stack);
    assert Comps([SLASH]) == [];
    ClosedForm(stack);
  }

  lemma {:induction false} ClosedForm(stack: seq<Segment>)
    requires AllProper(stack)
    ensures var p := Closed(stack);
            && (forall i :: 0 <= i < |p| - 1 && p[i] == SLASH ==> p[i + 1] != SLASH)
            && (stack != [] ==> p != [] && p[0] == SLASH && p[|p| - 1] != SLASH)
  {
    if stack != [] {
      var (front, c) := (stack[..|stack| - 1], stack[|stack| - 1]);
      ClosedForm(front);
      assert forall i :: 0 <= i < |c| ==> c[i] in c;
    }
  }

  /** At `src` the buffer holds the encoding of `r` and the final NUL. */
  predicate Reads(s: seq<Byte>, src: nat, r: seq<Byte>) {
    src + |Metafy(r)| < |s| && s[src..src + |Metafy(r)|] == Metafy(r) && s[src + |Metafy(r)|] == 0
  }

  /** What the next byte says; slashes and dots are encoded as they are. */
  lemma Peek(s: seq<Byte>, src: nat, r: seq<Byte>)
    requires Reads(s, src, r) && 0 !in r
    ensures src < |s| && (s[src] == 0 <==> r == [])
    ensures r != [] ==> 0 !in r[1..]
    ensures r != [] && !IsMeta(r[0]) ==> s[src] == r[0] && Reads(s, src + 1, r[1..])
    ensures r != [] && IsMeta(r[0]) ==> s[src] == META && src + 1 < |s| && s[src + 1] == Flip(r[0]) && Reads(s, src + 2, r[1..])
  {
    if r != [] {
      var (m, rest) := (MetaByte(r[0]), Metafy(r[1..]));
      assert Metafy(r) == m + rest;
      assert Metafy(r)[|m|..] == rest;
      assert s[src..src + |Metafy(r)|][|m|..] == s[src + |m|..src + |Metafy(r)|];
      assert s[src] == Metafy(r)[0] && forall b :: b in r[1..] ==> b in r;
      if IsMeta(r[0]) {
        assert s[src + 1] == Metafy(r)[1];
      }
    }
  }

  /** Writing before `src` does not matter to what is read. */
  lemma ReadsKeep(s: seq<Byte>, t: seq<Byte>, src: nat, r: seq<Byte>)
    requires Reads(s, src, r) && |s| == |t| && s[src..] == t[src..]
    ensures Reads(t, src, r)
  {
    var n := |Metafy(r)|;
    assert s[src..src + n] == s[src..][..n] && t[src..src + n] == t[src..][..n];
    assert s[src + n] == s[src..][n] && t[src + n] == t[src..][n];
  }

  function DropSlashes(r: seq<Byte>): seq<Byte> {
    if r != [] && r[0] == SLASH then DropSlashes(r[1..]) else r
  }

  lemma {:induction false} WalkSlashes(stack: seq<Segment>, r: seq<Byte>, chaseDots: bool, isDir: seq<Byte> -> bool, chase: bool)
    ensures Walk(stack, DropSlashes(r), chaseDots, isDir, chase) == Walk(stack, r, chaseDots, isDir, chase)
    ensures |DropSlashes(r)| <= |r| && (0 !in r ==> 0 !in DropSlashes(r))
    ensures DropSlashes(r) != [] ==> DropSlashes(r)[0] != SLASH
  {
    if r != [] && r[0] == SLASH {
      WalkSlashes(stack, r[1..], chaseDots, isDir, chase);
    }
  }

  /** A slash that comes next is the first of those dropped. */
  lemma PeekSlash(s: seq<Byte>, src: nat, r: seq<Byte>)
    requires Reads(s, src, r) && 0 !in r
    ensures src < |s|
    ensures s[src] == SLASH ==>
              && r != [] && 0 !in r[1..] && Reads(s, src + 1, r[1..]) && DropSlashes(r[1..]) == DropSlashes(r)
    ensures s[src] != SLASH ==> DropSlashes(r) == r
  {
    hide Reads;
    Peek(s, src, r);
  }

  /** `while (*src == '/') src++`. */
  method SkipSlashes(a: array<Byte>, from: nat, ghost r: seq<Byte>) returns (src: nat)
    requires Reads(a[..], from, r) && 0 !in r
    ensures from <= src && Reads(a[..], src, DropSlashes(r))
  {
    hide Reads, DropSlashes;
    src := from;
    ghost var rest := r;
    PeekSlash(a[..], src, rest);
    while a[src] == SLASH
      invariant from <= src < a.Length && 0 !in rest && Reads(a[..], src, rest) && DropSlashes(rest) == DropSlashes(r)
      invariant a[src] == SLASH ==>
                  && rest != [] && 0 !in rest[1..] && Reads(a[..], src + 1, rest[1..])
                  && DropSlashes(rest[1..]) == DropSlashes(rest)
      invariant a[src] != SLASH ==> DropSlashes(rest) == rest
      decreases |rest|
    {
      src := src + 1;
      rest := rest[1..];
      PeekSlash(a[..], src, rest);
    }
  }

  lemma FlipBack(b: Byte)
    ensures Flip(Flip(b)) == b
  {
  }

  /** `*dest++ = *src++`, with a pair decoded. */
  method CopyByte(a: array<Byte>, src0: nat, dest0: nat, ghost r: seq<Byte>) returns (src: nat, dest: nat)
    requires Reads(a[..], src0, r) && 0 !in r && r != [] && dest0 <= src0
    modifies a
    ensures dest == dest0 + 1 && dest <= src && src0 < src < a.Length && Reads(a[..], src, r[1..])
    ensures a[..dest] == old(a[..dest0]) + [r[0]]
  {
    ghost var before := a[..];
    Peek(before, src0, r);
    hide Reads;
    var c := a[src0];
    a[dest0] := c;
    dest, src := dest0 + 1, src0 + 1;
    if c == META {
      a[dest - 1] := Flip(a[src]);
      src := src + 1;
      FlipBack(r[0]);
    }
    assert before[src..] == a[..][src..];
    ReadsKeep(before, a[..], src, r[1..]);
    Peek(a[..], src, r[1..]);
  }

  /** A normal component is copied, decoded. */
  method CopySegment(a: array<Byte>, src0: nat, dest0: nat, ghost r: seq<Byte>) returns (src: nat, dest: nat)
    requires Reads(a[..], src0, r) && 0 !in r && dest0 <= src0
    modifies a
    ensures dest <= src && src0 <= src < a.Length && Reads(a[..], src, r[|Seg(r)|..])
    ensures dest0 <= dest && a[..dest] == old(a[..dest0]) + Seg(r)
  {
    hide Reads, Seg, Copied, Metafy;
    src, dest := src0, dest0;
    ghost var rest := r;
    Peek(a[..], src, rest);
    SlashMeta(rest);
    ghost var was := a[..dest0];
    ghost var done: seq<Byte> := [];
    CopiedNone(r);
    while a[src] != SLASH && a[src] != 0
      invariant dest0 <= dest <= src < a.Length && src0 <= src
      invariant 0 !in rest && Reads(a[..], src, rest) && (a[src] == 0 <==> rest == []) && (a[src] == SLASH <==> Seg(rest) == [] && rest != [])
      invariant a[..dest] == was + done && Copied(r, done, rest)
      decreases |rest|
    {
      CopiedNext(r, done, rest);
      assert was + done + [rest[0]] == was + (done + [rest[0]]);
      src, dest := CopyByte(a, src, dest, rest);
      done := done + [rest[0]];
      Peek(a[..], src, rest[1..]);
      SlashMeta(rest[1..]);
      rest := rest[1..];
    }
    CopiedAll(r, done, rest);
  }

  /** `done` of the first component of `r` is copied, `rest` is left. */
  predicate Copied(r: seq<Byte>, done: seq<Byte>, rest: seq<Byte>) {
    Seg(r) == done + Seg(rest) && Parted(r, done, rest)
  }

  lemma CopiedNone(r: seq<Byte>)
    ensures Copied(r, [], r)
  {
  }

  lemma CopiedNext(r: seq<Byte>, done: seq<Byte>, rest: seq<Byte>)
    requires Copied(r, done, rest) && Seg(rest) != []
    ensures rest != [] && Copied(r, done + [rest[0]], rest[1..])
  {
    SegNext(rest);
    PartedNext(r, done, rest);
    hide Parted, Seg;
    assert done + ([rest[0]] + Seg(rest[1..])) == (done + [rest[0]]) + Seg(rest[1..]);
  }

  lemma CopiedAll(r: seq<Byte>, done: seq<Byte>, rest: seq<Byte>)
    requires Copied(r, done, rest) && Seg(rest) == []
    ensures done == Seg(r) && rest == r[|Seg(r)|..]
  {
  }

  lemma SlashMeta(r: seq<Byte>)
    ensures r != [] && IsMeta(r[0]) ==> r[0] != SLASH
    ensures Seg(r) == [] <==> r == [] || r[0] == SLASH
  {
  }

  lemma SegNext(r: seq<Byte>)
    requires r != [] && Seg(r) != []
    ensures Seg(r) == [r[0]] + Seg(r[1..])
  {
  }

  predicate Plain(stack: seq<Segment>) {
    forall i :: 0 <= i < |stack| ==> stack[i] != [] && SLASH !in stack[i]
  }

  lemma ClosedLast(stack: seq<Segment>)
    requires stack != []
    ensures Closed(stack) == Open(stack[..|stack| - 1]) + stack[|stack| - 1]
  {
  }

  /** The last component goes: back to after the slash before it. */
  method PopSegment(a: array<Byte>, dest0: nat, ghost stack: seq<Segment>) returns (dest: nat)
    requires Plain(stack) && stack != [] && dest0 <= a.Length && a[..dest0] == Open(stack)
    ensures dest <= dest0 && a[..dest] == Open(stack[..|stack| - 1])
  {
    hide Closed;
    ghost var (front, c) := (stack[..|stack| - 1], stack[|stack| - 1]);
    ClosedLast(stack);
    ghost var p := Open(front);
    assert Open(stack) == p + c + [SLASH];
    assert forall i :: 0 <= i < |c| ==> a[..dest0][|p| + i] == c[i] && c[i] in c;
    assert a[..dest0][|p| - 1] == SLASH;
    var d: int := dest0 - 1;
    while d > 1 && a[d - 1] != SLASH
      invariant |p| <= d < dest0
    {
      d := d - 1;
    }
    assert d == |p|;
    assert a[..d] == a[..dest0][..d];
    if a[d - 1] != SLASH {
      // only a relative path has no slash in front
      assert false;
    }
    dest := d;
  }

  /** The rest of the path is decoded behind what there is. */
  method CopyRest(a: array<Byte>, src0: nat, dest0: nat, ghost r: seq<Byte>)
    requires Reads(a[..], src0, r) && 0 !in r && dest0 <= src0
    modifies a
    ensures dest0 + |r| < a.Length && a[..dest0 + |r|] == old(a[..dest0]) + r && a[dest0 + |r|] == 0
  {
    hide Reads, Metafy, Parted;
    var ptrs, ptrd := src0, dest0;
    Peek(a[..], ptrs, r);
    ghost var rest := r;
    ghost var was := a[..dest0];
    ghost var done: seq<Byte> := [];
    assert Parted(r, done, rest) by { PartedNone(r); }
    while a[ptrs] != 0
      invariant dest0 <= ptrd <= ptrs < a.Length && 0 !in rest && Reads(a[..], ptrs, rest) && (a[ptrs] == 0 <==> rest == [])
      invariant a[..ptrd] == was + done && Parted(r, done, rest)
      decreases |rest|
    {
      PartedNext(r, done, rest);
      assert was + done + [rest[0]] == was + (done + [rest[0]]);
      ptrs, ptrd := CopyByte(a, ptrs, ptrd, rest);
      done := done + [rest[0]];
      Peek(a[..], ptrs, rest[1..]);
      rest := rest[1..];
    }
    assert done == r && ptrd == dest0 + |r| by { PartedAll(r, done); }
    a[ptrd] := 0;
  }

  predicate Parted(r: seq<Byte>, done: seq<Byte>, rest: seq<Byte>) {
    r == done + rest
  }

  lemma PartedNone(r: seq<Byte>)
    ensures Parted(r, [], r)
  {
  }

  lemma PartedNext(r: seq<Byte>, done: seq<Byte>, rest: seq<Byte>)
    requires Parted(r, done, rest) && rest != []
    ensures Parted(r, done + [rest[0]], rest[1..])
  {
  }

  lemma PartedAll(r: seq<Byte>, done: seq<Byte>)
    requires Parted(r, done, [])
    ensures r == done
  {
  }

  /** The tests for a `.` or `..` component look at bytes before the end only. */
  lemma Dots(s: seq<Byte>, src: nat, r: seq<Byte>)
    requires Reads(s, src, r) && 0 !in r && r != [] && r[0] != SLASH
    ensures src < |s| && (s[src] == DOT ==> src + 1 < |s| && (s[src + 1] == DOT ==> src + 2 < |s|))
    ensures Seg(r) == [DOT, DOT] <==> s[src] == DOT && s[src + 1] == DOT && (s[src + 2] == 0 || s[src + 2] == SLASH)
    ensures Seg(r) == [DOT] <==> s[src] == DOT && (s[src + 1] == 0 || s[src + 1] == SLASH)
    ensures Seg(r) == [DOT, DOT] ==> Reads(s, src + 2, r[2..])
    ensures Seg(r) == [DOT] ==> Reads(s, src + 1, r[1..])
  {
    hide Reads, Metafy;
    Peek(s, src, r);
    if s[src] == DOT {
      Peek(s, src + 1, r[1..]);
      SegCases(r);
      if s[src + 1] == DOT {
        assert r[1..][1..] == r[2..];
        Peek(s, src + 2, r[2..]);
      }
    } else {
      SegCases(r);
    }
  }

  lemma SegCases(r: seq<Byte>)
    requires r != [] && r[0] != SLASH
    ensures Seg(r)[0] == r[0]
    ensures Seg(r) == [DOT] <==> r[0] == DOT && (|r| == 1 || r[1] == SLASH)
    ensures Seg(r) == [DOT, DOT] <==> r[0] == DOT && |r| > 1 && r[1] == DOT && (|r| == 2 || r[2] == SLASH)
  {
  }

  lemma SegIn(r: seq<Byte>)
    requires 0 !in r
    ensures 0 !in r[|Seg(r)|..] && (r[|Seg(r)|..] == [] || r[|Seg(r)|] == SLASH)
  {
  }

  /** A string in the buffer, with its NUL. */
  predicate Holds(s: seq<Byte>, path: seq<Byte>) {
    |path| < |s| && s[..|path|] == path && s[|path|] == 0
  }

  /** A `..` where dots are not chased: back over the component before it, if that is a
      directory; otherwise everything left is decoded and it is over. */
  method GoBack(a: array<Byte>, src0: nat, dest0: nat, isDir: seq<Byte> -> bool, ghost stack: seq<Segment>, ghost r: seq<Byte>)
    returns (stop: bool, src: nat, dest: nat, ghost left: seq<Segment>)
    requires Plain(stack) && dest0 <= src0 && Reads(a[..], src0, r) && 0 !in r
    requires r != [] && r[0] != SLASH && Seg(r) == [DOT, DOT] && dest0 < a.Length && a[..dest0] == Open(stack)
    modifies a
    ensures stop <==> stack != [] && !isDir(Open(stack))
    ensures stop ==> Holds(a[..], Open(stack) + r)
    ensures !stop ==>
              && src0 < src && dest <= src && dest <= dest0 && Reads(a[..], src, DropSlashes(r[2..]))
              && left == (if stack == [] then [] else stack[..|stack| - 1]) && a[..dest] == Open(left)
  {
    hide Reads, Metafy, Seg;
    src, dest, left, stop := src0, dest0, stack, false;
    ghost var before := a[..];
    Dots(before, src0, r);
    OpenRoot(stack);
    if dest > 1 {
      var keep := a[dest];
      a[dest] := 0;
      if !isDir(a[..dest]) {
        if dest == src {
          a[dest] := DOT;
        }
        assert before[src..] == a[..][src..];
        ReadsKeep(before, a[..], src, r);
        CopyRest(a, src, dest, r);
        stop := true;
        return;
      }
      dest := PopSegment(a, dest, stack);
      left := stack[..|stack| - 1];
    }
    assert before[src + 2..] == a[..][src + 2..];
    ReadsKeep(before, a[..], src + 2, r[2..]);
    src := SkipSlashes(a, src + 2, r[2..]);
  }

  lemma OpenRoot(stack: seq<Segment>)
    requires Plain(stack)
    ensures |Open(stack)| > 1 <==> stack != []
  {
  }

  /** At the end of the path a slash at the end is removed, unless it is the root. */
  method EndPath(a: array<Byte>, dest0: nat, ghost stack: seq<Segment>, ghost open: bool)
    requires Plain(stack) && 0 < dest0 < a.Length && a[..dest0] == if open then Open(stack) else Closed(stack)
    modifies a
    ensures Holds(a[..], Render(stack))
  {
    var dest := dest0;
    ghost var was := a[..dest0];
    LastByte(stack);
    while dest > 1 && a[dest - 1] == SLASH
      invariant 0 < dest <= dest0 && a[..dest0] == was
      invariant was[..dest] == Render(stack) || (dest == dest0 && was == Open(stack))
    {
      assert a[dest - 1] == was[dest - 1];
      dest := dest - 1;
    }
    a[dest] := 0;
    assert a[..dest] == was[..dest];
  }

  lemma LastByte(stack: seq<Segment>)
    requires Plain(stack)
    ensures stack != [] ==> Closed(stack) != [] && Closed(stack)[|Closed(stack)| - 1] != SLASH
    ensures Open(stack)[..|Open(stack)| - 1] == Closed(stack)
  {
    if stack != [] {
      var c := stack[|stack| - 1];
      assert c[|c| - 1] in c;
    }
  }

  /** Between components: what is written stands for `stack`, what is left to read is `r`. */
  predicate Position(s: seq<Byte>, src: nat, dest: nat, stack: seq<Segment>, r: seq<Byte>, open: bool) {
    && dest <= src < |s| && 0 !in r && Reads(s, src, r) && Plain(stack)
    && s[..dest] == (if open then Open(stack) else Closed(stack))
    && (r != [] ==> if open then r[0] != SLASH else r[0] == SLASH)
  }

  lemma Looking(s: seq<Byte>, src: nat, dest: nat, stack: seq<Segment>, r: seq<Byte>, open: bool)
    requires Position(s, src, dest, stack, r, open)
    ensures dest <= src < |s| && 0 !in r && Reads(s, src, r) && Plain(stack)
    ensures s[..dest] == if open then Open(stack) else Closed(stack)
    ensures (s[src] == 0 <==> r == []) && (open ==> dest > 0)
    ensures r != [] ==> if open then r[0] != SLASH else r[0] == SLASH && s[src] == SLASH
    ensures open ==> s[src] != SLASH
  {
    hide Reads, Metafy, Walk;
    Peek(s, src, r);
    Opened(stack);
  }

  /** Slashes before a component are written as one. */
  method OneSlash(a: array<Byte>, src0: nat, dest0: nat, ghost stack: seq<Segment>, ghost r: seq<Byte>) returns (src: nat, dest: nat)
    requires Position(a[..], src0, dest0, stack, r, false) && r != []
    modifies a
    ensures Position(a[..], src, dest, stack, DropSlashes(r[1..]), true)
  {
    hide Reads, Metafy, Seg, Closed, Open, Walk;
    Looking(a[..], src0, dest0, stack, r, false);
    src, dest := CopyByte(a, src0, dest0, r);
    Opened(stack);
    var after := SkipSlashes(a, src, r[1..]);
    DropFine(r[1..]);
    Peek(a[..], after, DropSlashes(r[1..]));
    src := after;
  }

  lemma {:induction false} DropFine(r: seq<Byte>)
    ensures (0 !in r ==> 0 !in DropSlashes(r)) && (DropSlashes(r) != [] ==> DropSlashes(r)[0] != SLASH)
    ensures |DropSlashes(r)| <= |r|
  {
    if r != [] && r[0] == SLASH {
      DropFine(r[1..]);
    }
  }

  /** One component that is not gone back over: `.` is left out, any other is copied. */
  method Forward(a: array<Byte>, src0: nat, dest0: nat, ghost stack: seq<Segment>, ghost r: seq<Byte>)
    returns (src: nat, dest: nat, ghost stack': seq<Segment>, ghost r': seq<Byte>, ghost open: bool)
    requires Position(a[..], src0, dest0, stack, r, true) && r != []
    modifies a
    ensures Position(a[..], src, dest, stack', r', open) && |r'| < |r| && (r' == [] ==> dest > 0)
    ensures if Seg(r) == [DOT] then stack' == stack && r' == DropSlashes(r[1..])
            else stack' == stack + [Seg(r)] && r' == r[|Seg(r)|..]
  {
    hide Reads, Metafy, Seg, Closed, Open, Walk, Position;
    Looking(a[..], src0, dest0, stack, r, true);
    src, dest := src0, dest0;
    Dots(a[..], src, r);
    SegIn(r);
    SegSome(r);
    if a[src] == DOT && (a[src + 1] == SLASH || a[src + 1] == 0) {
      src := SkipSlashes(a, src + 1, r[1..]);
      DropFine(r[1..]);
      stack', r', open := stack, DropSlashes(r[1..]), true;
      Peek(a[..], src, r');
    } else {
      src, dest := CopySegment(a, src, dest, r);
      CopiedOn(stack, Seg(r));
      stack', r', open := stack + [Seg(r)], r[|Seg(r)|..], false;
      Peek(a[..], src, r');
    }
    Placed(a[..], src, dest, stack', r', open);
  }

  lemma SegSome(r: seq<Byte>)
    requires r != [] && r[0] != SLASH
    ensures Seg(r) != [] && SLASH !in Seg(r) && |Seg(r)| <= |r|
  {
  }

  lemma Placed(s: seq<Byte>, src: nat, dest: nat, stack: seq<Segment>, r: seq<Byte>, open: bool)
    requires dest <= src < |s| && 0 !in r && Reads(s, src, r) && Plain(stack)
    requires s[..dest] == if open then Open(stack) else Closed(stack)
    requires r != [] ==> if open then r[0] != SLASH else r[0] == SLASH
    ensures Position(s, src, dest, stack, r, open)
  {
  }

  lemma WalkForward(stack: seq<Segment>, r: seq<Byte>, chaseDots: bool, isDir: seq<Byte> -> bool, chase: bool)
    requires r != [] && r[0] != SLASH && (Seg(r) == [DOT, DOT] ==> chaseDots)
    ensures Walk(stack, r, chaseDots, isDir, chase) ==
            if Seg(r) == [DOT] then Walk(stack, DropSlashes(r[1..]), chaseDots, isDir, chase)
            else Walk(stack + [Seg(r)], r[|Seg(r)|..], chaseDots, isDir, chase || Seg(r) == [DOT, DOT])
  {
    if Seg(r) == [DOT] {
      WalkSlashes(stack, r[1..], chaseDots, isDir, chase);
    }
  }

  lemma WalkBack(stack: seq<Segment>, r: seq<Byte>, isDir: seq<Byte> -> bool, chase: bool)
    requires r != [] && r[0] != SLASH && Seg(r) == [DOT, DOT]
    ensures Walk(stack, r, false, isDir, chase) ==
            if stack != [] && !isDir(Open(stack)) then Fixed(Open(stack) + r, true)
            else Walk(if stack == [] then [] else stack[..|stack| - 1], DropSlashes(r[2..]), false, isDir, chase)
    ensures |DropSlashes(r[2..])| < |r| && |r| >= 2
  {
    WalkSlashes(if stack == [] then [] else stack[..|stack| - 1], r[2..], false, isDir, chase);
  }

  /** `fixdir` on an absolute path without NUL. */
  method FixDir(a: array<Byte>, chaseDots: bool, isDir: seq<Byte> -> bool, ghost u: seq<Byte>) returns (chase: bool)
    requires Reads(a[..], 0, u) && 0 !in u && u != [] && u[0] == SLASH
    modifies a
    ensures var f := Walk([], u, chaseDots, isDir, false); chase == f.chase && Holds(a[..], f.path)
    ensures !chaseDots ==>
              if AllDirs([], Comps(u), isDir) then !chase && Holds(a[..], Render(Resolve([], Comps(u)))) else chase
    ensures chaseDots ==> Holds(a[..], Render(NoDots(Comps(u)))) && (chase <==> [46, 46] in Comps(u))
  {
    hide Reads, Metafy, Seg, Closed, Open, Walk, Position, AllDirs, Comps, Resolve, NoDots, Render, Holds;
    WalkResolves([], u, isDir);
    WalkKeepsDots([], u, isDir, false);
    assert [] + NoDots(Comps(u)) == NoDots(Comps(u));
    var src: nat, dest: nat := 0, 0;
    chase := false;
    ghost var (r, stack, open, f) := (u, [], false, Walk([], u, chaseDots, isDir, false));
    Peek(a[..], src, r);
    ClosedNone();
    Placed(a[..], src, dest, stack, r, open);
    while true
      invariant Position(a[..], src, dest, stack, r, open) && (r == [] ==> dest > 0)
      invariant Walk(stack, r, chaseDots, isDir, chase) == f
      decreases |r|
    {
      Looking(a[..], src, dest, stack, r, open);
      if a[src] == SLASH {
        WalkOne(stack, r, chaseDots, isDir, chase);
        src, dest := OneSlash(a, src, dest, stack, r);
        r, open := DropSlashes(r[1..]), true;
        Looking(a[..], src, dest, stack, r, open);
      }
      if a[src] == 0 {
        EndPath(a, dest, stack, open);
        WalkEnd(stack, chaseDots, isDir, chase);
        return;
      }
      Dots(a[..], src, r);
      if a[src] == DOT && a[src + 1] == DOT && (a[src + 2] == 0 || a[src + 2] == SLASH) && !chaseDots {
        var stop;
        ghost var left;
        WalkBack(stack, r, isDir, chase);
        DropFine(r[2..]);
        assert 0 !in r[2..];
        stop, src, dest, left := GoBack(a, src, dest, isDir, stack, r);
        if stop {
          return true;
        }
        r, stack := DropSlashes(r[2..]), left;
        Peek(a[..], src, r);
        Opened(stack);
        Placed(a[..], src, dest, stack, r, true);
      } else {
        WalkForward(stack, r, chaseDots, isDir, chase);
        if a[src] == DOT && a[src + 1] == DOT && (a[src + 2] == 0 || a[src + 2] == SLASH) {
          chase := true;
        }
        src, dest, stack, r, open := Forward(a, src, dest, stack, r);
      }
    }
  }

  lemma WalkOne(stack: seq<Segment>, r: seq<Byte>, chaseDots: bool, isDir: seq<Byte> -> bool, chase: bool)
    requires r != [] && r[0] == SLASH
    ensures Walk(stack, r, chaseDots, isDir, chase) == Walk(stack, DropSlashes(r[1..]), chaseDots, isDir, chase)
    ensures |DropSlashes(r[1..])| < |r|
  {
    WalkSlashes(stack, r[1..], chaseDots, isDir, chase);
  }

  lemma WalkEnd(stack: seq<Segment>, chaseDots: bool, isDir: seq<Byte> -> bool, chase: bool)
    ensures Walk(stack, [], chaseDots, isDir, chase) == Fixed(Render(stack), chase)
  {
  }

  lemma CopiedOn(stack: seq<Segment>, c: Segment)
    requires Plain(stack) && c != [] && SLASH !in c
    ensures Open(stack) + c == Closed(stack + [c]) && Plain(stack + [c])
  {
    assert (stack + [c])[..|stack|] == stack;
  }

  lemma Opened(stack: seq<Segment>)
    ensures Closed(stack) + [SLASH] == Open(stack) && Open(stack) != []
  {
  }

  lemma ClosedNone()
    ensures Closed([]) == []
  {
  }
}
