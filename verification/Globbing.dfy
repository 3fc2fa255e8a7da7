/** The recursive path scanner of filename generation (glob.c): the sequence of matches
    it builds over a directory tree, and which paths those are. */
module Globbing {
  import opened Bytes

  type Name = seq<Byte>
  type Path = seq<Name>

  datatype Option<+T> = None | Some(value: T)

  /** A directory tree without symbolic links, entries in the order they are read. */
  datatype Fs = File | Dir(entries: seq<Entry>)
  datatype Entry = Entry(name: Name, node: Fs)

  /** A path section is a plain string or a pattern; with `closure` it is `(section/)#`. */
  datatype Pat = Pure(str: Name) | Glob(id: nat)
  datatype Comp = Comp(pat: Pat, closure: bool)

  const DOT: Name := [46]
  const DOTDOT: Name := [46, 46]

  /** The tree searched, where the search starts, and the pattern matcher. */
  datatype World = World(root: Fs, absolute: bool, matcher: (nat, Name) -> bool)

  predicate HasName(es: seq<Entry>, n: Name) {
    exists i :: 0 <= i < |es| && es[i].name == n
  }

  function Child(es: seq<Entry>, name: Name): (r: Option<Fs>)
    ensures r.Some? <==> HasName(es, name)
    ensures r.Some? ==> exists i :: 0 <= i < |es| && es[i] == Entry(name, r.value)
  {
    if es == [] then None
    else if es[0].name == name then
      assert es[0] == Entry(name, es[0].node);
      Some(es[0].node)
    else
      var r := Child(es[1..], name);
      assert r.Some? ==> exists i :: 1 <= i < |es| && es[i] == Entry(name, r.value) by {
        if r.Some? {
          var j :| 0 <= j < |es[1..]| && es[1..][j] == Entry(name, r.value);
          assert es[j + 1] == Entry(name, r.value);
        }
      }
      r
  }

  function Lookup(root: Fs, p: Path): Option<Fs>
    decreases |p|
  {
    if p == [] then Some(root)
    else
      match Lookup(root, p[..|p| - 1])
      case Some(Dir(es)) => Child(es, p[|p| - 1])
      case _ => None
  }

  predicate IsDir(root: Fs, p: Path) {
    Lookup(root, p).Some? && Lookup(root, p).value.Dir?
  }

  function Height(f: Fs): nat {
    match f
    case File => 0
    case Dir(es) => 1 + HeightAll(es)
  }

  function HeightAll(es: seq<Entry>): (h: nat)
    ensures forall i :: 0 <= i < |es| ==> Height(es[i].node) <= h
  {
    if es == [] then 0
    else
      var (a, b) := (Height(es[0].node), HeightAll(es[1..]));
      assert forall i :: 1 <= i < |es| ==> es[i] == es[1..][i - 1];
      if a < b then b else a
  }

  function HeightAt(root: Fs, p: Path): nat {
    if Lookup(root, p).Some? then Height(Lookup(root, p).value) else 0
  }

  function Matches(w: World, pat: Pat, name: Name): bool {
    match pat
    case Pure(str) => name == str
    case Glob(id) => name != [] && w.matcher(id, name)
  }

  /** Names of the entries that match, and are directories if `dirs`. */
  function Selected(w: World, pat: Pat, p: Path, es: seq<Entry>, dirs: bool): seq<Name> {
    if es == [] then []
    else
      var (n, ns) := (es[0].name, Selected(w, pat, p, es[1..], dirs));
      if Keeps(w, pat, p, n, dirs) then [n] + ns else ns
  }

  predicate Keeps(w: World, pat: Pat, p: Path, n: Name, dirs: bool) {
    Matches(w, pat, n) && (dirs ==> IsDir(w.root, p + [n]))
  }

  lemma {:induction false} SelectedHas(w: World, pat: Pat, p: Path, es: seq<Entry>, dirs: bool, n: Name)
    ensures n in Selected(w, pat, p, es, dirs) <==> Keeps(w, pat, p, n, dirs) && HasName(es, n)
  {
    if es != [] {
      SelectedHas(w, pat, p, es[1..], dirs, n);
      if HasName(es, n) && n != es[0].name {
        var i :| 0 <= i < |es| && es[i].name == n;
        assert es[1..][i - 1].name == n;
      }
      if HasName(es[1..], n) {
        var i :| 0 <= i < |es[1..]| && es[1..][i].name == n;
        assert es[i + 1].name == n;
      }
    }
  }

  lemma SelectedStep(w: World, pat: Pat, p: Path, es: seq<Entry>, dirs: bool, i: nat)
    requires i < |es|
    ensures Selected(w, pat, p, es[i..], dirs) ==
            var more := Selected(w, pat, p, es[i + 1..], dirs);
            if Keeps(w, pat, p, es[i].name, dirs) then [es[i].name] + more else more
  {
    assert es[i..][1..] == es[i + 1..];
  }

  lemma NothingSelected(w: World, pat: Pat, p: Path, dirs: bool)
    ensures Selected(w, pat, p, [], dirs) == [] && Under(p, []) == []
  {
  }

  /** Names that can be read from the directory at `p`, if there is one. */
  function EntriesAt(root: Fs, p: Path): seq<Entry> {
    if IsDir(root, p) then Lookup(root, p).value.entries else []
  }

  lemma ChildLower(root: Fs, p: Path, n: Name)
    requires IsDir(root, p)
    ensures HeightAt(root, p + [n]) < HeightAt(root, p)
    ensures Lookup(root, p + [n]) == Child(EntriesAt(root, p), n)
  {
    assert (p + [n])[..|p|] == p;
    var es := EntriesAt(root, p);
    if Child(es, n).Some? {
      var i :| 0 <= i < |es| && es[i] == Entry(n, Child(es, n).value);
      assert Height(es[i].node) <= HeightAll(es);
    }
  }

  /** The path is there: its last section names an entry, or is empty after a directory. */
  predicate Real(w: World, r: Path) {
    && r != []
    && var (dir, last) := (r[..|r| - 1], r[|r| - 1]);
       if last == [] then IsDir(w.root, dir) && (dir != [] || w.absolute)
       else Lookup(w.root, r).Some?
  }

  /** Sections the parser makes: `(section/)#` is never last, an empty section only
      last; `.` and `..` are not modelled. */
  predicate WellFormed(q: seq<Comp>) {
    && (forall i :: 0 <= i < |q| && q[i].pat.Pure? ==>
          q[i].pat.str != DOT && q[i].pat.str != DOTDOT && (i < |q| - 1 ==> q[i].pat.str != []))
    && (forall i :: 0 <= i < |q| && q[i].closure ==> i < |q| - 1)
  }

  /** Every match of the sections under `p`, in the order they are inserted. */
  function All(w: World, q: seq<Comp>, p: Path): seq<Path>
    requires WellFormed(q)
    decreases |q|, HeightAt(w.root, p), 2
  {
    if q == [] then []
    else
      var (c, rest) := (q[0], q[1..]);
      (if c.closure then All(w, rest, p) else []) + Matching(w, q, p)
  }

  /** The matches that take a name for the first section. */
  function Matching(w: World, q: seq<Comp>, p: Path): seq<Path>
    requires WellFormed(q) && q != []
    decreases |q|, HeightAt(w.root, p), 1
  {
    var (c, rest) := (q[0], q[1..]);
    match c.pat
    case Pure(str) =>
      if rest == [] then (if Real(w, p + [str]) then [p + [str]] else [])
      else if !c.closure then All(w, rest, p + [str])
      else if IsDir(w.root, p) && IsDir(w.root, p + [str]) then
        ChildLower(w.root, p, str);
        All(w, q, p + [str])
      else []
    case Glob(_) =>
      var names := Selected(w, c.pat, p, EntriesAt(w.root, p), c.closure);
      if rest == [] then Under(p, names)
      else AllOver(w, if c.closure then q else rest, p, names)
  }

  function Under(p: Path, names: seq<Name>): seq<Path> {
    if names == [] then [] else [p + [names[0]]] + Under(p, names[1..])
  }

  lemma UnderFirst(p: Path, n: Name, names: seq<Name>)
    ensures Under(p, [n] + names) == [p + [n]] + Under(p, names)
  {
    assert ([n] + names)[1..] == names;
  }

  function AllOver(w: World, q: seq<Comp>, p: Path, names: seq<Name>): seq<Path>
    requires WellFormed(q)
    requires names != [] ==> IsDir(w.root, p)
    decreases |q|, HeightAt(w.root, p), 0, |names|
  {
    if names == [] then []
    else
      ChildLower(w.root, p, names[0]);
      All(w, q, p + [names[0]]) + AllOver(w, q, p, names[1..])
  }

  /** Which relative paths the sections stand for, in names alone: the last section is
      one name, `(section/)#` any number of names, any other section one; a string is a name
      equal to it, a pattern a name the matcher accepts. */
  predicate Denotes(w: World, q: seq<Comp>, cs: Path)
    decreases |q|, |cs|
  {
    && q != []
    && (|| (|q| > 1 && q[0].closure && Denotes(w, q[1..], cs))
        || (&& cs != []
            && (match q[0].pat
                case Pure(str) => cs[0] == str
                case Glob(id) => cs[0] != [] && w.matcher(id, cs[0]))
            && if |q| == 1 then |cs| == 1 else Denotes(w, if q[0].closure then q else q[1..], cs[1..])))
  }

  predicate Found(w: World, q: seq<Comp>, p: Path, r: Path) {
    p <= r && Denotes(w, q, r[|p|..]) && Real(w, r)
  }

  lemma {:induction false} LookupPrefix(root: Fs, r: Path, k: nat)
    requires k < |r| && Lookup(root, r).Some?
    ensures IsDir(root, r[..k])
    decreases |r|
  {
    if k < |r| - 1 {
      LookupPrefix(root, r[..|r| - 1], k);
      assert r[..|r| - 1][..k] == r[..k];
    }
  }

  /** What lies beneath a path is only there when the path is a directory. */
  lemma RealBeneath(w: World, r: Path, k: nat)
    requires Real(w, r) && k < |r|
    ensures IsDir(w.root, r[..k])
  {
    var dir := r[..|r| - 1];
    if r[|r| - 1] != [] {
      LookupPrefix(w.root, r, k);
    } else if k < |r| - 1 {
      LookupPrefix(w.root, dir, k);
      assert dir[..k] == r[..k];
    }
  }

  lemma {:induction false} UnderHas(p: Path, names: seq<Name>, r: Path)
    ensures r in Under(p, names) <==> p <= r && |r| == |p| + 1 && r[|p|] in names
  {
    if names != [] {
      UnderHas(p, names[1..], r);
      if p <= r && |r| == |p| + 1 {
        assert r == p + [r[|p|]];
      }
    }
  }

  /** Scanning is sound and complete: the matches are the paths that are there and that
      the sections denote. */
  lemma {:induction false} AllFound(w: World, q: seq<Comp>, p: Path, r: Path)
    requires WellFormed(q)
    ensures r in All(w, q, p) <==> Found(w, q, p, r)
    decreases |q|, HeightAt(w.root, p), 2
  {
    if |q| == 1 {
      LastFound(w, q, p, r);
    } else if |q| > 1 {
      var (c, rest) := (q[0], q[1..]);
      var next := if c.closure then q else rest;
      FoundStep(w, q, p, r);
      if c.closure {
        AllFound(w, rest, p, r);
      }
      match c.pat {
        case Pure(str) =>
          if !c.closure {
            AllFound(w, next, p + [str], r);
          } else if IsDir(w.root, p) && IsDir(w.root, p + [str]) {
            ChildLower(w.root, p, str);
            AllFound(w, next, p + [str], r);
          } else if Onward(w, q, p, r) {
            OnwardThere(w, q, p, r);
          }
        case Glob(_) =>
          var es := EntriesAt(w.root, p);
          var names := Selected(w, c.pat, p, es, c.closure);
          AllOverFound(w, next, p, names, r);
          if Onward(w, q, p, r) {
            OnwardThere(w, q, p, r);
            SelectedHas(w, c.pat, p, es, c.closure, r[|p|]);
          }
          forall n | n in names
            ensures Found(w, next, p + [n], r) ==> Onward(w, q, p, r)
          {
            SelectedHas(w, c.pat, p, es, c.closure, n);
          }
      }
    }
  }

  /** One more section of the path is taken by the first section searched for. */
  predicate Onward(w: World, q: seq<Comp>, p: Path, r: Path)
    requires q != []
  {
    && |p| < |r|
    && Matches(w, q[0].pat, r[|p|])
    && Found(w, if q[0].closure then q else q[1..], p + [r[|p|]], r)
  }

  lemma FoundStep(w: World, q: seq<Comp>, p: Path, r: Path)
    requires |q| > 1
    ensures Found(w, q, p, r) <==> (q[0].closure && Found(w, q[1..], p, r)) || Onward(w, q, p, r)
  {
    if p < r {
      assert p + [r[|p|]] <= r;
      assert r[|p|..][1..] == r[|p| + 1..];
    }
  }

  lemma OnwardThere(w: World, q: seq<Comp>, p: Path, r: Path)
    requires |q| > 1 && Onward(w, q, p, r)
    ensures IsDir(w.root, p) && IsDir(w.root, p + [r[|p|]]) && HasName(EntriesAt(w.root, p), r[|p|])
  {
    assert r[..|p|] == p && r[..|p| + 1] == p + [r[|p|]];
    assert Denotes(w, if q[0].closure then q else q[1..], r[|p| + 1..]);
    DenotesSome(w, if q[0].closure then q else q[1..], r[|p| + 1..]);
    RealBeneath(w, r, |p|);
    RealBeneath(w, r, |p| + 1);
    ChildLower(w.root, p, r[|p|]);
  }

  lemma {:induction false} DenotesSome(w: World, q: seq<Comp>, cs: Path)
    requires Denotes(w, q, cs)
    ensures cs != []
    decreases |q|
  {
    if |q| > 1 && cs == [] {
      DenotesSome(w, q[1..], cs);
    }
  }

  lemma AllFoundEach(w: World, q: seq<Comp>, p: Path)
    requires WellFormed(q)
    ensures forall r :: r in All(w, q, p) <==> Found(w, q, p, r)
  {
    forall r
      ensures r in All(w, q, p) <==> Found(w, q, p, r)
    {
      AllFound(w, q, p, r);
    }
  }

  /** Going down from the root by the first entry of each name leads to this file. */
  ghost predicate LeadsTo(root: Fs, p: Path, f: Fs)
    decreases |p|
  {
    if p == [] then root == f
    else
      root.Dir? && exists i :: 0 <= i < |root.entries| && root.entries[i].name == p[0]
                            && (forall j :: 0 <= j < i ==> root.entries[j].name != p[0])
                            && LeadsTo(root.entries[i].node, p[1..], f)
  }

  lemma {:induction false} ChildFirst(es: seq<Entry>, name: Name, i: nat)
    requires i < |es| && es[i].name == name && forall j :: 0 <= j < i ==> es[j].name != name
    ensures Child(es, name) == Some(es[i].node)
  {
    if i > 0 {
      ChildFirst(es[1..], name, i - 1);
    }
  }

  lemma {:induction false} FirstChild(es: seq<Entry>, name: Name) returns (i: nat)
    requires HasName(es, name)
    ensures i < |es| && es[i].name == name && forall j :: 0 <= j < i ==> es[j].name != name
  {
    i := 0;
    while es[i].name != name
      invariant i < |es| && forall j :: 0 <= j < i ==> es[j].name != name
      decreases |es| - i
    {
      i := i + 1;
    }
  }

  /** The file at a path is the one that its names lead to, from the root on. */
  lemma {:induction false} LookupLeads(root: Fs, p: Path, f: Fs)
    ensures Lookup(root, p) == Some(f) <==> LeadsTo(root, p, f)
    decreases |p|
  {
    if p != [] {
      LookupDown(root, p);
      if root.Dir? && HasName(root.entries, p[0]) {
        var i := FirstChild(root.entries, p[0]);
        ChildFirst(root.entries, p[0], i);
        LookupLeads(root.entries[i].node, p[1..], f);
      }
    }
  }

  /** Looking up from the front. */
  lemma {:induction false} LookupDown(root: Fs, p: Path)
    requires p != []
    ensures Lookup(root, p) ==
            if root.Dir? && Child(root.entries, p[0]).Some? then Lookup(Child(root.entries, p[0]).value, p[1..]) else None
    decreases |p|
  {
    var front := p[..|p| - 1];
    if front == [] {
      assert p[1..] == [];
    } else {
      LookupDown(root, front);
      assert p[1..][..|p| - 2] == front[1..];
    }
  }

  /** A pattern alone finds the names in the directory that the matcher accepts. */
  lemma GlobFound(w: World, id: nat, p: Path, r: Path)
    ensures r in All(w, [Comp(Glob(id), false)], p) <==>
            exists n :: n != [] && w.matcher(id, n) && r == p + [n] && HasName(EntriesAt(w.root, p), n)
  {
    var q := [Comp(Glob(id), false)];
    AllFound(w, q, p, r);
    if Found(w, q, p, r) {
      var n := r[|p|];
      assert r == p + [n] && r[..|r| - 1] == p;
      RealBeneath(w, r, |p|);
      ChildLower(w.root, p, n);
    }
    forall n | n != [] && w.matcher(id, n) && r == p + [n] && HasName(EntriesAt(w.root, p), n)
      ensures Found(w, q, p, r)
    {
      assert r[|p|..] == [n] && r[..|r| - 1] == p;
      ChildLower(w.root, p, n);
    }
  }

  /** A string alone finds the entry of that name; an empty one, left by a slash at the end,
      the directory itself. */
  lemma PureFound(w: World, str: Name, p: Path, r: Path)
    requires str != DOT && str != DOTDOT
    ensures r in All(w, [Comp(Pure(str), false)], p) <==>
            && r == p + [str]
            && if str == [] then IsDir(w.root, p) && (p != [] || w.absolute) else HasName(EntriesAt(w.root, p), str)
  {
    var q := [Comp(Pure(str), false)];
    AllFound(w, q, p, r);
    if p <= r && |r| == |p| + 1 {
      assert r == p + [r[|p|]] && r[..|r| - 1] == p;
      if IsDir(w.root, p) {
        ChildLower(w.root, p, str);
      }
    }
    if r == p + [str] {
      assert r[|p|..] == [str];
    }
  }

  lemma LastFound(w: World, q: seq<Comp>, p: Path, r: Path)
    requires WellFormed(q) && |q| == 1
    ensures r in All(w, q, p) <==> Found(w, q, p, r)
  {
    if p <= r && |r| == |p| + 1 {
      assert r == p + [r[|p|]] && r[..|r| - 1] == p;
    }
    if q[0].pat.Glob? {
      var es := EntriesAt(w.root, p);
      UnderHas(p, Selected(w, q[0].pat, p, es, false), r);
      if p <= r && |r| == |p| + 1 {
        SelectedHas(w, q[0].pat, p, es, false, r[|p|]);
        if IsDir(w.root, p) {
          ChildLower(w.root, p, r[|p|]);
        }
      }
    }
  }

  lemma {:induction false} AllOverFound(w: World, q: seq<Comp>, p: Path, names: seq<Name>, r: Path)
    requires WellFormed(q)
    requires names != [] ==> IsDir(w.root, p)
    ensures r in AllOver(w, q, p, names) <==> exists n :: n in names && Found(w, q, p + [n], r)
    decreases |q|, HeightAt(w.root, p), 0, |names|
  {
    if names != [] {
      ChildLower(w.root, p, names[0]);
      AllFound(w, q, p + [names[0]], r);
      AllOverFound(w, q, p, names[1..], r);
    }
  }

  /** The first `k` of the matches; `k == 0` asks for all of them. */
  function Cap(k: nat, s: seq<Path>): seq<Path> {
    if k == 0 || |s| <= k then s else s[..k]
  }

  lemma CapMore(k: nat, s: seq<Path>, t: seq<Path>)
    requires k != 0 && |Cap(k, s)| == k
    ensures Cap(k, s + t) == Cap(k, s)
  {
  }

  /** The path built so far (`pathbuf`) and the matches found so far (`matchbuf`). */
  class Globber {
    const w: World
    var path: Path
    var matches: seq<Path>

    constructor (w: World)
      ensures this.w == w && path == [] && matches == []
    {
      this.w := w;
      path, matches := [], [];
    }

    /** Enough matches were found. */
    predicate Full(shortcircuit: nat)
      reads this
    {
      shortcircuit != 0 && |matches| == shortcircuit
    }

    /** `insert`: a plain string is tested for existence, a name just read is not. */
    method Insert(name: Name, checked: bool)
      modifies `matches
      ensures matches == old(matches) + if checked || Real(w, path + [name]) then [path + [name]] else []
    {
      if !checked && !Real(w, path + [name]) {
        return;
      }
      matches := matches + [path + [name]];
    }

    /** `scanner`, stopping as soon as there are `shortcircuit` matches. */
    method Scanner(q: seq<Comp>, shortcircuit: nat)
      requires WellFormed(q)
      requires shortcircuit == 0 || |matches| < shortcircuit
      modifies this
      ensures matches == Cap(shortcircuit, old(matches) + All(w, q, old(path)))
      ensures shortcircuit == 0 ==> forall r :: r in matches <==> r in old(matches) || Found(w, q, old(path), r)
      ensures !Full(shortcircuit) ==> path == old(path)
      decreases |q|, HeightAt(w.root, path), 2
    {
      hide Matching, AllOver, Real, IsDir, Selected, Found;
      AllFoundEach(w, q, path);
      if q == [] {
        return;
      }
      var (c, rest) := (q[0], q[1..]);
      if c.closure {
        Scanner(rest, shortcircuit);
        if Full(shortcircuit) {
          CapMore(shortcircuit, old(matches) + All(w, rest, old(path)), Matching(w, q, old(path)));
          return;
        }
      }
      match c.pat {
        case Pure(_) => ScanString(q, shortcircuit);
        case Glob(_) => ScanDirectory(q, shortcircuit);
      }
    }

    /** The branch of `scanner` for a plain string. */
    method ScanString(q: seq<Comp>, shortcircuit: nat)
      requires WellFormed(q) && q != [] && q[0].pat.Pure?
      requires shortcircuit == 0 || |matches| < shortcircuit
      modifies this
      ensures matches == Cap(shortcircuit, old(matches) + Matching(w, q, old(path)))
      ensures !Full(shortcircuit) ==> path == old(path)
      decreases |q|, HeightAt(w.root, path), 1
    {
      hide Real, IsDir;
      var (c, rest, str) := (q[0], q[1..], q[0].pat.str);
      if rest == [] {
        Insert(str, false);
        return;
      }
      var oppos := |path|;
      path := path + [str];
      assert path[..oppos] == old(path);
      if !c.closure {
        Scanner(rest, shortcircuit);
      } else if IsDir(w.root, path[..oppos]) && IsDir(w.root, path) {
        ChildLower(w.root, old(path), str);
        Scanner(q, shortcircuit);
      }
      if Full(shortcircuit) {
        return;
      }
      path := path[..oppos];
    }

    /** The branch of `scanner` for a pattern: read the directory, then go down into
        the names kept. */
    method ScanDirectory(q: seq<Comp>, shortcircuit: nat)
      requires WellFormed(q) && q != [] && q[0].pat.Glob?
      requires shortcircuit == 0 || |matches| < shortcircuit
      modifies this
      ensures matches == Cap(shortcircuit, old(matches) + Matching(w, q, old(path)))
      ensures !Full(shortcircuit) ==> path == old(path)
      decreases |q|, HeightAt(w.root, path), 1
    {
      hide Selected, Under, Real;
      var (c, rest) := (q[0], q[1..]);
      if !IsDir(w.root, path) {
        NothingSelected(w, c.pat, path, c.closure);
        return;
      }
      var subdirs := ReadDirectory(c, rest != [], shortcircuit);
      if rest != [] {
        ScanSubdirs(if c.closure then q else rest, subdirs, shortcircuit);
      }
    }

    /** The `readdir` loop: matching names are matches, or with `dirs` are kept to go
        down into. */
    method ReadDirectory(c: Comp, dirs: bool, shortcircuit: nat) returns (subdirs: seq<Name>)
      requires c.pat.Glob? && (c.closure ==> dirs)
      requires IsDir(w.root, path)
      requires shortcircuit == 0 || |matches| < shortcircuit
      modifies `matches
      ensures var names := Selected(w, c.pat, path, EntriesAt(w.root, path), c.closure);
              if dirs then matches == old(matches) && subdirs == names
              else matches == Cap(shortcircuit, old(matches) + Under(path, names))
    {
      hide Matches, IsDir, Real, Selected, Under;
      var es := EntriesAt(w.root, path);
      subdirs := [];
      ghost var names := Selected(w, c.pat, path, es, c.closure);
      var i := 0;
      while i < |es|
        invariant 0 <= i <= |es|
        invariant dirs ==> matches == old(matches) && subdirs + Selected(w, c.pat, path, es[i..], c.closure) == names
        invariant !dirs ==> matches + Under(path, Selected(w, c.pat, path, es[i..], c.closure)) == old(matches) + Under(path, names)
        invariant shortcircuit == 0 || |matches| < shortcircuit
      {
        var fn := es[i].name;
        SelectedStep(w, c.pat, path, es, c.closure, i);
        if Matches(w, c.pat, fn) {
          if dirs {
            if !c.closure || IsDir(w.root, path + [fn]) {
              subdirs := subdirs + [fn];
            }
          } else {
            ghost var more := Selected(w, c.pat, path, es[i + 1..], c.closure);
            UnderFirst(path, fn, more);
            assert matches + ([path + [fn]] + Under(path, more)) == (matches + [path + [fn]]) + Under(path, more);
            Insert(fn, true);
            if Full(shortcircuit) {
              return;
            }
          }
        }
        i := i + 1;
      }
      assert es[i..] == [];
      NothingSelected(w, c.pat, path, c.closure);
    }

    method ScanSubdirs(q: seq<Comp>, subdirs: seq<Name>, shortcircuit: nat)
      requires WellFormed(q) && IsDir(w.root, path)
      requires shortcircuit == 0 || |matches| < shortcircuit
      modifies this
      ensures matches == Cap(shortcircuit, old(matches) + AllOver(w, q, old(path), subdirs))
      ensures !Full(shortcircuit) ==> path == old(path)
      decreases |q|, HeightAt(w.root, path), 0
    {
      var i := 0;
      ghost var p := path;
      while i < |subdirs|
        invariant 0 <= i <= |subdirs|
        invariant path == p
        invariant matches + AllOver(w, q, p, subdirs[i..]) == old(matches) + AllOver(w, q, p, subdirs)
        invariant shortcircuit == 0 || |matches| < shortcircuit
      {
        var oppos := |path|;
        ghost var before := matches;
        var fn := subdirs[i];
        ChildLower(w.root, p, fn);
        assert subdirs[i..][1..] == subdirs[i + 1..];
        path := path + [fn];
        Scanner(q, shortcircuit);
        if Full(shortcircuit) {
          CapMore(shortcircuit, before + All(w, q, p + [fn]), AllOver(w, q, p, subdirs[i + 1..]));
          return;
        }
        path := path[..oppos];
        i := i + 1;
      }
    }
  }
}
