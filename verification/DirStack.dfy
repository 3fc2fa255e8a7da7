/** The directory stack (builtin.c): `cd`, `pushd` and `popd` on the linked list. */
module DirStack {
  import opened LinkLists

  datatype Option<+T> = None | Some(value: T)

  datatype Func = Cd | Pushd | Popd

  /** No argument, `+n` or `-n`, or a directory (`-` stands for the old one). */
  datatype Arg = NoArg | Index(plus: bool, n: nat) | Name(dir: Datum)

  datatype Options = Options(pushdToHome: bool, pushdMinus: bool, autoPushd: bool, ignoreDups: bool, dirStackSize: int)

  /** What lies outside: the home directory, where a directory leads if it can be changed
      to, its name with links chased if they are to be, and the name the shell settles for
      once it is there. */
  datatype World = World(
    home: Option<Datum>, chdir: Datum -> Option<Datum>, chase: Datum -> Datum, settle: Datum -> Datum)

  /** The list once the arguments are dealt with, the entry to change to if any, and the
      entry that is to be taken off. */
  datatype Dest = Dest(list: seq<Datum>, go: Option<nat>, take: nat)

  predicate GoodDest(d: Dest) {
    d.take < |d.list| && (d.go.Some? ==> d.go.value < |d.list|)
  }

  /** Which entry of a list of `len` an index argument names. */
  function Entry(o: Options, plus: bool, n: nat, len: nat): Option<nat> {
    if n >= len then None
    else if plus != o.pushdMinus then Some(n) else Some(len - 1 - n)
  }

  /** `cd_get_dest` up to the change of directory; `list` is headed by the current one. */
  function GetDest(o: Options, func: Func, arg: Arg, list: seq<Datum>, w: World): (r: Option<Dest>)
    requires list != []
    ensures r.Some? ==> GoodDest(r.value)
  {
    match arg
    case NoArg =>
      if func == Popd then (if |list| == 1 then None else Some(Dest(list, Some(1), 0)))
      else if func == Pushd && !o.pushdToHome && |list| > 1 then
        Some(Dest([list[1], list[0]] + list[2..], Some(0), 0))
      else if w.home.None? then None
      else Some(Dest([w.home.value] + list, Some(0), 0))
    case Index(plus, n) =>
      var e := Entry(o, plus, n, |list|);
      if e.None? then None
      else if func != Popd then Some(Dest(list, e, e.value))
      else if e.value > 0 then Some(Dest(list, None, e.value))
      else Some(Dest(list, Some(if |list| > 1 then 1 else 0), 0))
    case Name(dir) =>
      Some(Dest([dir] + list, Some(if func == Popd then 1 else 0), 0))
  }

  /** The list with the entry changed to named as it was reached. */
  function Reached(d: Dest, w: World): Option<seq<Datum>>
    requires GoodDest(d)
  {
    match d.go
    case None => Some(d.list)
    case Some(k) =>
      match w.chdir(d.list[k])
      case None => None
      case Some(dest) => Some(d.list[k := dest])
  }

  /** `cd_new_pwd` up to the choice of the new directory: that, and the stack. */
  function NewPwd(o: Options, func: Func, list: seq<Datum>, take: nat): (Datum, seq<Datum>)
    requires take < |list|
  {
    var rolled := if func == Pushd then list[take..] + list[..take] else list;
    var rest := if func == Pushd then rolled[1..] else list[..take] + list[take + 1..];
    if func == Popd && rest != [] then (rest[0], rest[1..])
    else (list[take], if func == Cd && !o.autoPushd && rest != [] then rest[1..] else rest)
  }

  function WithoutFirst(list: seq<Datum>, d: Datum): (r: seq<Datum>)
    ensures |r| <= |list|
  {
    if list == [] then [] else if list[0] == d then list[1..] else [list[0]] + WithoutFirst(list[1..], d)
  }

  lemma {:induction false} FirstIs(list: seq<Datum>, d: Datum, i: nat)
    requires i < |list| && list[i] == d && d !in list[..i]
    ensures WithoutFirst(list, d) == list[..i] + list[i + 1..]
  {
    if i > 0 {
      assert list[1..][..i - 1] == list[..i][1..];
      FirstIs(list[1..], d, i - 1);
      assert list[0] in list[..i];
    }
  }

  lemma {:induction false} FirstNone(list: seq<Datum>, d: Datum)
    requires d !in list
    ensures WithoutFirst(list, d) == list
  {
    if list != [] {
      FirstNone(list[1..], d);
    }
  }

  /** Entries left when the stack is cut to DIRSTACKSIZE. */
  function Kept(o: Options, count: nat): nat {
    var most := (if o.dirStackSize < 2 then 2 else o.dirStackSize) - 1;
    if o.dirStackSize > 0 && count > most then most else count
  }

  /** The new directory and stack. */
  function Finish(o: Options, w: World, dir: Datum, stack: seq<Datum>): (r: (Datum, seq<Datum>))
    ensures |r.1| <= |stack|
  {
    var s := if o.ignoreDups then WithoutFirst(stack, w.chase(dir)) else stack;
    (w.settle(w.chase(dir)), s[..Kept(o, |s|)])
  }

  /** Whether `cd_get_dest` has an entry of the old list in hand when it changes directory. */
  predicate HasTarget(o: Options, func: Func, arg: Arg, list: seq<Datum>) {
    func == Popd || arg.Index? || (arg.NoArg? && func == Pushd && !o.pushdToHome && |list| > 1)
  }

  /** The stack after the directory could not be changed to. */
  function AfterFailure(o: Options, func: Func, arg: Arg, list: seq<Datum>, d: Dest): seq<Datum>
    requires list != [] && GoodDest(d)
  {
    var l := BeforePop(o, func, arg, list, d);
    if l == [] then [] else l[1..]
  }

  function BeforePop(o: Options, func: Func, arg: Arg, list: seq<Datum>, d: Dest): seq<Datum>
    requires list != [] && GoodDest(d)
  {
    if !HasTarget(o, func, arg, list) then d.list[1..]
    else if func == Popd && d.go.Some? then d.list[..d.go.value] + d.list[d.go.value + 1..]
    else d.list
  }

  class Shell {
    const dirstack: LinkList
    var pwd: Datum
    var oldpwd: Datum

    constructor (pwd: Datum)
      ensures dirstack.Valid() && dirstack.Contents() == [] && this.pwd == pwd && oldpwd == pwd
      ensures fresh(dirstack) && fresh(dirstack.ring)
    {
      dirstack := new LinkList();
      this.pwd, oldpwd := pwd, pwd;
    }

    /** The walk of `cd_get_dest` to an entry, from either end. */
    method FindEntry(o: Options, plus: bool, n: nat) returns (dir: Node?, ghost k: nat)
      requires dirstack.Valid() && dirstack.Contents() != []
      ensures var e := Entry(o, plus, n, |dirstack.Contents()|);
              (e.None? <==> dir == null) && (e.Some? ==> k == e.value && dir == dirstack.ring[k + 1])
    {
      ghost var ring := dirstack.ring;
      var dd: nat := n;
      dir, k := null, 0;
      if plus != o.pushdMinus {
        assert LinkOk(ring, 0);
        dir := dirstack.node.next;
        while dir != null && dd > 0
          invariant dd + k == n && k < |ring| && dir == if k + 1 < |ring| then ring[k + 1] else null
          decreases dd
        {
          assert LinkOk(ring, k + 1);
          dir := dir.next;
          dd, k := dd - 1, k + 1;
        }
      } else {
        assert LinkOk(ring, 0);
        dir := dirstack.node.prev;
        k := |ring| - 2;
        ghost var i := |ring| - 1;
        while dir != dirstack.node && dd > 0
          invariant 0 <= i < |ring| && dir == ring[i] && i == |ring| - 1 - (n - dd) && k == if i > 0 then i - 1 else 0
          decreases dd
        {
          assert LinkOk(ring, i);
          dir := dir.prev;
          dd, i := dd - 1, i - 1;
          k := if i > 0 then i - 1 else 0;
        }
        assert dir == dirstack.node <==> i == 0;
        if dir == dirstack.node {
          dir := null;
        }
      }
    }

    method Push(d: Datum)
      requires dirstack.Valid()
      modifies dirstack, dirstack.Nodes()
      ensures dirstack.Valid() && |dirstack.ring| == |old(dirstack.ring)| + 1
      ensures fresh(dirstack.Nodes() - old(dirstack.Nodes()))
      ensures dirstack.Contents() == [d] + old(dirstack.Contents())
    {
      var n := dirstack.InsertLinkNode(dirstack.node, d, 0);
    }

    /** `cd_get_dest` up to the change of directory. */
    method Prepare(o: Options, func: Func, arg: Arg, w: World) returns (ok: bool, target: Node?, go: Node?, take: Node?)
      requires dirstack.Valid() && dirstack.Contents() != []
      modifies dirstack, dirstack.Nodes()
      ensures dirstack.Valid() && fresh(dirstack.Nodes() - old(dirstack.Nodes()))
      ensures var list := old(dirstack.Contents());
              var d := GetDest(o, func, arg, list, w);
              && (ok <==> d.Some?)
              && (!ok ==> dirstack.Contents() == list)
              && (ok ==>
                    && dirstack.Contents() == d.value.list
                    && (target != null <==> HasTarget(o, func, arg, list))
                    && take == dirstack.ring[d.value.take + 1] && (target != null ==> target == take)
                    && (if d.value.go.None? then go == null else go == dirstack.ring[d.value.go.value + 1]))
    {
      ok, target, go, take := false, null, null, null;
      ghost var list := dirstack.Contents();
      var dir: Node? := null;
      match arg {
        case NoArg =>
          ok, dir := PrepareNone(o, func, w);
        case Index(plus, n) =>
          ghost var k;
          dir, k := FindEntry(o, plus, n);
          ok := dir != null;
        case Name(name) =>
          Push(name);
          ok := true;
      }
      if !ok {
        return;
      }
      ghost var ring := dirstack.ring;
      assert LinkOk(ring, 0) && LinkOk(ring, 1) && (2 < |ring| ==> LinkOk(ring, 2));
      target, go := dir, dir;
      if func == Popd {
        if dir == null {
          target, dir := dirstack.node.next, dirstack.node.next;
        } else if dir != dirstack.node.next {
          take, go := dir, null;
          return;
        }
        go := dir.next;
      }
      if go == null {
        go := dirstack.node.next;
      }
      take := if target != null then target else go;
    }

    /** The first entry is put behind the second. */
    method Swap(dir: Node)
      requires dirstack.Valid() && |dirstack.ring| > 2 && dir == dirstack.ring[2]
      modifies dirstack, dirstack.Nodes()
      ensures dirstack.Valid() && fresh(dirstack.Nodes() - old(dirstack.Nodes())) && |dirstack.ring| > 1 && dirstack.ring[1] == dir
      ensures var list := old(dirstack.Contents()); dirstack.Contents() == [list[1], list[0]] + list[2..]
    {
      hide Linked, LinkOk, Data, LinkList.Nodes;
      ghost var list := dirstack.Contents();
      var first, found := dirstack.GetLinkNode();
      assert dirstack.ring[1] == dir;
      var n := dirstack.InsertLinkNode(dir, first, 1);
      assert list[1..][..1] == [list[1]] && list[1..][1..] == list[2..];
    }

    /** Without an argument: `pushd` exchanges the first two entries, or home is pushed. */
    method PrepareNone(o: Options, func: Func, w: World) returns (ok: bool, dir: Node?)
      requires dirstack.Valid() && dirstack.Contents() != []
      modifies dirstack, dirstack.Nodes()
      ensures dirstack.Valid() && fresh(dirstack.Nodes() - old(dirstack.Nodes()))
      ensures var list := old(dirstack.Contents());
              var d := GetDest(o, func, NoArg, list, w);
              && (ok <==> d.Some?)
              && (!ok ==> dirstack.Contents() == list)
              && (ok ==> dirstack.Contents() == d.value.list)
              && (ok ==> dir == if func == Pushd && !o.pushdToHome && |list| > 1 then dirstack.ring[1] else null)
    {
      ok, dir := false, null;
      ghost var ring := dirstack.ring;
      assert LinkOk(ring, 0) && LinkOk(ring, 1);
      if func == Popd && dirstack.node.next.next == null {
        return;
      }
      if func == Pushd && !o.pushdToHome {
        dir := dirstack.node.next.next;
      }
      if dir != null {
        Swap(dir);
      } else if func != Popd {
        if w.home.None? {
          return;
        }
        Push(w.home.value);
      }
      ok := true;
    }

    /** `cd_get_dest`: the node to be taken off, or none after a failure. */
    method CdGetDest(o: Options, func: Func, arg: Arg, w: World) returns (take: Node?)
      requires dirstack.Valid() && dirstack.Contents() != []
      modifies dirstack, dirstack.Nodes()
      ensures dirstack.Valid() && fresh(dirstack.Nodes() - old(dirstack.Nodes()))
      ensures var list := old(dirstack.Contents());
              var d := GetDest(o, func, arg, list, w);
              if d.None? then take == null && dirstack.Contents() == list
              else if Reached(d.value, w).None? then
                take == null && dirstack.Contents() == BeforePop(o, func, arg, list, d.value)
              else
                dirstack.Contents() == Reached(d.value, w).value && take == dirstack.ring[d.value.take + 1]
    {
      hide Linked, LinkOk, Data, GetDest;
      ghost var list := dirstack.Contents();
      var ok, target, go;
      ok, target, go, take := Prepare(o, func, arg, w);
      if !ok {
        return null;
      }
      if go == null {
        return;
      }
      ghost var d := GetDest(o, func, arg, list, w).value;
      var dest := w.chdir(go.dat);
      if dest.None? {
        if target == null {
          var _, _ := dirstack.GetLinkNode();
        }
        if func == Popd {
          var _ := dirstack.RemNode(go, d.go.value + 1);
        }
        return null;
      }
      dirstack.SetData(go, d.go.value + 1, dest.value);
    }

    /** `cd_new_pwd`. */
    method CdNewPwd(o: Options, func: Func, take: Node, w: World, ghost k: nat)
      requires dirstack.Valid() && k < |dirstack.Contents()| && take == dirstack.ring[k + 1]
      modifies this, dirstack, dirstack.Nodes()
      ensures dirstack.Valid() && oldpwd == old(pwd)
      ensures dirstack.Nodes() <= old(dirstack.Nodes())
      ensures var (dir, stack) := NewPwd(o, func, old(dirstack.Contents()), k);
              (pwd, dirstack.Contents()) == Finish(o, w, dir, stack)
    {
      hide Linked, LinkOk, Data, NewPwd, WithoutFirst;
      ghost var list := dirstack.Contents();
      var newPwd := TakeNew(o, func, take, k);
      newPwd := w.chase(newPwd);
      if o.ignoreDups {
        RemoveDup(newPwd);
      }
      newPwd := w.settle(newPwd);
      oldpwd := pwd;
      pwd := newPwd;
      ghost var c := dirstack.Contents();
      assert c[..|c|] == c;
      if o.dirStackSize > 0 {
        Trim(o);
      }
    }

    method TakeNew(o: Options, func: Func, take: Node, ghost k: nat) returns (newPwd: Datum)
      requires dirstack.Valid() && k < |dirstack.Contents()| && take == dirstack.ring[k + 1]
      modifies dirstack, dirstack.Nodes()
      ensures dirstack.Valid() && dirstack.Nodes() <= old(dirstack.Nodes())
      ensures (newPwd, dirstack.Contents()) == NewPwd(o, func, old(dirstack.Contents()), k)
    {
      hide Linked, LinkOk, Data, LinkList.Nodes;
      newPwd := TakeOff(func, take, k);
      var first, _ := dirstack.Ends();
      if func == Popd && first != null {
        var found;
        newPwd, found := dirstack.GetLinkNode();
      } else if func == Cd && !o.autoPushd {
        var _, _ := dirstack.GetLinkNode();
      }
    }

    method TakeOff(func: Func, take: Node, ghost k: nat) returns (dir: Datum)
      requires dirstack.Valid() && k < |dirstack.Contents()| && take == dirstack.ring[k + 1]
      modifies dirstack, dirstack.Nodes()
      ensures dirstack.Valid() && dirstack.Nodes() <= old(dirstack.Nodes())
      ensures var list := old(dirstack.Contents());
              dir == list[k] && dirstack.Contents() == if func == Pushd then (list[k..] + list[..k])[1..] else list[..k] + list[k + 1..]
    {
      hide Linked, LinkOk, Data, LinkList.Nodes;
      if func == Pushd {
        dir := RollOff(take, k);
      } else {
        dir := dirstack.RemNode(take, k + 1);
      }
    }

    method RollOff(take: Node, ghost k: nat) returns (dir: Datum)
      requires dirstack.Valid() && k < |dirstack.Contents()| && take == dirstack.ring[k + 1]
      modifies dirstack, dirstack.Nodes()
      ensures dirstack.Valid() && dirstack.Nodes() <= old(dirstack.Nodes())
      ensures var list := old(dirstack.Contents());
              dir == list[k] && dirstack.Contents() == (list[k..] + list[..k])[1..]
    {
      hide Linked, LinkOk, Data, LinkList.Nodes;
      dirstack.RollList(take, k + 1);
      dir := dirstack.RemNode(take, 1);
    }

    /** The first entry equal to the new directory goes. */
    method RemoveDup(d: Datum)
      requires dirstack.Valid()
      modifies dirstack, dirstack.Nodes()
      ensures dirstack.Valid() && dirstack.Nodes() <= old(dirstack.Nodes())
      ensures dirstack.Contents() == WithoutFirst(old(dirstack.Contents()), d)
    {
      hide Linked, LinkOk, Data, LinkList.Nodes;
      ghost var (list, i) := (dirstack.Contents(), 0);
      var n, _ := dirstack.Ends();
      while n != null
        invariant dirstack.Valid() && dirstack.ring == old(dirstack.ring) && dirstack.Contents() == list
        invariant dirstack.Nodes() == old(dirstack.Nodes())
        invariant 0 <= i <= |list| && n == if i < |list| then dirstack.ring[i + 1] else null
        invariant d !in list[..i]
        decreases |list| - i
      {
        if n.dat == d {
          FirstIs(list, d, i);
          var _ := dirstack.RemNode(n, i + 1);
          return;
        }
        n := dirstack.NextNode(n, i + 1);
        i := i + 1;
      }
      assert list[..i] == list;
      FirstNone(list, d);
    }

    /** The last entries go until DIRSTACKSIZE allows for the rest. */
    method Trim(o: Options)
      requires dirstack.Valid() && o.dirStackSize > 0
      modifies dirstack, dirstack.Nodes()
      ensures dirstack.Valid() && dirstack.Nodes() <= old(dirstack.Nodes())
      ensures var c := old(dirstack.Contents()); dirstack.Contents() == c[..Kept(o, |c|)]
    {
      hide Linked, LinkOk, Data, LinkList.Nodes;
      ghost var c := dirstack.Contents();
      var count := dirstack.CountLinkNodes();
      var remove := count - if o.dirStackSize < 2 then 2 else o.dirStackSize;
      ghost var left := |c|;
      while remove >= 0
        invariant dirstack.Valid() && dirstack.Nodes() <= old(dirstack.Nodes())
        invariant Kept(o, |c|) <= left <= |c| && dirstack.Contents() == c[..left]
        invariant remove >= 0 ==> remove + 1 == left - Kept(o, |c|)
        invariant remove < 0 ==> left == Kept(o, |c|)
        decreases remove
      {
        var _, last := dirstack.Ends();
        var _ := dirstack.RemNode(last, left);
        left := left - 1;
        remove := remove - 1;
      }
    }

    /** `bin_cd`. A failure leaves the current directory as it was, and takes its entry
        off the stack again. */
    method BinCd(o: Options, func: Func, arg: Arg, w: World) returns (ret: int)
      requires dirstack.Valid()
      modifies this, dirstack, dirstack.Nodes()
      ensures dirstack.Valid()
      ensures var list := [old(pwd)] + old(dirstack.Contents());
              var d := GetDest(o, func, Resolve(arg, old(oldpwd)), list, w);
              if d.None? then
                ret == 1 && pwd == old(pwd) && oldpwd == old(oldpwd) && dirstack.Contents() == old(dirstack.Contents())
              else if Reached(d.value, w).None? then
                && ret == 1 && pwd == old(pwd) && oldpwd == old(oldpwd)
                && dirstack.Contents() == AfterFailure(o, func, Resolve(arg, old(oldpwd)), list, d.value)
              else
                var (dir, stack) := NewPwd(o, func, Reached(d.value, w).value, d.value.take);
                ret == 0 && oldpwd == old(pwd) && (pwd, dirstack.Contents()) == Finish(o, w, dir, stack)
      ensures func == Cd && !arg.Index? ==>
                var dir := match arg
                           case NoArg => w.home
                           case Name(d) => Some(if d == [45] then old(oldpwd) else d);
                if dir.None? || w.chdir(dir.value).None? then
                  ret == 1 && pwd == old(pwd) && oldpwd == old(oldpwd) && dirstack.Contents() == old(dirstack.Contents())
                else
                  ret == 0 && oldpwd == old(pwd) && pwd == w.settle(w.chase(w.chdir(dir.value).value))
    {
      hide Linked, LinkOk, Data, LinkList.Nodes, GetDest, NewPwd, Finish, HasTarget, BeforePop;
      if func == Cd && !arg.Index? {
        CdReaches(o, Resolve(arg, oldpwd), pwd, dirstack.Contents(), w);
      }
      Push(pwd);
      ghost var list := dirstack.Contents();
      var to := if arg == Name([45]) then Name(oldpwd) else arg;
      var take := CdGetDest(o, func, to, w);
      if take == null {
        var _, _ := dirstack.GetLinkNode();
        return 1;
      }
      CdNewPwd(o, func, take, w, GetDest(o, func, to, list, w).value.take);
      ret := 0;
    }
  }

  /** `-` is the directory before this one. */
  function Resolve(arg: Arg, oldpwd: Datum): Arg {
    if arg == Name([45]) then Name(oldpwd) else arg
  }

  /** What a command that can change directory makes of the current directory and the
      stack, before duplicates go and the stack is cut. */
  function Moved(o: Options, func: Func, arg: Arg, pwd: Datum, stack: seq<Datum>, w: World): Option<(Datum, seq<Datum>)> {
    var d := GetDest(o, func, arg, [pwd] + stack, w);
    if d.None? then None
    else
      var list := Reached(d.value, w);
      if list.None? then None else Some(NewPwd(o, func, list.value, d.value.take))
  }

  /** `pushd +n` and `-n` rotate the current directory and the stack to the entry. */
  lemma PushdRotates(o: Options, plus: bool, n: nat, pwd: Datum, stack: seq<Datum>, w: World)
    requires n <= |stack|
    ensures var full := [pwd] + stack;
            var k := if plus != o.pushdMinus then n else |stack| - n;
            var m := Moved(o, Pushd, Index(plus, n), pwd, stack, w);
            && (m.None? <==> w.chdir(full[k]).None?)
            && (m.Some? ==> [m.value.0] + m.value.1 == (full[k..] + full[..k])[0 := w.chdir(full[k]).value])
  {
    var full := [pwd] + stack;
    var k := if plus != o.pushdMinus then n else |stack| - n;
    if w.chdir(full[k]).Some? {
      var list := full[k := w.chdir(full[k]).value];
      assert list[k..] + list[..k] == (full[k..] + full[..k])[0 := w.chdir(full[k]).value];
    }
  }

  /** `popd` with an entry other than the first deletes it, goes nowhere, and keeps the rest. */
  lemma PopdDeletes(o: Options, plus: bool, n: nat, pwd: Datum, stack: seq<Datum>, w: World)
    requires n <= |stack| && (if plus != o.pushdMinus then n else |stack| - n) > 0
    ensures var k := if plus != o.pushdMinus then n else |stack| - n;
            Moved(o, Popd, Index(plus, n), pwd, stack, w) == Some((pwd, stack[..k - 1] + stack[k..]))
  {
    var full := [pwd] + stack;
    var k := if plus != o.pushdMinus then n else |stack| - n;
    assert full[..k] + full[k + 1..] == [pwd] + (stack[..k - 1] + stack[k..]);
  }

  /** Without an argument, or with the first entry, `popd` takes the top of the stack. */
  lemma PopdTop(o: Options, arg: Arg, pwd: Datum, stack: seq<Datum>, w: World)
    requires stack != [] && (arg == NoArg || (arg.Index? && Entry(o, arg.plus, arg.n, |stack| + 1) == Some(0)))
    ensures Moved(o, Popd, arg, pwd, stack, w) ==
            if w.chdir(stack[0]).None? then None else Some((w.chdir(stack[0]).value, stack[1..]))
  {
    var full := [pwd] + stack;
    if w.chdir(stack[0]).Some? {
      var list := full[1 := w.chdir(stack[0]).value];
      assert list[..0] + list[1..] == [w.chdir(stack[0]).value] + stack[1..];
    }
  }

  /** `cd +n` goes to the entry and takes it from the list. With AUTO_PUSHD the others stay;
      otherwise the first of them goes, which is the old directory, or for the current
      directory itself the top of the stack. */
  lemma CdExtracts(o: Options, plus: bool, n: nat, pwd: Datum, stack: seq<Datum>, w: World)
    requires n <= |stack|
    ensures var full := [pwd] + stack;
            var k := if plus != o.pushdMinus then n else |stack| - n;
            var others := if k > 0 then [pwd] + stack[..k - 1] + stack[k..] else stack;
            Moved(o, Cd, Index(plus, n), pwd, stack, w) ==
            if w.chdir(full[k]).None? then None
            else Some((w.chdir(full[k]).value,
                       if o.autoPushd || others == [] then others else others[1..]))
  {
    var full := [pwd] + stack;
    var k := if plus != o.pushdMinus then n else |stack| - n;
    assert GetDest(o, Cd, Index(plus, n), full, w) == Some(Dest(full, Some(k), k));
    if w.chdir(full[k]).Some? {
      CdTakes(o, pwd, stack, k, w.chdir(full[k]).value);
    }
  }

  lemma CdTakes(o: Options, pwd: Datum, stack: seq<Datum>, k: nat, dest: Datum)
    requires k <= |stack|
    ensures var others := if k > 0 then [pwd] + stack[..k - 1] + stack[k..] else stack;
            NewPwd(o, Cd, ([pwd] + stack)[k := dest], k) ==
            (dest, if o.autoPushd || others == [] then others else others[1..])
  {
    var list := ([pwd] + stack)[k := dest];
    var rest := list[..k] + list[k + 1..];
    if k > 0 {
      assert rest == [pwd] + stack[..k - 1] + stack[k..];
    } else {
      assert rest == stack;
    }
  }

  /** A named directory: the old one is kept by `pushd`, and by `cd` with AUTO_PUSHD. */
  lemma NamedKeeps(o: Options, func: Func, dir: Datum, pwd: Datum, stack: seq<Datum>, w: World)
    requires func != Popd
    ensures Moved(o, func, Name(dir), pwd, stack, w) ==
            if w.chdir(dir).None? then None
            else Some((w.chdir(dir).value, if func == Pushd || o.autoPushd then [pwd] + stack else stack))
  {
    if w.chdir(dir).Some? {
      var list := ([dir] + ([pwd] + stack))[0 := w.chdir(dir).value];
      assert list[0..] + list[..0] == list && list[1..] == [pwd] + stack;
      assert list[..0] + list[1..] == [pwd] + stack;
    }
  }

  /** Home is a name like any other: for `cd` alone, and for `pushd` where it does not
      exchange. */
  lemma HomeIsNamed(o: Options, func: Func, pwd: Datum, stack: seq<Datum>, w: World)
    requires func == Cd || (func == Pushd && (o.pushdToHome || stack == []))
    ensures Moved(o, func, NoArg, pwd, stack, w) ==
            if w.home.None? then None else Moved(o, func, Name(w.home.value), pwd, stack, w)
  {
  }

  /** `cd` goes to the directory named, or home, and where it cannot the stack stays. */
  lemma CdReaches(o: Options, to: Arg, pwd: Datum, stack: seq<Datum>, w: World)
    requires !to.Index?
    ensures var d := GetDest(o, Cd, to, [pwd] + stack, w);
            var dir := if to.Name? then Some(to.dir) else w.home;
            && (d.None? <==> dir.None?)
            && (d.Some? ==>
                  if w.chdir(dir.value).None? then
                    Reached(d.value, w).None? && AfterFailure(o, Cd, to, [pwd] + stack, d.value) == stack
                  else
                    && Reached(d.value, w).Some?
                    && var (dir', stack') := NewPwd(o, Cd, Reached(d.value, w).value, d.value.take);
                       Finish(o, w, dir', stack').0 == w.settle(w.chase(w.chdir(dir.value).value)))
  {
    var d := GetDest(o, Cd, to, [pwd] + stack, w);
    if d.Some? {
      assert d.value.list[1..] == [pwd] + stack;
    }
  }

  /** `pushd` exchanges the two top directories. */
  lemma PushdExchanges(o: Options, pwd: Datum, stack: seq<Datum>, w: World)
    requires stack != [] && !o.pushdToHome
    ensures Moved(o, Pushd, NoArg, pwd, stack, w) ==
            if w.chdir(stack[0]).None? then None else Some((w.chdir(stack[0]).value, [pwd] + stack[1..]))
  {
    if w.chdir(stack[0]).Some? {
      var full := [pwd] + stack;
      var list := ([full[1], full[0]] + full[2..])[0 := w.chdir(stack[0]).value];
      assert list[0..] + list[..0] == list && list[1..] == [pwd] + stack[1..];
    }
  }

  /** With PUSHD_IGNORE_DUPS the first entry for the new directory goes. Of the others
      cutting leaves a front: as many as there are, or one less than DIRSTACKSIZE (than two,
      if that is larger). */
  lemma CutLeaves(o: Options, w: World, dir: Datum, stack: seq<Datum>, i: nat)
    requires i <= |stack| && w.chase(dir) !in stack[..i] && (i < |stack| ==> stack[i] == w.chase(dir))
    ensures var (pwd, s) := Finish(o, w, dir, stack);
            && pwd == w.settle(w.chase(dir))
            && var most := (if o.dirStackSize < 2 then 2 else o.dirStackSize) - 1;
               var others := if o.ignoreDups && i < |stack| then stack[..i] + stack[i + 1..] else stack;
               s <= others && |s| == if o.dirStackSize <= 0 || |others| <= most then |others| else most
  {
    if i < |stack| {
      FirstIs(stack, w.chase(dir), i);
    } else {
      assert stack[..i] == stack;
      FirstNone(stack, w.chase(dir));
    }
  }

  /** When the directory cannot be changed to, the stack stays as it was, other than for
      `popd`, which has lost the entry, and for `pushd` without an argument, which has put
      the current directory in the place of the top one. */
  lemma FailureKeeps(o: Options, func: Func, arg: Arg, pwd: Datum, stack: seq<Datum>, w: World)
    requires var d := GetDest(o, func, arg, [pwd] + stack, w);
             d.Some? && Reached(d.value, w).None?
    ensures var d := GetDest(o, func, arg, [pwd] + stack, w).value;
            AfterFailure(o, func, arg, [pwd] + stack, d) == stack
            <==> || stack == [] || arg.Name?
                 || (func != Popd && !(func == Pushd && arg == NoArg && !o.pushdToHome && stack[0] != pwd))
  {
    var full := [pwd] + stack;
    var d := GetDest(o, func, arg, full, w).value;
    if func == Popd {
      match arg {
        case Name(dir) =>
          assert d.list[..1] + d.list[2..] == [dir] + stack;
        case _ =>
          if stack != [] {
            assert d.list[..1] + d.list[2..] == [pwd] + stack[1..];
          }
      }
    } else if HasTarget(o, func, arg, full) {
      if arg == NoArg {
        assert d.list[1..] == [pwd] + stack[1..];
        assert stack == [stack[0]] + stack[1..];
      }
    } else {
      assert d.list[1..] == full;
    }
  }
}
