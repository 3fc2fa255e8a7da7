/** The sorted scan of a hash table (hashtable.c): the nodes are put in a sorted array
    first, and the array is kept up to date while callbacks change the table. */
module SortedScan {
  import opened Chains
  import opened HashTable

  datatype Option<+T> = None | Some(value: T)

  /** No callback deletes a name that the scan has still to come to. */
  predicate Safe(names: seq<Name>, i: nat, k: nat, m: map<Name, int>, script: nat -> seq<Op>, wanted: (Name, int) -> bool)
    requires i <= |names| && forall j :: i <= j < |names| ==> names[j] in m
    decreases |names| - i
  {
    i == |names|
    || if wanted(names[i], m[names[i]]) then
         && (forall j :: i < j < |names| ==> Delete(names[j]) !in script(k))
         && (KeptAll(names[i + 1..], script(k), m);
             Safe(names, i + 1, k + 1, ApplyAll(script(k), m), script, wanted))
       else Safe(names, i + 1, k, m, script, wanted)
  }

  lemma {:induction false} Kept(n: Name, ops: seq<Op>, m: map<Name, int>)
    requires n in m && Delete(n) !in ops
    ensures n in ApplyAll(ops, m)
    decreases |ops|
  {
    if ops != [] {
      Kept(n, ops[1..], Apply(ops[0], m));
    }
  }

  lemma KeptAll(ns: seq<Name>, ops: seq<Op>, m: map<Name, int>)
    requires forall j :: 0 <= j < |ns| ==> ns[j] in m && Delete(ns[j]) !in ops
    ensures forall j :: 0 <= j < |ns| ==> ns[j] in ApplyAll(ops, m)
  {
    forall j | 0 <= j < |ns|
      ensures ns[j] in ApplyAll(ops, m)
    {
      Kept(ns[j], ops, m);
    }
  }

  /** `addhashnode2` and `removehashnode` as far as the array goes: the slot of a node that
      is replaced gets the new node, that of a node removed gets NULL. */
  method UpdateSlots(slots: array<Option<int>>, names: seq<Name>, op: Op, m: map<Name, int>)
    requires slots.Length == |names| && forall i, j :: 0 <= i < j < |names| ==> names[i] != names[j]
    modifies slots
    ensures forall j :: 0 <= j < |names| ==>
              slots[j] == if old(slots[j]).None? || names[j] != op.name || op.name !in m then old(slots[j])
                          else if op.Add? then Some(op.version) else None
  {
    if op.name !in m {
      return;
    }
    var i := |names|;
    while i > 0
      invariant 0 <= i <= |names|
      invariant forall j :: 0 <= j < i ==> slots[j] == old(slots[j])
      invariant forall j :: i <= j < |names| ==>
                  slots[j] == if old(slots[j]).None? || names[j] != op.name then old(slots[j])
                              else if op.Add? then Some(op.version) else None
    {
      i := i - 1;
      if slots[i].Some? && names[i] == op.name {
        slots[i] := if op.Add? then Some(op.version) else None;
      }
    }
  }

  /** What the array holds: for every name from `i` on the table's version, or NULL. */
  ghost predicate Current(slots: seq<Option<int>>, names: seq<Name>, m: map<Name, int>) {
    && |slots| == |names|
    && forall j :: 0 <= j < |names| && slots[j].Some? ==> names[j] in m && m[names[j]] == slots[j].value
  }

  /** One callback. */
  method Callback(slots: array<Option<int>>, names: seq<Name>, ops: seq<Op>, m0: map<Name, int>) returns (m: map<Name, int>)
    requires forall i, j :: 0 <= i < j < |names| ==> names[i] != names[j]
    requires Current(slots[..], names, m0)
    modifies slots
    ensures m == ApplyAll(ops, m0) && Current(slots[..], names, m)
    ensures forall j :: 0 <= j < |names| ==> (slots[j].None? <==> old(slots[j]).None? || Delete(names[j]) in ops)
  {
    m := m0;
    var k := 0;
    assert ops[0..] == ops;
    while k < |ops|
      invariant 0 <= k <= |ops| && ApplyAll(ops[k..], m) == ApplyAll(ops, m0) && Current(slots[..], names, m)
      invariant forall j :: 0 <= j < |names| ==> (slots[j].None? <==> old(slots[j]).None? || Delete(names[j]) in ops[..k])
    {
      assert ops[k..][1..] == ops[k + 1..];
      assert ops[..k + 1] == ops[..k] + [ops[k]];
      UpdateSlots(slots, names, ops[k], m);
      m := Apply(ops[k], m);
      k := k + 1;
    }
    assert ops[..k] == ops;
  }

  /** `scanmatchtable`, sorted. NULL in the array is dereferenced when the scan comes to it:
      that happens exactly if a callback deletes a name still to come. Otherwise every name
      of the start comes once, in order, in its version of the moment. */
  method ScanSorted(names: seq<Name>, m0: map<Name, int>, script: nat -> seq<Op>, wanted: (Name, int) -> bool)
    returns (crashed: bool, match_: nat, ghost seen: seq<Look>)
    requires forall i, j :: 0 <= i < j < |names| ==> names[i] != names[j]
    requires forall n :: n in m0 <==> n in names
    ensures crashed <==> !Safe(names, 0, 0, m0, script, wanted)
    ensures !crashed ==> |seen| == |names| && forall j :: 0 <= j < |names| ==> seen[j].name == names[j]
    ensures Faithful(script, wanted, m0, seen) && match_ == Calls(wanted, seen)
  {
    hide Safe, After, Calls, Faithful, ApplyAll, Current, Verdict;
    var slots := new Option<int>[|names|](j requires 0 <= j < |names| => Some(m0[names[j]]));
    var m := m0;
    crashed, match_, seen := false, 0, [];
    ghost var safe := Safe(names, 0, 0, m0, script, wanted);
    NothingSeen(script, wanted, m0);
    AllThere(slots[..], names, m, script, wanted);
    var i := 0;
    while i < |names|
      invariant 0 <= i <= |names| && !crashed && Current(slots[..], names, m)
      invariant Verdict(slots[..], names, i, match_, m, script, wanted, safe)
      invariant m == After(script, match_, m0) && match_ == Calls(wanted, seen) && Faithful(script, wanted, m0, seen)
      invariant |seen| == i && forall j :: 0 <= j < i ==> seen[j].name == names[j]
    {
      VerdictAt(slots[..], names, i, match_, m, script, wanted, safe);
      if slots[i].None? {
        crashed := true;
        return;
      }
      var version := slots[i].value;
      ghost var l := Look(names[i], version, match_);
      OneMore(script, wanted, m0, seen, l);
      ghost var (before, m') := (slots[..], m);
      seen := seen + [l];
      if wanted(names[i], version) {
        m := Callback(slots, names, script(match_), m);
        match_ := match_ + 1;
      }
      VerdictStep(before, slots[..], names, i, l.at, m', script, wanted, safe);
      i := i + 1;
    }
    VerdictEnd(slots[..], names, match_, m, script, wanted, safe);
  }

  /** Standing at slot `i`: the scan is safe if all is there from here on and it goes on
      safely, and is not if some slot to come holds NULL already. */
  ghost predicate Verdict(slots: seq<Option<int>>, names: seq<Name>, i: nat, k: nat, m: map<Name, int>,
                          script: nat -> seq<Op>, wanted: (Name, int) -> bool, safe: bool)
    requires Current(slots, names, m) && i <= |names|
  {
    if forall j :: i <= j < |names| ==> slots[j].Some? then safe == Safe(names, i, k, m, script, wanted) else !safe
  }

  lemma AllThere(slots: seq<Option<int>>, names: seq<Name>, m: map<Name, int>,
                 script: nat -> seq<Op>, wanted: (Name, int) -> bool)
    requires |slots| == |names| && forall j :: 0 <= j < |names| ==> names[j] in m && slots[j] == Some(m[names[j]])
    ensures Current(slots, names, m)
    ensures Verdict(slots, names, 0, 0, m, script, wanted, Safe(names, 0, 0, m, script, wanted))
  {
  }

  lemma VerdictAt(slots: seq<Option<int>>, names: seq<Name>, i: nat, k: nat, m: map<Name, int>,
                  script: nat -> seq<Op>, wanted: (Name, int) -> bool, safe: bool)
    requires i < |names| && Current(slots, names, m) && Verdict(slots, names, i, k, m, script, wanted, safe)
    ensures |slots| == |names| && (slots[i].None? ==> !safe)
    ensures slots[i].Some? ==> names[i] in m && m[names[i]] == slots[i].value
  {
  }

  lemma VerdictEnd(slots: seq<Option<int>>, names: seq<Name>, k: nat, m: map<Name, int>,
                   script: nat -> seq<Op>, wanted: (Name, int) -> bool, safe: bool)
    requires Current(slots, names, m) && Verdict(slots, names, |names|, k, m, script, wanted, safe)
    ensures safe
  {
  }

  lemma VerdictStep(slots: seq<Option<int>>, slots': seq<Option<int>>, names: seq<Name>, i: nat, k: nat, m: map<Name, int>,
                    script: nat -> seq<Op>, wanted: (Name, int) -> bool, safe: bool)
    requires i < |names| && Current(slots, names, m) && slots[i].Some?
    requires Verdict(slots, names, i, k, m, script, wanted, safe)
    requires var call := wanted(names[i], m[names[i]]);
             && (!call ==> slots' == slots)
             && (call ==> |slots'| == |slots| && Current(slots', names, ApplyAll(script(k), m)))
             && (call ==> forall j :: 0 <= j < |names| ==> (slots'[j].None? <==> slots[j].None? || Delete(names[j]) in script(k)))
    ensures if wanted(names[i], m[names[i]]) then Verdict(slots', names, i + 1, k + 1, ApplyAll(script(k), m), script, wanted, safe)
            else Verdict(slots', names, i + 1, k, m, script, wanted, safe)
  {
    if forall j :: i <= j < |names| ==> slots[j].Some? {
      SafeStep(names, i, k, m, script, wanted);
    }
  }

  lemma NothingSeen(script: nat -> seq<Op>, wanted: (Name, int) -> bool, m0: map<Name, int>)
    ensures Faithful(script, wanted, m0, []) && Calls(wanted, []) == 0 && After(script, 0, m0) == m0
  {
  }

  lemma OneMore(script: nat -> seq<Op>, wanted: (Name, int) -> bool, m0: map<Name, int>, seen: seq<Look>, l: Look)
    requires Faithful(script, wanted, m0, seen) && l.at == Calls(wanted, seen)
    requires forall j :: 0 <= j < |seen| ==> seen[j].name != l.name
    requires l.name in After(script, l.at, m0) && After(script, l.at, m0)[l.name] == l.version
    ensures Faithful(script, wanted, m0, seen + [l])
    ensures Calls(wanted, seen + [l]) == l.at + if wanted(l.name, l.version) then 1 else 0
    ensures After(script, l.at + 1, m0) == ApplyAll(script(l.at), After(script, l.at, m0))
  {
    var more := seen + [l];
    assert more[..|seen|] == seen;
    forall j | 0 <= j < |more|
      ensures more[j].at == Calls(wanted, more[..j])
      ensures more[j].name in After(script, more[j].at, m0)
      ensures After(script, more[j].at, m0)[more[j].name] == more[j].version
    {
      assert j < |seen| ==> more[..j] == seen[..j] && more[j] == seen[j];
    }
  }

  lemma SafeStep(names: seq<Name>, i: nat, k: nat, m: map<Name, int>, script: nat -> seq<Op>, wanted: (Name, int) -> bool)
    requires i < |names| && forall j :: i <= j < |names| ==> names[j] in m
    ensures var later := forall j :: i < j < |names| ==> Delete(names[j]) !in script(k);
            && (!wanted(names[i], m[names[i]]) ==>
                  Safe(names, i, k, m, script, wanted) == Safe(names, i + 1, k, m, script, wanted))
            && (wanted(names[i], m[names[i]]) && !later ==> !Safe(names, i, k, m, script, wanted))
            && (wanted(names[i], m[names[i]]) && later ==>
                  && (forall j :: i < j < |names| ==> names[j] in ApplyAll(script(k), m))
                  && Safe(names, i, k, m, script, wanted) ==
                     Safe(names, i + 1, k + 1, ApplyAll(script(k), m), script, wanted))
  {
    if forall j :: i < j < |names| ==> Delete(names[j]) !in script(k) {
      forall j | i < j < |names| ensures names[j] in ApplyAll(script(k), m) {
        Kept(names[j], script(k), m);
      }
    }
  }

  /** The promise that elements may be removed during a scan is broken by any callback for
      one name that deletes the next. */
  lemma RemovalUnsafe(a: Name, b: Name, m: map<Name, int>, script: nat -> seq<Op>, wanted: (Name, int) -> bool)
    requires a in m && b in m && wanted(a, m[a]) && Delete(b) in script(0)
    ensures !Safe([a, b], 0, 0, m, script, wanted)
  {
    assert [a, b][1] == b;
  }
}
