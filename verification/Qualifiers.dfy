/** Glob qualifiers (glob.c): lists of tests on a file, with alternatives, and how two
    groups of them become one. */
module Qualifiers {
  /** One test: the function and what is passed to it. */
  datatype Test = Test(func: nat, data: int, sense: int, amc: int, range: int, units: int, sdata: seq<char>)

  /** Whether the tests' functions succeed for some file. */
  type File = Test -> bool

  /** A test passes when its function succeeds, or with an odd sense when it fails. */
  predicate Passes(t: Test, file: File) {
    file(t) != (t.sense % 2 == 1)
  }

  predicate PassesAll(ts: seq<Test>, file: File) {
    forall i :: 0 <= i < |ts| ==> Passes(ts[i], file)
  }

  /** A file is accepted by the first alternative all of whose tests it passes. */
  predicate Accepts(alts: seq<seq<Test>>, file: File) {
    exists k :: 0 <= k < |alts| && PassesAll(alts[k], file)
  }

  /** Every pair of alternatives, the first list varying more slowly. */
  function Product(bs: seq<seq<Test>>, qs: seq<seq<Test>>): seq<seq<Test>> {
    if bs == [] then [] else Row(bs[0], qs) + Product(bs[1..], qs)
  }

  function Row(b: seq<Test>, qs: seq<seq<Test>>): (r: seq<seq<Test>>)
    ensures |r| == |qs| && forall j :: 0 <= j < |qs| ==> r[j] == b + qs[j]
  {
    seq(|qs|, j requires 0 <= j < |qs| => b + qs[j])
  }

  /** Distribution keeps the meaning: a file is accepted by the product of two groups
      exactly if each of the groups accepts it. */
  lemma {:induction false} ProductAccepts(bs: seq<seq<Test>>, qs: seq<seq<Test>>, file: File)
    ensures Accepts(Product(bs, qs), file) <==> Accepts(bs, file) && Accepts(qs, file)
  {
    if bs != [] {
      var (row, more) := (Row(bs[0], qs), Product(bs[1..], qs));
      ProductAccepts(bs[1..], qs, file);
      AcceptsConcat(row, more, file);
      AcceptsConcat([bs[0]], bs[1..], file);
      assert [bs[0]] + bs[1..] == bs;
      RowAccepts(bs[0], qs, file);
    }
  }

  lemma AcceptsConcat(a: seq<seq<Test>>, b: seq<seq<Test>>, file: File)
    ensures Accepts(a + b, file) <==> Accepts(a, file) || Accepts(b, file)
  {
    if k :| 0 <= k < |a| && PassesAll(a[k], file) {
      assert (a + b)[k] == a[k];
    }
    if k :| 0 <= k < |b| && PassesAll(b[k], file) {
      assert (a + b)[|a| + k] == b[k];
    }
  }

  lemma PassesConcat(a: seq<Test>, b: seq<Test>, file: File)
    ensures PassesAll(a + b, file) <==> PassesAll(a, file) && PassesAll(b, file)
  {
    if PassesAll(a + b, file) {
      assert forall i :: 0 <= i < |a| ==> (a + b)[i] == a[i];
      assert forall i :: 0 <= i < |b| ==> (a + b)[|a| + i] == b[i];
    }
  }

  lemma RowAccepts(b: seq<Test>, qs: seq<seq<Test>>, file: File)
    ensures Accepts(Row(b, qs), file) <==> Accepts([b], file) && Accepts(qs, file)
  {
    forall j | 0 <= j < |qs|
      ensures PassesAll(Row(b, qs)[j], file) <==> PassesAll(b, file) && PassesAll(qs[j], file)
    {
      PassesConcat(b, qs[j], file);
    }
    assert [b][0] == b;
  }

  /** `struct qual`. */
  class Qual {
    var next: Qual?
    var or: Qual?
    const test: Test

    constructor (test: Test)
      ensures this.test == test && next == null && or == null
    {
      this.test := test;
      next, or := null, null;
    }
  }

  /** One alternative: nodes linked by `next`. */
  ghost predicate Chain(ns: seq<Qual>)
    reads ns
  {
    && ns != []
    && (forall i, j :: 0 <= i < j < |ns| ==> ns[i] != ns[j])
    && (forall i :: 0 <= i < |ns| - 1 ==> ns[i].next == ns[i + 1])
    && ns[|ns| - 1].next == null
  }

  ghost function Nodes(alts: seq<seq<Qual>>): set<Qual> {
    set k, i | 0 <= k < |alts| && 0 <= i < |alts[k]| :: alts[k][i]
  }

  /** A group: alternatives whose heads are linked by `or`. */
  ghost predicate Group(head: Qual?, alts: seq<seq<Qual>>)
    reads Nodes(alts)
  {
    && (forall k :: 0 <= k < |alts| ==> Chain(alts[k]))
    && head == HeadAt(alts, 0)
    && forall k :: 0 <= k < |alts| ==> alts[k][0].or == HeadAt(alts, k + 1)
  }

  ghost function HeadAt(alts: seq<seq<Qual>>, k: nat): Qual? {
    if k < |alts| && alts[k] != [] then alts[k][0] else null
  }

  ghost function Tests(ns: seq<Qual>): seq<Test> {
    seq(|ns|, i requires 0 <= i < |ns| => ns[i].test)
  }

  ghost function AllTests(alts: seq<seq<Qual>>): seq<seq<Test>> {
    seq(|alts|, k requires 0 <= k < |alts| => Tests(alts[k]))
  }

  /** Every function of the alternative succeeds where the sense is even, and fails where it
      is odd. */
  ghost predicate AsAsked(ns: seq<Qual>, file: File) {
    forall i :: 0 <= i < |ns| ==> file(ns[i].test) == (ns[i].test.sense % 2 == 0)
  }

  lemma AcceptsMeans(alts: seq<seq<Qual>>, file: File)
    ensures Accepts(AllTests(alts), file) <==> exists k :: 0 <= k < |alts| && AsAsked(alts[k], file)
  {
    forall k | 0 <= k < |alts|
      ensures PassesAll(AllTests(alts)[k], file) <==> AsAsked(alts[k], file)
    {
      assert forall i :: 0 <= i < |alts[k]| ==> AllTests(alts)[k][i] == alts[k][i].test;
    }
    if k :| 0 <= k < |alts| && AsAsked(alts[k], file) {
      assert PassesAll(AllTests(alts)[k], file);
    }
  }

  /** The evaluation loop of `insert`. */
  method Evaluate(quals: Qual?, ghost alts: seq<seq<Qual>>, file: File) returns (accepted: bool)
    requires quals != null && Group(quals, alts)
    ensures accepted <==> exists k :: 0 <= k < |alts| && AsAsked(alts[k], file)
    ensures accepted <==> Accepts(AllTests(alts), file)
  {
    hide Accepts, AllTests;
    AcceptsMeans(alts, file);
    var qo, qn := quals, quals;
    ghost var k, i := 0, 0;
    while qn != null
      invariant 0 <= k < |alts| && qo == alts[k][0]
      invariant 0 <= i <= |alts[k]| && qn == (if i < |alts[k]| then alts[k][i] else null)
      invariant forall j :: 0 <= j < i ==> file(alts[k][j].test) == (alts[k][j].test.sense % 2 == 0)
      invariant forall j :: 0 <= j < k ==> !AsAsked(alts[j], file)
      decreases |alts| - k, |alts[k]| - i
    {
      if (if file(qn.test) then 0 else 1) != qn.test.sense % 2 {
        assert !AsAsked(alts[k], file) by { assert alts[k][i] == qn; }
        qo := qo.or;
        if qo == null {
          return false;
        }
        k, i := k + 1, 0;
        qn := qo;
      } else {
        qn := qn.next;
        i := i + 1;
      }
    }
    assert AsAsked(alts[k], file);
    accepted := true;
  }

  /** `dup_qual_list`: a copy of one alternative. */
  method DupQualList(orig: Qual, ghost ns: seq<Qual>) returns (qfirst: Qual, qlast: Qual, ghost copy: seq<Qual>)
    requires Chain(ns) && orig == ns[0]
    ensures Chain(copy) && fresh(copy) && |copy| == |ns| && Tests(copy) == Tests(ns)
    ensures qfirst == copy[0] && qlast == copy[|copy| - 1] && copy[0].or == null
  {
    qfirst := new Qual(orig.test);
    qlast := qfirst;
    copy := [qfirst];
    var q := orig.next;
    ghost var i := 1;
    while q != null
      invariant 1 <= i <= |ns| && q == (if i < |ns| then ns[i] else null)
      invariant fresh(copy) && |copy| == i && Chain(copy)
      invariant qfirst == copy[0] && qlast == copy[i - 1] && qfirst.or == null
      invariant forall j :: 0 <= j < i ==> copy[j].test == ns[j].test
      decreases |ns| - i
    {
      var qnew := new Qual(q.test);
      qlast.next := qnew;
      qlast := qnew;
      copy := copy + [qnew];
      q := q.next;
      i := i + 1;
    }
  }

  ghost function LastHead(alts: seq<seq<Qual>>): Qual? {
    if alts == [] then null else HeadAt(alts, |alts| - 1)
  }

  /** A new alternative at the end of a group being built. */
  method AppendAlternative(head: Qual?, tail: Qual?, qfirst: Qual, ghost alts: seq<seq<Qual>>, ghost ns: seq<Qual>)
    returns (newHead: Qual)
    requires Group(head, alts) && tail == LastHead(alts)
    requires Chain(ns) && qfirst == ns[0] && qfirst.or == null
    requires tail != null ==> tail !in ns
    modifies (if tail == null then {} else {tail})`or
    ensures Group(newHead, alts + [ns]) && qfirst == LastHead(alts + [ns])
    ensures tail != null ==> tail.or == qfirst
  {
    newHead := if head == null then qfirst else head;
    if tail != null {
      tail.or := qfirst;
    }
  }

  /** A copy of one alternative of each group, end to end. */
  method CopyPair(qn: Qual, qo: Qual, ghost b: seq<Qual>, ghost q: seq<Qual>) returns (qfirst: Qual, ghost ns: seq<Qual>)
    requires Chain(b) && Chain(q) && qn == b[0] && qo == q[0]
    ensures fresh(ns) && Chain(ns) && Tests(ns) == Tests(b) + Tests(q)
    ensures ns != [] && qfirst == ns[0] && qfirst.or == null
  {
    var qlast, second, end;
    ghost var copy, copy';
    qfirst, qlast, copy := DupQualList(qn, b);
    second, end, copy' := DupQualList(qo, q);
    qlast.next := second;
    ns := copy + copy';
  }

  ghost function Last(ns: seq<Qual>): Qual
    requires ns != []
  {
    ns[|ns| - 1]
  }

  /** The last pair is not copied: the nodes themselves are joined. */
  method JoinPair(qn: Qual, qo: Qual, ghost b: seq<Qual>, ghost q: seq<Qual>) returns (ghost ns: seq<Qual>)
    requires Chain(b) && Chain(q) && qn == b[0] && qo == q[0] && forall x :: x in b ==> x !in q
    modifies Last(b)`next
    ensures Chain(ns) && ns == b + q && Tests(ns) == Tests(b) + Tests(q)
  {
    var qlast := qn;
    ghost var i := 0;
    while qlast.next != null
      invariant 0 <= i < |b| && qlast == b[i]
      invariant qlast.next == if i < |b| - 1 then b[i + 1] else null
      decreases |b| - i
    {
      qlast := qlast.next;
      i := i + 1;
    }
    assert qlast == Last(b) && Last(b) in b && q[|q| - 1] in q;
    qlast.next := qo;
    ns := b + q;
    assert forall k :: 0 <= k < |b| ==> ns[k] in b;
    assert forall k :: |b| <= k < |ns| ==> ns[k] == q[k - |b|];
  }

  /** The groups are apart, so that joining nodes of one to the other makes a list. */
  ghost predicate Apart(bs: seq<seq<Qual>>, qs: seq<seq<Qual>>) {
    Nodes(bs) !! Nodes(qs)
  }

  lemma GroupAt(head: Qual?, alts: seq<seq<Qual>>, k: nat)
    requires Group(head, alts) && k <= |alts|
    ensures HeadAt(alts, |alts|) == null && head == HeadAt(alts, 0)
    ensures k < |alts| ==>
              && Chain(alts[k]) && HeadAt(alts, k) == alts[k][0] && alts[k][0].or == HeadAt(alts, k + 1)
              && (forall x :: x in alts[k] ==> x in Nodes(alts))
              && (HeadAt(alts, k + 1) == null <==> k == |alts| - 1)
  {
    if k < |alts| {
      forall x | x in alts[k] ensures x in Nodes(alts) {
        var i :| 0 <= i < |alts[k]| && alts[k][i] == x;
      }
    }
  }

  lemma LastHeadIn(head: Qual?, alts: seq<seq<Qual>>)
    requires Group(head, alts)
    ensures LastHead(alts) != null ==> LastHead(alts) in Nodes(alts)
    ensures alts == [] <==> LastHead(alts) == null
  {
    if alts != [] {
      GroupAt(head, alts, |alts| - 1);
    }
  }

  lemma NodesMore(alts: seq<seq<Qual>>, ns: seq<Qual>)
    ensures Nodes(alts + [ns]) == Nodes(alts) + (set x | x in ns)
  {
    var more := alts + [ns];
    forall x | x in Nodes(alts) || x in ns ensures x in Nodes(more) {
      if x in Nodes(alts) {
        var k, i :| 0 <= k < |alts| && 0 <= i < |alts[k]| && alts[k][i] == x;
        assert more[k] == alts[k];
      } else {
        var i :| 0 <= i < |ns| && ns[i] == x;
        assert more[|alts|] == ns;
      }
    }
  }

  lemma ChainSome(ns: seq<Qual>)
    requires Chain(ns)
    ensures ns != [] && Last(ns) in ns && ns[0] in ns
  {
  }

  /** One turn of the inner loop. */
  method AddPair(head: Qual?, tail: Qual?, qn: Qual, qo: Qual, islast: bool,
                 ghost alts: seq<seq<Qual>>, ghost b: seq<Qual>, ghost q: seq<Qual>, ghost others: set<Qual>)
    returns (newHead: Qual, qfirst: Qual, ghost ns: seq<Qual>)
    requires Group(head, alts) && tail == LastHead(alts)
    requires Chain(b) && Chain(q) && b != [] && q != [] && qn == b[0] && qo == q[0]
    requires islast ==> (forall x :: x in b ==> x !in q) && b[0].or == null
    requires (forall x :: x in b || x in q ==> x !in Nodes(alts)) && Nodes(alts) !! others
    modifies (if tail == null then {} else {tail})`or
    modifies (if islast then {Last(b)} else {})`next
    ensures Group(newHead, alts + [ns]) && qfirst == LastHead(alts + [ns])
    ensures Tests(ns) == Tests(b) + Tests(q) && (islast ==> ns == b + q)
    ensures !islast ==> fresh(ns) && (set x | x in ns) !! others && unchanged(others)
  {
    hide Chain, Tests;
    ChainSome(b);
    ChainSome(q);
    LastHeadIn(head, alts);
    qfirst := qn;
    if islast {
      ns := JoinPair(qn, qo, b, q);
    } else {
      qfirst, ns := CopyPair(qn, qo, b, q);
    }
    newHead := AppendAlternative(head, tail, qfirst, alts, ns);
  }

  lemma AllTestsMore(alts: seq<seq<Qual>>, ns: seq<Qual>)
    ensures AllTests(alts + [ns]) == AllTests(alts) + [Tests(ns)]
  {
  }

  lemma RowAt(b: seq<Qual>, qs: seq<seq<Qual>>, j: nat)
    ensures |Row(Tests(b), AllTests(qs))| == |qs| == |AllTests(qs)|
    ensures j < |qs| ==> Row(Tests(b), AllTests(qs))[j] == Tests(b) + Tests(qs[j])
    ensures j < |qs| ==> AllTests(qs)[j] == Tests(qs[j])
  {
  }

  lemma {:induction false} ProductMore(bs: seq<seq<Test>>, b: seq<Test>, qs: seq<seq<Test>>)
    ensures Product(bs + [b], qs) == Product(bs, qs) + Row(b, qs)
  {
    if bs == [] {
      assert ([b])[1..] == [];
    } else {
      assert (bs + [b])[1..] == bs[1..] + [b];
      ProductMore(bs[1..], b, qs);
    }
  }

  lemma GroupEmpty()
    ensures Group(null, []) && Nodes([]) == {} && AllTests([]) == [] && LastHead([]) == null
  {
  }

  /** The merge when either group has alternatives: every pair, the old group varying
      faster, the last pair made of the old nodes themselves. */
  method Distribute(quals: Qual, newquals: Qual, ghost qs: seq<seq<Qual>>, ghost bs: seq<seq<Qual>>)
    returns (qorhead: Qual?, ghost alts: seq<seq<Qual>>)
    requires Group(quals, qs) && Group(newquals, bs) && Apart(bs, qs)
    modifies Nodes(bs)
    ensures Group(qorhead, alts) && AllTests(alts) == Product(AllTests(bs), AllTests(qs))
  {
    hide Chain, Tests, Group, AllTests, Row;
    ghost var (bt, qt) := (AllTests(bs), AllTests(qs));
    RowAt([], bs, 0);
    qorhead, alts := null, [];
    var qortail: Qual? := null;
    var qn: Qual? := newquals;
    ghost var i := 0;
    GroupEmpty();
    GroupAt(newquals, bs, 0);
    while qn != null
      invariant 0 <= i <= |bs| && qn == HeadAt(bs, i) && (qn == null <==> i == |bs|)
      invariant Group(qorhead, alts) && qortail == LastHead(alts)
      invariant i < |bs| ==> Group(newquals, bs) && Group(quals, qs) && fresh(Nodes(alts))
      invariant AllTests(alts) == Product(bt[..i], qt)
      decreases |bs| - i
    {
      GroupAt(newquals, bs, i);
      RowAt([], bs, i);
      ProductMore(bt[..i], bt[i], qt);
      assert bt[..i + 1] == bt[..i] + [bt[i]];
      ChainSome(bs[i]);
      qorhead, qortail, alts := AddRow(quals, qn, qorhead, qortail, newquals, qs, bs, alts, i);
      qn := qn.or;
      i := i + 1;
    }
    assert bt[..i] == bt;
  }

  /** The inner loop: one new alternative with every old one. */
  method AddRow(quals: Qual, qn: Qual, head: Qual?, tail: Qual?, newquals: Qual,
                ghost qs: seq<seq<Qual>>, ghost bs: seq<seq<Qual>>, ghost was: seq<seq<Qual>>, ghost i: nat)
    returns (qorhead: Qual, qortail: Qual, ghost alts: seq<seq<Qual>>)
    requires Group(quals, qs) && Group(newquals, bs) && Apart(bs, qs) && i < |bs| && qn == HeadAt(bs, i)
    requires Group(head, was) && tail == LastHead(was) && Nodes(was) !! Nodes(bs) && Nodes(was) !! Nodes(qs)
    requires bs[i] != []
    modifies Nodes(was)
    modifies (if i == |bs| - 1 then {Last(bs[i])} else {})`next
    ensures Group(qorhead, alts) && qortail == LastHead(alts)
    ensures qn.or == old(qn.or)
    ensures i < |bs| - 1 ==> fresh(Nodes(alts) - Nodes(was))
    ensures AllTests(alts) == AllTests(was) + Row(Tests(bs[i]), AllTests(qs))
  {
    hide Chain, Tests, Group, Nodes, AllTests, Row;
    var h, t := head, tail;
    alts := was;
    var qo: Qual? := quals;
    ghost var j := 0;
    ghost var row := Row(Tests(bs[i]), AllTests(qs));
    GroupAt(quals, qs, 0);
    GroupAt(newquals, bs, i);
    RowAt(bs[i], qs, 0);
    while qo != null
      invariant 0 <= j <= |qs| && qo == HeadAt(qs, j) && (qo == null <==> j == |qs|)
      invariant Group(h, alts) && t == LastHead(alts) && (j > 0 ==> h != null && t != null)
      invariant i < |bs| - 1 || j < |qs| ==> Group(newquals, bs) && Group(quals, qs) && fresh(Nodes(alts) - Nodes(was))
      invariant qn.or == old(qn.or)
      invariant i < |bs| - 1 || j < |qs| ==> Nodes(alts) !! Nodes(bs) && Nodes(alts) !! Nodes(qs)
      invariant AllTests(alts) == AllTests(was) + row[..j]
      decreases |qs| - j
    {
      GroupAt(quals, qs, j);
      GroupAt(newquals, bs, i);
      RowAt(bs[i], qs, j);
      LastHeadIn(h, alts);
      ChainSome(bs[i]);
      ChainSome(qs[j]);
      var islast := qn.or == null && qo.or == null;
      ghost var ns;
      h, t, ns := AddPair(h, t, qn, qo, islast, alts, bs[i], qs[j], Nodes(bs) + Nodes(qs));
      NodesMore(alts, ns);
      AllTestsMore(alts, ns);
      alts := alts + [ns];
      qo := qo.or;
      j := j + 1;
    }
    return h, t, alts;
  }

  /** A new group of qualifiers is merged with those already there; no group at all
      stands for qualifiers that every file passes. */
  method Merge(quals: Qual?, newquals: Qual?, ghost qs: seq<seq<Qual>>, ghost bs: seq<seq<Qual>>)
    returns (head: Qual?, ghost alts: seq<seq<Qual>>)
    requires Group(quals, qs) && Group(newquals, bs) && Apart(bs, qs)
    modifies Nodes(bs)
    ensures Group(head, alts)
    ensures head == null <==> quals == null && newquals == null
    ensures forall file :: Admits(alts, file) <==> Admits(bs, file) && Admits(qs, file)
  {
    hide Chain, Group, Accepts;
    GroupAt(quals, qs, 0);
    GroupAt(newquals, bs, 0);
    if quals != null && newquals != null {
      if quals.or != null || newquals.or != null {
        head, alts := Distribute(quals, newquals, qs, bs);
      } else {
        head, alts := ChainTogether(quals, newquals, qs, bs);
      }
      forall file
        ensures Admits(alts, file) <==> Admits(bs, file) && Admits(qs, file)
      {
        ProductAccepts(AllTests(bs), AllTests(qs), file);
      }
      ProductSome(AllTests(bs), AllTests(qs));
      GroupAt(head, alts, 0);
    } else if newquals != null {
      return newquals, bs;
    } else {
      return quals, qs;
    }
  }

  ghost predicate Admits(alts: seq<seq<Qual>>, file: File) {
    alts == [] || Accepts(AllTests(alts), file)
  }

  lemma ProductSome(bs: seq<seq<Test>>, qs: seq<seq<Test>>)
    requires bs != [] && qs != []
    ensures Product(bs, qs) != []
  {
  }

  /** Without alternatives the old list is put behind the new one. */
  method ChainTogether(quals: Qual, newquals: Qual, ghost qs: seq<seq<Qual>>, ghost bs: seq<seq<Qual>>)
    returns (head: Qual, ghost alts: seq<seq<Qual>>)
    requires Group(quals, qs) && Group(newquals, bs) && Apart(bs, qs)
    requires quals.or == null && newquals.or == null
    modifies Nodes(bs)
    ensures Group(head, alts) && AllTests(alts) == Product(AllTests(bs), AllTests(qs))
  {
    GroupAt(quals, qs, 0);
    GroupAt(newquals, bs, 0);
    ghost var ns := JoinPair(newquals, quals, bs[0], qs[0]);
    head, alts := newquals, [ns];
    RowAt(bs[0], qs, 0);
    assert AllTests(bs)[1..] == [];
    assert Product([], AllTests(qs)) == [];
  }
}
