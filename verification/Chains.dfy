/** The chains of a hash table as sequences, without pointers: what adding, replacing
    and removing do to them (hashtable.c). */
module Chains {
  import opened Bytes

  type Name = seq<Byte>

  class Node {
    const nam: Name
    /** Everything else a node carries; a replacement differs from what it replaces. */
    const version: int
    var next: Node?

    constructor (nam: Name, version: int)
      ensures this.nam == nam && this.version == version && next == null
    {
      this.nam, this.version, next := nam, version, null;
    }
  }

  type Table = seq<seq<Node>>

  /** Position of the first node with this name, or the length. */
  function Index(c: seq<Node>, name: Name): (k: nat)
    ensures k <= |c|
    ensures k < |c| ==> c[k].nam == name
    ensures forall j :: 0 <= j < k ==> c[j].nam != name
  {
    if c == [] || c[0].nam == name then 0 else 1 + Index(c[1..], name)
  }

  function Bucket(hash: Name -> nat, cs: Table, name: Name): (b: nat)
    requires cs != []
    ensures b < |cs|
  {
    hash(name) % |cs|
  }

  /** Every node is in the bucket of its name, and no name is in a bucket twice. */
  ghost predicate WellPlaced(hash: Name -> nat, cs: Table) {
    && cs != []
    && (forall i, k :: 0 <= i < |cs| && 0 <= k < |cs[i]| ==> Bucket(hash, cs, cs[i][k].nam) == i)
    && (forall i :: 0 <= i < |cs| ==> DistinctNames(cs[i]))
  }

  ghost predicate DistinctNames(c: seq<Node>) {
    forall k, l :: 0 <= k < l < |c| ==> c[k].nam != c[l].nam
  }

  ghost function Members(cs: Table): set<Node> {
    set i, k | 0 <= i < |cs| && 0 <= k < |cs[i]| :: cs[i][k]
  }

  function Total(cs: Table): nat {
    if cs == [] then 0 else |cs[0]| + Total(cs[1..])
  }

  function InsertIn(c: seq<Node>, hn: Node): seq<Node> {
    var k := Index(c, hn.nam);
    if k < |c| then c[k := hn] else [hn] + c
  }

  function RemoveIn(c: seq<Node>, name: Name): seq<Node> {
    var k := Index(c, name);
    if k < |c| then c[..k] + c[k + 1..] else c
  }

  function Insert(hash: Name -> nat, cs: Table, hn: Node): Table
    requires cs != []
  {
    var b := Bucket(hash, cs, hn.nam);
    cs[b := InsertIn(cs[b], hn)]
  }

  function Remove(hash: Name -> nat, cs: Table, name: Name): Table
    requires cs != []
  {
    var b := Bucket(hash, cs, name);
    cs[b := RemoveIn(cs[b], name)]
  }

  /** The node with this name, if any. */
  function Find(hash: Name -> nat, cs: Table, name: Name): (n: Node?)
    requires cs != []
    ensures n != null ==> n.nam == name
  {
    var c := cs[Bucket(hash, cs, name)];
    var k := Index(c, name);
    if k < |c| then c[k] else null
  }

  lemma IndexAt(c: seq<Node>, k: nat)
    requires DistinctNames(c) && k < |c|
    ensures Index(c, c[k].nam) == k
  {
  }

  /** The members are exactly the nodes that can be found. */
  lemma MemberIsFound(hash: Name -> nat, cs: Table, n: Node)
    requires WellPlaced(hash, cs)
    ensures n in Members(cs) <==> Find(hash, cs, n.nam) == n
  {
    if n in Members(cs) {
      var i, k :| 0 <= i < |cs| && 0 <= k < |cs[i]| && cs[i][k] == n;
      IndexAt(cs[i], k);
    }
  }

  /** Members with the same name are the same node. */
  lemma NameIsKey(hash: Name -> nat, cs: Table, m: Node, n: Node)
    requires WellPlaced(hash, cs) && m in Members(cs) && n in Members(cs) && m.nam == n.nam
    ensures m == n
  {
    MemberIsFound(hash, cs, m);
    MemberIsFound(hash, cs, n);
  }

  lemma InsertInDistinct(c: seq<Node>, hn: Node)
    requires DistinctNames(c)
    ensures DistinctNames(InsertIn(c, hn))
  {
    var k := Index(c, hn.nam);
    if k < |c| {
      assert forall j :: 0 <= j < |c| && j != k ==> c[j].nam != c[k].nam;
    }
  }

  /** Adding keeps the table well placed, and does to the members what a map update does. */
  lemma InsertWell(hash: Name -> nat, cs: Table, hn: Node)
    requires WellPlaced(hash, cs)
    ensures var cs' := Insert(hash, cs, hn);
            && WellPlaced(hash, cs')
            && |cs'| == |cs|
            && Find(hash, cs', hn.nam) == hn
            && forall name :: name != hn.nam ==> Find(hash, cs', name) == Find(hash, cs, name)
  {
    var b := Bucket(hash, cs, hn.nam);
    var c := cs[b];
    var cs' := Insert(hash, cs, hn);
    InsertInDistinct(c, hn);
    var k := Index(c, hn.nam);
    IndexAt(cs'[b], if k < |c| then k else 0);
    forall name | name != hn.nam
      ensures Index(c, name) < |c| <==> Index(cs'[b], name) < |cs'[b]|
      ensures Index(c, name) < |c| ==> cs'[b][Index(cs'[b], name)] == c[Index(c, name)]
    {
      IndexInsert(c, hn, name);
    }
  }

  lemma IndexInsert(c: seq<Node>, hn: Node, name: Name)
    requires name != hn.nam
    ensures var c' := InsertIn(c, hn);
            && (Index(c, name) < |c| <==> Index(c', name) < |c'|)
            && (Index(c, name) < |c| ==>
                  && Index(c', name) == Index(c, name) + (if Index(c, hn.nam) < |c| then 0 else 1)
                  && c'[Index(c', name)] == c[Index(c, name)])
  {
    var c' := InsertIn(c, hn);
    var k := Index(c, hn.nam);
    if k < |c| {
      if Index(c, name) < |c| {
        assert c'[Index(c, name)].nam == name;
      }
      if Index(c', name) < |c'| {
        assert c[Index(c', name)].nam == name;
      }
    } else {
      assert c'[1..] == c;
    }
  }

  lemma RemoveInFacts(c: seq<Node>, name: Name)
    requires DistinctNames(c)
    ensures DistinctNames(RemoveIn(c, name)) && Index(RemoveIn(c, name), name) == |RemoveIn(c, name)|
    ensures forall n :: n in RemoveIn(c, name) ==> n in c
  {
    var k := Index(c, name);
    var c' := RemoveIn(c, name);
    if k < |c| {
      assert forall j :: 0 <= j < |c'| ==> c'[j] == c[if j < k then j else j + 1];
      assert forall j :: 0 <= j < |c'| ==> c'[j].nam != name;
    }
  }

  lemma IndexRemove(c: seq<Node>, name: Name, other: Name)
    requires DistinctNames(c) && name != other
    ensures var c' := RemoveIn(c, name);
            && (Index(c, other) < |c| <==> Index(c', other) < |c'|)
            && (Index(c, other) < |c| ==>
                  && Index(c', other) == Index(c, other) - (if Index(c, name) < Index(c, other) then 1 else 0)
                  && c'[Index(c', other)] == c[Index(c, other)])
  {
    var k := Index(c, name);
    var c' := RemoveIn(c, name);
    if k < |c| {
      assert forall j :: 0 <= j < |c'| ==> c'[j] == c[if j < k then j else j + 1];
      var m := Index(c, other);
      if m < |c| {
        var m' := if m < k then m else m - 1;
        assert c'[m'] == c[m];
        RemoveInFacts(c, name);
        IndexAt(c', m');
      }
    }
  }

  lemma RemoveWell(hash: Name -> nat, cs: Table, name: Name)
    requires WellPlaced(hash, cs)
    ensures var cs' := Remove(hash, cs, name);
            && WellPlaced(hash, cs')
            && |cs'| == |cs|
            && Find(hash, cs', name) == null
            && forall other :: other != name ==> Find(hash, cs', other) == Find(hash, cs, other)
  {
    var b := Bucket(hash, cs, name);
    var cs': Table := Remove(hash, cs, name);
    RemoveInFacts(cs[b], name);
    forall i, k | 0 <= i < |cs'| && 0 <= k < |cs'[i]|
      ensures Bucket(hash, cs', cs'[i][k].nam) == i
    {
      assert cs'[i][k] in cs'[i];
      if i == b {
        assert cs'[i][k] in cs[b];
        var j :| 0 <= j < |cs[b]| && cs[b][j] == cs'[i][k];
      }
    }
    forall other | other != name
      ensures Find(hash, cs', other) == Find(hash, cs, other)
    {
      IndexRemove(cs[b], name, other);
    }
  }

  lemma {:induction false} TotalUpdate(cs: Table, b: nat, c: seq<Node>)
    requires b < |cs|
    ensures Total(cs[b := c]) == Total(cs) - |cs[b]| + |c|
  {
    if b == 0 {
      assert cs[b := c][1..] == cs[1..];
    } else {
      assert cs[b := c][1..] == cs[1..][b - 1 := c];
      TotalUpdate(cs[1..], b - 1, c);
    }
  }
}
