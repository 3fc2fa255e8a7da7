/** The chained hash table on the heap (hashtable.c): adding, looking up, removing,
    growing, and being scanned while all that goes on. */
module HashTable {
  import opened Bytes
  import opened Chains

  function First(c: seq<Node>): Node? { if c == [] then null else c[0] }

  function Following(c: seq<Node>, k: nat): Node?
    requires k < |c|
  {
    if k + 1 < |c| then c[k + 1] else null
  }

  /** The `next` fields spell out the chain. */
  ghost predicate LinkedChain(c: seq<Node>)
    reads c
  {
    forall k :: 0 <= k < |c| ==> c[k].next == Following(c, k)
  }

  ghost predicate Linked(cs: Table)
    reads Members(cs)
  {
    forall i :: 0 <= i < |cs| ==> LinkedChain(Member(cs, i))
  }

  /** A chain, known to be made of members. */
  ghost function Member(cs: Table, i: nat): (c: seq<Node>)
    requires i < |cs|
    ensures c == cs[i] && forall n :: n in c ==> n in Members(cs)
  {
    cs[i]
  }

  ghost predicate Heads(nodes: array<Node?>, cs: Table)
    reads nodes
  {
    |cs| == nodes.Length && forall i :: 0 <= i < |cs| ==> nodes[i] == First(cs[i])
  }

  function Cut(c: seq<Node>, k: nat): seq<Node>
    requires k < |c|
  {
    c[..k] + c[k + 1..]
  }

  ghost predicate DistinctNodes(c: seq<Node>) {
    forall k, l :: 0 <= k < l < |c| ==> c[k] != c[l]
  }

  /** No node stands in two places. */
  ghost predicate AllDistinct(cs: Table) {
    && (forall i :: 0 <= i < |cs| ==> DistinctNodes(cs[i]))
    && (forall i, j, n :: 0 <= i < |cs| && 0 <= j < |cs| && i != j && n in cs[i] ==> n !in cs[j])
  }

  lemma Apart(cs: Table, b: nat, n: Node)
    requires AllDistinct(cs) && b < |cs| && n in cs[b]
    ensures forall i :: 0 <= i < |cs| && i != b ==> n !in cs[i]
  {
  }

  lemma PlacedDistinct(hash: Name -> nat, cs: Table)
    requires WellPlaced(hash, cs)
    ensures AllDistinct(cs)
  {
    forall i | 0 <= i < |cs|
      ensures DistinctNodes(cs[i])
    {
      assert DistinctNames(cs[i]);
    }
    forall i, j, n | 0 <= i < |cs| && 0 <= j < |cs| && i != j && n in cs[i]
      ensures n !in cs[j]
    {
      assert Bucket(hash, cs, n.nam) == i;
    }
  }

  lemma {:induction false} TotalEmpty(cs: Table)
    requires forall i :: 0 <= i < |cs| ==> cs[i] == []
    ensures Total(cs) == 0
  {
    if cs != [] {
      TotalEmpty(cs[1..]);
    }
  }

  /** A scan standing at this place has still to come to the name. */
  ghost predicate Ahead(hash: Name -> nat, cs: Table, sb: nat, pos: nat, name: Name)
    requires sb < |cs|
  {
    && Find(hash, cs, name) != null
    && var b := Bucket(hash, cs, name);
       sb < b || (sb == b && pos <= Index(cs[b], name))
  }

  /** The scan has the same names to come to as before, less this one. */
  ghost predicate AheadLess(
    hash: Name -> nat, cs': Table, pos': nat, cs: Table, pos: nat, sb: nat, name: Name)
  {
    && sb < |cs| && sb < |cs'| && |cs'[sb]| - pos' <= |cs[sb]| - pos
    && (forall n :: Ahead(hash, cs', sb, pos', n) <==> n != name && Ahead(hash, cs, sb, pos, n))
  }

  /** What a callback may do: add a name or replace its node, or delete the name. */
  datatype Op = Add(name: Name, version: int) | Delete(name: Name)

  function Apply(op: Op, m: map<Name, int>): map<Name, int> {
    match op
    case Add(name, version) => m[name := version]
    case Delete(name) => m - {name}
  }

  function ApplyAll(ops: seq<Op>, m: map<Name, int>): map<Name, int> {
    if ops == [] then m else ApplyAll(ops[1..], Apply(ops[0], m))
  }

  /** The map after the first `k` callbacks. */
  function After(script: nat -> seq<Op>, k: nat, m: map<Name, int>): map<Name, int> {
    if k == 0 then m else ApplyAll(script(k - 1), After(script, k - 1, m))
  }

  /** A node the scan has come to, and how many callbacks had been made by then. */
  datatype Look = Look(name: Name, version: int, at: nat)

  function Calls(wanted: (Name, int) -> bool, seen: seq<Look>): nat {
    if seen == [] then 0
    else
      var l := seen[|seen| - 1];
      Calls(wanted, seen[..|seen| - 1]) + if wanted(l.name, l.version) then 1 else 0
  }

  ghost predicate Seen(seen: seq<Look>, n: Name) {
    exists j :: 0 <= j < |seen| && seen[j].name == n
  }

  /** No name is come to twice, and each in the version the table has at that moment. */
  ghost predicate Faithful(
    script: nat -> seq<Op>, wanted: (Name, int) -> bool, m0: map<Name, int>, seen: seq<Look>)
  {
    && (forall i, j :: 0 <= i < j < |seen| ==> seen[i].name != seen[j].name)
    && (forall j :: 0 <= j < |seen| ==>
          var l := seen[j];
          && l.at == Calls(wanted, seen[..j])
          && l.name in After(script, l.at, m0)
          && After(script, l.at, m0)[l.name] == l.version)
  }

  /** None of the first `k` callbacks deletes the name. */
  ghost predicate Untouched(script: nat -> seq<Op>, k: nat, n: Name) {
    forall j :: 0 <= j < k ==> Delete(n) !in script(j)
  }

  class HashTable {
    const hash: Name -> nat
    var nodes: array<Node?>
    var ct: nat
    /** The scan in progress, if any, and the node it will look at next. */
    var scanning: bool
    var cursor: Node?

    ghost var chains: Table
    ghost var scanBucket: nat
    ghost var scanPos: nat

    ghost predicate Valid()
      reads this, nodes, Members(chains)
    {
      Sound() && CursorOk()
    }

    ghost predicate Sound()
      reads this, nodes, Members(chains)
    {
      WellPlaced(hash, chains) && Linked(chains) && Heads(nodes, chains) && ct == Total(chains)
    }

    ghost predicate CursorOk()
      reads this
    {
      scanning ==>
        && scanBucket < |chains|
        && scanPos <= |chains[scanBucket]|
        && cursor == First(chains[scanBucket][scanPos..])
    }

    constructor (hash: Name -> nat, size: nat)
      requires 0 < size
      ensures Valid() && this.hash == hash && fresh(nodes) && !scanning
      ensures nodes.Length == size && Members(chains) == {}
    {
      this.hash := hash;
      nodes := new Node?[size](_ => null);
      ct, scanning, cursor := 0, false, null;
      chains, scanBucket, scanPos := seq(size, _ => []), 0, 0;
      new;
      TotalEmpty(chains);
    }

    /** `gethashnode2`. */
    method GetHashNode2(name: Name) returns (n: Node?)
      requires Valid()
      ensures n == Find(hash, chains, name)
    {
      var b := hash(name) % nodes.Length;
      ghost var c := Member(chains, b);
      var hp := nodes[b];
      ghost var k := 0;
      assert LinkedChain(c);
      while hp != null
        invariant k <= |c| && hp == First(c[k..])
        invariant Index(c, name) == k + Index(c[k..], name)
        decreases |c| - k
      {
        if hp.nam == name {
          return hp;
        }
        assert c[k..][1..] == c[k + 1..];
        hp := hp.next;
        k := k + 1;
      }
      n := null;
    }

    /** Take the node at position `k` out of a chain; `hq` is the one before it. */
    method Unlink(b: nat, hq: Node?, hp: Node, ghost k: nat)
      requires Heads(nodes, chains) && Linked(chains) && AllDistinct(chains)
      requires b < |chains| && k < |chains[b]| && hp == chains[b][k]
      requires hq == if k == 0 then null else chains[b][k - 1]
      modifies this`chains, nodes, Members(chains)
      ensures chains == old(chains)[b := Cut(old(chains)[b], k)]
      ensures Heads(nodes, chains) && Linked(chains)
      ensures hp.next == old(hp.next) == Following(old(chains)[b], k)
    {
      ghost var c, before := Member(chains, b), chains;
      assert LinkedChain(c);
      if hq != null {
        Apart(chains, b, hq);
      }
      if hq == null {
        nodes[b] := hp.next;
      } else {
        hq.next := hp.next;
      }
      assert LinkedChain(Cut(c, k));
      chains := chains[b := Cut(c, k)];
      forall i | 0 <= i < |chains|
        ensures LinkedChain(chains[i])
      {
        if i != b {
          assert old(LinkedChain(Member(before, i)));
        }
      }
    }

    /** Walk a chain up to the first node with this name. */
    method Seek(b: nat, name: Name) returns (hq: Node?, hp: Node?, ghost k: nat)
      requires Valid() && b < |chains|
      ensures k == Index(chains[b], name)
      ensures hp == First(chains[b][k..])
      ensures hq == if k == 0 then null else chains[b][k - 1]
    {
      ghost var c := Member(chains, b);
      hq, hp, k := null, nodes[b], 0;
      assert LinkedChain(c);
      while hp != null && hp.nam != name
        invariant k <= |c| && hp == First(c[k..])
        invariant hq == if k == 0 then null else c[k - 1]
        invariant Index(c, name) == k + Index(c[k..], name)
        decreases |c| - k
      {
        assert c[k..][1..] == c[k + 1..];
        hq, hp := hp, hp.next;
        k := k + 1;
      }
    }

    /** A scan about to visit the node that has been unlinked skips it. */
    method MoveCursorOff(hp: Node, ghost before: Table, ghost name: Name)
      requires scanning && WellPlaced(hash, before) && chains == Remove(hash, before, name)
      requires hp == Find(hash, before, name)
      requires hp.next == Following(before[Bucket(hash, before, name)], Index(before[Bucket(hash, before, name)], name))
      requires scanBucket < |before| && scanPos <= |before[scanBucket]|
      requires cursor == First(before[scanBucket][scanPos..])
      modifies this`cursor, this`scanPos
      ensures CursorOk()
      ensures AheadLess(hash, chains, scanPos, before, old(scanPos), scanBucket, name)
    {
      hide WellPlaced, AllDistinct, Ahead, AheadLess, RemoveIn;
      PlacedDistinct(hash, before);
      AheadRemove(hash, before, name, scanBucket, scanPos);
      CursorRemove(hash, before, name, scanBucket, scanPos);
      if cursor == hp {
        cursor := hp.next;
      }
      scanPos := PosAfterRemove(hash, before, name, scanBucket, scanPos);
    }

    /** `removehashnode`; a scan about to visit the node moves on to the one after it. */
    method RemoveHashNode(name: Name) returns (gone: Node?)
      requires Valid()
      modifies this, nodes, Members(chains)
      ensures Valid() && nodes == old(nodes) && scanning == old(scanning)
      ensures gone == Find(hash, old(chains), name)
      ensures chains == Remove(hash, old(chains), name)
      ensures scanBucket == old(scanBucket)
      ensures scanning ==>
                AheadLess(hash, chains, scanPos, old(chains), old(scanPos), scanBucket, name)
    {
      hide WellPlaced, Total, Index, Ahead, AheadLess;
      NonEmpty();
      var b := hash(name) % nodes.Length;
      var hq, hp, k := Seek(b, name);
      ghost var before := chains;
      if hp == null {
        assert before == before[b := before[b]];
        if scanning {
          AheadNone(hash, chains, name, scanBucket, scanPos);
        }
        return null;
      }
      Drop(b, hq, hp, k, name);
      if scanning {
        MoveCursorOff(hp, before, name);
      }
      gone := hp;
    }

    lemma SoundTable()
      requires Sound()
      ensures nodes.Length == |chains| > 0 && WellPlaced(hash, chains) && ct == Total(chains)
      ensures forall j :: 0 <= j < |chains| ==> LinkedChain(chains[j]) && nodes[j] == First(chains[j])
    {
      forall j | 0 <= j < |chains|
        ensures LinkedChain(chains[j])
      {
        assert LinkedChain(Member(chains, j));
      }
    }

    lemma NonEmpty()
      requires Sound()
      ensures nodes.Length == |chains| > 0 && WellPlaced(hash, chains)
    {
    }

    /** Unlink a node that has been found, and count it out. */
    method Drop(b: nat, hq: Node?, hp: Node, ghost k: nat, ghost name: Name)
      requires Sound() && b == Bucket(hash, chains, name) && k == Index(chains[b], name) < |chains[b]|
      requires hp == chains[b][k] && hq == if k == 0 then null else chains[b][k - 1]
      modifies this`chains, this`ct, nodes, Members(chains)
      ensures Sound() && chains == Remove(hash, old(chains), name)
      ensures hp.next == Following(old(chains)[b], k)
    {
      hide WellPlaced, AllDistinct, Total, Index;
      PlacedDistinct(hash, chains);
      RemoveWell(hash, chains, name);
      TotalUpdate(chains, b, Cut(chains[b], k));
      Unlink(b, hq, hp, k);
      ct := ct - 1;
    }

    method MoveNode(hn: Node, ghost cs0: Table, ghost c: seq<Node>, ghost k: nat, ghost depth: nat)
      requires Valid() && !scanning && 1 <= depth <= 2
      requires k < |c| && hn == c[k] && DistinctNames(c) && MovedIn(hash, cs0, chains, c[..k])
      requires forall n :: n in c ==> Find(hash, cs0, n.nam) == null
      requires ct < 2 * nodes.Length && (depth == 2 ==> ct + 1 < 2 * nodes.Length)
      modifies this, nodes, Members(chains), hn
      ensures Valid() && !scanning && scanBucket == old(scanBucket)
      ensures nodes == old(nodes) || (fresh(nodes) && nodes.Length > old(nodes.Length))
      ensures depth == 2 ==> nodes == old(nodes)
      ensures ct == old(ct) + 1 && ct < 2 * nodes.Length
      ensures MovedIn(hash, cs0, chains, c[..k + 1])
      ensures Members(chains) <= old(Members(chains)) + {hn}
      ensures forall j :: k < j < |c| ==> c[j] !in old(Members(chains)) && c[j] != hn
      decreases 3 - depth, 2
    {
      hide WellPlaced, Linked, Heads, Total, Index, AllDistinct, MovedIn, Updated, Ahead, AheadAdded, Find;
      ghost var before := chains;
      SoundTable();
      NewMember(hash, cs0, chains, c, k);
      var _ := AddHashNode2(hn, depth);
      SoundTable();
      MovedOne(hash, cs0, before, chains, c, k);
      MembersAfter(hash, before, chains, hn);
    }

    /** Add the nodes of an old chain one by one; each loses its old `next` on the way. */
    method MoveChain(head: Node?, ghost c: seq<Node>, ghost depth: nat)
      requires Valid() && !scanning && 1 <= depth <= 2
      requires head == First(c) && LinkedChain(c) && DistinctNames(c)
      requires forall n :: n in c ==> Find(hash, chains, n.nam) == null
      requires ct < 2 * nodes.Length && (depth == 2 ==> ct + |c| < 2 * nodes.Length)
      modifies this, nodes, Members(chains), c
      ensures Valid() && !scanning && scanBucket == old(scanBucket)
      ensures nodes == old(nodes) || (fresh(nodes) && nodes.Length > old(nodes.Length))
      ensures depth == 2 ==> nodes == old(nodes)
      ensures ct == old(ct) + |c| && ct < 2 * nodes.Length
      ensures MovedIn(hash, old(chains), chains, c)
      decreases 3 - depth, 3
    {
      hide WellPlaced, Linked, Heads, Total, Index, AllDistinct, MovedIn, Find, DistinctNames;
      SoundTable();
      NoneMoved(hash, chains);
      assert c[..0] == [];
      var hn := head;
      ghost var k := 0;
      while hn != null
        invariant k <= |c| && hn == First(c[k..])
        invariant Valid() && !scanning && scanBucket == old(scanBucket)
        invariant nodes == old(nodes) || (fresh(nodes) && nodes.Length > old(nodes.Length))
        invariant depth == 2 ==> nodes == old(nodes)
        invariant ct == old(ct) + k && ct < 2 * nodes.Length
        invariant forall j :: k <= j < |c| ==> c[j].next == Following(c, j)
        invariant MovedIn(hash, old(chains), chains, c[..k])
        invariant forall n :: n in Members(chains) ==> n in Members(old(chains)) || n in c[..k]
        decreases |c| - k
      {
        var hp := hn.next;
        MoveNode(hn, old(chains), c, k, depth);
        k := k + 1;
        hn := hp;
      }
      assert c[..k] == c;
    }

    /** Empty buckets in place of the old ones. */
    method Reallocate(size: nat)
      requires 0 < size && !scanning
      modifies this`nodes, this`chains, this`ct
      ensures Valid() && fresh(nodes) && nodes.Length == size && ct == 0 && Members(chains) == {}
      ensures |chains| == size && forall j :: 0 <= j < size ==> chains[j] == []
    {
      nodes := new Node?[size](_ => null);
      chains := seq(size, _ => []);
      ct := 0;
      TotalEmpty(chains);
    }

    /** `expandhashtable`: every node is added again to a table four times the size.
        An expansion inside an expansion starts exactly at the threshold, and so sets off
        no third one. */
    method ExpandHashTable(ghost depth: nat)
      requires Sound() && !scanning && depth <= 1
      requires 2 * nodes.Length <= ct && (depth == 1 ==> ct == 2 * nodes.Length)
      modifies this, Members(chains)
      ensures Valid() && !scanning && fresh(nodes) && nodes.Length > old(nodes.Length)
      ensures ct == old(ct) < 2 * nodes.Length
      ensures chains != [] && forall n :: Find(hash, chains, n) == Find(hash, old(chains), n)
      ensures scanBucket == old(scanBucket)
      decreases 3 - depth, 0
    {
      hide WellPlaced, Linked, Heads, Total, Index, AllDistinct, MovedIn, PartlyMoved, Find;
      ghost var oc := chains;
      var onodes, osize := nodes, nodes.Length;
      SoundTable();
      Reallocate(4 * osize);
      EmptyTable(hash, oc, chains);
      var i := 0;
      while i < osize
        invariant i <= osize && Valid() && !scanning && fresh(nodes) && nodes != onodes
        invariant 4 * osize <= nodes.Length && (depth == 1 ==> nodes.Length == 4 * osize)
        invariant ct == Total(oc[..i]) && ct < 2 * nodes.Length
        invariant scanBucket == old(scanBucket)
        invariant forall j :: i <= j < osize ==> LinkedChain(oc[j])
        invariant forall j :: 0 <= j < osize ==> onodes[j] == First(oc[j])
        invariant PartlyMoved(hash, oc, chains, i)
      {
        ghost var before := chains;
        SoundTable();
        TotalPrefix(oc, i);
        NotYetMoved(hash, oc, chains, i);
        MoveChain(onodes[i], oc[i], depth + 1);
        ChainMoved(hash, oc, before, chains, i);
        i := i + 1;
      }
      assert oc[..osize] == oc;
      AllMoved(hash, oc, chains);
    }

    /** Put `hn` where the node at position `k` of a chain was. */
    method Splice(b: nat, hq: Node?, hp: Node, hn: Node, ghost k: nat)
      requires Heads(nodes, chains) && Linked(chains) && AllDistinct(chains)
      requires b < |chains| && k < |chains[b]| && hp == chains[b][k]
      requires hq == if k == 0 then null else chains[b][k - 1]
      requires hn !in Members(chains)
      modifies this`chains, nodes, Members(chains), hn
      ensures chains == old(chains)[b := old(chains)[b][k := hn]]
      ensures Heads(nodes, chains) && Linked(chains)
    {
      ghost var c, before := Member(chains, b), chains;
      assert LinkedChain(c);
      if hq != null {
        Apart(chains, b, hq);
      }
      assert forall j :: 0 <= j < |chains| ==> hn !in Member(chains, j);
      if hq == null {
        nodes[b] := hn;
      } else {
        hq.next := hn;
      }
      hn.next := hp.next;
      assert LinkedChain(c[k := hn]);
      chains := chains[b := c[k := hn]];
      forall j | 0 <= j < |chains|
        ensures LinkedChain(chains[j])
      {
        if j != b {
          assert old(LinkedChain(Member(before, j)));
        }
      }
    }

    /** Put `hn` at the front of a chain. */
    method Push(b: nat, hn: Node)
      requires Heads(nodes, chains) && Linked(chains) && b < |chains|
      requires hn !in Members(chains)
      modifies this`chains, nodes, hn
      ensures chains == old(chains)[b := [hn] + old(chains)[b]]
      ensures Heads(nodes, chains) && Linked(chains)
    {
      ghost var c, before := Member(chains, b), chains;
      assert LinkedChain(c);
      assert forall j :: 0 <= j < |chains| ==> hn !in Member(chains, j);
      hn.next := nodes[b];
      nodes[b] := hn;
      assert LinkedChain(c);
      assert LinkedChain([hn] + c);
      chains := chains[b := [hn] + c];
      forall j | 0 <= j < |chains|
        ensures LinkedChain(chains[j])
      {
        if j != b {
          assert old(LinkedChain(Member(before, j)));
        }
      }
    }

    /** A scan about to visit a node that is replaced will visit its replacement. */
    method MoveCursorTo(hp: Node, hn: Node, ghost before: Table)
      requires scanning && WellPlaced(hash, before) && chains == Insert(hash, before, hn)
      requires hp == Find(hash, before, hn.nam) && hn !in Members(before)
      requires scanBucket < |before| && scanPos <= |before[scanBucket]|
      requires cursor == First(before[scanBucket][scanPos..])
      modifies this`cursor
      ensures CursorOk()
      ensures AheadSame(hash, chains, scanPos, before, scanPos, scanBucket)
    {
      PlacedDistinct(hash, before);
      ghost var b, k := Bucket(hash, before, hn.nam), Index(before[Bucket(hash, before, hn.nam)], hn.nam);
      if b == scanBucket {
        assert DistinctNodes(before[b]);
      } else if scanPos < |before[scanBucket]| {
        Apart(before, b, before[b][k]);
        assert before[scanBucket][scanPos] in before[scanBucket];
      }
      AheadInsert(hash, before, hn, scanBucket, scanPos);
      if cursor == hp {
        cursor := hn;
      }
    }

    /** `addhashnode2`: a node of the same name is replaced and handed back; otherwise
        the node goes to the front of its chain, and a table grown too dense is expanded
        unless a scan is under way.  `depth` counts the expansions we are inside of. */
    method AddHashNode2(hn: Node, ghost depth: nat) returns (was: Node?)
      requires Valid() && hn !in Members(chains)
      requires depth <= 2 && (0 < depth ==> !scanning && ct < 2 * nodes.Length)
      requires depth == 2 ==> ct + 1 < 2 * nodes.Length
      modifies this, nodes, Members(chains), hn
      ensures Valid() && scanning == old(scanning) && scanBucket == old(scanBucket)
      ensures was == Find(hash, old(chains), hn.nam)
      ensures Updated(hash, old(chains), chains, hn)
      ensures ct == old(ct) + if was == null then 1 else 0
      ensures was == null && !scanning ==> ct < 2 * nodes.Length
      ensures was != null || scanning || depth == 2 ==>
                nodes == old(nodes) && chains == Insert(hash, old(chains), hn)
      ensures nodes == old(nodes) || (fresh(nodes) && nodes.Length > old(nodes.Length))
      ensures scanning ==> AheadAdded(hash, chains, scanPos, old(chains), old(scanPos), scanBucket, hn.nam)
      decreases 3 - depth, 1
    {
      hide WellPlaced, Total, Index, Ahead, AheadSame, AheadAdded, AllDistinct;
      NonEmpty();
      ghost var before := chains;
      InsertWell(hash, chains, hn);
      PlacedDistinct(hash, chains);
      var b := hash(hn.nam) % nodes.Length;
      var hq, hp, k := Seek(b, hn.nam);
      if hp != null {
        TotalUpdate(chains, b, chains[b][k := hn]);
        Splice(b, hq, hp, hn, k);
        if scanning {
          MoveCursorTo(hp, hn, before);
          SameIsAdded(hash, chains, before, scanBucket, scanPos, hn.nam);
        }
        return hp;
      }
      AddFront(b, hn);
      was := null;
      if !scanning && ct >= 2 * nodes.Length {
        ExpandHashTable(depth);
      }
    }

    /** A node of a name not yet there goes before the others; a scan stays where it is. */
    method AddFront(b: nat, hn: Node)
      requires Valid() && hn !in Members(chains)
      requires b == Bucket(hash, chains, hn.nam) && Find(hash, chains, hn.nam) == null
      modifies this`chains, this`ct, this`scanPos, nodes, hn
      ensures Valid() && ct == old(ct) + 1 && chains == Insert(hash, old(chains), hn)
      ensures scanning ==> AheadAdded(hash, chains, scanPos, old(chains), old(scanPos), scanBucket, hn.nam)
    {
      hide WellPlaced, Total, Index, Ahead, AheadSame, AheadAdded, AllDistinct;
      ghost var before := chains;
      SoundTable();
      InsertWell(hash, chains, hn);
      TotalUpdate(chains, b, [hn] + chains[b]);
      Push(b, hn);
      ct := ct + 1;
      if scanning {
        StayBehind(hn, before);
      }
    }

    /** A node added in front of a chain is behind a scan of that chain. */
    ghost method StayBehind(hn: Node, before: Table)
      requires scanning && WellPlaced(hash, before) && Find(hash, before, hn.nam) == null
      requires chains == Insert(hash, before, hn) && |chains| == |before|
      requires scanBucket < |before| && scanPos <= |before[scanBucket]|
      requires cursor == First(before[scanBucket][scanPos..])
      modifies this`scanPos
      ensures CursorOk() && AheadAdded(hash, chains, scanPos, before, old(scanPos), scanBucket, hn.nam)
    {
      hide WellPlaced, Total, Index, Ahead, AheadSame, AheadAdded, AllDistinct;
      scanPos := PosAfterInsert(hash, before, hn.nam, scanBucket, scanPos);
      CursorInsert(hash, before, hn, scanBucket, old(scanPos));
      AheadInsert(hash, before, hn, scanBucket, old(scanPos));
    }

    /** `scanmatchtable`, unsorted: look at the nodes bucket by bucket, and call back for
        those that are wanted.  The `j`-th callback does `script(j)`, whatever that is. */
    method ScanMatchTable(script: nat -> seq<Op>, wanted: (Name, int) -> bool, ghost m0: map<Name, int>)
      returns (match_: nat, ghost seen: seq<Look>)
      requires Valid() && !scanning && Shows(hash, chains, m0)
      modifies this, nodes, Members(chains)
      ensures Valid() && !scanning && nodes == old(nodes)
      ensures match_ == Calls(wanted, seen)
      ensures Shows(hash, chains, After(script, match_, m0))
      ensures Faithful(script, wanted, m0, seen)
      ensures forall n :: n in m0 && Untouched(script, match_, n) ==> Seen(seen, n)
    {
      hide WellPlaced, Linked, Heads, Total, Index, Find, Shows, Ahead, Faithful, After, Untouched, Seen, Calls;
      match_, seen := 0, [];
      var hsize := nodes.Length;
      SoundTable();
      StartScan(hash, chains, script, wanted, m0);
      var i := 0;
      StandAt(0);
      while i < hsize
        invariant i <= hsize && Valid() && scanning && nodes == old(nodes) && nodes.Length == hsize
        invariant |chains| == hsize
        invariant forall n :: n in Members(chains) ==> n in old(Members(chains)) || fresh(n)
        invariant Shows(hash, chains, After(script, match_, m0)) && match_ == Calls(wanted, seen)
        invariant Faithful(script, wanted, m0, seen)
        invariant BucketStart(hash, chains, i, script, match_, m0, seen)
      {
        SoundTable();
        StandAt(i);
        EnterBucket(hash, chains, i, script, match_, m0, seen);
        while cursor != null
          invariant Valid() && scanning && nodes == old(nodes) && scanBucket == i && |chains| == hsize
          invariant forall n :: n in Members(chains) ==> n in old(Members(chains)) || fresh(n)
          invariant Shows(hash, chains, After(script, match_, m0)) && match_ == Calls(wanted, seen)
          invariant Faithful(script, wanted, m0, seen)
          invariant Progress(hash, chains, i, scanPos, script, match_, m0, seen)
          decreases |chains[i]| - scanPos
        {
          match_, seen := LookAtNode(script, wanted, m0, match_, seen);
        }
        LeaveBucket(hash, chains, i, scanPos, script, match_, m0, seen);
        i := i + 1;
      }
      ScanDone(hash, chains, script, match_, m0, seen);
      EndScan();
    }

    method StandAt(i: nat)
      requires Valid() && i < nodes.Length
      modifies this`scanning, this`cursor, this`scanBucket, this`scanPos
      ensures Valid() && scanning && scanBucket == i && scanPos == 0
    {
      scanning, cursor, scanBucket, scanPos := true, nodes[i], i, 0;
    }

    method EndScan()
      requires Valid()
      modifies this`scanning
      ensures Valid() && !scanning
    {
      scanning := false;
    }

    method Step() returns (hn: Node)
      requires Valid() && scanning && cursor != null
      modifies this`cursor, this`scanPos
      ensures Valid() && scanPos == old(scanPos) + 1
      ensures old(scanPos) < |chains[scanBucket]| && hn == chains[scanBucket][old(scanPos)]
    {
      hn := cursor;
      assert LinkedChain(Member(chains, scanBucket));
      cursor := cursor.next;
      scanPos := scanPos + 1;
    }

    /** One turn of the inner loop: the cursor moves on before the callback is made. */
    method LookAtNode(script: nat -> seq<Op>, wanted: (Name, int) -> bool, ghost m0: map<Name, int>,
                      calls: nat, ghost seen: seq<Look>)
      returns (calls': nat, ghost seen': seq<Look>)
      requires Valid() && scanning && cursor != null
      requires Shows(hash, chains, After(script, calls, m0)) && calls == Calls(wanted, seen)
      requires Faithful(script, wanted, m0, seen)
      requires Progress(hash, chains, scanBucket, scanPos, script, calls, m0, seen)
      modifies this, nodes, Members(chains)
      ensures Valid() && scanning && nodes == old(nodes) && scanBucket == old(scanBucket)
      ensures forall n :: n in Members(chains) ==> n in old(Members(chains)) || fresh(n)
      ensures Shows(hash, chains, After(script, calls', m0)) && calls' == Calls(wanted, seen')
      ensures Faithful(script, wanted, m0, seen')
      ensures Progress(hash, chains, scanBucket, scanPos, script, calls', m0, seen')
      ensures |chains| == |old(chains)|
      ensures |chains[scanBucket]| - scanPos < |old(chains)[scanBucket]| - old(scanPos)
    {
      hide WellPlaced, Linked, Heads, Total, Index, Find, Shows, Ahead, Faithful, After, Untouched,
        Seen, Calls, Progress, Steady, AllDistinct, DistinctNames, LinkedChain, ApplyAll;
      SoundTable();
      var hn := Step();
      ghost var l := Look(hn.nam, hn.version, calls);
      seen' := seen + [l];
      calls' := calls;
      Looked(hash, chains, scanBucket, scanPos - 1, script, wanted, calls, m0, seen, l);
      if wanted(hn.nam, hn.version) {
        ghost var cs, pos := chains, scanPos;
        calls' := calls + 1;
        Callback(script(calls), After(script, calls, m0));
        Called(hash, chains, scanPos, cs, pos, scanBucket, script, calls, m0, seen');
      }
    }

    /** What a callback does to the table while a scan is under way. */
    method Callback(ops: seq<Op>, ghost m: map<Name, int>)
      requires Valid() && scanning && Shows(hash, chains, m)
      modifies this, nodes, Members(chains)
      ensures Valid() && scanning && nodes == old(nodes) && scanBucket == old(scanBucket)
      ensures Shows(hash, chains, ApplyAll(ops, m))
      ensures forall n :: n in Members(chains) ==> n in old(Members(chains)) || fresh(n)
      ensures Steady(hash, chains, scanPos, old(chains), old(scanPos), scanBucket, ops)
      ensures scanBucket < |chains| == |old(chains)|
      ensures |chains[scanBucket]| - scanPos <= |old(chains)[scanBucket]| - old(scanPos)
    {
      hide WellPlaced, Linked, Heads, Total, Index, Find, Shows, Updated, Remove, Insert,
        Ahead, AheadLess, AheadAdded, Steady;
      ghost var cs0, pos0, m' := chains, scanPos, m;
      SteadyNone(hash, chains, scanPos, scanBucket);
      assert ops[..0] == [];
      var i := 0;
      while i < |ops|
        invariant i <= |ops| && Valid() && scanning && nodes == old(nodes)
        invariant scanBucket == old(scanBucket)
        invariant Shows(hash, chains, m') && ApplyAll(ops[i..], m') == ApplyAll(ops, m)
        invariant forall n :: n in Members(chains) ==> n in old(Members(chains)) || fresh(n)
        invariant Steady(hash, chains, scanPos, cs0, pos0, scanBucket, ops[..i])
      {
        m' := Apply(ops[i], m');
        assert ops[i..][1..] == ops[i + 1..];
        PerformOp(ops[i], m', cs0, pos0, ops, i);
        i := i + 1;
      }
      assert ops[..i] == ops;
      SteadySize(hash, chains, scanPos, cs0, pos0, scanBucket, ops);
    }

    method PerformOp(op: Op, ghost m': map<Name, int>, ghost cs0: Table, ghost pos0: nat,
                     ghost ops: seq<Op>, ghost i: nat)
      requires Valid() && scanning && i < |ops| && op == ops[i]
      requires exists m :: Shows(hash, chains, m) && m' == Apply(op, m)
      requires Steady(hash, chains, scanPos, cs0, pos0, scanBucket, ops[..i])
      modifies this, nodes, Members(chains)
      ensures Valid() && scanning && nodes == old(nodes) && scanBucket == old(scanBucket)
      ensures Shows(hash, chains, m')
      ensures forall n :: n in Members(chains) ==> n in old(Members(chains)) || fresh(n)
      ensures Steady(hash, chains, scanPos, cs0, pos0, scanBucket, ops[..i + 1])
    {
      hide WellPlaced, Linked, Heads, Total, Index, Find, Shows, Updated, Remove, Insert,
        Ahead, AheadLess, AheadAdded, Steady;
      ghost var m :| Shows(hash, chains, m) && m' == Apply(op, m);
      ghost var before := chains;
      SoundTable();
      match op
      case Add(name, version) =>
        var hn := new Node(name, version);
        var _ := AddHashNode2(hn, 0);
        SoundTable();
        MembersAfter(hash, before, chains, hn);
        ShowsAdd(hash, before, chains, hn, m);
        SteadyAdd(hash, chains, scanPos, before, old(scanPos), cs0, pos0, scanBucket, ops, i);
      case Delete(name) =>
        var _ := RemoveHashNode(name);
        RemoveWell(hash, before, name);
        MembersRemoved(hash, before, name);
        ShowsRemove(hash, before, name, m);
        SteadyRemove(hash, chains, scanPos, before, old(scanPos), cs0, pos0, scanBucket, ops, i);
    }
  }

  /** The table holds exactly the names of the map, each in the version it gives. */
  ghost predicate Shows(hash: Name -> nat, cs: Table, m: map<Name, int>) {
    && cs != []
    && (forall n :: n in m <==> Find(hash, cs, n) != null)
    && (forall n :: n in m ==> Find(hash, cs, n).version == m[n])
  }

  lemma ShowsAdd(hash: Name -> nat, cs: Table, cs': Table, hn: Node, m: map<Name, int>)
    requires Shows(hash, cs, m) && Updated(hash, cs, cs', hn)
    ensures Shows(hash, cs', m[hn.nam := hn.version])
  {
  }

  lemma ShowsRemove(hash: Name -> nat, cs: Table, name: Name, m: map<Name, int>)
    requires WellPlaced(hash, cs) && Shows(hash, cs, m)
    ensures Shows(hash, Remove(hash, cs, name), m - {name})
  {
    RemoveWell(hash, cs, name);
  }

  lemma MembersRemoved(hash: Name -> nat, cs: Table, name: Name)
    requires WellPlaced(hash, cs)
    ensures Members(Remove(hash, cs, name)) <= Members(cs)
  {
    RemoveWell(hash, cs, name);
    var cs' := Remove(hash, cs, name);
    forall n | n in Members(cs')
      ensures n in Members(cs)
    {
      MemberIsFound(hash, cs', n);
      MemberIsFound(hash, cs, n);
    }
  }

  /** Whatever the operations do, a scan still comes to every name it was to come to,
      unless the name is deleted, and to none it has left behind. */
  ghost predicate Steady(hash: Name -> nat, cs': Table, pos': nat, cs: Table, pos: nat,
                         sb: nat, ops: seq<Op>)
  {
    && sb < |cs| && |cs'| == |cs| && |cs'[sb]| - pos' <= |cs[sb]| - pos
    && (forall n :: Ahead(hash, cs, sb, pos, n) && Delete(n) !in ops ==> Ahead(hash, cs', sb, pos', n))
    && (forall n :: Ahead(hash, cs', sb, pos', n) ==>
          Ahead(hash, cs, sb, pos, n) || sb < Bucket(hash, cs, n))
  }

  lemma SteadySize(hash: Name -> nat, cs': Table, pos': nat, cs: Table, pos: nat, sb: nat, ops: seq<Op>)
    requires Steady(hash, cs', pos', cs, pos, sb, ops)
    ensures sb < |cs| == |cs'| && |cs'[sb]| - pos' <= |cs[sb]| - pos
  {
  }

  lemma SteadyNone(hash: Name -> nat, cs: Table, pos: nat, sb: nat)
    requires sb < |cs|
    ensures Steady(hash, cs, pos, cs, pos, sb, [])
  {
  }

  lemma SteadyAdd(hash: Name -> nat, cs': Table, pos': nat, cs: Table, pos: nat,
                  cs0: Table, pos0: nat, sb: nat, ops: seq<Op>, i: nat)
    requires i < |ops| && ops[i].Add? && Steady(hash, cs, pos, cs0, pos0, sb, ops[..i])
    requires |cs'| == |cs| && AheadAdded(hash, cs', pos', cs, pos, sb, ops[i].name)
    ensures Steady(hash, cs', pos', cs0, pos0, sb, ops[..i + 1])
  {
    assert ops[..i + 1] == ops[..i] + [ops[i]];
  }

  lemma SteadyRemove(hash: Name -> nat, cs': Table, pos': nat, cs: Table, pos: nat,
                     cs0: Table, pos0: nat, sb: nat, ops: seq<Op>, i: nat)
    requires i < |ops| && ops[i].Delete? && Steady(hash, cs, pos, cs0, pos0, sb, ops[..i])
    requires |cs'| == |cs| && AheadLess(hash, cs', pos', cs, pos, sb, ops[i].name)
    ensures Steady(hash, cs', pos', cs0, pos0, sb, ops[..i + 1])
  {
    assert ops[..i + 1] == ops[..i] + [ops[i]];
  }

  /** Between nodes: nothing seen is still ahead, nothing kept has been passed by. */
  ghost predicate Progress(hash: Name -> nat, cs: Table, b: nat, pos: nat, script: nat -> seq<Op>,
                           k: nat, m0: map<Name, int>, seen: seq<Look>)
  {
    && b < |cs| && pos <= |cs[b]|
    && (forall n :: Seen(seen, n) ==> Bucket(hash, cs, n) <= b && !Ahead(hash, cs, b, pos, n))
    && (forall n :: n in m0 && Untouched(script, k, n) ==> Seen(seen, n) || Ahead(hash, cs, b, pos, n))
  }

  /** Between buckets. */
  ghost predicate BucketStart(hash: Name -> nat, cs: Table, b: nat, script: nat -> seq<Op>,
                              k: nat, m0: map<Name, int>, seen: seq<Look>)
  {
    && cs != []
    && (forall n :: Seen(seen, n) ==> Bucket(hash, cs, n) < b)
    && (forall n :: n in m0 && Untouched(script, k, n) ==>
          Seen(seen, n) || (Find(hash, cs, n) != null && b <= Bucket(hash, cs, n)))
  }

  lemma StartScan(hash: Name -> nat, cs: Table, script: nat -> seq<Op>,
                  wanted: (Name, int) -> bool, m0: map<Name, int>)
    requires Shows(hash, cs, m0)
    ensures BucketStart(hash, cs, 0, script, 0, m0, [])
    ensures Faithful(script, wanted, m0, []) && Calls(wanted, []) == 0 && After(script, 0, m0) == m0
  {
  }

  lemma EnterBucket(hash: Name -> nat, cs: Table, b: nat, script: nat -> seq<Op>,
                    k: nat, m0: map<Name, int>, seen: seq<Look>)
    requires b < |cs| && BucketStart(hash, cs, b, script, k, m0, seen)
    ensures Progress(hash, cs, b, 0, script, k, m0, seen)
  {
  }

  /** Looking at the next node: it has not been seen, and is the table's own version. */
  lemma Looked(hash: Name -> nat, cs: Table, b: nat, pos: nat, script: nat -> seq<Op>,
               wanted: (Name, int) -> bool, k: nat, m0: map<Name, int>, seen: seq<Look>, l: Look)
    requires WellPlaced(hash, cs) && Shows(hash, cs, After(script, k, m0)) && k == Calls(wanted, seen)
    requires Progress(hash, cs, b, pos, script, k, m0, seen) && Faithful(script, wanted, m0, seen)
    requires pos < |cs[b]| && l == Look(cs[b][pos].nam, cs[b][pos].version, k)
    ensures Progress(hash, cs, b, pos + 1, script, k, m0, seen + [l])
    ensures Faithful(script, wanted, m0, seen + [l])
    ensures Calls(wanted, seen + [l]) == k + if wanted(l.name, l.version) then 1 else 0
  {
    hide WellPlaced, Index, After, Untouched, Seen, Calls;
    PlacedAt(hash, cs, b, pos);
    assert Ahead(hash, cs, b, pos, l.name);
    FaithfulMore(script, wanted, m0, seen, l);
    SeenMore(seen, l);
    forall n | Ahead(hash, cs, b, pos, n) && !Ahead(hash, cs, b, pos + 1, n)
      ensures n == l.name
    {
      assert Index(cs[b], n) == pos;
      assert Find(hash, cs, n) == cs[b][pos];
    }
  }

  lemma PlacedAt(hash: Name -> nat, cs: Table, b: nat, pos: nat)
    requires WellPlaced(hash, cs) && b < |cs| && pos < |cs[b]|
    ensures Bucket(hash, cs, cs[b][pos].nam) == b && DistinctNames(cs[b])
    ensures Index(cs[b], cs[b][pos].nam) == pos
  {
    IndexAt(cs[b], pos);
  }

  lemma FaithfulMore(script: nat -> seq<Op>, wanted: (Name, int) -> bool, m0: map<Name, int>,
                     seen: seq<Look>, l: Look)
    requires Faithful(script, wanted, m0, seen) && !Seen(seen, l.name)
    requires l.at == Calls(wanted, seen)
    requires l.name in After(script, l.at, m0) && After(script, l.at, m0)[l.name] == l.version
    ensures Faithful(script, wanted, m0, seen + [l])
    ensures Calls(wanted, seen + [l]) == l.at + if wanted(l.name, l.version) then 1 else 0
  {
    var seen' := seen + [l];
    assert seen'[..|seen|] == seen;
    forall j | 0 <= j < |seen|
      ensures seen[j].name != l.name && seen'[..j] == seen[..j]
    {
    }
  }

  lemma SeenMore(seen: seq<Look>, l: Look)
    ensures forall n :: Seen(seen + [l], n) <==> Seen(seen, n) || n == l.name
  {
    var seen' := seen + [l];
    forall n
      ensures Seen(seen', n) <==> Seen(seen, n) || n == l.name
    {
      if Seen(seen, n) {
        var j :| 0 <= j < |seen| && seen[j].name == n;
        assert seen'[j].name == n;
      }
      if n == l.name {
        assert seen'[|seen|].name == n;
      }
    }
  }

  /** A callback leaves the scan's standing as it was. */
  lemma Called(hash: Name -> nat, cs': Table, pos': nat, cs: Table, pos: nat, b: nat,
               script: nat -> seq<Op>, k: nat, m0: map<Name, int>, seen: seq<Look>)
    requires Progress(hash, cs, b, pos, script, k, m0, seen) && b < |cs'| && pos' <= |cs'[b]|
    requires Steady(hash, cs', pos', cs, pos, b, script(k))
    ensures Progress(hash, cs', b, pos', script, k + 1, m0, seen)
    ensures After(script, k + 1, m0) == ApplyAll(script(k), After(script, k, m0))
  {
    forall n | n in m0 && Untouched(script, k + 1, n)
      ensures Seen(seen, n) || Ahead(hash, cs', b, pos', n)
    {
      assert Untouched(script, k, n) && Delete(n) !in script(k);
    }
  }

  lemma LeaveBucket(hash: Name -> nat, cs: Table, b: nat, pos: nat, script: nat -> seq<Op>,
                    k: nat, m0: map<Name, int>, seen: seq<Look>)
    requires Progress(hash, cs, b, pos, script, k, m0, seen) && First(cs[b][pos..]) == null
    ensures BucketStart(hash, cs, b + 1, script, k, m0, seen)
  {
    assert pos == |cs[b]|;
  }

  lemma ScanDone(hash: Name -> nat, cs: Table, script: nat -> seq<Op>,
                 k: nat, m0: map<Name, int>, seen: seq<Look>)
    requires BucketStart(hash, cs, |cs|, script, k, m0, seen)
    ensures forall n :: n in m0 && Untouched(script, k, n) ==> Seen(seen, n)
  {
  }

  /** The table finds what it found before, and now `hn` under its name. */
  ghost predicate Updated(hash: Name -> nat, cs: Table, cs': Table, hn: Node)
    requires cs != []
  {
    && cs' != []
    && (forall n :: Find(hash, cs', n) == if n == hn.nam then hn else Find(hash, cs, n))
  }

  /** The table finds what it found before, and the nodes of the chain. */
  ghost predicate MovedIn(hash: Name -> nat, cs: Table, cs': Table, c: seq<Node>) {
    && cs != [] && cs' != []
    && (forall n :: n in c ==> Find(hash, cs', n.nam) == n)
    && (forall name :: (forall n :: n in c ==> n.nam != name) ==> Find(hash, cs', name) == Find(hash, cs, name))
  }

  lemma NewMember(hash: Name -> nat, cs0: Table, cs: Table, c: seq<Node>, k: nat)
    requires DistinctNames(c) && k < |c| && WellPlaced(hash, cs) && MovedIn(hash, cs0, cs, c[..k])
    requires forall n :: n in c ==> Find(hash, cs0, n.nam) == null
    ensures forall j :: k <= j < |c| ==> Find(hash, cs, c[j].nam) == null && c[j] !in Members(cs)
  {
    forall j | k <= j < |c|
      ensures Find(hash, cs, c[j].nam) == null && c[j] !in Members(cs)
    {
      assert forall n :: n in c[..k] ==> n.nam != c[j].nam;
      assert c[j] in c;
      MemberIsFound(hash, cs, c[j]);
    }
  }

  lemma MovedOne(hash: Name -> nat, cs0: Table, cs: Table, cs': Table, c: seq<Node>, k: nat)
    requires DistinctNames(c) && k < |c| && MovedIn(hash, cs0, cs, c[..k])
    requires Updated(hash, cs, cs', c[k])
    ensures MovedIn(hash, cs0, cs', c[..k + 1])
  {
    assert c[..k + 1] == c[..k] + [c[k]];
    assert forall n :: n in c[..k] ==> n.nam != c[k].nam;
    forall name | forall n :: n in c[..k + 1] ==> n.nam != name
      ensures Find(hash, cs', name) == Find(hash, cs0, name)
    {
      assert c[k] in c[..k + 1];
      assert forall n :: n in c[..k] ==> n in c[..k + 1];
    }
  }

  lemma MembersAfter(hash: Name -> nat, cs: Table, cs': Table, hn: Node)
    requires WellPlaced(hash, cs) && WellPlaced(hash, cs') && Updated(hash, cs, cs', hn)
    ensures forall n :: n in Members(cs') ==> n == hn || n in Members(cs)
  {
    forall n | n in Members(cs')
      ensures n == hn || n in Members(cs)
    {
      MemberIsFound(hash, cs', n);
      MemberIsFound(hash, cs, n);
    }
  }

  /** The buckets of the old table before `i` are in the new one, the rest are not. */
  ghost predicate PartlyMoved(hash: Name -> nat, oc: Table, cs: Table, i: nat) {
    && oc != [] && cs != []
    && (forall name :: Find(hash, cs, name)
                       == if Bucket(hash, oc, name) < i then Find(hash, oc, name) else null)
  }

  lemma NotYetMoved(hash: Name -> nat, oc: Table, cs: Table, i: nat)
    requires WellPlaced(hash, oc) && WellPlaced(hash, cs) && i < |oc| && PartlyMoved(hash, oc, cs, i)
    ensures DistinctNames(oc[i])
    ensures forall n :: n in oc[i] ==> Find(hash, cs, n.nam) == null
    ensures forall j, n :: i < j < |oc| && n in oc[j] ==> n !in Members(cs) && n !in oc[i]
    ensures forall n :: n in Members(cs) || n in oc[i] ==> n in Members(oc)
  {
    forall j, n | i <= j < |oc| && n in oc[j]
      ensures Bucket(hash, oc, n.nam) == j && n !in Members(cs)
    {
      MemberIsFound(hash, cs, n);
    }
    forall n | n in Members(cs)
      ensures n in Members(oc)
    {
      MemberIsFound(hash, cs, n);
      MemberIsFound(hash, oc, n);
    }
  }

  lemma ChainMoved(hash: Name -> nat, oc: Table, cs: Table, cs': Table, i: nat)
    requires WellPlaced(hash, oc) && i < |oc| && PartlyMoved(hash, oc, cs, i)
    requires MovedIn(hash, cs, cs', oc[i])
    ensures PartlyMoved(hash, oc, cs', i + 1)
  {
    forall name
      ensures Find(hash, cs', name)
              == if Bucket(hash, oc, name) < i + 1 then Find(hash, oc, name) else null
    {
      var b := Bucket(hash, oc, name);
      if b == i && Find(hash, oc, name) != null {
        assert Find(hash, oc, name) in oc[i];
      } else {
        forall n | n in oc[i]
          ensures n.nam != name
        {
          assert Bucket(hash, oc, n.nam) == i;
        }
      }
    }
  }

  lemma AllMoved(hash: Name -> nat, oc: Table, cs: Table)
    requires PartlyMoved(hash, oc, cs, |oc|)
    ensures oc != [] && cs != [] && forall n :: Find(hash, cs, n) == Find(hash, oc, n)
  {
  }

  lemma {:induction false} TotalPrefix(cs: Table, i: nat)
    requires i < |cs|
    ensures Total(cs[..i + 1]) == Total(cs[..i]) + |cs[i]| <= Total(cs)
  {
    if i == 0 {
      assert cs[..1] == [cs[0]];
      assert cs[..1][1..] == [];
    } else {
      assert cs[..i + 1][1..] == cs[1..][..i];
      assert cs[..i][1..] == cs[1..][..i - 1];
      TotalPrefix(cs[1..], i - 1);
    }
  }

  lemma NoneMoved(hash: Name -> nat, cs: Table)
    requires cs != []
    ensures MovedIn(hash, cs, cs, [])
  {
  }

  lemma EmptyTable(hash: Name -> nat, oc: Table, cs: Table)
    requires oc != [] && cs != [] && forall i :: 0 <= i < |cs| ==> cs[i] == []
    ensures PartlyMoved(hash, oc, cs, 0) && Total(oc[..0]) == 0
  {
  }

  ghost function PosAfterInsert(hash: Name -> nat, cs: Table, name: Name, sb: nat, pos: nat): nat
    requires cs != [] && sb < |cs|
  {
    if Bucket(hash, cs, name) == sb && Find(hash, cs, name) == null then pos + 1 else pos
  }

  ghost predicate AheadSame(
    hash: Name -> nat, cs': Table, pos': nat, cs: Table, pos: nat, sb: nat)
  {
    && sb < |cs| && sb < |cs'| && |cs'[sb]| - pos' <= |cs[sb]| - pos
    && (forall n :: Ahead(hash, cs', sb, pos', n) <==> Ahead(hash, cs, sb, pos, n))
  }

  /** A name that is new to the table is come to exactly if its bucket is; every other
      name is as before. */
  ghost predicate AheadAdded(
    hash: Name -> nat, cs': Table, pos': nat, cs: Table, pos: nat, sb: nat, name: Name)
  {
    && sb < |cs| && sb < |cs'| && |cs'[sb]| - pos' <= |cs[sb]| - pos
    && (forall n :: Ahead(hash, cs', sb, pos', n) <==>
          if n == name && Find(hash, cs, name) == null then sb < Bucket(hash, cs, name)
          else Ahead(hash, cs, sb, pos, n))
  }

  lemma SameIsAdded(hash: Name -> nat, cs': Table, cs: Table, sb: nat, pos: nat, name: Name)
    requires AheadSame(hash, cs', pos, cs, pos, sb) && Find(hash, cs, name) != null
    ensures AheadAdded(hash, cs', pos, cs, pos, sb, name)
  {
  }

  lemma CursorInsert(hash: Name -> nat, cs: Table, hn: Node, sb: nat, pos: nat)
    requires WellPlaced(hash, cs) && sb < |cs| && pos <= |cs[sb]| && Find(hash, cs, hn.nam) == null
    ensures var p := PosAfterInsert(hash, cs, hn.nam, sb, pos);
            var c := Insert(hash, cs, hn)[sb];
            p <= |c| && First(c[p..]) == First(cs[sb][pos..])
  {
    if Bucket(hash, cs, hn.nam) == sb {
      assert ([hn] + cs[sb])[pos + 1..] == cs[sb][pos..];
    }
  }

  lemma AheadInsert(hash: Name -> nat, cs: Table, hn: Node, sb: nat, pos: nat)
    requires WellPlaced(hash, cs) && sb < |cs| && pos <= |cs[sb]|
    ensures var pos' := PosAfterInsert(hash, cs, hn.nam, sb, pos);
            var cs' := Insert(hash, cs, hn);
            if Find(hash, cs, hn.nam) == null then
              AheadAdded(hash, cs', pos', cs, pos, sb, hn.nam)
            else
              AheadSame(hash, cs', pos, cs, pos, sb)
  {
    InsertWell(hash, cs, hn);
    var b := Bucket(hash, cs, hn.nam);
    var k := Index(cs[b], hn.nam);
    var c' := InsertIn(cs[b], hn);
    assert Index(c', hn.nam) == if k < |cs[b]| then k else 0 by {
      InsertInDistinct(cs[b], hn);
      IndexAt(c', if k < |cs[b]| then k else 0);
    }
    forall n | n != hn.nam && Bucket(hash, cs, n) == b
      ensures Index(cs[b], n) < |cs[b]| ==>
                Index(c', n) == Index(cs[b], n) + if k < |cs[b]| then 0 else 1
    {
      IndexInsert(cs[b], hn, n);
    }
  }

  /** Where a scan stands once the name is gone. */
  ghost function PosAfterRemove(hash: Name -> nat, cs: Table, name: Name, sb: nat, pos: nat): (p: nat)
    requires cs != [] && sb < |cs| && pos <= |cs[sb]|
    ensures p <= |Remove(hash, cs, name)[sb]|
  {
    var k := Index(cs[sb], name);
    if Bucket(hash, cs, name) == sb && k < pos then pos - 1 else pos
  }

  /** The node a scan is to visit next, once the name is gone. */
  lemma CursorRemove(hash: Name -> nat, cs: Table, name: Name, sb: nat, pos: nat)
    requires WellPlaced(hash, cs) && AllDistinct(cs) && sb < |cs| && pos <= |cs[sb]|
    requires Find(hash, cs, name) != null
    ensures First(Remove(hash, cs, name)[sb][PosAfterRemove(hash, cs, name, sb, pos)..])
            == if First(cs[sb][pos..]) == Find(hash, cs, name)
               then Following(cs[Bucket(hash, cs, name)], Index(cs[Bucket(hash, cs, name)], name))
               else First(cs[sb][pos..])
  {
    hide WellPlaced, Index;
    var b := Bucket(hash, cs, name);
    var k := Index(cs[b], name);
    if b == sb {
      FirstCut(cs[b], k, pos);
    } else if pos < |cs[sb]| {
      Apart(cs, b, cs[b][k]);
      assert cs[sb][pos] in cs[sb];
    }
  }

  lemma FirstCut(c: seq<Node>, k: nat, pos: nat)
    requires DistinctNodes(c) && k < |c| && pos <= |c|
    ensures First(Cut(c, k)[if k < pos then pos - 1 else pos..])
            == if First(c[pos..]) == c[k] then Following(c, k) else First(c[pos..])
  {
    var c' := Cut(c, k);
    assert forall j :: 0 <= j < |c'| ==> c'[j] == c[if j < k then j else j + 1];
    if pos < |c| && pos != k {
      assert c[pos] != c[k];
    }
  }

  lemma AheadNone(hash: Name -> nat, cs: Table, name: Name, sb: nat, pos: nat)
    requires sb < |cs| && Find(hash, cs, name) == null
    ensures AheadLess(hash, cs, pos, cs, pos, sb, name)
  {
  }

  lemma AheadRemove(hash: Name -> nat, cs: Table, name: Name, sb: nat, pos: nat)
    requires WellPlaced(hash, cs) && sb < |cs| && pos <= |cs[sb]| && Find(hash, cs, name) != null
    ensures AheadLess(hash, Remove(hash, cs, name), PosAfterRemove(hash, cs, name, sb, pos),
                      cs, pos, sb, name)
  {
    RemoveWell(hash, cs, name);
    var b := Bucket(hash, cs, name);
    forall n | n != name && Bucket(hash, cs, n) == b
      ensures Index(cs[b], n) < |cs[b]| ==>
                Index(RemoveIn(cs[b], name), n)
                == Index(cs[b], n) - if Index(cs[b], name) < Index(cs[b], n) then 1 else 0
    {
      IndexRemove(cs[b], name, n);
    }
  }
}
