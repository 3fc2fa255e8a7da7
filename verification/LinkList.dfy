/** Doubly linked lists (linklist.c): the header is itself a node, whose `next` is the
    first node of the list and whose `prev` is the last. */
module LinkLists {
  import opened Bytes

  type Datum = seq<Byte>

  class Node {
    var next: Node?
    var prev: Node?
    var dat: Datum

    constructor (dat: Datum)
      ensures this.dat == dat && next == null && prev == null
    {
      this.dat := dat;
      next, prev := null, null;
    }
  }

  predicate Distinct(ring: seq<Node>) {
    forall i, j :: 0 <= i < j < |ring| ==> ring[i] != ring[j]
  }

  predicate Apart(r: seq<Node>, s: seq<Node>) {
    forall i, j :: 0 <= i < |r| && 0 <= j < |s| ==> r[i] != s[j]
  }

  ghost predicate LinkOk(ring: seq<Node>, i: int)
    requires 0 <= i < |ring|
    reads ring`next, ring`prev
  {
    && ring[i].next == (if i + 1 < |ring| then ring[i + 1] else null)
    && ring[i].prev == if i > 0 then ring[i - 1] else ring[|ring| - 1]
  }

  /** A header and its nodes, in order. */
  ghost predicate Linked(ring: seq<Node>)
    reads ring`next, ring`prev
  {
    ring != [] && Distinct(ring) && forall i :: 0 <= i < |ring| ==> LinkOk(ring, i)
  }

  /** What the nodes after the header hold. */
  ghost function Data(ring: seq<Node>): (r: seq<Datum>)
    requires ring != []
    reads ring`dat
    ensures |r| == |ring| - 1 && forall i :: 0 <= i < |r| ==> r[i] == ring[i + 1].dat
  {
    if |ring| == 1 then [] else Data(ring[..|ring| - 1]) + [ring[|ring| - 1].dat]
  }

  lemma DataSplice(r: seq<Node>, i: nat, s: seq<Node>, j: nat)
    requires i < j <= |r|
    ensures Data(r[..i + 1] + s + r[j..]) == Data(r)[..i] + Data([r[0]] + s) + Data(r)[j - 1..]
  {
    hide Data;
    var (r', d') := (r[..i + 1] + s + r[j..], Data(r)[..i] + Data([r[0]] + s) + Data(r)[j - 1..]);
    forall k | 0 <= k < |d'|
      ensures Data(r')[k] == d'[k]
    {
      assert r'[k + 1] == if k < i then r[k + 1] else if k < i + |s| then s[k - i] else r[k + 1 - i - 1 - |s| + j];
    }
  }

  lemma DataNone(h: Node)
    ensures Data([h]) == []
  {
  }

  lemma DataAfter(h: Node, s: seq<Node>)
    requires s != []
    ensures Data([h] + s[1..]) == Data(s)
  {
    forall k | 0 <= k < |s| - 1
      ensures Data([h] + s[1..])[k] == Data(s)[k]
    {
      assert ([h] + s[1..])[k + 1] == s[k + 1];
    }
  }

  lemma DataOne(h: Node, n: Node)
    ensures Data([h] + [n]) == [n.dat]
  {
    assert ([h] + [n])[..1] == [h];
  }

  lemma {:induction false} DataTail(r: seq<Node>, i: nat)
    requires 0 < i <= |r|
    ensures Data([r[0]] + r[i..]) == Data(r)[i - 1..]
    decreases |r|
  {
    if i == |r| {
      assert [r[0]] + r[i..] == [r[0]];
    } else {
      var front := r[..|r| - 1];
      DataTail(front, i);
      assert ([r[0]] + r[i..])[..|r| - i] == [front[0]] + front[i..];
    }
  }

  lemma DataFront(r: seq<Node>, i: nat)
    requires 0 < i <= |r|
    ensures Data(r[..i]) == Data(r)[..i - 1]
  {
    hide Data;
    forall k | 0 <= k < i - 1
      ensures Data(r[..i])[k] == Data(r)[k]
    {
      assert r[..i][k + 1] == r[k + 1];
    }
  }

  lemma DataJoin(a: seq<Node>, b: seq<Node>)
    requires a != []
    ensures Data(a + b) == Data(a) + Data([a[0]] + b)
  {
    hide Data;
    var d := Data(a) + Data([a[0]] + b);
    forall k | 0 <= k < |d|
      ensures Data(a + b)[k] == d[k]
    {
      assert (a + b)[k + 1] == if k + 1 < |a| then a[k + 1] else b[k + 1 - |a|];
      assert k >= |a| - 1 ==> ([a[0]] + b)[k + 1 - |a| + 1] == b[k + 1 - |a|];
    }
  }

  lemma DataRoll(r: seq<Node>, i: nat)
    requires 0 < i < |r|
    ensures Data([r[0]] + r[i..] + r[1..i]) == Data(r)[i - 1..] + Data(r)[..i - 1]
  {
    hide Data;
    DataTail(r, i);
    DataFront(r, i);
    DataJoin([r[0]] + r[i..], r[1..i]);
    assert [r[0]] + r[1..i] == r[..i];
  }

  class LinkList {
    const node: Node
    ghost var ring: seq<Node>

    ghost predicate Valid()
      reads this, ring
    {
      Linked(ring) && ring[0] == node
    }

    /** The list as a sequence. */
    ghost function Contents(): seq<Datum>
      requires Valid()
      reads this, ring
    {
      Data(ring)
    }

    constructor ()
      ensures Valid() && ring == [node] && fresh(node) && Contents() == []
    {
      node := new Node([]);
      ring := [node];
      new;
      node.prev := node;
    }

    /** `insertlinknode`, after a node of the list or the header. */
    method InsertLinkNode(where: Node, dat: Datum, ghost i: nat) returns (n: Node)
      requires Valid() && i < |ring| && where == ring[i]
      modifies this, Nodes()
      ensures Valid() && fresh(n) && ring == old(ring)[..i + 1] + [n] + old(ring)[i + 1..]
      ensures Contents() == old(Contents())[..i] + [dat] + old(Contents())[i..]
      ensures Nodes() == old(Nodes()) + {n}
    {
      hide Linked, LinkOk, Data;
      ghost var r := ring;
      n := new Node(dat);
      DataSplice(r, i, [n], i + 1);
      DataOne(r[0], n);
      LinkIn(where, n, i);
      ring := r[..i + 1] + [n] + r[i + 1..];
    }

    /** `uinsertlinknode`: the links. */
    method LinkIn(where: Node, n: Node, ghost i: nat)
      requires Valid() && i < |ring| && where == ring[i] && n !in ring
      modifies ring`next, ring`prev, n`next, n`prev
      ensures Linked(ring[..i + 1] + [n] + ring[i + 1..])
    {
      ghost var r := ring;
      assert LinkOk(r, i) && LinkOk(r, 0) && LinkOk(r, |r| - 1) && (i + 1 < |r| ==> LinkOk(r, i + 1));
      var tmp := where.next;
      where.next := n;
      n.prev := where;
      n.next := tmp;
      if tmp != null {
        tmp.prev := n;
      } else {
        node.prev := n;
      }
      ghost var r' := r[..i + 1] + [n] + r[i + 1..];
      forall k | 0 <= k < |r'|
        ensures LinkOk(r', k)
      {
        assert old(LinkOk(r, if k <= i then k else k - 1));
      }
    }

    /** `remnode`. */
    method RemNode(nd: Node, ghost i: nat) returns (dat: Datum)
      requires Valid() && 0 < i < |ring| && nd == ring[i]
      modifies this, Nodes()
      ensures Valid() && ring == old(ring)[..i] + old(ring)[i + 1..] && dat == old(Contents())[i - 1]
      ensures Contents() == old(Contents())[..i - 1] + old(Contents())[i..]
      ensures Nodes() <= old(Nodes())
    {
      hide Linked, LinkOk, Data;
      ghost var r := ring;
      DataSplice(r, i - 1, [], i + 1);
      DataNone(r[0]);
      assert r[..i] + [] == r[..i] && [r[0]] + [] == [r[0]];
      Unlink(nd, i);
      dat := nd.dat;
      ring := r[..i] + r[i + 1..];
    }

    /** `uremnode`: the links. */
    method Unlink(nd: Node, ghost i: nat)
      requires Valid() && 0 < i < |ring| && nd == ring[i]
      modifies ring`next, ring`prev
      ensures Linked(ring[..i] + ring[i + 1..])
    {
      ghost var r := ring;
      assert LinkOk(r, i) && LinkOk(r, 0) && LinkOk(r, i - 1) && (i + 1 < |r| ==> LinkOk(r, i + 1));
      nd.prev.next := nd.next;
      if nd.next != null {
        nd.next.prev := nd.prev;
      } else {
        node.prev := nd.prev;
      }
      ghost var r' := r[..i] + r[i + 1..];
      forall k | 0 <= k < |r'|
        ensures LinkOk(r', k)
      {
        assert old(LinkOk(r, if k < i then k else k + 1));
      }
    }

    /** `getlinknode`: the first datum, taken off; none from an empty list. */
    method GetLinkNode() returns (dat: Datum, found: bool)
      requires Valid()
      modifies this, Nodes()
      ensures Valid() && found == (old(Contents()) != [])
      ensures found ==> dat == old(Contents())[0] && ring == [node] + old(ring)[2..] && Contents() == old(Contents())[1..]
      ensures !found ==> ring == old(ring) && Contents() == []
      ensures Nodes() <= old(Nodes())
    {
      ghost var r := ring;
      assert LinkOk(r, 0) && (1 < |r| ==> LinkOk(r, 1)) && (2 < |r| ==> LinkOk(r, 2));
      var n := node.next;
      if n == null {
        return [], false;
      }
      dat, found := n.dat, true;
      node.next := n.next;
      if n.next != null {
        n.next.prev := node;
      } else {
        node.prev := node;
      }
      ring := [node] + ring[2..];
      forall k | 0 <= k < |ring|
        ensures LinkOk(ring, k)
      {
        assert old(LinkOk(r, if k == 0 then 0 else k + 1));
      }
    }

    /** `rolllist`: the node becomes the first, and those before it go to the end. */
    method RollList(nd: Node, ghost i: nat)
      requires Valid() && 0 < i < |ring| && nd == ring[i]
      modifies this, Nodes()
      ensures Valid() && ring == [node] + old(ring)[i..] + old(ring)[1..i]
      ensures Contents() == old(Contents())[i - 1..] + old(Contents())[..i - 1]
      ensures Nodes() == old(Nodes())
    {
      hide Linked, LinkOk, Data;
      ghost var r := ring;
      DataRoll(r, i);
      assert r == r[..1] + r[1..i] + r[i..];
      LinkRolled(nd, i);
      ring := [node] + r[i..] + r[1..i];
    }

    method LinkRolled(nd: Node, ghost i: nat)
      requires Valid() && 0 < i < |ring| && nd == ring[i]
      modifies ring`next, ring`prev
      ensures Linked([node] + ring[i..] + ring[1..i])
    {
      ghost var r := ring;
      assert LinkOk(r, i) && LinkOk(r, 0) && LinkOk(r, 1) && LinkOk(r, i - 1) && LinkOk(r, |r| - 1);
      node.prev.next := node.next;
      node.next.prev := node.prev;
      node.next := nd;
      node.prev := nd.prev;
      nd.prev := node;
      node.prev.next := null;
      ghost var r' := [node] + r[i..] + r[1..i];
      assert node.next == r'[1] && node.prev == r'[|r'| - 1] && nd.prev == node && r'[|r'| - 1].next == null;
      forall k | 0 <= k < |r'|
        ensures LinkOk(r', k)
      {
        assert old(LinkOk(r, if k == 0 then 0 else if k <= |r| - i then k + i - 1 else k - (|r| - i)));
      }
    }

    /** `firstnode` and `lastnode`; an empty list's last node is its header. */
    method Ends() returns (first: Node?, last: Node?)
      requires Valid()
      ensures first == (if |ring| > 1 then ring[1] else null) && last == ring[|ring| - 1]
    {
      assert LinkOk(ring, 0);
      first, last := node.next, node.prev;
    }

    ghost function Nodes(): set<Node>
      reads this
    {
      set n | n in ring
    }

    /** `setdata`. */
    method SetData(nd: Node, ghost i: nat, dat: Datum)
      requires Valid() && 0 < i < |ring| && nd == ring[i]
      modifies nd`dat
      ensures Valid() && Contents() == old(Contents())[i - 1 := dat]
    {
      hide Data;
      nd.dat := dat;
    }

    /** `nextnode`. */
    method NextNode(nd: Node, ghost i: nat) returns (next: Node?)
      requires Valid() && i < |ring| && nd == ring[i]
      ensures next == if i + 1 < |ring| then ring[i + 1] else null
    {
      assert LinkOk(ring, i);
      next := nd.next;
    }

    /** `prevnode`. */
    method PrevNode(nd: Node, ghost i: nat) returns (prev: Node)
      requires Valid() && 0 < i < |ring| && nd == ring[i]
      ensures prev == ring[i - 1]
    {
      assert LinkOk(ring, i);
      prev := nd.prev;
    }

    /** `countlinknodes`. */
    method CountLinkNodes() returns (ct: nat)
      requires Valid()
      ensures ct == |Contents()|
    {
      ct := 0;
      assert LinkOk(ring, 0);
      var nd := node.next;
      while nd != null
        invariant ct < |ring| && nd == if ct + 1 < |ring| then ring[ct + 1] else null
        decreases |ring| - ct
      {
        assert LinkOk(ring, ct + 1);
        nd := nd.next;
        ct := ct + 1;
      }
    }

    /** `insertlinklist`: the nodes of `l` go after a node of this list. The header of `l`
        still points to them. */
    method InsertLinkList(l: LinkList, where: Node, ghost i: nat)
      requires Valid() && l.Valid() && i < |ring| && where == ring[i]
      requires Apart(ring, l.ring)
      modifies `ring, ring`next, ring`prev, l.ring`next, l.ring`prev
      ensures Valid() && ring == old(ring)[..i + 1] + old(l.ring)[1..] + old(ring)[i + 1..]
      ensures Contents() == old(Contents())[..i] + old(l.Contents()) + old(Contents())[i..]
    {
      hide Linked, LinkOk, Data, Apart, Nodes;
      ghost var (r, s) := (ring, l.ring);
      NotEmpty(r);
      NotEmpty(s);
      LinkAll(l, where, i);
      ring := r[..i + 1] + s[1..] + r[i + 1..];
      assert ring[0] == r[0];
      DataJoined(r, s, i);
    }

    lemma NotEmpty(r: seq<Node>)
      requires Linked(r)
      ensures r != []
    {
    }

    method LinkAll(l: LinkList, where: Node, ghost i: nat)
      requires Valid() && l.Valid() && i < |ring| && where == ring[i]
      requires Apart(ring, l.ring)
      modifies ring`next, ring`prev, l.ring`next, l.ring`prev
      ensures Linked(ring[..i + 1] + l.ring[1..] + ring[i + 1..])
    {
      ghost var (r, s) := (ring, l.ring);
      ghost var r' := r[..i + 1] + s[1..] + r[i + 1..];
      assert LinkOk(r, i) && LinkOk(r, 0) && LinkOk(r, |r| - 1) && (i + 1 < |r| ==> LinkOk(r, i + 1));
      assert LinkOk(s, 0) && LinkOk(s, |s| - 1) && (1 < |s| ==> LinkOk(s, 1));
      var nx := where.next;
      if l.node.next == null {
        assert r' == r;
        return;
      }
      where.next := l.node.next;
      l.node.prev.next := nx;
      l.node.next.prev := where;
      if nx != null {
        nx.prev := l.node.prev;
      } else {
        node.prev := l.node.prev;
      }
      JoinDistinct(r, s, i);
      forall k | 0 <= k < |r'|
        ensures LinkOk(r', k)
      {
        assert k <= i ==> old(LinkOk(r, k));
        assert i < k < i + |s| ==> old(LinkOk(s, k - i));
        assert k >= i + |s| ==> old(LinkOk(r, k - |s| + 1));
      }
    }
  }

  lemma DataJoined(r: seq<Node>, s: seq<Node>, i: nat)
    requires i < |r| && s != []
    ensures Data(r[..i + 1] + s[1..] + r[i + 1..]) == Data(r)[..i] + Data(s) + Data(r)[i..]
  {
    hide Data;
    DataSplice(r, i, s[1..], i + 1);
    DataAfter(r[0], s);
  }

  lemma JoinDistinct(r: seq<Node>, s: seq<Node>, i: nat)
    requires Distinct(r) && Distinct(s) && s != [] && i < |r| && Apart(r, s)
    ensures Distinct(r[..i + 1] + s[1..] + r[i + 1..])
  {
    var r' := r[..i + 1] + s[1..] + r[i + 1..];
    forall a, b | 0 <= a < b < |r'|
      ensures r'[a] != r'[b]
    {
      assert r'[a] == if a <= i then r[a] else if a < i + |s| then s[a - i] else r[a - |s| + 1];
      assert r'[b] == if b <= i then r[b] else if b < i + |s| then s[b - i] else r[b - |s| + 1];
    }
  }

  /** `joinlists`: the nodes of `second` go to the end of `first`; its header then points
      nowhere, not even to itself. */
  method JoinLists(first: LinkList, second: LinkList)
    requires first.Valid() && second.Valid() && first != second
    requires Apart(first.ring, second.ring)
    modifies first, first.ring`next, first.ring`prev, second.ring`next, second.ring`prev
    ensures first.Valid() && first.ring == old(first.ring) + old(second.ring)[1..]
    ensures first.Contents() == old(first.Contents()) + old(second.Contents())
    ensures old(second.Contents()) == [] ==> second.Valid() && second.Contents() == []
    ensures old(second.Contents()) != [] ==> second.node.next == null && second.node.prev == null
  {
    ghost var (r, s) := (first.ring, second.ring);
    LinkJoined(first, second);
    first.ring := r + s[1..];
  }

  method LinkJoined(first: LinkList, second: LinkList)
    requires first.Valid() && second.Valid()
    requires Apart(first.ring, second.ring)
    modifies first.ring`next, first.ring`prev, second.ring`next, second.ring`prev
    ensures Linked(first.ring + second.ring[1..])
    ensures |second.ring| == 1 ==> second.Valid()
    ensures |second.ring| > 1 ==> second.node.next == null && second.node.prev == null
  {
    ghost var (r, s) := (first.ring, second.ring);
    ghost var r' := r + s[1..];
    assert LinkOk(r, 0) && LinkOk(r, |r| - 1) && LinkOk(s, 0) && LinkOk(s, |s| - 1) && (1 < |s| ==> LinkOk(s, 1));
    var moveme := second.node.next;
    if moveme == null {
      assert r' == r;
      return;
    }
    if first.node.next != null {
      var anchor := first.node.prev;
      anchor.next := moveme;
      moveme.prev := anchor;
    } else {
      first.node.next := moveme;
      moveme.prev := first.node;
    }
    first.node.prev := second.node.prev;
    second.node.next, second.node.prev := null, null;
    JoinDistinct(r, s, |r| - 1);
    assert r[..|r|] == r && r[|r|..] == [] && r' == r[..|r|] + s[1..] + r[|r|..];
    forall k | 0 <= k < |r'|
      ensures LinkOk(r', k)
    {
      assert k < |r| ==> old(LinkOk(r, k));
      assert k >= |r| ==> old(LinkOk(s, k - |r| + 1));
    }
  }

  /** A header that points nowhere is not a list: nothing may be added to it. */
  lemma NoList(l: LinkList)
    requires l.node.prev == null
    ensures !l.Valid()
  {
    assert l.ring != [] ==> LinkOk(l.ring, 0) || !Linked(l.ring);
  }
}
