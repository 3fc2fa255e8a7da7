/** Numeric brace ranges `{a..b..c}` (glob.c): the numbers put in the list, and their order. */
module Ranges {
  import opened LinkLists

  /** From `a` in steps of `c` as far as `b`, up or down. */
  function Steps(a: int, b: int, c: int): seq<int>
    requires c != 0
    decreases if c > 0 then b - a else a - b
  {
    if (if c > 0 then a > b else a < b) then [] else [a] + Steps(a + c, b, c)
  }

  function Reverse(s: seq<int>): (r: seq<int>)
    ensures |r| == |s| && forall i :: 0 <= i < |s| ==> r[i] == s[|s| - 1 - i]
  {
    if s == [] then [] else Reverse(s[1..]) + [s[0]]
  }

  function Abs(c: int): nat {
    if c < 0 then -c else c
  }

  /** What a range stands for: from the first number towards the last; a negative
      increment gives the same numbers the other way round. */
  function Range(a: int, b: int, c: int): seq<int>
    requires c != 0
  {
    var s := Steps(a, b, if a <= b then Abs(c) else 0 - Abs(c));
    if c < 0 then Reverse(s) else s
  }

  /** The range is exactly the numbers between the ends at whole steps from the first. */
  lemma {:induction false} InSteps(a: int, b: int, c: int, v: int)
    requires c != 0
    ensures v in Steps(a, b, c) <==> (if c > 0 then a <= v <= b else b <= v <= a) && exists k: nat :: v == a + k * c
    decreases if c > 0 then b - a else a - b
  {
    if if c > 0 then a <= b else a >= b {
      InSteps(a + c, b, c, v);
      if v in Steps(a + c, b, c) {
        var k: nat :| v == a + c + k * c;
        assert v == a + (k + 1) * c;
      } else if v == a {
        assert v == a + 0 * c;
      } else if (if c > 0 then a <= v <= b else b <= v <= a) && exists k: nat :: v == a + k * c {
        var k: nat :| v == a + k * c;
        assert k > 0;
        var j: nat := k - 1;
        assert v == a + c + j * c;
        StepsPast(a, c, k, v);
      }
    }
  }

  lemma StepsPast(a: int, c: int, k: nat, v: int)
    requires c != 0 && k > 0 && v == a + k * c
    ensures if c > 0 then a + c <= v else v <= a + c
  {
    assert (k - 1) * c + c == k * c;
    if c > 0 {
      assert (k - 1) * c >= 0;
    } else {
      assert (k - 1) * c <= 0;
    }
  }

  lemma {:induction false} StepsAt(a: int, b: int, c: int, i: nat)
    requires c != 0 && i < |Steps(a, b, c)|
    ensures Steps(a, b, c)[i] == a + i * c
    decreases i
  {
    if i > 0 {
      StepsAt(a + c, b, c, i - 1);
      assert a + c + (i - 1) * c == a + i * c;
    }
  }

  lemma {:induction false} StepsEnd(a: int, b: int, c: int) returns (last: int)
    requires c != 0 && if c > 0 then a <= b else b <= a
    ensures last == |Steps(a, b, c)| - 1 && 0 <= last
    ensures if c > 0 then a + last * c <= b < a + last * c + c else a + last * c + c < b <= a + last * c
    decreases if c > 0 then b - a else a - b
  {
    if if c > 0 then a + c <= b else b <= a + c {
      var n := StepsEnd(a + c, b, c);
      last := n + 1;
      assert a + c + n * c == a + last * c;
    } else {
      assert Steps(a + c, b, c) == [];
      last := 0;
    }
  }

  /** The numbers of a range one by one: it starts at the first end and goes as far as whole
      steps go; a negative increment gives them from the last to the first. */
  lemma RangeAt(a: int, b: int, c: int, i: nat) returns (last: int)
    requires c != 0 && i < |Range(a, b, c)|
    ensures last == |Range(a, b, c)| - 1 && 0 <= last
    ensures var k := Abs(c);
            var j := if c > 0 then i else last - i;
            && Range(a, b, c)[i] == (if a <= b then a + j * k else a - j * k)
            && if a <= b then a + last * k <= b < a + last * k + k else a - last * k - k < b <= a - last * k
  {
    var k := if a <= b then Abs(c) else 0 - Abs(c);
    last := StepsEnd(a, b, k);
    StepsAt(a, b, k, if c > 0 then i else last - i);
    Sign(last, Abs(c));
    Sign(if c > 0 then i else last - i, Abs(c));
  }

  lemma Sign(n: int, k: int)
    ensures n * (0 - k) == -(n * k)
  {
  }

  /** Counted down from the last number that is at a whole step. */
  lemma {:induction false} Downwards(a: int, b: int, k: int)
    requires k > 0 && a <= b && (b - a) % k == 0
    ensures Steps(b, a, -k) == Reverse(Steps(a, b, k))
    decreases b - a
  {
    if a == b {
      assert Steps(a, b, k) == [a] && Steps(b, a, -k) == [b];
    } else {
      hide Steps;
      StepOff(b - a, k);
      Downwards(a + k, b, k);
      LastDown(b, a, k);
      StepsUp(a, b, k);
    }
  }

  lemma StepsUp(a: int, b: int, k: int)
    requires k > 0 && a <= b
    ensures Steps(a, b, k) == [a] + Steps(a + k, b, k)
    ensures Reverse(Steps(a, b, k)) == Reverse(Steps(a + k, b, k)) + [a]
  {
    assert Steps(a, b, k)[1..] == Steps(a + k, b, k);
  }

  lemma ModIs(n: int, k: int, q: int, r: int)
    requires k > 0 && 0 <= r < k && n == q * k + r
    ensures n % k == r
  {
    var d := n / k - q;
    assert n == (n / k) * k + n % k;
    assert d * k == r - n % k by {
      assert (n / k - q) * k == (n / k) * k - q * k;
    }
    AtLeast(d, k);
  }

  lemma AtLeast(d: int, k: int)
    requires k > 0
    ensures (d >= 1 ==> d * k >= k) && (d <= -1 ==> d * k <= -k)
  {
  }

  lemma StepOff(n: int, k: int)
    requires k > 0 && n % k == 0 && n > 0
    ensures (n - k) % k == 0 && n >= k
  {
    LessOne(n, k);
    if n < k {
      ModIs(n, k, 0, n);
    }
  }

  /** Counting down one step further adds one number at the end. */
  lemma {:induction false} LastDown(b: int, a: int, k: int)
    requires k > 0 && a + k <= b && (b - a) % k == 0
    ensures Steps(b, a, -k) == Steps(b, a + k, -k) + [a]
    decreases b - a
  {
    StepOff(b - a, k);
    if b - k == a {
      assert Steps(b, a, -k) == [b] + Steps(a, a, -k) && Steps(a, a, -k) == [a] + Steps(a - k, a, -k);
      assert Steps(b, a + k, -k) == [b] + Steps(b - k, a + k, -k);
    } else {
      assert (b - k - a) == (b - a) - k;
      StepOff(b - k - a, k);
      LastDown(b - k, a, k);
    }
  }

  /** The end moved to the last number at a whole step gives the same range. */
  lemma {:induction false} Aligned(a: int, b: int, k: int)
    requires k > 0 && a <= b
    ensures (b - (b - a) % k - a) % k == 0 && a <= b - (b - a) % k <= b
    ensures Steps(a, b - (b - a) % k, k) == Steps(a, b, k)
    decreases b - a
  {
    var m := (b - a) % k;
    assert b - a == k * ((b - a) / k) + m;
    assert (k * ((b - a) / k)) % k == 0 by { Multiple((b - a) / k, k); }
    if a + k <= b {
      assert (b - (a + k)) % k == m by { LessOne(b - a, k); }
      Aligned(a + k, b, k);
    } else {
      assert Steps(a + k, b, k) == [] && Steps(a + k, b - m, k) == [];
      assert b - a < k;
      assert m == b - a by { Small(b - a, k); }
    }
  }

  lemma Multiple(q: int, k: int)
    requires k > 0
    ensures (k * q) % k == 0
  {
    ModIs(k * q, k, q, 0);
  }

  lemma LessOne(n: int, k: int)
    requires k > 0
    ensures (n - k) % k == n % k
  {
    var q := n / k;
    assert n == q * k + n % k;
    assert (q - 1) * k == q * k - k;
    ModIs(n - k, k, q - 1, n % k);
  }

  lemma Small(n: int, k: int)
    requires 0 <= n < k
    ensures n % k == n
  {
    ModIs(n, k, 0, n);
  }

  function Texts(ns: seq<int>, text: int -> Datum): (r: seq<Datum>)
    ensures |r| == |ns| && forall i :: 0 <= i < |ns| ==> r[i] == text(ns[i])
  {
    seq(|ns|, i requires 0 <= i < |ns| => text(ns[i]))
  }

  /** A node for one number, after `last0`; the next one goes after it, or in front of it. */
  method AddNumber(list: LinkList, last0: Node, v: int, rev: bool, text: int -> Datum, ghost d: seq<Datum>,
                   ghost at: nat, ghost done: seq<int>)
    returns (last: Node)
    requires list.Valid() && at <= |d| && list.Contents() == Placed(d, at, done, rev, text)
    requires var k := if rev then at + |done| else at; k < |list.ring| && last0 == list.ring[k]
    modifies list, list.Nodes()
    ensures list.Valid() && fresh(list.Nodes() - old(list.Nodes()))
    ensures list.Contents() == Placed(d, at, done + [v], rev, text)
    ensures var k := if rev then at + |done| + 1 else at; k < |list.ring| && last == list.ring[k]
  {
    hide Linked, LinkOk, Data, Texts, Reverse, Placed;
    last := last0;
    ghost var k := if rev then at + |done| else at;
    PlacedMore(d, at, done, v, rev, text);
    var p := text(v);
    var n := list.InsertLinkNode(last, p, k);
    if rev {
      last := list.NextNode(last, k);
    }
  }

  /** The loop of `xpandbraces` that adds the numbers, the highest first: each in front of
      those before it, or with `rev` behind them. */
  method AddNumbers(list: LinkList, last0: Node, ghost at: nat, rstart: int, rend: int, rincr: int, rev: bool, text: int -> Datum)
    requires list.Valid() && at < |list.ring| && last0 == list.ring[at] && rincr > 0
    modifies list, list.Nodes()
    ensures list.Valid()
    ensures var (d, s) := (old(list.Contents()), Steps(rend, rstart, -rincr));
            list.Contents() == d[..at] + Texts(if rev then s else Reverse(s), text) + d[at..]
  {
    hide Linked, LinkOk, Data, Steps, Texts, Reverse, Placed;
    var last, v := last0, rend;
    ghost var (d, done) := (list.Contents(), []);
    ghost var all := Steps(rend, rstart, -rincr);
    PlacedNone(d, at, rev, text);
    while v >= rstart
      invariant list.Valid() && fresh(list.Nodes() - old(list.Nodes()))
      invariant all == done + Steps(v, rstart, -rincr)
      invariant list.Contents() == Placed(d, at, done, rev, text)
      invariant var k := if rev then at + |done| else at; k < |list.ring| && last == list.ring[k]
      decreases v - rstart
    {
      StepsOne(v, rstart, -rincr);
      last := AddNumber(list, last, v, rev, text, d, at, done);
      done := done + [v];
      v := v - rincr;
    }
    StepsNone(v, rstart, -rincr);
    assert all == done;
    PlacedAll(d, at, done, rev, text);
  }

  /** The list with the numbers of `done` added so far. */
  function Placed(d: seq<Datum>, at: nat, done: seq<int>, rev: bool, text: int -> Datum): seq<Datum>
    requires at <= |d|
  {
    d[..at] + Texts(if rev then done else Reverse(done), text) + d[at..]
  }

  lemma PlacedNone(d: seq<Datum>, at: nat, rev: bool, text: int -> Datum)
    requires at <= |d|
    ensures Placed(d, at, [], rev, text) == d
  {
  }

  lemma PlacedAll(d: seq<Datum>, at: nat, done: seq<int>, rev: bool, text: int -> Datum)
    requires at <= |d|
    ensures Placed(d, at, done, rev, text) == d[..at] + Texts(if rev then done else Reverse(done), text) + d[at..]
  {
  }

  lemma PlacedMore(d: seq<Datum>, at: nat, done: seq<int>, v: int, rev: bool, text: int -> Datum)
    requires at <= |d|
    ensures var k := if rev then at + |done| else at;
            var was := Placed(d, at, done, rev, text);
            && |was| == |d| + |done|
            && Placed(d, at, done + [v], rev, text) == was[..k] + [text(v)] + was[k..]
  {
    hide Texts, Reverse;
    ReverseMore(done, v, text);
    var t := Texts(if rev then done else Reverse(done), text);
    Between(d[..at], t, d[at..], text(v));
  }

  lemma Between(x: seq<Datum>, y: seq<Datum>, z: seq<Datum>, p: Datum)
    ensures var s := x + y + z;
            && s[..|x|] + [p] + s[|x|..] == x + ([p] + y) + z
            && s[..|x| + |y|] + [p] + s[|x| + |y|..] == x + (y + [p]) + z
  {
  }

  lemma StepsOne(a: int, b: int, c: int)
    requires c < 0 && a >= b
    ensures Steps(a, b, c) == [a] + Steps(a + c, b, c)
  {
  }

  lemma StepsNone(a: int, b: int, c: int)
    requires c < 0 && a < b
    ensures Steps(a, b, c) == []
  {
  }

  lemma {:induction false} ReverseMore(s: seq<int>, v: int, text: int -> Datum)
    ensures Reverse(s + [v]) == [v] + Reverse(s)
    ensures Texts(s + [v], text) == Texts(s, text) + [text(v)]
    ensures Texts(Reverse(s + [v]), text) == [text(v)] + Texts(Reverse(s), text)
  {
    assert Reverse(s + [v]) == [v] + Reverse(s);
  }

  /** A numeric range: its node is replaced by one for each number of the range, in order. */
  method ExpandRange(list: LinkList, node: Node, ghost at: nat, a: int, b: int, c: int, text: int -> Datum)
    requires list.Valid() && 0 < at < |list.ring| && node == list.ring[at] && c != 0
    modifies list, list.Nodes()
    ensures list.Valid()
    ensures var d := old(list.Contents());
            list.Contents() == d[..at - 1] + Texts(Range(a, b, c), text) + d[at..]
  {
    hide Linked, LinkOk, Data, Steps, Texts;
    var rstart, rend, rincr, rev := a, b, c, false;
    if rincr < 0 {
      rincr, rev := -rincr, !rev;
    }
    if rstart > rend {
      rstart, rend := rend, rstart;
      rev := !rev;
    } else if rincr > 1 {
      rend := rend - (rend - rstart) % rincr;
    }
    RangeIs(a, b, c, rend);
    var last := list.PrevNode(node, at);
    var _ := list.RemNode(node, at);
    AddNumbers(list, last, at - 1, rstart, rend, rincr, rev, text);
  }

  /** The numbers counted down by the loop make up the range. */
  lemma RangeIs(a: int, b: int, c: int, rend: int)
    requires c != 0
    requires rend == if a > b then a else if Abs(c) > 1 then b - (b - a) % Abs(c) else b
    ensures var (lo, rev) := (if a > b then b else a, (c < 0) != (a > b));
            var s := Steps(rend, lo, 0 - Abs(c));
            Range(a, b, c) == if rev then s else Reverse(s)
  {
    hide Steps, Reverse;
    var k := Abs(c);
    if a <= b {
      if k == 1 {
        ModIs(b - a, 1, b - a, 0);
      }
      Aligned(a, b, k);
      Downwards(a, rend, k);
      ReverseTwice(Steps(a, b, k));
    }
  }

  lemma ReverseTwice(s: seq<int>)
    ensures Reverse(Reverse(s)) == s
  {
  }
}
