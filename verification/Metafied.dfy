/** The shell's string encoding: bytes it cannot hold as they are become the pair of
    Meta and the byte with bit 5 turned over (`metafy`, `unmetafy`, utils.c). */
module Metafied {
  import opened Bytes

  function MetaByte(b: Byte): (r: seq<Byte>)
    ensures 1 <= |r| <= 2
  {
    if IsMeta(b) then [META, Flip(b)] else [b]
  }

  function Metafy(u: seq<Byte>): (r: seq<Byte>)
    ensures |u| <= |r|
  {
    if u == [] then [] else MetaByte(u[0]) + Metafy(u[1..])
  }

  function Unmetafy(s: seq<Byte>): seq<Byte> {
    if s == [] then []
    else if s[0] == META && |s| > 1 then [Flip(s[1])] + Unmetafy(s[2..])
    else [s[0]] + Unmetafy(s[1..])
  }

  lemma {:induction false} MetafyConcat(u: seq<Byte>, v: seq<Byte>)
    ensures Metafy(u + v) == Metafy(u) + Metafy(v)
  {
    if u == [] {
      assert u + v == v;
    } else {
      assert (u + v)[1..] == u[1..] + v;
      MetafyConcat(u[1..], v);
    }
  }

  /** The encoding loses nothing. */
  lemma {:induction false} MetafyRoundTrip(u: seq<Byte>)
    ensures Unmetafy(Metafy(u)) == u
  {
    if u != [] {
      MetafyRoundTrip(u[1..]);
      var (s, rest) := (Metafy(u), Metafy(u[1..]));
      if IsMeta(u[0]) {
        assert s[2..] == rest;
      } else {
        assert s[1..] == rest;
      }
    }
  }

  /** An encoded string holds no NUL, and no token or marker but Meta. */
  lemma {:induction false} MetafyClean(u: seq<Byte>)
    ensures forall b :: b in Metafy(u) ==> b != 0 && (b <= 0x83 || 0xa2 < b)
  {
    if u != [] {
      MetafyClean(u[1..]);
      assert forall b :: b in Metafy(u) ==> b in MetaByte(u[0]) || b in Metafy(u[1..]);
    }
  }

  predicate Plain(b: Byte) { b != 0 && (b < 0x83 || 0xa2 < b) }

  /** A string is its own encoding exactly if it has no NUL, no token and no marker. */
  lemma MetafyPlain(u: seq<Byte>)
    ensures Metafy(u) == u <==> forall i :: 0 <= i < |u| ==> Plain(u[i])
  {
    if i :| 0 <= i < |u| && !Plain(u[i]) {
      MetaLonger(u, i);
    } else {
      PlainStays(u);
    }
  }

  lemma {:induction false} PlainStays(u: seq<Byte>)
    requires forall i :: 0 <= i < |u| ==> Plain(u[i])
    ensures Metafy(u) == u
  {
    if u != [] {
      PlainStays(u[1..]);
      assert u == [u[0]] + u[1..];
    }
  }

  lemma {:induction false} MetaLonger(u: seq<Byte>, i: nat)
    requires i < |u| && !Plain(u[i])
    ensures |Metafy(u)| > |u|
  {
    if i > 0 {
      MetaLonger(u[1..], i - 1);
    }
  }

  /** How many of the bytes take two. */
  function MetaCount(u: seq<Byte>): nat {
    if u == [] then 0 else MetaCount(u[..|u| - 1]) + if IsMeta(u[|u| - 1]) then 1 else 0
  }

  lemma {:induction false} MetaLength(u: seq<Byte>)
    ensures |Metafy(u)| == |u| + MetaCount(u)
  {
    if u != [] {
      var (front, last) := (u[..|u| - 1], u[|u| - 1..]);
      MetaLength(front);
      assert u == front + last;
      MetafyConcat(front, last);
    }
  }

  /** Cutting the encoding where a byte begins is encoding the part. */
  lemma MetafySlice(u: seq<Byte>, b: nat, e: nat)
    requires b <= e <= |u|
    ensures |Metafy(u[..b])| <= |Metafy(u[..e])| <= |Metafy(u)|
    ensures Metafy(u)[|Metafy(u[..b])|..|Metafy(u[..e])|] == Metafy(u[b..e])
  {
    assert u == u[..b] + u[b..e] + u[e..];
    assert u[..e] == u[..b] + u[b..e];
    MetafyConcat(u[..b], u[b..e]);
    MetafyConcat(u[..b] + u[b..e], u[e..]);
  }
}
