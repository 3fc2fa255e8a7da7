/** Reading the output of a command substitution (exec.c) into a buffer that doubles. */
module ReadOutput {
  import opened Bytes
  import opened Metafied

  /** What one `read` of at most 64 bytes gives. */
  datatype Read = Got(bytes: seq<Byte>) | Interrupted | Failed | End

  predicate WellFormed(calls: seq<Read>) {
    forall i :: 0 <= i < |calls| && calls[i].Got? ==> 0 < |calls[i].bytes| <= 64
  }

  /** The bytes of these calls; one that was interrupted has none. */
  ghost function Gathered(calls: seq<Read>): seq<Byte> {
    if calls == [] then []
    else
      var last := calls[|calls| - 1];
      Gathered(calls[..|calls| - 1]) + if last.Got? then last.bytes else []
  }

  /** Each chunk has its place, right behind the one before it. */
  lemma {:induction false} ChunkInPlace(calls: seq<Read>, i: nat)
    requires i < |calls|
    ensures var (b, e) := (|Gathered(calls[..i])|, |Gathered(calls[..i + 1])|);
            && b <= e <= |Gathered(calls)|
            && (if calls[i].Got? then Gathered(calls)[b..e] == calls[i].bytes else b == e)
            && (i == 0 ==> b == 0) && (i == |calls| - 1 ==> e == |Gathered(calls)|)
    decreases |calls|
  {
    var front := calls[..|calls| - 1];
    assert calls[..i + 1][..i] == calls[..i];
    if i < |front| {
      ChunkInPlace(front, i);
      assert front[..i] == calls[..i] && front[..i + 1] == calls[..i + 1];
    } else {
      assert calls[..i + 1] == calls && front == calls[..i];
    }
  }

  /** No bytes but a newline have an encoding that ends in one, so newlines at the end of
      the encoding are the newlines at the end. */
  lemma {:induction false} NewlinesAtEnd(all: seq<Byte>, kept: nat) returns (u: seq<Byte>, newlines: seq<Byte>)
    requires kept <= |Metafy(all)| && forall i :: kept <= i < |Metafy(all)| ==> Metafy(all)[i] == 10
    requires kept == 0 || Metafy(all)[kept - 1] != 10
    ensures all == u + newlines && Metafy(u) == Metafy(all)[..kept]
    ensures (forall i :: 0 <= i < |newlines| ==> newlines[i] == 10) && (u == [] || u[|u| - 1] != 10)
    decreases |all|
  {
    hide Metafy;
    u, newlines := all, [];
    MetafyEmpty(all);
    if all != [] {
      var (front, last) := (all[..|all| - 1], all[|all| - 1]);
      LastEncoded(front, last);
      assert all == front + [last];
      if last == NEWLINE {
        assert Metafy(all)[..|Metafy(all)| - 1] == Metafy(front);
        u, newlines := NewlinesAtEnd(front, kept);
        newlines := newlines + [NEWLINE];
      }
    }
  }

  lemma LastEncoded(front: seq<Byte>, last: Byte)
    ensures var s := Metafy(front + [last]);
            if last == 10 then s == Metafy(front) + [10] else s != [] && s[|s| - 1] != 10
  {
    MetafyConcat(front, [last]);
    assert Metafy([last]) == MetaByte(last);
  }

  lemma MetafyEmpty(u: seq<Byte>)
    ensures Metafy(u) == [] <==> u == []
  {
  }

  class Output {
    var buf: array<Byte>
    var cnt: nat

    /** There is always room for one more byte and the final NUL. */
    ghost predicate Valid()
      reads this
    {
      buf.Length >= 64 && cnt < buf.Length
    }

    ghost function Contents(): seq<Byte>
      requires Valid()
      reads this, buf
    {
      buf[..cnt]
    }

    constructor ()
      ensures Valid() && Contents() == [] && fresh(buf)
    {
      buf := new Byte[64];
      cnt := 0;
    }

    /** A buffer twice the size takes over all but the byte that is to be written. */
    method Double()
      requires 0 < cnt <= buf.Length + 1 && buf.Length >= 64
      modifies this
      ensures fresh(buf) && buf.Length == 2 * old(buf.Length) && cnt == old(cnt)
      ensures buf[..cnt - 1] == old(buf[..cnt - 1])
    {
      var pp := new Byte[buf.Length * 2];
      var k := 0;
      while k < cnt - 1
        modifies pp
        invariant 0 <= k <= cnt - 1 && pp[..k] == buf[..k]
      {
        pp[k] := buf[k];
        k := k + 1;
      }
      buf := pp;
    }

    /** One byte of the output; the buffer is doubled when it would be full. */
    method Add(b: Byte)
      requires Valid()
      modifies this, buf
      ensures Valid() && Contents() == old(Contents()) + MetaByte(b) && (buf == old(buf) || fresh(buf))
    {
      ghost var was := Contents();
      var c := b;
      var ptr := cnt;
      if IsMeta(c) {
        buf[ptr] := META;
        ptr := ptr + 1;
        c := Flip(c);
        cnt := cnt + 1;
        assert buf[..ptr] == was + [META];
      }
      cnt := cnt + 1;
      if cnt >= buf.Length {
        Double();
        ptr := cnt - 1;
      }
      buf[ptr] := c;
      assert buf[..cnt] == buf[..ptr] + [c];
    }

    method AddAll(bytes: seq<Byte>)
      requires Valid()
      modifies this, buf
      ensures Valid() && Contents() == old(Contents()) + Metafy(bytes) && (buf == old(buf) || fresh(buf))
    {
      var k := 0;
      while k < |bytes|
        invariant 0 <= k <= |bytes| && Valid() && (buf == old(buf) || fresh(buf))
        invariant Contents() == old(Contents()) + Metafy(bytes[..k])
      {
        Add(bytes[k]);
        MetafyConcat(bytes[..k], [bytes[k]]);
        assert bytes[..k + 1] == bytes[..k] + [bytes[k]] && Metafy([bytes[k]]) == MetaByte(bytes[k]);
        k := k + 1;
      }
      assert bytes[..k] == bytes;
    }

    /** Trailing newlines go, and the string is ended; inside double quotes nothing is a
        null argument. */
    method Finish(qt: bool) returns (ghost kept: nat)
      requires Valid()
      modifies this, buf
      ensures Valid() && buf == old(buf) && buf[cnt] == 0
      ensures kept <= old(cnt) && forall i :: kept <= i < old(cnt) ==> old(buf[i]) == 10
      ensures kept > 0 ==> old(buf[kept - 1]) != 10
      ensures Contents() == if qt && kept == 0 then [0xa1] else old(buf[..kept])
    {
      while cnt > 0 && buf[cnt - 1] == NEWLINE
        invariant Valid() && buf == old(buf) && buf[..] == old(buf[..]) && cnt <= old(cnt)
        invariant forall i :: cnt <= i < old(cnt) ==> buf[i] == 10
        decreases cnt
      {
        cnt := cnt - 1;
      }
      kept := cnt;
      buf[cnt] := 0;
      if qt && cnt == 0 {
        buf[0], buf[1] := NULARG, 0;
        cnt := 1;
      }
    }
  }

  /** The loop that reads, up to the end or an error; a call that was interrupted is
      repeated. */
  method ReadStream(calls: seq<Read>) returns (out: Output, error: bool, ghost n: nat)
    requires WellFormed(calls)
    ensures fresh(out) && fresh(out.buf) && out.Valid()
    ensures n <= |calls| && forall i :: 0 <= i < n ==> calls[i].Got? || calls[i].Interrupted?
    ensures n < |calls| ==> calls[n].End? || calls[n].Failed?
    ensures error <==> n < |calls| && calls[n].Failed?
    ensures out.Contents() == Metafy(Gathered(calls[..n]))
  {
    hide Metafy;
    out := new Output();
    error := false;
    var r := 0;
    MetafyEmpty([]);
    while r < |calls|
      invariant 0 <= r <= |calls| && fresh(out) && fresh(out.buf) && out.Valid() && !error
      invariant forall i :: 0 <= i < r ==> calls[i].Got? || calls[i].Interrupted?
      invariant out.Contents() == Metafy(Gathered(calls[..r]))
    {
      assert calls[..r + 1][..r] == calls[..r];
      assert calls[r].Interrupted? ==> Gathered(calls[..r + 1]) == Gathered(calls[..r]);
      match calls[r] {
        case End => break;
        case Failed =>
          error := true;
          break;
        case Interrupted =>
        case Got(bytes) =>
          out.AddAll(bytes);
          MetafyConcat(Gathered(calls[..r]), bytes);
      }
      r := r + 1;
    }
    n := r;
  }

  /** The output as the shell's string, however it was split into reads: all that was read
      before the end is some bytes and then newlines only, and the string decodes to these
      bytes and holds no token.  Nothing inside double quotes is a null argument. */
  method ReadAll(calls: seq<Read>, qt: bool)
    returns (out: Output, error: bool, ghost n: nat, ghost u: seq<Byte>, ghost newlines: seq<Byte>)
    requires WellFormed(calls)
    ensures n <= |calls| && forall i :: 0 <= i < n ==> calls[i].Got? || calls[i].Interrupted?
    ensures n < |calls| ==> calls[n].End? || calls[n].Failed?
    ensures error <==> n < |calls| && calls[n].Failed?
    ensures Gathered(calls[..n]) == u + newlines
    ensures (forall i :: 0 <= i < |newlines| ==> newlines[i] == 10) && (u == [] || u[|u| - 1] != 10)
    ensures out.Valid() && out.buf[out.cnt] == 0
    ensures u == [] ==> out.Contents() == if qt then [0xa1] else []
    ensures u != [] ==>
              && out.Contents() == Metafy(u) && Unmetafy(out.Contents()) == u
              && forall b :: b in out.Contents() ==> b != 0 && (b <= 0x83 || 0xa2 < b)
  {
    hide Metafy, Unmetafy, Gathered;
    out, error, n := ReadStream(calls);
    ghost var all := Gathered(calls[..n]);
    ghost var s := out.Contents();
    ghost var kept := out.Finish(qt);
    u, newlines := NewlinesAtEnd(all, kept);
    MetafyRoundTrip(u);
    MetafyClean(u);
    MetafyEmpty(u);
  }
}
