/** The input stack of the lexer (input.c): buffers pushed for aliases, history and
    strings, read as one stream of characters, with push-back. */
module Input {
  import opened Bytes

  const OUTER: Byte := 97
  const INNER: Byte := 98

  datatype Option<+T> = None | Some(value: T)

  /** The INP_ flags that decide where text comes from. */
  datatype Flags = Flags(cont: bool, alias: bool, hist: bool, alcont: bool, histcont: bool)

  const NO_FLAGS := Flags(false, false, false, false, false)

  class Alias {
    const name: seq<Byte>
    const text: seq<Byte>
    var inuse: bool

    constructor (name: seq<Byte>, text: seq<Byte>)
      ensures this.name == name && this.text == text && !inuse
    {
      this.name, this.text, inuse := name, text, false;
    }
  }

  /** What `inpush` saves of the buffer it covers. */
  datatype Entry = Entry(buf: seq<Byte>, bufptr: nat, bufct: int, flags: Flags, alias: Alias?)

  const EMPTY_ENTRY := Entry([], 0, 0, NO_FLAGS, null)

  predicate Expanding(f: Flags) { f.alcont || f.histcont }

  function Unread(e: Entry): seq<Byte>
    requires e.bufptr <= |e.buf|
  {
    e.buf[e.bufptr..]
  }

  /** The text below a buffer at depth `top`, if that buffer continues onto it. */
  ghost function Below(stack: seq<Entry>, top: nat, cont: bool): seq<Byte>
    requires top <= |stack|
    decreases top
  {
    if !cont || top == 0 || stack[top - 1].bufptr > |stack[top - 1].buf| then []
    else Unread(stack[top - 1]) + Below(stack, top - 1, stack[top - 1].flags.cont)
  }

  /** A saved entry at depth `j` is consistent with what lies below it. */
  ghost predicate EntryOk(stack: seq<Entry>, j: nat)
    requires j < |stack|
  {
    var e := stack[j];
    && e.bufptr <= |e.buf|
    && (e.flags.cont ==> 0 < j)
    && e.bufct == |Unread(e)| + |Below(stack, j, e.flags.cont)|
    && (e.alias != null ==> Expanding(e.flags))
    && (0 < j && Expanding(stack[j - 1].flags) ==> e.flags.cont)
  }

  ghost predicate EntriesOk(stack: seq<Entry>, n: nat) {
    n <= |stack| && forall j :: 0 <= j < n ==> EntryOk(stack, j)
  }

  /** No alias is named twice, and all are known. */
  ghost predicate AliasesOk(stack: seq<Entry>, n: nat, aliases: set<Alias>)
    requires n <= |stack|
  {
    && (forall i, j :: 0 <= i < j < n && stack[i].alias != null ==> stack[i].alias != stack[j].alias)
    && (forall j :: 0 <= j < n && stack[j].alias != null ==> stack[j].alias in aliases)
  }

  /** Some entry under `top` names the alias. */
  ghost predicate Names(stack: seq<Entry>, top: nat, a: Alias)
    requires top <= |stack|
  {
    exists j :: 0 <= j < top && stack[j].alias == a
  }

  lemma NamesPush(s: seq<Entry>, t: seq<Entry>, top: nat)
    requires top <= |s| && top < |t| && s[..top] == t[..top]
    ensures forall a :: Names(t, top + 1, a) <==> Names(s, top, a) || t[top].alias == a
  {
    assert forall j :: 0 <= j < top ==> s[j] == s[..top][j] == t[..top][j] == t[j];
    forall a
      ensures Names(t, top + 1, a) <==> Names(s, top, a) || t[top].alias == a
    {
      if Names(s, top, a) {
        var j :| 0 <= j < top && s[j].alias == a;
        assert t[j].alias == a;
      }
      if Names(t, top + 1, a) {
        var j :| 0 <= j < top + 1 && t[j].alias == a;
        assert j < top ==> s[j].alias == a;
      }
    }
  }

  /** `Below` looks only at entries under `top`. */
  lemma {:induction false} BelowFrame(s: seq<Entry>, t: seq<Entry>, top: nat, cont: bool)
    requires top <= |s| && top <= |t| && s[..top] == t[..top]
    ensures Below(s, top, cont) == Below(t, top, cont)
    decreases top
  {
    if top > 0 {
      assert s[top - 1] == s[..top][top - 1] == t[..top][top - 1] == t[top - 1];
      assert s[..top - 1] == s[..top][..top - 1] == t[..top][..top - 1] == t[..top - 1];
      BelowFrame(s, t, top - 1, s[top - 1].flags.cont);
    }
  }

  lemma EntriesFrame(s: seq<Entry>, t: seq<Entry>, n: nat, aliases: set<Alias>)
    requires EntriesOk(s, n) && n <= |t| && s[..n] == t[..n]
    ensures EntriesOk(t, n)
    ensures AliasesOk(s, n, aliases) ==> AliasesOk(t, n, aliases)
  {
    assert forall j :: 0 <= j < n ==> s[j] == s[..n][j] == t[..n][j] == t[j];
    forall j | 0 <= j < n
      ensures EntryOk(t, j)
    {
      assert EntryOk(s, j);
      assert s[..j] == s[..n][..j] == t[..n][..j] == t[..j];
      BelowFrame(s, t, j, s[j].flags.cont);
    }
  }

  /** The text under a fresh buffer that continues: all there was before. */
  lemma BelowPush(s: seq<Entry>, t: seq<Entry>, top: nat)
    requires top <= |s| && top < |t| && s[..top] == t[..top]
    requires t[top].bufptr <= |t[top].buf|
    ensures Below(t, top + 1, true) == Unread(t[top]) + Below(s, top, t[top].flags.cont)
    ensures Below(t, top + 1, false) == []
  {
    BelowFrame(s, t, top, t[top].flags.cont);
  }

  lemma NotNamed(s: seq<Entry>, top: nat, a: Alias?)
    requires top <= |s| && (a != null ==> !Names(s, top, a))
    ensures a != null ==> forall j :: 0 <= j < top ==> s[j].alias != a
  {
  }

  /** An entry that was pushed with nothing left to read. */
  predicate Spent(e: Entry) { e.bufptr >= |e.buf| }

  /** The buffer is part of a text that does not continue for ever. */
  ghost predicate Bottomed(stack: seq<Entry>, top: nat, cont: bool)
    requires top <= |stack|
    decreases top
  {
    0 < top && (cont ==> Bottomed(stack, top - 1, stack[top - 1].flags.cont))
  }

  /** The depth of the text hidden by the current one. */
  ghost function Bottom(stack: seq<Entry>, top: nat, cont: bool): (r: nat)
    requires top <= |stack| && Bottomed(stack, top, cont)
    ensures r < top
    decreases top
  {
    if cont then Bottom(stack, top - 1, stack[top - 1].flags.cont) else top - 1
  }

  /** The alias named lowest in the current text. */
  ghost function FirstAlias(stack: seq<Entry>, top: nat, cont: bool): Alias?
    requires top <= |stack|
    decreases top
  {
    if !cont || top == 0 then null
    else
      var a := FirstAlias(stack, top - 1, stack[top - 1].flags.cont);
      if a != null then a else stack[top - 1].alias
  }

  /** The alias named highest: the most recently expanded one. */
  ghost function LastAlias(stack: seq<Entry>, top: nat, cont: bool): Alias?
    requires top <= |stack|
    decreases top
  {
    if !cont || top == 0 then null
    else if stack[top - 1].alias != null then stack[top - 1].alias
    else LastAlias(stack, top - 1, stack[top - 1].flags.cont)
  }

  /** How many aliases the current text is inside of. */
  ghost function Expansions(stack: seq<Entry>, top: nat, cont: bool): nat
    requires top <= |stack|
    decreases top
  {
    if !cont || top == 0 then 0
    else (if stack[top - 1].alias != null then 1 else 0)
         + Expansions(stack, top - 1, stack[top - 1].flags.cont)
  }

  lemma {:induction false} FirstAliasNamed(stack: seq<Entry>, top: nat, cont: bool)
    requires top <= |stack|
    ensures FirstAlias(stack, top, cont) != null <==> Expansions(stack, top, cont) > 0
    ensures FirstAlias(stack, top, cont) != null ==> Names(stack, top, FirstAlias(stack, top, cont))
    decreases top
  {
    if cont && top > 0 {
      FirstAliasNamed(stack, top - 1, stack[top - 1].flags.cont);
    }
  }

  /** The comment on `input_hasalias` promises the most recently expanded alias; that is
      what its walk finds exactly when the text is inside at most one alias. */
  lemma {:induction false} FirstIsLast(stack: seq<Entry>, top: nat, cont: bool, aliases: set<Alias>)
    requires top <= |stack| && AliasesOk(stack, top, aliases)
    ensures FirstAlias(stack, top, cont) == LastAlias(stack, top, cont)
            <==> Expansions(stack, top, cont) <= 1
    decreases top
  {
    if cont && top > 0 {
      var below := stack[top - 1].flags.cont;
      FirstIsLast(stack, top - 1, below, aliases);
      FirstAliasNamed(stack, top - 1, below);
    }
  }

  /** The depth whose buffer has the next character of the text. */
  ghost function Landing(stack: seq<Entry>, top: nat, left: seq<Byte>, cont: bool): (r: nat)
    requires top <= |stack|
    ensures r <= top
    decreases top
  {
    if left != [] || !cont || top == 0 || stack[top - 1].bufptr > |stack[top - 1].buf| then top
    else Landing(stack, top - 1, Unread(stack[top - 1]), stack[top - 1].flags.cont)
  }

  /** Popped at a place where nothing was left to read, for an alias or history. */
  predicate Respent(stack: seq<Entry>, at: nat) {
    at < |stack| && Expanding(stack[at].flags) && Spent(stack[at])
  }

  /** Where pushing popped entries again, from `at` on, comes to an end. */
  function Again(stack: seq<Entry>, at: nat): (r: nat)
    ensures at <= r && !Respent(stack, r)
    decreases |stack| - at
  {
    if Respent(stack, at) then Again(stack, at + 1) else at
  }

  lemma AgainStep(stack: seq<Entry>, at: nat)
    ensures Again(stack, at) == if Respent(stack, at) then Again(stack, at + 1) else at
  {
  }

  /** If all between are such entries, it ends at the first that is not. */
  lemma {:induction false} AgainAll(stack: seq<Entry>, at: nat, top: nat)
    requires at <= top && !Respent(stack, top)
    ensures Again(stack, at) <= top
    ensures Again(stack, at) == top <==> forall j :: at <= j < top ==> Respent(stack, j)
    decreases top - at
  {
    if at < top {
      AgainAll(stack, at + 1, top);
    }
  }

  lemma NamedOnce(s: seq<Entry>, n: nat, j: nat, aliases: set<Alias>)
    requires n <= |s| && j < n && AliasesOk(s, n, aliases)
    ensures s[j].alias != null ==> s[j].alias in aliases && !Names(s, j, s[j].alias)
  {
  }

  lemma EntryAt(s: seq<Entry>, n: nat, j: nat)
    requires EntriesOk(s, n) && j < n
    ensures j < |s| && EntryOk(s, j)
  {
  }

  lemma AliasKnown(s: seq<Entry>, n: nat, j: nat, aliases: set<Alias>)
    requires n <= |s| && j < n && AliasesOk(s, n, aliases)
    ensures s[j].alias != null ==> s[j].alias in aliases
  {
  }

  lemma EntriesPrefix(s: seq<Entry>, n: nat, m: nat, aliases: set<Alias>)
    requires EntriesOk(s, n) && AliasesOk(s, n, aliases) && m <= n
    ensures EntriesOk(s, m) && AliasesOk(s, m, aliases)
  {
  }

  /** One more entry on top of good ones. */
  lemma PushOk(s: seq<Entry>, t: seq<Entry>, top: nat, aliases: set<Alias>)
    requires top < |t| && top <= |s| && s[..top] == t[..top]
    requires EntriesOk(s, top) && AliasesOk(s, top, aliases)
    requires var e := t[top];
             && e.bufptr <= |e.buf|
             && (e.flags.cont ==> 0 < top)
             && e.bufct == |Unread(e)| + |Below(s, top, e.flags.cont)|
             && (e.alias != null ==> Expanding(e.flags))
             && (0 < top && Expanding(s[top - 1].flags) ==> e.flags.cont)
             && (e.alias != null ==> e.alias in aliases && forall j :: 0 <= j < top ==> s[j].alias != e.alias)
    ensures EntriesOk(t, top + 1) && AliasesOk(t, top + 1, aliases)
  {
    EntriesFrame(s, t, top, aliases);
    BelowFrame(s, t, top, t[top].flags.cont);
    if 0 < top {
      assert s[top - 1] == s[..top][top - 1] == t[..top][top - 1] == t[top - 1];
    }
    assert EntryOk(t, top);
    assert forall j :: 0 <= j < top ==> s[j] == s[..top][j] == t[..top][j] == t[j];
  }

  /** Tokens are stepped over by the reader. */
  function SkipTokens(s: seq<Byte>): seq<Byte> {
    if s != [] && IsTok(s[0]) then SkipTokens(s[1..]) else s
  }

  function Concat(lines: seq<seq<Byte>>): seq<Byte> {
    if lines == [] then [] else lines[0] + Concat(lines[1..])
  }

  /** What is skipped is tokens only, and what follows does not start with one. */
  lemma {:induction false} TokensSkipped(s: seq<Byte>)
    ensures var r := SkipTokens(s);
            && |r| <= |s| && r == s[|s| - |r|..]
            && (forall i :: 0 <= i < |s| - |r| ==> 0x84 <= s[i] <= 0xa1)
            && (r != [] ==> r[0] < 0x84 || 0xa1 < r[0])
  {
    if s != [] && IsTok(s[0]) {
      TokensSkipped(s[1..]);
    }
  }

  /** Some entry from `low` on and under `top` is an alias whose text ends in a space. */
  ghost predicate Inviting(stack: seq<Entry>, low: nat, top: nat)
    requires top <= |stack|
  {
    exists j :: low <= j < top && stack[j].alias != null
                && var text := stack[j].alias.text; text != [] && text[|text| - 1] == 32
  }

  /** Where reading a character has started from; `plain` says that there is one and it is
      no token. */
  datatype Reading = Reading(
    was: Moment, plain: bool, text: seq<Byte>, stream: seq<Byte>, lines: seq<seq<Byte>>, errflag: bool, inalmore: bool)

  lemma NoneInvites(stack: seq<Entry>, top: nat)
    requires top <= |stack|
    ensures !Inviting(stack, top, top)
  {
  }

  lemma InvitingJoin(stack: seq<Entry>, low: nat, mid: nat, top: nat)
    requires low <= mid <= top <= |stack|
    ensures Inviting(stack, low, top) <==> Inviting(stack, low, mid) || Inviting(stack, mid, top)
  {
  }

  /** The buffer and the stack at one moment. */
  datatype Moment = Moment(stack: seq<Entry>, top: nat, buf: seq<Byte>, ptr: nat, push: Option<nat>, flags: Flags) {
    ghost predicate Sound() { ptr <= |buf| && top <= |stack| }

    /** Where the next character is. */
    ghost function Low(): nat
      requires Sound()
    {
      Landing(stack, top, buf[ptr..], flags.cont)
    }

    /** Nothing popped earlier is in the way of what is popped next. */
    ghost predicate Clear() {
      && (flags.cont ==> !Respent(stack, top))
      && (Expanding(flags) && push.Some? ==> push.value < ptr)
    }

    /** The buffer is the one saved in the entry popped last. */
    ghost predicate JustPopped() {
      && top < |stack|
      && var e := stack[top];
      && buf == e.buf && ptr == e.bufptr && push == Some(e.bufptr) && flags == e.flags
    }
  }

  /** Buffers with nothing left to read have been popped, and nothing else has changed. */
  ghost predicate Popping(was: Moment, now: Moment)
    requires was.Sound() && now.Sound()
  {
    && now.stack == was.stack && now.top <= was.top && now.Low() == was.Low()
    && (if now.top < was.top then now.JustPopped() else now == was)
    && forall j :: now.top < j < was.top ==> Spent(now.stack[j])
  }

  /** Then a character has been read from the buffer they lay on. */
  ghost predicate Popped(was: Moment, now: Moment)
    requires was.Sound()
  {
    && now.stack == was.stack && now.top == was.Low()
    && (if now.top < was.top then
          && now.top < |now.stack|
          && !Spent(now.stack[now.top])
          && now.push == Some(now.ptr - 1)
          && now.flags == now.stack[now.top].flags
        else now == was.(ptr := was.ptr + 1))
    && forall j :: now.top < j < was.top ==> Spent(now.stack[j])
  }

  lemma LandingBelow(was: Moment)
    requires was.Sound() && was.Low() < was.top
    ensures was.flags.cont
  {
  }

  lemma PoppingStart(was: Moment)
    requires was.Sound()
    ensures Popping(was, was)
  {
  }

  lemma ReadClears(mid: Moment)
    requires mid.ptr < |mid.buf| && (mid.Clear() || mid.JustPopped())
    ensures mid.(ptr := mid.ptr + 1).Clear()
  {
  }

  lemma SkipStep(s: seq<Byte>)
    ensures SkipTokens(s) == if s != [] && IsTok(s[0]) then SkipTokens(s[1..]) else s
  {
  }

  lemma PopMore(was: Moment, mid: Moment, now: Moment)
    requires was.Sound() && mid.Sound() && now.Sound() && Popping(was, mid)
    requires mid.ptr == |mid.buf| && mid.flags.cont && 0 < mid.top
    requires now.stack == mid.stack && now.top == mid.top - 1 && now.JustPopped()
    ensures Popping(was, now)
  {
    assert mid.Low() == now.Low();
  }

  lemma PopLast(was: Moment, mid: Moment, now: Moment)
    requires was.Sound() && mid.Sound() && Popping(was, mid)
    requires mid.ptr < |mid.buf| && now == mid.(ptr := mid.ptr + 1)
    ensures Popped(was, now)
  {
    assert mid.Low() == mid.top;
  }

  class InputStack {
    /** Reading from a string: running dry is the end. */
    const strin: bool
    /** The shell's `errflag` and the end-of-input flag. */
    var errflag: bool
    var lexstop: bool
    var inalmore: bool

    var inbuf: seq<Byte>
    var inbufptr: nat
    var inbufct: int
    var inbufflags: Flags
    /** Where in `inbuf` popped aliases are to be pushed again, if anywhere. */
    var inbufpush: Option<nat>

    /** Allocated entries; those at `instacktop` and above are out of use, but those up
        to the one flagged 0 by the last push still hold what was popped. */
    var instack: seq<Entry>
    var instacktop: nat
    ghost var sentinel: nat

    /** Lines still to be read. */
    var lines: seq<seq<Byte>>

    ghost const aliases: set<Alias>

    ghost predicate Valid()
      reads this, aliases
    {
      && Shape()
      && EntriesOk(instack, sentinel)
      && inbufct == |Text()|
      && AliasesOk(instack, sentinel, aliases)
      && InUse()
    }

    ghost predicate Shape()
      reads this
    {
      && inbufptr <= |inbuf|
      && instacktop <= sentinel <= |instack|
      && (instack == [] || (sentinel < |instack| && !Expanding(instack[sentinel].flags)))
      && (inbufflags.cont ==> 0 < instacktop)
      && (0 < instacktop && Expanding(instack[instacktop - 1].flags) ==> inbufflags.cont)
      && (inbufpush.Some? && Expanding(inbufflags) ==>
            && instacktop < sentinel
            && instack[instacktop].buf == inbuf
            && instack[instacktop].bufptr == inbufpush.value
            && instack[instacktop].flags == inbufflags)
    }

    /** An alias is marked in use exactly when a live entry names it. */
    ghost predicate InUse()
      reads this, aliases
      requires instacktop <= |instack|
    {
      forall a :: a in aliases ==>
        (a.inuse <==> Names(instack, instacktop, a))
    }

    /** True between calls. */
    ghost predicate Settled()
      reads this
    {
      lexstop || Now().Clear()
    }

    /** The stack and the aliases in use are as they were. */
    twostate predicate Same()
      reads this, aliases
    {
      && instack == old(instack) && instacktop == old(instacktop)
      && forall a :: a in aliases ==> a.inuse == old(a.inuse)
    }

    ghost function Now(): Moment
      reads this
    {
      Moment(instack, instacktop, inbuf, inbufptr, inbufpush, inbufflags)
    }

    /** All characters waiting in the buffers. */
    ghost function Text(): seq<Byte>
      reads this
      requires inbufptr <= |inbuf| && instacktop <= |instack|
    {
      inbuf[inbufptr..] + Below(instack, instacktop, inbufflags.cont)
    }

    /** Everything that can still be read. */
    ghost function Stream(): seq<Byte>
      reads this
      requires inbufptr <= |inbuf| && instacktop <= |instack|
    {
      Text() + if strin || errflag then [] else Concat(lines)
    }

    constructor (strin: bool, lines: seq<seq<Byte>>, ghost aliases: set<Alias>)
      requires forall a :: a in aliases ==> !a.inuse
      ensures Valid() && this.strin == strin && this.aliases == aliases
      ensures Text() == [] && this.lines == lines && !lexstop && !errflag && !inalmore && Settled()
      ensures instacktop == 0 && !inbufflags.cont
    {
      this.strin, this.lines, this.aliases := strin, lines, aliases;
      errflag, lexstop, inalmore := false, false, false;
      inbuf, inbufptr, inbufct, inbufflags, inbufpush := [], 0, 0, NO_FLAGS, None;
      instack, instacktop, sentinel := [], 0, 0;
    }

    /** Put an entry on the stack, growing the allocation by four when it is full, and
        mark the slot above it as the end of what may be pushed again. */
    method Save(entry: Entry)
      requires instacktop <= |instack| && (instack == [] || instacktop < |instack|)
      modifies this`instack, this`instacktop
      ensures instacktop == old(instacktop) + 1 && instacktop < |instack|
      ensures instack[..old(instacktop)] == old(instack[..instacktop])
      ensures instack[old(instacktop)] == entry
      ensures instack[instacktop].flags == NO_FLAGS
    {
      if instack == [] {
        instack := seq(4, _ => EMPTY_ENTRY);
      }
      instack := instack[instacktop := entry];
      instacktop := instacktop + 1;
      if instacktop == |instack| {
        instack := instack + seq(4, _ => EMPTY_ENTRY);
      }
      instack := instack[instacktop := instack[instacktop].(flags := NO_FLAGS)];
    }

    /** `inpush`: new text goes in front of the old, or hides it. */
    method InPush(str: seq<Byte>, flags0: Flags, inalias: Alias?)
      requires Valid() && !Expanding(flags0)
      requires inalias != null ==>
                 inalias in aliases && !inalias.inuse && (flags0.alias || flags0.hist)
      modifies this, aliases
      ensures Valid()
      ensures Text() == str + if flags0.cont || flags0.alias || flags0.hist then old(Text()) else []
      ensures inbuf == str && inbufptr == 0 && instacktop == old(instacktop) + 1
      ensures instack[..old(instacktop)] == old(instack[..instacktop])
      ensures instack[old(instacktop)] ==
              Entry(old(inbuf), old(inbufptr), old(inbufct),
                    old(inbufflags).(alcont := flags0.alias && !flags0.hist, histcont := flags0.hist), inalias)
      ensures inbufpush.None? && lexstop == old(lexstop) && errflag == old(errflag) && Settled()
      ensures lines == old(lines) && inalmore == old(inalmore)
      ensures inbufflags.cont == (flags0.cont || flags0.alias || flags0.hist)
      ensures forall a :: a in aliases && a != inalias ==> a.inuse == old(a.inuse)
      ensures inalias != null ==> inalias.inuse
    {
      hide EntriesOk, AliasesOk, Names, Below;
      ghost var before := instack;
      var flags, saved := Continuing(flags0);
      Cover(saved, inalias);
      InputSetLine(str, flags);
      Claim(before, inalias);
    }

    /** The flags of the new buffer, and those saved with the old: an expansion goes on with
        the text below it. */
    method Continuing(flags0: Flags) returns (flags: Flags, saved: Flags)
      requires !Expanding(flags0)
      ensures saved == inbufflags.(alcont := flags0.alias && !flags0.hist, histcont := flags0.hist)
      ensures flags == flags0.(cont := flags0.cont || flags0.alias || flags0.hist,
                               alias := flags0.alias || flags0.hist || (inbufflags.alias && flags0.cont))
    {
      flags := flags0;
      saved := inbufflags.(alcont := false, histcont := false);
      if flags.alias || flags.hist {
        flags := flags.(cont := true, alias := true);
        saved := if flags.hist then saved.(histcont := true) else saved.(alcont := true);
      } else if saved.alias && flags.cont {
        flags := flags.(alias := true);
      }
    }

    /** The buffer goes onto the stack. */
    method Cover(saved: Flags, inalias: Alias?)
      requires Valid() && saved.cont == inbufflags.cont
      requires inalias != null ==> inalias in aliases && !inalias.inuse && Expanding(saved)
      modifies this`instack, this`instacktop, this`sentinel, this`inbufpush
      ensures instacktop == old(instacktop) + 1 == sentinel < |instack| && inbufpush == None
      ensures instack[..old(instacktop)] == old(instack[..instacktop])
      ensures instack[old(instacktop)] == Entry(inbuf, inbufptr, inbufct, saved, inalias)
      ensures instack[instacktop].flags == NO_FLAGS
      ensures EntriesOk(instack, sentinel) && AliasesOk(instack, sentinel, aliases)
      ensures Below(instack, instacktop, true) == old(Text()) && Below(instack, instacktop, false) == []
    {
      hide EntriesOk, AliasesOk, Names, Below;
      ghost var before, top := instack, instacktop;
      EntriesPrefix(instack, sentinel, instacktop, aliases);
      Save(Entry(inbuf, inbufptr, inbufct, saved, inalias));
      sentinel := instacktop;
      inbufpush := None;
      NotNamed(before, top, inalias);
      PushOk(before, instack, top, aliases);
      BelowPush(before, instack, top);
    }

    /** The alias of the entry just pushed is in use. */
    method Claim(ghost before: seq<Entry>, alias: Alias?)
      requires 0 < instacktop <= |instack| && instacktop - 1 <= |before|
      requires instack[..instacktop - 1] == before[..instacktop - 1] && instack[instacktop - 1].alias == alias
      requires forall a :: a in aliases ==> (a.inuse <==> Names(before, instacktop - 1, a))
      requires alias != null ==> alias in aliases
      modifies aliases
      ensures InUse() && (alias != null ==> alias.inuse)
      ensures forall a :: a in aliases && a != alias ==> a.inuse == old(a.inuse)
    {
      hide Names;
      if alias != null {
        alias.inuse := true;
      }
      NamesPush(before, instack, instacktop - 1);
    }

    /** `inputsetline`: the count includes what the new text continues onto. */
    method InputSetLine(str: seq<Byte>, flags: Flags)
      modifies this`inbuf, this`inbufptr, this`inbufct, this`inbufflags
      ensures inbuf == str && inbufptr == 0 && inbufflags == flags
      ensures inbufct == |str| + if flags.cont then old(inbufct) else 0
    {
      inbuf := str;
      inbufptr := 0;
      inbufct := if flags.cont then inbufct + |inbuf| else |inbuf|;
      inbufflags := flags;
    }

    /** `inpoptop`: go back to the buffer below, drop what is left of this one, and
        free its alias for use again. */
    method InPopTop()
      requires Valid() && 0 < instacktop
      modifies this, aliases
      ensures Valid()
      ensures instack == old(instack) && instacktop == old(instacktop) - 1 < |instack|
      ensures var e := instack[instacktop];
              && e.bufptr <= |e.buf|
              && Text() == Unread(e) + Below(instack, instacktop, e.flags.cont)
              && inbufflags == e.flags && inbufpush == Some(e.bufptr)
              && inbuf == e.buf && inbufptr == e.bufptr
      ensures old(inbufptr == |inbuf| && inbufflags.cont) ==> Text() == old(Text())
      ensures Now().JustPopped()
      ensures var a := instack[instacktop].alias;
              inalmore == (old(inalmore) || (a != null && a.text != [] && a.text[|a.text| - 1] == 32))
      ensures lexstop == old(lexstop) && errflag == old(errflag) && lines == old(lines)
    {
      hide AliasesOk, Names, EntriesOk, Below;
      NamedOnce(instack, sentinel, instacktop - 1, aliases);
      PopBuffer();
      ReleaseTop(instack[instacktop].alias);
    }

    /** The fields of the buffer below come back as they were saved. */
    method PopBuffer()
      requires Shape() && EntriesOk(instack, sentinel) && 0 < instacktop
      modifies this`instacktop, this`inbuf, this`inbufptr, this`inbufct, this`inbufflags, this`inbufpush
      ensures Shape() && inbufct == |Text()|
      ensures instacktop == old(instacktop) - 1 < |instack|
      ensures var e := instack[instacktop];
              && e.bufptr <= |e.buf|
              && Text() == Unread(e) + Below(instack, instacktop, e.flags.cont)
              && inbufflags == e.flags && inbufpush == Some(e.bufptr)
              && inbuf == e.buf && inbufptr == e.bufptr
      ensures old(inbufptr == |inbuf| && inbufflags.cont) ==> Text() == old(Text())
    {
      hide EntriesOk, Below;
      EntryAt(instack, sentinel, instacktop - 1);
      instacktop := instacktop - 1;
      var e := instack[instacktop];
      BelowPush(instack, instack, instacktop);
      inbuf := e.buf;
      inbufptr := e.bufptr;
      inbufpush := Some(e.bufptr);
      inbufct := e.bufct;
      inbufflags := e.flags;
    }

    /** The alias of the entry just popped may be expanded again; a trailing space asks
        for the next word to be looked up too. */
    method ReleaseTop(alias: Alias?)
      requires instacktop < |instack| && alias == instack[instacktop].alias
      requires forall a :: a in aliases ==> (a.inuse <==> Names(instack, instacktop + 1, a))
      requires alias != null ==> alias in aliases && !Names(instack, instacktop, alias)
      modifies this`inalmore, aliases
      ensures InUse()
      ensures inalmore == (old(inalmore) || (alias != null && alias.text != [] && alias.text[|alias.text| - 1] == 32))
    {
      hide Names;
      NamesPush(instack, instack, instacktop);
      if alias != null {
        alias.inuse := false;
        var t := alias.text;
        if t != [] && t[|t| - 1] == SPACE {
          inalmore := true;
        }
      }
    }

    /** `inpop`: leave a whole buffer and all it continues. */
    method InPop()
      requires Valid() && Bottomed(instack, instacktop, inbufflags.cont)
      modifies this, aliases
      ensures Valid()
      ensures instacktop == Bottom(old(instack), old(instacktop), old(inbufflags.cont))
      ensures var e := old(instack)[instacktop];
              && e.bufptr <= |e.buf|
              && Text() == Unread(e) + Below(old(instack), instacktop, e.flags.cont)
      ensures instack == old(instack) && Settled()
      ensures lexstop == old(lexstop) && errflag == old(errflag) && lines == old(lines)
    {
      hide EntriesOk, AliasesOk, Names, Below;
      var remcont := inbufflags.cont;
      InPopTop();
      while remcont
        invariant Valid() && instack == old(instack)
        invariant lexstop == old(lexstop) && errflag == old(errflag) && lines == old(lines)
        invariant !remcont ==> !Expanding(inbufflags) && !Expanding(instack[instacktop].flags)
        invariant Bottomed(old(instack), old(instacktop), old(inbufflags.cont))
        invariant remcont ==>
                    && Bottomed(instack, instacktop, inbufflags.cont)
                    && Bottom(instack, instacktop, inbufflags.cont)
                       == Bottom(old(instack), old(instacktop), old(inbufflags.cont))
        invariant !remcont ==>
                    instacktop == Bottom(old(instack), old(instacktop), old(inbufflags.cont))
        invariant instacktop < |instack| && instack[instacktop].bufptr <= |instack[instacktop].buf|
        invariant Text() == Unread(instack[instacktop])
                            + Below(instack, instacktop, instack[instacktop].flags.cont)
        decreases instacktop, remcont
      {
        remcont := inbufflags.cont;
        InPopTop();
      }
    }

    /** `inungetc`: the previous character of the buffer, or at its start `c` itself as
        a buffer of its own; back at the place where aliases were popped, those popped
        there with nothing left to read are live again. */
    method InUngetc(c: Byte)
      requires Valid()
      modifies this, aliases
      ensures Valid() && lexstop == old(lexstop) && lines == old(lines)
      ensures old(Settled()) ==> Settled()
      ensures lexstop ==> Text() == old(Text()) && errflag == old(errflag) && Same()
      ensures !lexstop && old(inbufptr) > 0 ==>
                && Text() == [old(inbuf[inbufptr - 1])] + old(Text())
                && errflag == old(errflag)
                && if old(inbufpush == Some(inbufptr - 1) && Expanding(inbufflags))
                   then
                     && instack == old(instack) && instacktop == Again(instack, old(instacktop) + 1)
                     && inbuf == [] && inbufflags == Flags(true, true, old(inbufflags.histcont), false, false)
                   else Same()
      ensures !lexstop && old(inbufptr) == 0 && old(inbufflags.cont) ==>
                && Text() == [c] + old(Text()) && errflag == old(errflag)
                && instacktop == old(instacktop) + 1 < |instack|
                && instack[..old(instacktop)] == old(instack[..instacktop])
                && instack[old(instacktop)].alias == null
                && forall a :: a in aliases ==> a.inuse == old(a.inuse)
      ensures !lexstop && old(inbufptr) == 0 && !old(inbufflags.cont) ==>
                Text() == old(Text()) && errflag && Same()
    {
      hide EntriesOk, AliasesOk, Names, Below, Again;
      if lexstop {
        return;
      }
      if inbufptr != 0 {
        StepBack();
      } else if !inbufflags.cont {
        errflag := true;
        return;
      } else {
        InPush([c], NO_FLAGS.(cont := true), null);
      }
      if inbufpush == Some(inbufptr) && Expanding(inbufflags) {
        RePush();
      }
    }

    method StepBack()
      requires Valid() && 0 < inbufptr
      modifies this`inbufptr, this`inbufct
      ensures Valid() && inbufptr == old(inbufptr) - 1
      ensures Text() == [inbuf[inbufptr]] + old(Text())
    {
      hide EntriesOk, AliasesOk, Names, Below;
      inbufptr := inbufptr - 1;
      inbufct := inbufct + 1;
      assert inbuf[inbufptr..] == [inbuf[inbufptr]] + inbuf[inbufptr + 1..];
    }

    /** The entry popped last is live again, and with it its alias. */
    method Revive()
      requires instacktop <= |instack| && InUse() && instacktop < sentinel <= |instack| && AliasesOk(instack, sentinel, aliases)
      modifies this`instacktop, aliases
      ensures instacktop == old(instacktop) + 1 && InUse()
    {
      hide AliasesOk, Names;
      var alias := instack[instacktop].alias;
      if alias != null {
        AliasKnown(instack, sentinel, instacktop, aliases);
        alias.inuse := true;
      }
      NamesPush(instack, instack, instacktop);
      instacktop := instacktop + 1;
    }

    /** Back at the place where aliases were popped: all those popped there with nothing
        left to read are live again. */
    method RePush()
      requires Valid() && inbufpush == Some(inbufptr) && Expanding(inbufflags)
      modifies this, aliases
      ensures Valid() && Text() == old(Text())
      ensures lexstop == old(lexstop) && errflag == old(errflag) && lines == old(lines)
      ensures instack == old(instack) && instacktop == Again(instack, old(instacktop) + 1)
      ensures inbuf == [] && inbufflags == Flags(true, true, old(inbufflags.histcont), false, false)
      ensures Settled()
    {
      hide AliasesOk, Names, Again, Below;
      ghost var first := instacktop;
      assert EntryOk(instack, first);
      var more := true;
      while more
        invariant first <= instacktop <= sentinel < |instack|
        invariant more ==> instacktop < sentinel
        invariant first < instacktop ==> Expanding(instack[instacktop - 1].flags)
        invariant more && first < instacktop ==>
                    Expanding(instack[instacktop].flags) && Spent(instack[instacktop])
        invariant instacktop == first ==> more
        invariant first < instacktop ==>
                    Again(instack, first + 1) == if more then Again(instack, instacktop) else instacktop
        invariant !more ==> !Respent(instack, instacktop)
        invariant instack == old(instack) && sentinel == old(sentinel) && inbufct == old(inbufct)
        invariant EntriesOk(instack, sentinel) && AliasesOk(instack, sentinel, aliases) && InUse()
        invariant first < instacktop ==> Below(instack, instacktop, true) == old(Text())
        invariant !Expanding(instack[sentinel].flags)
        invariant unchanged(`lexstop, `errflag, `lines, `inbufflags, `inbuf, `inbufptr)
        decreases sentinel - instacktop, more
      {
        assert EntryOk(instack, instacktop);
        AgainStep(instack, instacktop);
        BelowPush(instack, instack, instacktop);
        Revive();
        more := Expanding(instack[instacktop].flags) && Spent(instack[instacktop]);
        AgainStep(instack, instacktop);
      }
      inbufflags := if inbufflags.histcont then Flags(true, true, true, false, false)
                    else Flags(true, true, false, false, false);
      inbuf := [];
      inbufptr := 0;
      // The old position is not inside the new, empty buffer.
      inbufpush := None;
    }

    /** What `ingetc` keeps while it steps over tokens and used-up buffers. */
    ghost predicate Going(r: Reading)
      reads this
      requires Shape() && r.was.Sound()
    {
      && errflag == r.errflag && SkipTokens(Stream()) == SkipTokens(r.stream)
      && (r.was.Clear() ==> Now().Clear() || Now().JustPopped())
      && (r.plain ==> Text() == r.text != [] && !IsTok(r.text[0]) && lines == r.lines && Popping(r.was, Now()))
      && Invited(r)
    }

    /** Aliases popped on the way may ask for the next word to be looked up. */
    ghost predicate Invited(r: Reading)
      reads this
    {
      && instack == r.was.stack && instacktop <= r.was.top <= |instack|
      && inalmore == (r.inalmore || Inviting(instack, instacktop, r.was.top))
    }

    /** A character has been read. */
    ghost predicate Got(r: Reading, c: Byte)
      reads this
      requires Shape() && r.was.Sound()
    {
      && errflag == r.errflag && SkipTokens(r.stream) == [c] + Stream()
      && inbufptr > 0 && inbuf[inbufptr - 1] == c
      && (r.was.Clear() ==> Now().Clear())
      && (r.plain ==> r.text == [c] + Text() && lines == r.lines && Popped(r.was, Now()))
      && Invited(r)
    }

    /** There was none. */
    ghost predicate Ended(r: Reading)
      reads this
      requires Shape()
    {
      errflag == r.errflag && Stream() == [] == SkipTokens(r.stream) && !r.plain && Invited(r)
    }

    method TakeChar(ghost r: Reading) returns (c: Byte)
      requires Valid() && inbufptr < |inbuf| && r.was.Sound() && Going(r)
      modifies this`inbufptr, this`inbufct
      ensures Valid() && inbufptr == old(inbufptr) + 1
      ensures if IsTok(c) then Going(r) else Got(r, c)
    {
      hide EntriesOk, AliasesOk, Names, Below, Popping, Popped, Landing, Moment.JustPopped, Moment.Clear,
        Inviting, SkipTokens, InUse, Expanding, Now, Text, Stream;
      ghost var mid := Now();
      SkipStep(Stream());
      c := NextByte();
      if mid.Clear() || mid.JustPopped() {
        ReadClears(mid);
      }
      if r.plain {
        PopLast(r.was, mid, Now());
      }
    }

    /** The next byte of the buffer. */
    method NextByte() returns (c: Byte)
      requires Valid() && inbufptr < |inbuf|
      modifies this`inbufptr, this`inbufct
      ensures Valid() && inbufptr == old(inbufptr) + 1 && c == inbuf[inbufptr - 1]
      ensures old(Text()) == [c] + Text() && old(Stream()) == [c] + Stream()
      ensures Now() == old(Now()).(ptr := inbufptr) && old(Now()).Sound() && old(Now()).ptr == inbufptr - 1 < |old(Now()).buf|
    {
      hide EntriesOk, AliasesOk, Names, Below, Expanding;
      c := inbuf[inbufptr];
      inbufptr := inbufptr + 1;
      inbufct := inbufct - 1;
      assert inbuf[inbufptr - 1..] == [c] + inbuf[inbufptr..];
    }

    /** `ingetc`: the first character of the stream that is no token; at the end of all
        input `lexstop` is set. */
    method InGetc() returns (lastc: Byte)
      requires Valid()
      modifies this, aliases
      ensures Valid() && errflag == old(errflag)
      ensures old(lexstop) ==> lexstop && lastc == SPACE && Text() == old(Text())
      ensures !old(lexstop) ==>
                var s := SkipTokens(old(Stream()));
                if s == [] then lexstop && Stream() == []
                else
                  && !lexstop && lastc == s[0] && Stream() == s[1..]
                  && inbufptr > 0 && inbuf[inbufptr - 1] == lastc
      ensures old(Settled()) ==> Settled()
      ensures old(!lexstop && Text() != [] && !IsTok(Text()[0])) ==>
                && !lexstop && Popped(old(Now()), Now()) && lines == old(lines)
                && old(Text()) == [lastc] + Text() && inbufptr > 0 && inbuf[inbufptr - 1] == lastc
      ensures instack == old(instack) && instacktop <= old(instacktop)
      ensures inalmore == (old(inalmore) || Inviting(instack, instacktop, old(instacktop)))
    {
      hide EntriesOk, AliasesOk, Names, Popping, Popped, Landing, Inviting, Below,
        Moment.JustPopped, Moment.Clear, SkipTokens;
      lastc := SPACE;
      NoneInvites(instack, instacktop);
      if lexstop {
        return;
      }
      ghost var r := Reading(Now(), Text() != [] && !IsTok(Text()[0]), Text(), Stream(), lines, errflag, inalmore);
      PoppingStart(r.was);
      lastc := NextChar(r);
    }

    /** The loop of `ingetc`. */
    method NextChar(ghost r: Reading) returns (lastc: Byte)
      requires Valid() && !lexstop && r.was.Sound() && Going(r)
      modifies this, aliases
      ensures Valid() && if lexstop then Ended(r) else Got(r, lastc)
    {
      hide EntriesOk, AliasesOk, Names, InUse, Below, Expanding, Going, Got, Ended, Inviting, SkipTokens;
      lastc := SPACE;
      while true
        invariant Valid() && !lexstop && Going(r)
        decreases |lines|, instacktop, |inbuf| - inbufptr
      {
        if inbufptr < |inbuf| {
          lastc := TakeChar(r);
          if !IsTok(lastc) {
            return;
          }
        } else {
          var done := Refill(r);
          if done {
            return;
          }
        }
      }
    }

    /** The turn of that loop when the buffer is used up. */
    method Refill(ghost r: Reading) returns (done: bool)
      requires Valid() && !lexstop && inbufptr == |inbuf| && r.was.Sound() && Going(r)
      modifies this, aliases
      ensures Valid() && done == lexstop && if done then Ended(r) else Going(r)
      ensures !done ==> |lines| < |old(lines)| || (lines == old(lines) && instacktop < old(instacktop))
    {
      hide EntriesOk, AliasesOk, Names, Below, Popping, Popped, Landing, Moment.JustPopped, Moment.Clear,
        Inviting, SkipTokens;
      ghost var mid := Now();
      SkipStep(Stream());
      done := NextBuffer();
      InvitingJoin(instack, instacktop, mid.top, r.was.top);
      if r.plain {
        PopMore(r.was, mid, Now());
      }
    }

    method NextBuffer() returns (done: bool)
      requires Valid() && !lexstop && inbufptr == |inbuf|
      modifies this, aliases
      ensures Valid() && errflag == old(errflag) && done == lexstop
      ensures done ==> Stream() == [] == old(Stream())
      ensures !done ==> Stream() == old(Stream()) && (Now().Clear() || Now().JustPopped())
      ensures !done ==> |lines| < |old(lines)| || (lines == old(lines) && instacktop < old(instacktop))
      ensures old(Text()) != [] ==>
                && !done && old(inbufflags.cont) && Text() == old(Text()) && lines == old(lines)
                && instack == old(instack) && instacktop == old(instacktop) - 1 && Now().JustPopped()
      ensures instack == old(instack) && instacktop <= old(instacktop)
      ensures inalmore == (old(inalmore) || Inviting(instack, instacktop, old(instacktop)))
    {
      hide EntriesOk, AliasesOk, Names, Moment.Clear, Moment.JustPopped;
      done := false;
      if inbufct == 0 && (strin || errflag) {
        lexstop := true;
        done := true;
      } else if inbufflags.cont {
        InPopTop();
      } else {
        done := InputLine();
      }
    }

    /** `inputline`, without prompting: the next line becomes the buffer. */
    method InputLine() returns (dry: bool)
      requires Valid() && !lexstop && inbufptr == |inbuf| && !inbufflags.cont
      modifies this`lexstop, this`lines, this`inbuf, this`inbufptr, this`inbufct, this`inbufflags
      ensures Valid() && errflag == old(errflag) && (dry <==> lexstop)
      ensures dry ==> old(lines) == [] || errflag
      ensures !dry ==> Now().Clear()
      ensures dry && !errflag ==> Stream() == [] == old(Concat(lines))
      ensures !dry ==> !errflag && |lines| < |old(lines)|
      ensures !dry && !strin ==> Stream() == old(Stream())
    {
      hide EntriesOk, AliasesOk, Names;
      if lines == [] {
        lexstop := true;
        return true;
      }
      var line := lines[0];
      lines := lines[1..];
      if errflag {
        lexstop := true;
        return true;
      }
      InputSetLine(line, NO_FLAGS);
      dry := false;
    }

    /** `input_hasalias`: it walks all the way down the current text, so of several
        aliases being expanded it reports the one expanded first. */
    method InputHasAlias() returns (alias: Alias?)
      requires Valid()
      ensures alias == FirstAlias(instack, instacktop, inbufflags.cont)
      ensures alias != null ==> alias in aliases && alias.inuse
    {
      var cont := inbufflags.cont;
      var at: nat := instacktop;
      alias := null;
      while cont
        invariant at <= instacktop && (cont ==> 0 < at)
        invariant FirstAlias(instack, instacktop, inbufflags.cont)
                  == (var a := FirstAlias(instack, at, cont); if a != null then a else alias)
        invariant alias != null ==> alias in aliases && Names(instack, instacktop, alias)
        decreases at
      {
        at := at - 1;
        assert EntryOk(instack, at);
        if instack[at].alias != null {
          alias := instack[at].alias;
        }
        cont := instack[at].flags.cont;
      }
    }

    /** Reading a character and putting it back: the text, and exactly when all buffers
        passed over were expansions also the depth and with it the aliases in use. */
    method ReadBack() returns (c: Byte)
      requires Valid() && Settled() && !lexstop && Text() != [] && !IsTok(Text()[0])
      modifies this, aliases
      ensures Valid() && Settled() && !lexstop && errflag == old(errflag)
      ensures c == old(Text())[0] && Text() == old(Text()) && lines == old(lines) && instack == old(instack)
      ensures instacktop == old(instacktop)
              <==> forall j :: old(Now().Low()) <= j < old(instacktop) ==>
                     instack[j].flags.alcont || instack[j].flags.histcont
      ensures instacktop == old(instacktop) ==> forall a :: a in aliases ==> a.inuse == old(a.inuse)
    {
      hide EntriesOk, AliasesOk, Names, Below, Again, Landing, SkipTokens;
      ghost var was := Now();
      c := InGetc();
      ghost var low := instacktop;
      InUngetc(c);
      if low < was.top {
        LandingBelow(was);
        AgainAll(instack, low + 1, was.top);
        assert forall j :: low < j < was.top ==> (Respent(instack, j) <==> Expanding(instack[j].flags));
      }
    }
  }

  /** In front of `rest` lies what is left, from `i` on, of the text of an alias. */
  ghost predicate Inside(s: InputStack, alias: Alias, rest: seq<Byte>, i: nat)
    reads s, s.aliases
  {
    && s.Valid() && s.aliases == {alias} && i <= |alias.text|
    && s.inbuf == alias.text && s.inbufptr == i && s.inbufflags.cont && s.instacktop == 2
    && s.instack[1].alias == alias && s.instack[1].buf == rest && s.instack[1].bufptr == 0
    && s.Text() == alias.text[i..] + rest && !s.lexstop && !s.inalmore
  }

  method Expanded(text: seq<Byte>, rest: seq<Byte>) returns (s: InputStack, alias: Alias)
    ensures fresh(s) && fresh(s.aliases) && alias.text == text && Inside(s, alias, rest, 0)
  {
    alias := new Alias([OUTER], text);
    s := new InputStack(true, [], {alias});
    s.InPush(rest, NO_FLAGS, null);
    s.InPush(text, NO_FLAGS.(alias := true), alias);
  }

  /** One more character of the text. */
  method ReadInside(s: InputStack, ghost alias: Alias, ghost rest: seq<Byte>, ghost i: nat)
    requires Inside(s, alias, rest, i) && i < |alias.text| && !IsTok(alias.text[i])
    modifies s, s.aliases
    ensures Inside(s, alias, rest, i + 1)
  {
    hide EntriesOk, AliasesOk, Names, Below, Inviting, SkipTokens, Expanding;
    ghost var stack := s.instack;
    NoneInvites(stack, 2);
    ghost var was := s.Text();
    assert was[1..] == alias.text[i + 1..] + rest;
    var c := s.InGetc();
    assert was[1..] == s.Text();
  }

  /** The first one behind it. */
  method ReadBehind(s: InputStack, ghost alias: Alias, ghost rest: seq<Byte>) returns (next: Byte)
    requires Inside(s, alias, rest, |alias.text|) && rest != [] && !IsTok(rest[0])
    modifies s, s.aliases
    ensures s.Valid() && next == rest[0] && s.Text() == rest[1..] && !alias.inuse
    ensures s.inalmore <==> alias.text != [] && alias.text[|alias.text| - 1] == 32
  {
    hide EntriesOk, AliasesOk, Below, SkipTokens, Expanding;
    assert alias.text[|alias.text|..] + rest == rest == [rest[0]] + rest[1..];
    NamedOnce(s.instack, s.sentinel, 1, s.aliases);
    next := s.InGetc();
  }

  /** An alias text is read to its end, and one character more: then the next word may be an
      alias too, exactly if the text ends in a space (as in `alias sudo='sudo '`). */
  method ReadPast(text: seq<Byte>, rest: seq<Byte>) returns (s: InputStack, alias: Alias, next: Byte)
    requires rest != [] && !IsTok(rest[0]) && forall i :: 0 <= i < |text| ==> !IsTok(text[i])
    ensures s.Valid() && next == rest[0] && s.Text() == rest[1..]
    ensures alias.text == text && !alias.inuse
    ensures s.inalmore <==> text != [] && text[|text| - 1] == 32
  {
    hide *;
    s, alias := Expanded(text, rest);
    for i := 0 to |text|
      invariant Inside(s, alias, rest, i)
    {
      ReadInside(s, alias, rest, i);
    }
    next := ReadBehind(s, alias, rest);
  }

  /** The walk of `input_hasalias` on two aliases, one inside the other. */
  method NestedAliases() returns (s: InputStack, outer: Alias, inner: Alias, found: Alias?)
    ensures s.Valid() && Expansions(s.instack, s.instacktop, s.inbufflags.cont) == 2
    ensures found == outer == FirstAlias(s.instack, s.instacktop, s.inbufflags.cont)
    ensures inner == LastAlias(s.instack, s.instacktop, s.inbufflags.cont) && inner != outer
  {
    outer := new Alias([OUTER], [INNER]);
    inner := new Alias([INNER], [OUTER]);
    s := new InputStack(true, [], {outer, inner});
    s.InPush(outer.text, NO_FLAGS.(alias := true), outer);
    ghost var one := s.instack;
    s.InPush(inner.text, NO_FLAGS.(alias := true), inner);
    assert s.instack[0] == s.instack[..1][0] == one[..1][0] == one[0];
    found := s.InputHasAlias();
  }
}
