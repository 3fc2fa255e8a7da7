/** The 32-bit words a parsed program is flattened into: five low bits of code,
    the rest data, and further fields packed inside the data (bsh.h). */
module Wordcode {

  const WORD_SPAN: nat := 0x1_0000_0000

  /** The C type `wordcode`: an unsigned 32-bit integer. */
  type Word = w: int | 0 <= w < WORD_SPAN witness 0

  const WC_END: nat := 0
  const WC_LIST: nat := 1
  const WC_SUBLIST: nat := 2
  const WC_PIPE: nat := 3
  const WC_SIMPLE: nat := 6
  const WC_CURSH: nat := 9
  const WC_COND: nat := 18
  const WC_ARITH: nat := 19

  const Z_SYNC: nat := 2
  const Z_END: nat := 16
  const Z_SIMPLE: nat := 32

  const SUBLIST_END: nat := 0
  const SUBLIST_AND: nat := 1
  const SUBLIST_OR: nat := 2
  const SUBLIST_NOT: nat := 8
  const SUBLIST_SIMPLE: nat := 16

  function Code(w: Word): nat { w % 32 }

  function Data(w: Word): nat { w / 32 }

  /** `wc_bld`: bits shifted past the top of the word are lost. */
  function Build(code: nat, data: nat): Word
    requires code < 32
  {
    (code + 32 * data) % WORD_SPAN
  }

  predicate HasBit(x: nat, bit: nat)
    requires 0 < bit
  {
    (x / bit) % 2 == 1
  }

  function BuildList(ltype: nat, skip: nat): Word
    requires ltype < 64
  {
    Build(WC_LIST, ltype + 64 * skip)
  }

  function ListType(w: Word): nat { Data(w) }

  function ListSkip(w: Word): nat { Data(w) / 64 }

  function BuildSublist(stype: nat, flags: nat, skip: nat): Word
    requires stype < 4 && flags < 32 && flags % 4 == 0
  {
    Build(WC_SUBLIST, stype + flags + 32 * skip)
  }

  function SublistType(w: Word): nat { Data(w) % 4 }

  function SublistFlags(w: Word): nat { 4 * (Data(w) / 4 % 8) }

  function SublistSkip(w: Word): nat { Data(w) / 32 }

  function BuildPipe(line: nat): Word { Build(WC_PIPE, 2 * line) }

  function PipeLine(w: Word): nat { Data(w) / 2 }

  function BuildCursh(skip: nat): Word { Build(WC_CURSH, skip) }

  function CurshSkip(w: Word): nat { Data(w) }

  function BuildSimple(argc: nat): Word { Build(WC_SIMPLE, argc) }

  function SimpleArgc(w: Word): nat { Data(w) }

  function BuildCond(ctype: nat, skip: nat): Word
    requires ctype < 128
  {
    Build(WC_COND, ctype + 128 * skip)
  }

  function CondType(w: Word): nat { Data(w) % 128 }

  function CondSkip(w: Word): nat { Data(w) / 128 }

  /** Room left for a skip offset in each kind of word. */
  const LIST_SKIP_SPAN: nat := 0x20_0000
  const SUBLIST_SKIP_SPAN: nat := 0x40_0000
  const DATA_SPAN: nat := 0x800_0000
  const COND_SKIP_SPAN: nat := 0x10_0000

  /** What `Build` keeps: the code and the low 27 bits `v` of the data. */
  lemma BuildKeeps(code: nat, q: nat, v: nat)
    requires code < 32 && v < DATA_SPAN
    ensures Code(Build(code, DATA_SPAN * q + v)) == code
    ensures Data(Build(code, DATA_SPAN * q + v)) == v
  {
    var low := code + 32 * v;
    assert code + 32 * (DATA_SPAN * q + v) == WORD_SPAN * q + low;
    assert low < WORD_SPAN;
    assert (WORD_SPAN * q + low) % WORD_SPAN == low;
  }

  lemma ListFields(ltype: nat, r: nat)
    requires ltype < 64 && r < LIST_SKIP_SPAN
    ensures var d := ltype + 64 * r; d < DATA_SPAN && d % 64 == ltype && d / 64 == r
  {
  }

  /** A skip offset survives packing exactly when it fits the bits left over;
      code, type and flags always survive. */
  lemma ListRoundTrip(ltype: nat, skip: nat)
    requires ltype < 64
    ensures var w := BuildList(ltype, skip);
            && Code(w) == WC_LIST
            && ListType(w) % 64 == ltype
            && (ListSkip(w) == skip <==> skip < LIST_SKIP_SPAN)
  {
    var q, r := skip / LIST_SKIP_SPAN, skip % LIST_SKIP_SPAN;
    ListFields(ltype, r);
    assert ltype + 64 * skip == DATA_SPAN * q + (ltype + 64 * r);
    BuildKeeps(WC_LIST, q, ltype + 64 * r);
    SameBelow(skip, LIST_SKIP_SPAN);
  }

  lemma SublistFields(stype: nat, f: nat, r: nat)
    requires stype < 4 && f < 8 && r < SUBLIST_SKIP_SPAN
    ensures var d := stype + 4 * f + 32 * r;
            d < DATA_SPAN && d % 4 == stype && d / 4 % 8 == f && d / 32 == r
  {
    var d := stype + 4 * f + 32 * r;
    assert d / 4 == f + 8 * r;
  }

  lemma SublistRoundTrip(stype: nat, flags: nat, skip: nat)
    requires stype < 4 && flags < 32 && flags % 4 == 0
    ensures var w := BuildSublist(stype, flags, skip);
            && Code(w) == WC_SUBLIST
            && SublistType(w) == stype
            && SublistFlags(w) == flags
            && (SublistSkip(w) == skip <==> skip < SUBLIST_SKIP_SPAN)
  {
    var q, r := skip / SUBLIST_SKIP_SPAN, skip % SUBLIST_SKIP_SPAN;
    var f := flags / 4;
    SublistFields(stype, f, r);
    assert stype + flags + 32 * skip == DATA_SPAN * q + (stype + 4 * f + 32 * r);
    BuildKeeps(WC_SUBLIST, q, stype + 4 * f + 32 * r);
    SameBelow(skip, SUBLIST_SKIP_SPAN);
  }

  lemma CurshRoundTrip(skip: nat)
    ensures Code(BuildCursh(skip)) == WC_CURSH
    ensures CurshSkip(BuildCursh(skip)) == skip <==> skip < DATA_SPAN
  {
    SameBelow(skip, DATA_SPAN);
    BuildKeeps(WC_CURSH, skip / DATA_SPAN, skip % DATA_SPAN);
  }

  lemma SimpleRoundTrip(argc: nat)
    ensures Code(BuildSimple(argc)) == WC_SIMPLE
    ensures SimpleArgc(BuildSimple(argc)) == argc <==> argc < DATA_SPAN
  {
    SameBelow(argc, DATA_SPAN);
    BuildKeeps(WC_SIMPLE, argc / DATA_SPAN, argc % DATA_SPAN);
  }

  lemma PipeCode(line: nat)
    ensures Code(BuildPipe(line)) == WC_PIPE
  {
    var data := 2 * line;
    BuildKeeps(WC_PIPE, data / DATA_SPAN, data % DATA_SPAN);
  }

  lemma CondFields(ctype: nat, r: nat)
    requires ctype < 128 && r < COND_SKIP_SPAN
    ensures var d := ctype + 128 * r; d < DATA_SPAN && d % 128 == ctype && d / 128 == r
  {
  }

  lemma CondRoundTrip(ctype: nat, skip: nat)
    requires ctype < 128
    ensures var w := BuildCond(ctype, skip);
            && Code(w) == WC_COND
            && CondType(w) == ctype
            && (CondSkip(w) == skip <==> skip < COND_SKIP_SPAN)
  {
    var q, r := skip / COND_SKIP_SPAN, skip % COND_SKIP_SPAN;
    CondFields(ctype, r);
    assert ctype + 128 * skip == DATA_SPAN * q + (ctype + 128 * r);
    BuildKeeps(WC_COND, q, ctype + 128 * r);
    SameBelow(skip, COND_SKIP_SPAN);
  }

  lemma ArithCode()
    ensures Code(Build(WC_ARITH, 0)) == WC_ARITH
  {
  }

  lemma SameBelow(x: nat, span: nat)
    requires 0 < span
    ensures x % span == x <==> x < span
  {
  }

  /** The words `ws` lie in `prog` from `pc` on. */
  predicate At(prog: seq<Word>, pc: nat, ws: seq<Word>) {
    pc + |ws| <= |prog| && prog[pc..pc + |ws|] == ws
  }

  lemma AtBound(prog: seq<Word>, pc: nat, ws: seq<Word>)
    requires At(prog, pc, ws)
    ensures pc + |ws| <= |prog|
  {
  }

  lemma AtSplit(prog: seq<Word>, pc: nat, a: seq<Word>, b: seq<Word>)
    ensures At(prog, pc, a + b) <==> At(prog, pc, a) && At(prog, pc + |a|, b)
  {
    if At(prog, pc, a + b) {
      assert prog[pc..pc + |a|] == (a + b)[..|a|];
      assert prog[pc + |a|..pc + |a| + |b|] == (a + b)[|a|..];
    }
    if At(prog, pc, a) && At(prog, pc + |a|, b) {
      assert prog[pc..pc + |a + b|] == prog[pc..pc + |a|] + prog[pc + |a|..pc + |a| + |b|];
    }
  }

  lemma AtFirst(prog: seq<Word>, pc: nat, w: Word, ws: seq<Word>)
    ensures At(prog, pc, [w] + ws) <==> pc < |prog| && prog[pc] == w && At(prog, pc + 1, ws)
  {
    AtSplit(prog, pc, [w], ws);
    if pc < |prog| {
      assert prog[pc..pc + 1] == [prog[pc]];
    }
  }
}
