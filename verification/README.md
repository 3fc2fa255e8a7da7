# The in-memory engines of bsh

This project models the parts of the shell that turn small steps on shared state into
something with a simple meaning, and proves that the steps have that meaning:

- the **wordcode executor**: programs flattened by the parser into words with packed skip
  offsets, walked by moving a program counter; with it the meaning of AND-OR lists, of
  ERR_EXIT and its suppression, and of `return` and `exit` inside functions;
- the evaluator of **`[[ ... ]]` conditions** over the same wordcode;
- the **input stack**: buffers, alias expansions and push-back as one stream of characters;
- the **hash table**: a chained table that can be changed while it is scanned, and grows by
  expansions that may nest;
- **globbing**: the recursive path scanner, the distribution of qualifiers, brace expansion,
  and global substitution between two string encodings;
- **redirection**: saving, splitting and restoring descriptors;
- **path normalisation**, the **linked lists** and the **directory stack** on them;
- **history keys** and the **capture of command output**.

Each engine is written in the form of its source. What the C code does by changing objects
is done by methods of classes on the heap (`Executor.Shell`, `Input.InputStack`,
`HashTable.HashTable`, `Redirection.Redirector`, `LinkLists.LinkList`, `DirStack.Shell`,
`Globbing.Globber`, `ReadOutput.Output`) or by methods on arrays and linked nodes
(`FixDir`, `Substitution`, `Qualifiers`, `Braces`, `Ranges`). Each method is proved equal to
a specification on values, and what the shell promises is proved about the specification.

`Bytes.dfy` and `Metafied.dfy` hold the shell's bytes and its string encoding;
`Wordcode.dfy`, `Conditions.dfy` and `Programs.dfy` hold the encodings of the parser, `Slots.dfy`
what comes of a word that is laid out and not read;
`Semantics.dfy` the meaning of programs, `Executor.dfy` the walk, `ExecutionLaws.dfy` what
holds over whole runs, `CommandLaws.dfy` what `!`, `return` and errors do to them, and
`ConditionLaws.dfy` how the statuses of conditions combine. `Plans.dfy` holds what
redirections mean and `PlanLaws.dfy` what they come to for the usual ones;
`Descriptors.dfy` and `Aiming.dfy` what `Redirection.dfy` keeps at every step and how the
descriptors stay as planned; `Coprocess.dfy` redirects to the coprocess. `BraceLaws.dfy` and
`HistoryWords.dfy` describe braces and history keys string by string and word by word, and
`EmptyMatches.dfy` follows one substitution. The
remaining files hold one engine each. System calls, the pattern
matcher and the change of directory are parameters or arbitrary choices: a request the
system does not grant, a match of any length, a directory that does or does not exist.

## What the proofs found

Where the code and what is said of it disagree, the model follows the code.

- Tests of `[ ... ]` with `<` or `>` are laid out with a word that the evaluator
  never reads as such (Src/parse.c:2675-2682 against Src/cond.c). When the left operand of `-a` or
  `-o` goes on having stopped at that word, it is taken for a negation of the right one.
  `Conditions.Actual` is what the evaluator then computes, and `Executor.Shell.EvalCond` is
  proved to compute it; `Conditions.ReadRight` says that a run without such a step is as meant,
  `Slots.SlotReadAsNot` what one such step does, and `Slots.SafeExactly` that the conditions in
  which no left operand ends in such a test are exactly those for which `Conditions.Actual` is
  always as meant. These are about the evaluator for words numbered below 32; a higher one is
  read as another test (see Left out).
- De Morgan's laws hold for conditions, in status and in the tests made, exactly where the left
  operand does not ask for an option that does not exist, whose status 3 neither `!` nor `&&`
  touches and `||` goes on after (Src/cond.c:94-112): `ConditionLaws.DeMorganExactly`.
- `input_hasalias` is said to give the most recently expanded alias (Src/input.c:822-829) but
  gives the one expanded first; `Input.FirstIsLast` says exactly when they are the same, and
  `Input.NestedAliases` reaches a state where they are not.
- `execsimple` does not look at `retflag` (Src/exec.c:1290-1338), so while a `return` or
  `exit` unwinds, the rest of an AND-OR list can still run a command that needs no job
  control; `ExecutionLaws.UnwindingRunsOnlySimple` says exactly when, and
  `ExecutionLaws.ComputedAfterExit` follows `exit 3 && (( x ))` in a function.
- An index for global substitution does not pass over empty matches: an empty match is found
  again each time, and so uses up the whole index (Src/glob.c:3112-3170). With
  `Substitution.PassedOver` the result is known for every index, and `EmptyMatches.EmptyStaysFirst`
  has it for a pattern that matches only nothing in `aa`, where the second match asked for
  is the first.
- A redirection that closes a descriptor does not notice when the system refuses the
  duplicate it should be restored from (Src/exec.c:3858-3867), so the descriptor is lost.
  `Redirection.Redirector.RunBuiltin` has the lost ones as exactly those whose first duplicate
  was refused, and every other descriptor as it was, whether the redirections fail or not;
  `Redirection.ClosedForGood` follows `>&-` with the duplicate refused.
- After a failed redirection the pipe of every stream split by then stays open
  (`closemnodes`, Src/exec.c:2345-2358), and so does the file in hand unless something is
  restored in its place. With nothing denied `Redirection.Redirector.RunBuiltin` leaves open
  exactly the files that `Plans.RunAll` says. `Redirection.FailureLeavesPipe` has these for
  `>a >b <c` without `c`, and `Redirection.PipeStaysOpen` follows that command.
- A stream that was split and then closed cannot be redirected again: `closemn` leaves it in
  the table though its descriptor is gone (Src/exec.c:2300-2304), so in `>a >b >&- >c` the last
  redirection fails: `Redirection.ClosedTakesNothing`, and `Redirection.ClosedStreamFails`
  follows the command. Files in different directions cannot be joined either. With nothing
  denied these, a file that is not there, a source of a merge that is not open or that the shell uses, and a
  process substitution that was not handed over are the only ways to fail (`Plans.FineExactly`).
- `cd +0` without AUTO_PUSHD drops the top of the directory stack, where other entries are
  extracted from it (Src/builtin.c:1196-1204): `DirStack.CdExtracts`. A `pushd` without
  arguments and a `popd` that fail have already changed the stack: `DirStack.FailureKeeps`
  says for which commands it stays as it was.
- `histhasher` ignores a blank at the end that `histstrcmp` does not: `HistoryKeys.TrailingBlank`.
  The other way round, which matters, holds: `HistoryKeys.EqualHashes`.
- A scan is said to be safe against removal of elements by its callback
  (Src/hashtable.c:337-340). The unsorted scan is (`HashTable.HashTable.ScanMatchTable`); the
  sorted one stores NULL for an element removed and dereferences it when it comes to it
  (Src/hashtable.c:298 and 410). `SortedScan.ScanSorted` says exactly when that happens, and
  `SortedScan.RemovalUnsafe` gives the simplest case.
- After `joinlists` the second list's header points nowhere and is not an empty list
  (Src/linklist.c:374): `LinkLists.NoList`.

## Model

| member | source | states |
|---|---|---|
| Wordcode.BuildKeeps | Src/bsh.h:882-886 | a packed word keeps its code and the low 27 bits of its data |
| Wordcode.ListRoundTrip | Src/bsh.h:922-925 | type and skip of a list word come back, the skip exactly if it fits its bits |
| Wordcode.SublistRoundTrip | Src/bsh.h:927-939 | type and flags of a sublist word always come back, the skip exactly if it fits its bits |
| Wordcode.CurshRoundTrip | Src/bsh.h:979-980 | the skip of a group comes back exactly if it fits its bits |
| Wordcode.SimpleRoundTrip | Src/bsh.h:970-971 | the argument count of a simple command comes back exactly if it fits |
| Wordcode.CondRoundTrip | Src/bsh.h:1032-1034 | test type and skip of a condition come back, the skip exactly if it fits 20 bits |
| Conditions.LayoutReads | Src/parse.c:2409-2745 | the words laid out for any condition whose skips fit read back as that condition |
| Conditions.StatusRange | Src/cond.c:56-66 | evaluation gives 0, 1, 2 or 3 |
| Conditions.AfterLeft | Src/cond.c:94-112 | AND goes on after 0 only, OR after 1 and 3 only, at the right operand or at a slot read as its negation; otherwise the right operand's words are passed over |
| Conditions.Operands | Src/cond.c:78-112 | the type bits of laid-out words tell the operator, and the operands lie where the evaluator goes |
| Conditions.ShortActual | Src/cond.c:312-321 | evaluation stops short of a condition's last word only with status 2 or before an unread slot |
| Conditions.ReadRight | Src/cond.c:94-112 | unless a left operand goes on having stopped short, status, tests and place are those meant |
| Conditions.SafeNeverMisread | Src/parse.c:2659-2682 | that never happens where no left operand ends in an unread slot |
| ConditionLaws.OperandWords | Src/cond.c:113-206 | how many words follow each kind of test |
| ConditionLaws.StatusIsTruth | Src/cond.c:56-112 | where no test goes wrong the status is 0 for a condition that is true in the usual sense, and 1 for a false one |
| ConditionLaws.UnknownOption | Src/cond.c:349-350 | a test for an unknown option has status 3, negated too; AND stops at it and OR goes on to the other operand |
| ConditionLaws.ErrorStops | Src/cond.c:94-112 | whatever an error is the first test of has status 2 and makes no other test |
| ConditionLaws.DeMorganExactly | Src/cond.c:78-112 | De Morgan's laws hold, in status and in the tests made, exactly where the left operand's status is not 3 |
| ConditionLaws.Associates | Src/cond.c:94-112 | both connectives associate, in status and in the tests made |
| Slots.SlotReadAsNot | Src/parse.c:2659-2682 | for AND and OR with operands read right by themselves: the tests made are those meant, and the status is wrong exactly if the left operand goes on stopped short and the right one comes out true or false (of the evaluator for slots below 32) |
| Slots.SlotLayout | Src/parse.c:2659-2682 | the words of AND and OR after a test with a slot numbered below 32 read as those with the right operand negated |
| Slots.SafeExactly | Src/parse.c:2659-2682 | exactly the conditions in which no left operand ends in a slot are evaluated as meant whatever their tests report (of the evaluator for slots below 32) |
| Executor.SubAt | Src/parse.c:825-860 | where in laid-out words the first pipeline of a sublist and the rest of it lie |
| Executor.ItemAt | Src/parse.c:738-822 | where the first item of a program and the rest of it lie |
| Executor.Shell.EvalCond | Src/cond.c:70-321 | status and tests made are those of the words as the evaluator takes them, and `pc` ends just past them exactly when it does not stop short |
| Executor.Shell.RunTest | Src/cond.c:196-321 | one test: its verdict as a status, and `pc` past its words |
| Executor.Shell.ExecCond | Src/exec.c:5207-5233 | a `[[ ]]` command has the meaning of its condition; status 2 becomes an error |
| Executor.Shell.ExecArith | Src/exec.c:5238-5300 | an arithmetic command has status 0 for a value other than zero and 1 for zero; an error gives status 2 and is cleared |
| Executor.Shell.ExecCursh | Src/exec.c:469-496 | a `{ }` group has the meaning of its list, and its failures are not counted again |
| Executor.Shell.ExecSimple | Src/exec.c:1290-1338 | a command without job control has its meaning even while unwinding |
| Executor.Shell.ExecPline | Src/exec.c:1671-1999 | a pipeline of one command: nothing is started while unwinding; a negated one does what the plain one does, and unless that ends unwinding its status is 1 for 0 and 0 for any other |
| Executor.Shell.ExecElem | Src/exec.c:1484-1514 | failures count in a pipeline exactly if it is the last of its sublist and not negated |
| Executor.Shell.ExecSublist | Src/exec.c:1478-1570 | the loop over a sublist's pipelines gives its meaning and stops just past its words |
| Executor.Shell.PassOver | Src/exec.c:1500-1570 | passing over pipelines runs nothing and stops where the other connective is |
| Executor.Shell.CheckStatus | Src/exec.c:1598-1627 | a failure that counts exits or returns as the options say |
| Executor.Shell.ExecItem | Src/exec.c:1390-1640 | one turn of the outer loop gives the meaning of one item |
| Executor.Shell.ExecList | Src/exec.c:1349-1655 | the walk over a laid-out program has the meaning of the program, and ends past its words |
| Executor.Shell.BinExit | Src/builtin.c:5867-5892 | `exit` in a function is left pending with its level, elsewhere it exits with its status |
| Executor.Shell.BinReturn | Src/builtin.c:5842-5860 | `return` sets the status and unwinds |
| Executor.Shell.RealExit | Src/builtin.c:5950-5960 | the shell goes with the status of a pending `exit`, or the last status |
| Executor.Shell.DoShFunc | Src/exec.c:5826-6160 | a call has the meaning of its body one level down, bounded by FUNCNEST |
| Executor.Shell.LeaveFunction | Src/exec.c:6049-6158 | a `return` ends at its call; a pending `exit` is raised again, or carried out where the (sub)shell began |
| ExecutionLaws.ChainIsLeftAssociative | Src/exec.c:1478-1570 | evaluating the stored chain of an AND-OR tree is left-associative evaluation of the tree |
| ExecutionLaws.AppendMeaning | Src/exec.c:1478-1570 | one more AND or OR at the end of any chain runs or not by the status of the chain before |
| ExecutionLaws.ErrExitStopsAtFirstFailure | Src/exec.c:1598-1627 | with ERR_EXIT a run is the run without, cut off right after the first failure that counts, and whole if there is none, with ERR_RETURN or without |
| ExecutionLaws.SuppressedNeverStops | Src/exec.c:56-106 | under `!` and left of AND and OR, at any depth, no failure counts |
| ExecutionLaws.ExitIsFinal | Src/exec.c:6144-6158 | after `exit` at any depth of functions and groups no simple command starts, and the shell goes with its operand, or without one the last status before it |
| ExecutionLaws.UnwindingRunsOnlySimple | Src/exec.c:1290-1338 | exactly when the rest of an AND-OR list that is unwinding still runs something |
| ExecutionLaws.ComputedAfterExit | Src/exec.c:1290-1338 | a function `exit 3 && (( x ))` computes x after the `exit`, and the shell goes with 3 |
| ExecutionLaws.FailureCounts | Src/exec.c:1598-1627 | a last pipeline that is reached, no group and not negated counts as a failure exactly if it fails where failures are not suppressed |
| CommandLaws.NegationInverts | Src/exec.c:1982-1983 | `! c` runs what `c` runs; its status is 0 exactly where that of `c` is not, or 1, and only a command that ends unwinding keeps its status |
| CommandLaws.NegatedLeft | Src/exec.c:1478-1570 | to the left of AND a negated command goes on with status 0 exactly after a failure, to the left of OR with status 1 exactly after a success |
| CommandLaws.NegatedRight | Src/exec.c:1478-1570 | as the last pipeline of an AND-OR list of any length a negated command, where it is reached, gives the inverted status, which never counts as a failure |
| CommandLaws.JoinRuns | Src/exec.c:1349-1655 | of two lists put together the second runs from where the first has left off |
| CommandLaws.ReturnEndsCall | Src/builtin.c:5842-5860 | a `return` that is reached ends its call and no other, nothing after it is run, and the status is its operand or the last one; other than zero it counts as a failure |
| CommandLaws.ErrReturnEndsCall | Src/exec.c:1598-1627 | with ERR_RETURN a failure that counts ends just the function it is in, with its status, even if that was called under `!` or left of AND or OR |
| CommandLaws.ErrReturnExits | Src/exec.c:1598-1627 | outside functions, in a script, it exits with its status |
| CommandLaws.TooDeep | Src/exec.c:6002-6007 | a call nested deeper than FUNCNEST is an error of status 1 and runs nothing |
| CommandLaws.GroupNotCounted | Src/exec.c:469-496 | a group as the last pipeline has the state of its list, and its failure is not counted again; an empty one has status 0 |
| CommandLaws.NothingAfterError | Src/exec.c:1290-1338 | after an error the rest of an AND-OR list runs nothing, and a failure stays one |
| Input.BelowPush | Src/input.c:675-730 | under a new buffer that continues lies all there was before |
| Input.FirstAliasNamed | Src/input.c:831-850 | the alias found is one that the current text is inside of |
| Input.FirstIsLast | Src/input.c:822-850 | it is the most recently expanded one exactly if there is at most one |
| Input.TokensSkipped | Src/input.c:324-330 | what the reader steps over is exactly the bytes 0x84 to 0xa1 in front |
| Input.InputStack.InPush | Src/input.c:675-730 | new text goes in front of the old, or hides it; the alias is in use and no other changes |
| Input.InputStack.InputSetLine | Src/input.c:508-530 | the buffer's text is replaced and the count includes what it continues onto |
| Input.InputStack.InPopTop | Src/input.c:734-779 | the rest of the current buffer is dropped, the one below comes back as it was saved, and its alias is free again; an alias text that ends in a space sets `inalmore`, and nothing else does |
| Input.InputStack.InPop | Src/input.c:783-792 | a whole buffer and all it continues are dropped, and nothing else changes |
| Input.InputStack.InUngetc | Src/input.c:545-608 | a character read last is in front of the text again; where aliases were popped, those with nothing left to read come back, and elsewhere none |
| Input.InputStack.RePush | Src/input.c:575-600 | the entries popped at this place are live again up to the first with text left, and the text is unchanged |
| Input.InputStack.InGetc | Src/input.c:317-360 | the first character of the stream that is no token is taken off, with only used-up buffers popped on the way, or the end is reported; `inalmore` is set exactly if it was or one of the buffers popped is an alias text that ends in a space |
| Input.InputStack.InputLine | Src/input.c:366-505 | the next line becomes the buffer; the stream is unchanged |
| Input.InputStack.InputHasAlias | Src/input.c:831-850 | the alias lowest in the current text |
| Input.InputStack.ReadBack | Src/input.c:317-608 | reading a character and putting it back gives the same text, and the same depth and aliases in use exactly if all buffers passed over were expansions |
| Input.ReadPast | Src/input.c:317-779 | after any alias text has been read to its end, and one character more, `inalmore` is set exactly if the text ends in a space |
| Input.NestedAliases | Src/input.c:675-850 | for one alias inside another the alias found is the one expanded first |
| Chains.InsertWell | Src/hashtable.c:168-222 | adding keeps bucket placement and unique names, and is a map update |
| Chains.RemoveWell | Src/hashtable.c:275-310 | removing keeps them, and takes exactly one name out of the map |
| Chains.MemberIsFound | Src/hashtable.c:245-270 | the nodes of a well-placed table are exactly those that can be looked up |
| Chains.NameIsKey | Src/hashtable.c:245-270 | two nodes of the same name are the same node |
| HashTable.HashTable.GetHashNode2 | Src/hashtable.c:255-270 | the node of that name, or none |
| HashTable.HashTable.RemoveHashNode | Src/hashtable.c:275-310 | the node is taken out of the map and handed back; a scan that stood on it moves on |
| HashTable.HashTable.AddHashNode2 | Src/hashtable.c:168-222 | replaces or adds; outside scans a new node leaves the load under two |
| HashTable.HashTable.ExpandHashTable | Src/hashtable.c:458-480 | four times the size or more, the same map, and an end with nesting at most one deep |
| HashTable.HashTable.MoveChain | Src/hashtable.c:468-478 | every node of an old chain is added again, whatever becomes of its links |
| HashTable.HashTable.ScanMatchTable | Src/hashtable.c:373-440 | under any changes made by the callbacks no name comes twice, each comes in its version of the moment, and every name kept throughout comes |
| HashTable.HashTable.LookAtNode | Src/hashtable.c:424-437 | one turn of the scan keeps what is still to come |
| HashTable.HashTable.Callback | Src/hashtable.c:193-301 | whatever a callback does, the scan still comes to every name it was to come to that is not deleted |
| SortedScan.UpdateSlots | Src/hashtable.c:193-301 | a node replaced or removed is replaced by the new one or by NULL in the array of a sorted scan, and nothing else is |
| SortedScan.ScanSorted | Src/hashtable.c:389-416 | NULL is dereferenced exactly if a callback deletes a name still to come; otherwise every name comes once, in order, in its version of the moment |
| SortedScan.RemovalUnsafe | Src/hashtable.c:337-340 | deleting the next name in a callback breaks the promise of safe removal |
| Globbing.AllFound | Src/glob.c:522-726 | the matches of a pattern are exactly the existing paths that its sections denote: names the matcher accepts, or equal to a string |
| Globbing.GlobFound | Src/glob.c:593-702 | a pattern alone finds exactly the entries of the directory with a name that the matcher accepts |
| Globbing.PureFound | Src/glob.c:546-592 | a string alone finds exactly the entry of that name; an empty one the directory itself, if the path is not relative to nothing |
| Globbing.LookupLeads | Src/glob.c:293-340 | the file at a path is the one its names lead to from the root on |
| Globbing.RealBeneath | Src/glob.c:293-340 | what lies beneath a path exists only if the path is a directory |
| Globbing.CapMore | Src/glob.c:540-542 | once the limit is reached further matches do not matter |
| Globbing.Globber.Scanner | Src/glob.c:522-726 | the first matches, as many as asked for, are added; without a limit these are exactly the existing paths denoted; the path built is put back |
| Globbing.Globber.ScanString | Src/glob.c:546-592 | the branch for a plain section |
| Globbing.Globber.ReadDirectory | Src/glob.c:593-702 | the names read from a directory that match, all or up to the limit |
| Globbing.Globber.ScanSubdirs | Src/glob.c:703-718 | every directory kept is scanned in turn, up to the limit |
| Globbing.Globber.Insert | Src/glob.c:356-440 | a plain name is a match only if it exists |
| Qualifiers.ProductAccepts | Src/glob.c:1881-1918 | the product of two groups of qualifiers accepts a file exactly if both groups do |
| Qualifiers.Evaluate | Src/glob.c:402-428 | the loop accepts a file exactly if in some alternative every function succeeds where the sense is even and fails where it is odd |
| Qualifiers.DupQualList | Src/glob.c:1119-1140 | a copy of one alternative with the same tests, all of it new |
| Qualifiers.Distribute | Src/glob.c:1881-1915 | the linked result is the product in order, though its last pair is made of the old nodes |
| Qualifiers.ChainTogether | Src/glob.c:1916-1926 | without alternatives the lists put end to end are the product |
| Qualifiers.Merge | Src/glob.c:1881-1930 | the merged group admits a file exactly if both groups do |
| Ranges.InSteps | Src/glob.c:2480-2510 | a range is exactly the numbers between its ends at whole steps from the first |
| Ranges.RangeAt | Src/glob.c:2480-2510 | the numbers one by one: from the first end at whole steps towards the last, as far as they go, and the other way round for a negative increment |
| Ranges.Aligned | Src/glob.c:2491-2495 | moving the end to a whole step does not change an increasing range |
| Ranges.RangeIs | Src/glob.c:2480-2507 | the numbers the loop counts down, in the order it puts them, are the range |
| Ranges.AddNumbers | Src/glob.c:2496-2508 | the list gets those numbers, in front of or behind one another |
| Ranges.ExpandRange | Src/glob.c:2440-2510 | the node of a range is replaced by the numbers of the range, reversed for a negative increment |
| Braces.UnfoldKeeps | Src/glob.c:2565-2597 | one expansion keeps what a word stands for |
| Braces.UnfoldFewer | Src/glob.c:2565-2597 | each word it makes has fewer braces |
| Braces.MeaningJoin | Src/glob.c:2586-2591 | words after one another stand for the cross product |
| BraceLaws.MeaningTakes | Src/glob.c:2565-2597 | the strings a word stands for are exactly those made by taking one alternative of each pair of braces |
| BraceLaws.CrossAt | Src/glob.c:2565-2597 | their order: what comes later in the word varies faster |
| BraceLaws.TwoBraces | Src/glob.c:2366-2597 | `a{b,c}{d,e}` is `abd abe acd ace` |
| Braces.FlattenClosed | Src/glob.c:2372-2388 | in the text of a word braces match and every comma is inside some |
| Braces.FindClose | Src/glob.c:2372-2388 | the matching loop ends at the brace that closes the first, having seen a comma |
| Braces.NextPart | Src/glob.c:2577-2585 | an alternative ends at the first comma or brace not inside others |
| Braces.XpandBraces | Src/glob.c:2366-2597 | the node of a word is replaced by one for each alternative of its first braces |
| Braces.ExpandAll | Src/subst.c:163-187 | expanding every node as long as it has braces ends, with the cross products in order; a word empty from the start is removed, one that an expansion has made is kept |
| Metafied.MetafyRoundTrip | Src/utils.c:4856-4990 | decoding an encoded string gives the string |
| Metafied.MetafyClean | Src/utils.c:4190-4202 | an encoded string has no NUL, and no byte from 0x84 to 0xa2 |
| Metafied.MetafyPlain | Src/utils.c:4856-4990 | exactly the strings without NUL and bytes from 0x83 to 0xa2 are their own encoding |
| Metafied.MetafySlice | Src/glob.c:2645-2656 | cutting the encoding at translated indices is encoding the part |
| Substitution.FoundLeftmost | Src/glob.c:3107-3182 | the matches replaced are leftmost, each the longest (or shortest) of all spans that match at its place, with no matching span passed over |
| Substitution.FoundExtreme | Src/glob.c:3112-3136 | whichever match is to be the first, each one replaced is the longest (or shortest) of all spans that match at its place |
| Substitution.LeftmostUnique | Src/glob.c:3107-3182 | only one list of matches is like that |
| Substitution.FoundApart | Src/glob.c:3107-3182 | the matches are in order and do not overlap |
| Substitution.PassedOver | Src/glob.c:3140-3146 | what an index does for every list of matches: it stops at the first empty match |
| EmptyMatches.EmptyStaysFirst | Src/glob.c:3140-3146 | in `aa`, with a pattern that matches only nothing, the second match asked for is the first again |
| Substitution.AssembledIsSpliced | Src/glob.c:3273-3311 | replacing in the encoding by translated indices is the encoding of the replacement on bytes |
| Substitution.SplicedAround | Src/glob.c:3298-3308 | the result is what is in front of any match, replaced, then its text, then what is behind it, replaced |
| Substitution.SpliceSame | Src/glob.c:3298-3308 | replacing each match by what is there changes nothing |
| Substitution.GetMatchRet | Src/glob.c:2640-2676 | byte indices become indices into the encoding |
| Substitution.Search | Src/glob.c:3107-3178 | the first match from a place on |
| Substitution.SearchShortest | Src/glob.c:3114-3136 | trying longer and longer spans finds the shortest match |
| Substitution.FindAll | Src/glob.c:3095-3182 | the loop ends, having recorded exactly the matches to be replaced |
| Substitution.Size | Src/glob.c:3288-3296 | the size computed first is that of the result |
| Substitution.Assemble | Src/glob.c:3285-3311 | the result fills the buffer exactly, with its NUL |
| Substitution.GlobalSubstitute | Src/glob.c:2922-3311 | the string returned decodes to the one with every match replaced; each is the longest (or shortest) at its place, and none is passed over |
| Descriptors.OwnedRefused | Src/exec.c:3883-3898 | no redirection can merge from a descriptor saved or made for a split stream |
| Descriptors.AllRestored | Src/exec.c:4526-4535 | once all saved descriptors are restored the open files are those meant to be |
| Descriptors.SaveStep | Src/exec.c:2424-2445 | saving a descriptor keeps the account of all open descriptors |
| Descriptors.Shuffle | Src/utils.c:1990-2065 | so does whatever touches only descriptors still to be placed or to be restored anyway |
| Descriptors.HoldStep | Src/exec.c:2462-2496 | so does splitting a stream, or joining one more descriptor to it |
| Descriptors.ShutStep | Src/exec.c:2276-2303 | so does closing what a split stream holds |
| Descriptors.RestoreStep | Src/exec.c:4526-4535 | so does restoring one descriptor |
| Descriptors.AccountSave | Src/exec.c:2424-2445 | what is to be open stays what was open, less what was refused, plus what was leaked, when a descriptor is first asked for |
| Descriptors.TargetsJoin | Src/exec.c:2456-2497 | joining a file to a stream appends it to the stream's files |
| Plans.FineExactly | Src/exec.c:3734-3959 | a run goes well exactly if each redirection in turn finds its file or its source, and no descriptor already redirected gets a file in the other direction or one after it was split and closed |
| Plans.FineBefore | Src/exec.c:3739-3746 | a run that has stopped, or failed to place what it was handed, does not recover |
| PlanLaws.CoprocessEnds | Src/exec.c:3902-3905 | `>&p` makes a descriptor the writing end of the coprocess and `<&p` its reading end; without a coprocess they fail |
| PlanLaws.MergeCopies | Src/exec.c:3881-3906 | `>&n` makes a descriptor what `n` is, or fails if that is not open |
| PlanLaws.OrderMatters | Src/exec.c:3739-3959 | `>f 2>&1` sends both to f, `2>&1 >f` the second to where the first went before |
| PlanLaws.WritesJoin | Src/exec.c:2400-2498 | after any number of outputs of one descriptor it has all their files, in order, with MULTIOS, and the last without |
| PlanLaws.Directions | Src/exec.c:2462-2467 | an output and an input of one descriptor fail with MULTIOS; without, the last counts |
| PlanLaws.BothGo | Src/exec.c:3920-3949 | `>&f` sends a descriptor and the standard error to the file, and no other |
| PlanLaws.CloseThenOpen | Src/exec.c:3854-3880 | a descriptor that was closed can be redirected again, and one redirected can be closed |
| PlanLaws.PipelineEnds | Src/exec.c:3723-3727 | the ends of a pipeline become input and output |
| Aiming.AimPut | Src/exec.c:2400-2498 | a file placed or joined is where the plan has it, behind the pipe it has, and every other stream is as before; what the plan refuses is not placed unless the system denied something |
| Aiming.PutFits | Src/exec.c:2462-2467 | the code has reason to refuse a file exactly if the plan has |
| Aiming.AimShut | Src/exec.c:3854-3880 | a descriptor closed is as planned, its stream handed over, and the others are as before |
| Aiming.AimPass | Src/exec.c:2276-2303 | so is the source of a merge that is handed over: it keeps its end of the pipe |
| Aiming.SourceIs | Src/exec.c:3881-3906 | the source of a merge has the file planned; if none is, it is not open, the shell uses it, or it is handed over to the command |
| Aiming.LeakFiles | Src/exec.c:2345-2358 | the pipes left open by a failure are the far ends of exactly the streams that the plan has split |
| Aiming.StrayFile | Src/exec.c:2462-2498 | a file opened and not placed stays open exactly if nothing is restored in its place |
| Aiming.RunsAsAimed | Src/exec.c:3961-3965 | when all streams are handed over the command finds each descriptor as planned: a split stream has one end of its pipe, and its process the other end and the files |
| Redirection.Redirector.ZClose | Src/utils.c:2127-2150 | the descriptor is closed and unknown to the shell's table, which is cut back to its last entry in use |
| Redirection.Redirector.MoveFd | Src/utils.c:1990-2012 | a duplicate above 9 takes the place of a low descriptor, which is closed even if the system refuses |
| Redirection.Redirector.ReDup | Src/utils.c:2021-2085 | one descriptor takes another's place and is closed itself |
| Redirection.Redirector.MPipe | Src/exec.c:5159-5171 | a new pipe with its reading and its writing end above 9, unless the system refuses |
| Redirection.Redirector.PipeInto | Src/exec.c:2475-2482 | the descriptor gets the end of the pipe for its direction, and the other end is kept |
| Redirection.Redirector.AddFd | Src/exec.c:2400-2498 | the file is put in a descriptor's place, or joined to those already there, and every other descriptor stays; a stream split now has one end of a new pipe, and what will copy it the other; it fails for a stream in the other direction or closed after a split, and otherwise only if the system refuses |
| Redirection.Redirector.CloseMn | Src/exec.c:2276-2327 | a split stream is handed to a process with its files and its end of the pipe, if one can be started, and nothing of it stays open |
| Redirection.Redirector.CloseMnodes | Src/exec.c:2347-2358 | after a failure no multio is left, and exactly the pipes of the streams split are leaked, with their files |
| Redirection.Redirector.FixFds | Src/exec.c:4526-4535 | every descriptor is what it is meant to be |
| Redirection.Redirector.MergeSource | Src/exec.c:3881-3906 | a duplicate of the source; there is none exactly if the shell uses the source, it is not open, or the system refuses |
| Redirection.Redirector.OpenTwo | Src/exec.c:3922-3943 | the file and a duplicate of it above 9, or neither, which is so only if the file is not there or the system refuses |
| Redirection.Redirector.PutBoth | Src/exec.c:3945-3949 | with nothing denied both are placed exactly if the plan has room for both, and otherwise exactly the files that the plan says are leaked |
| Redirection.Redirector.CloseFd | Src/exec.c:3854-3880 | the descriptor is closed, and lost exactly if it was open, untouched and the system refused a duplicate |
| Redirection.Redirector.RedirectOne | Src/exec.c:3734-3959 | one step of the plan: the descriptor's files afterwards are those meant; with nothing denied it fails exactly where the plan stops and leaks exactly what the plan does; on failure everything else is undone |
| Redirection.Redirector.RedirectAll | Src/exec.c:3734-3959 | the same for any list of redirections: after the loop each descriptor's files are those of its redirections in order, all with MULTIOS and the last without, and closed ones are not open |
| Redirection.Redirector.CloseStreams | Src/exec.c:3961-3965 | each split stream is handed over with its files and its end of the pipe, in order, and the descriptors below 10 stay |
| Redirection.Redirector.Redirect | Src/exec.c:3723-3965 | the command runs with each descriptor's files as its redirections say, a split one tied by a pipe to its process; with nothing denied it fails exactly where the plan does |
| Redirection.Redirector.RunBuiltin | Src/exec.c:3723-3965 | afterwards the open files are exactly those of before, without what was handed over and those whose first duplicate was refused, and with what a failure leaked; every descriptor of before that is not lost has its file, after failures too; with nothing denied success and the leaked files are exactly those of the plan |
| Coprocess.ToCoprocess | Src/exec.c:3902-3905 | while a command with `>&p` or `<&p` runs its descriptor is that end of the coprocess; with nothing denied it fails exactly if there is none |
| Redirection.PipeStaysOpen | Src/exec.c:2347-2358 | after `>a >b <c` without `c` the open files are those of before and the reading end of the pipe made for the split output |
| Redirection.FailureLeavesPipe | Src/exec.c:2347-2358 | the plan of that command stops, and leaves just that end of the pipe open |
| Redirection.ClosedTakesNothing | Src/exec.c:2300-2304 | the plan of `>a >b >&- >c` stops, and leaves nothing open |
| Redirection.ClosedStreamFails | Src/exec.c:2300-2304 | that command fails, and the open files are those of before |
| Redirection.CloseRefused | Src/exec.c:3858-3867 | where every duplicate is refused, closing any open descriptor for a command goes well and leaves it closed for good |
| Redirection.ClosedForGood | Src/exec.c:3858-3867 | after `>&-` with every duplicate refused the command has run and descriptor 1 is not open |
| FixDir.WalkResolves | Src/builtin.c:1334-1398 | exactly when every directory gone back over is one, the path is that of the resolved components; otherwise links are to be chased |
| FixDir.WalkStops | Src/builtin.c:1358-1373 | where a path gone back over is no directory, the rest of the path stays as it is, from the first such `..` on, behind what the components before it lead to |
| FixDir.WalkKeepsDots | Src/builtin.c:1355-1357 | with CHASEDOTS each `..` is kept as a component, and links are chased exactly if there is one |
| FixDir.ResolveCancels | Src/builtin.c:1293-1297 | anywhere in a path `.` and a component with `..` behind it can be left out, and at the root `..` |
| FixDir.Idempotent | Src/builtin.c:1293-1297 | normalising a normalised path changes nothing |
| FixDir.NormalForm | Src/builtin.c:1293-1297 | a normalised path has no `.`, `..`, doubled slash, or slash at its end |
| FixDir.FixDir | Src/builtin.c:1300-1400 | the buffer ends up with the normalised path, decoded, and its NUL; the flag says whether to chase links, which is so exactly if a path gone back over is no directory, or with CHASEDOTS if there is a `..` |
| FixDir.GoBack | Src/builtin.c:1358-1388 | `..` takes the last component off, or stops with the rest decoded if it is no directory |
| FixDir.CopySegment | Src/builtin.c:1394-1398 | a component is copied decoded, the writing never passing the reading |
| LinkLists.LinkList.InsertLinkNode | Src/linklist.c:133-148 | the list with one entry more at the place |
| LinkLists.LinkList.RemNode | Src/linklist.c:251-266 | the list without the entry, which is handed back |
| LinkLists.LinkList.GetLinkNode | Src/linklist.c:210-227 | the first entry taken off, none from an empty list |
| LinkLists.LinkList.RollList | Src/linklist.c:317-325 | the list rotated to the node |
| LinkLists.LinkList.InsertLinkList | Src/linklist.c:190-205 | the entries of one list within another |
| LinkLists.LinkList.CountLinkNodes | Src/linklist.c:304-312 | the number of entries |
| LinkLists.JoinLists | Src/linklist.c:360-377 | the entries of both lists in the first; the second header left pointing nowhere if it had any |
| LinkLists.NoList | Src/linklist.c:374 | such a header is no list |
| DirStack.PushdRotates | Src/builtin.c:890-910 | `pushd` with an index rotates the current directory and the stack to the entry |
| DirStack.PopdDeletes | Src/builtin.c:931-938 | `popd` with an index other than zero deletes the entry and stays |
| DirStack.PopdTop | Src/builtin.c:931-955 | `popd` goes to the top of the stack and takes it off |
| DirStack.CdExtracts | Src/builtin.c:1196-1204 | `cd` with an index goes to the entry and takes it out; with AUTO_PUSHD the others stay, otherwise the first of them goes |
| DirStack.NamedKeeps | Src/builtin.c:904-907 | `cd` and `pushd` to a name: whether the old directory stays on the stack |
| DirStack.HomeIsNamed | Src/builtin.c:883-889 | without an argument home is a name like any other, and a failure if it is not set |
| DirStack.CdReaches | Src/builtin.c:907-958 | `cd` ends in the directory named, or home, under the name settled for, and where it cannot be changed to the stack stays |
| DirStack.PushdExchanges | Src/builtin.c:879-882 | `pushd` alone exchanges the two top directories |
| DirStack.CutLeaves | Src/builtin.c:1218-1273 | the first duplicate of the new directory goes with PUSHD_IGNORE_DUPS; of the rest DIRSTACKSIZE leaves a front, one less than it or than two |
| DirStack.FailureKeeps | Src/builtin.c:943-950 | exactly when a failed change leaves the stack as it was |
| DirStack.Shell.FindEntry | Src/builtin.c:895-903 | the entry an index names, from either end, or none |
| DirStack.Shell.Prepare | Src/builtin.c:873-941 | the list and the entries to change to and to take off, for every command and argument |
| DirStack.Shell.CdGetDest | Src/builtin.c:868-959 | with the change of directory made, or undone as far as the code undoes it |
| DirStack.Shell.CdNewPwd | Src/builtin.c:1190-1275 | the new directory and stack, duplicates and excess removed |
| DirStack.Shell.BinCd | Src/builtin.c:843-863 | the whole command: new directory, old directory and stack, or the failure; `cd -` goes to the old directory, `cd` alone home, and after a failure of `cd` all is as before |
| HistoryKeys.HistStrCmp | Src/hashtable.c:1396-1423 | zero exactly for lines of which the same counts |
| HistoryKeys.CompareFrom | Src/hashtable.c:1407-1422 | the loop compares lines with each run of blanks as one |
| HistoryKeys.HistHasher | Src/hashtable.c:1365-1382 | the hash of what counts in a line, modulo 2^32 |
| HistoryKeys.EqualHashes | Src/hashtable.c:1365-1423 | lines that compare equal hash alike |
| HistoryKeys.TrailingBlank | Src/hashtable.c:1371-1377 | a blank at the end changes the comparison and not the hash |
| HistoryWords.KeyIsWords | Src/hashtable.c:1396-1423 | blanks in front do not count, those behind a word count as one space, however many and of whatever kind |
| HistoryWords.SameWords | Src/hashtable.c:1396-1423 | lines compare equal exactly if they have the same words, and both or neither blanks at the end |
| HistoryWords.Parse | Src/hashtable.c:1396-1423 | every line is blanks and then words with blanks between them |
| HistoryWords.HashIsBase33 | Src/hashtable.c:1365-1382 | a hash is the number that the string is in base 33, in 32 bits |
| HistoryWords.HashOfWords | Src/hashtable.c:1365-1382 | what is hashed is the words with one space between them |
| ReadOutput.NewlinesAtEnd | Src/exec.c:4858-4859 | newlines at the end of the encoding are newlines at the end of the output: without them it encodes the output without them |
| ReadOutput.ChunkInPlace | Src/exec.c:4823-4848 | what is read is each chunk right behind the one before |
| ReadOutput.Output.Add | Src/exec.c:4832-4847 | a byte is added encoded, and the doubling buffer always has room for the next and the NUL |
| ReadOutput.Output.Finish | Src/exec.c:4858-4867 | all newlines at the end go and nothing else, the NUL is set, and nothing in quotes is a null argument |
| ReadOutput.ReadAll | Src/exec.c:4808-4867 | however the output is split into reads, all chunks before the first end or error are some bytes and then newlines only; the string decodes to these bytes, which do not end in a newline, and has no NUL or token |

## Left out

- The parser and lexer: programs and conditions are trees, laid out as the parser lays them out.
- Pipelines of several commands, forking, jobs, signals and terminals: a pipeline is one command of arbitrary status.
- Loops, `if`, `case`, `always`, subshells and coprocesses in the executor, and DEBUG, ZERR and EXIT traps.
- Redirections and assignments of simple commands in the executor; XTRACE output and line numbers.
- Executor.Shell.DoShFunc: a FUNCNEST below zero (no limit) is not modelled, because the limit is what bounds the recursion of the model.
- Slots.SafeExactly: of slots numbered 32 or more it says what `Conditions.Actual` gives, which is not shown to be what the evaluator computes.
- Slots.SlotReadAsNot: the same.
- Slots.SlotLayout: slots numbered 32 or more, and left operands further down that end in such a test.
- Executor.Shell.EvalCond: a left operand that ends in a slot numbered 32 or more, whose word is taken for some other test than a negation, with operands taken from whatever words follow.
- `inputline` with INP_APPEND, the prompt, history words and the line number of the input stack.
- Freeing of memory in every engine.
- A scan started inside a scan, and emptying a table during a scan; the order of a sorted scan is a parameter.
- The cache of directories (`dircache_set`), the hash functions of other tables, and the reading of lines from a file (`shingetline`).
- `(section/)##` in path patterns: the code changes the pattern for good the first time it is used.
- Symbolic links, the sections `.` and `..`, approximate matching, and the detour by `chdir` for paths longer than PATH_MAX.
- Reading of qualifiers, sorting and colon modifiers; `gmatchcmp`, whose order is not transitive.
- `hasbraces` other than for words with a comma in every pair of braces: character ranges, BRACE_CCL, and unmatched braces.
- Braces.ExpandAll: words in places where no list can stand, which are neither expanded nor removed, and the other substitutions made in the same loop.
- Ranges.ExpandRange: numbers are unbounded, where the code has 64 bits for the ends and 32 for the increment; reading and padding of the numbers is a parameter.
- Substitution.GlobalSubstitute: end-of-string assertions in patterns, whose flag the code leaves set after a search for the shortest match; single and tail matches, and the list form SUB_LIST.
- Redirections with `{varid}`, of a forked command, and `exec` without a command; here-documents and the opening of files for writing beyond success or failure.
- Redirection.Redirector.RunBuiltin: for a merge whose source is a descriptor handed over to the same command, or with a coprocess whose descriptors are not the shell's own, success is not said to be required.
- Redirection.Redirector.Redirect: what the processes of split streams pass on is not modelled, only the ends of pipes and files they have; where the system denied something, nothing is said of a run that merges from a split stream.
- FixDir.FixDir: relative paths, the superroot and Cygwin variants, and paths with a NUL.
- `cd` with two arguments, the reading of an index argument, `cdpath`, and the names found by chasing links and by asking the system: parameters of the directory stack.
- Splitting of command output into words.
- `typeset`, `print`, `read`, the history ring, modules and the line editor.
