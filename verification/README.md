# Verified models of the C shell and of dd record conversion

A Dafny model of the in-memory machinery of the C shell (`bin/csh`) and of the record conversion of `dd` (`bin/dd`), with
proofs of what that machinery is for. `dafny verify dfyconfig.toml` checks the whole of it.

| files | what they model |
|---|---|
| `Words`, `VarTree`, `VarHeap`, `VarBalance`, `VarStore` | the variable and alias store: heap cells with parent links and balance factors, one rebalancing loop for insertion and deletion, pattern deletion, the stackless walk |
| `DdSpec`, `DdConv` | `conv=block` and `conv=unblock` on dd's two buffers, under any pattern of short reads and writes |
| `DirStack`, `Jobs` | the directory ring with reference counts, and the job table: process rings, job indices, current and previous job |
| `PathCanon` | the path canonicaliser, in place on a NUL-terminated array |
| `Grammar`, `Clauses`, `Parser`, `Phrases`, `Spelling`, `Plumbing`, `PlainLines`, `AliasScan` | the command grammar, the recursive-descent parser with its two-pass reader of simple commands, and what a parse keeps |
| `Braces`, `BraceWork`, `Matching` | brace expansion with its in-place work list, and the pattern matcher |
| `Expressions`, `Operators`, `Numbers` | the expression evaluator with its ignore flag, its operators by their spelling, and the shell's 32-bit numbers |
| `LexBuffer`, `ExecHash` | the re-seekable input buffer, and the command hash table |

Every layer has a reference that does not mention the program: a finite map for the store, a whole-stream function for each dd
conversion, a list for the directory ring, a component stack for paths, a grammar for command lines, a denotation for brace
patterns and for globs, short-circuit evaluation of a tree and plain arithmetic for expressions, a plain stream with a place for the input buffer, and
the unhashed linear search for commands. What the program does step by step is proved equal to it for all inputs and, where there
is state, over all runs (`VarStore.Replay`, `Jobs.Drive`, `LexBuffer.Bin.Drive`, `DdConv.BlockStream`).

Where the program turned out not to do what one would expect, the model keeps the program and states the exact condition:

- `conv=block,osync` pads from in front of the last record when the input ends in an unterminated line. The manual page promises
  the last block filled up with spaces. That is what is written exactly when there is no such line, or its record ends a block, or
  the record does not reach the end of its block and both the bytes the padding overwrites and the bytes it misses are spaces
  already; the missed bytes are the end of the block before (`DdConv.BlockStreamOsync`). One input on which data is lost
  is `DdConv.OsyncLosesTail`, one on which old data is written again is `DdConv.OsyncRepeatsBytes`.
- `block` translates every line but an unterminated last one shorter than a record (`DdSpec.TranslationLaw`).
- The canonicaliser leaves the literal path `/.` behind exactly when the last component is a `.` that nothing precedes
  (`PathCanon.LoneDot`), and from that directory a relative path keeps the dot in front (`PathCanon.BehindRootDot`).
- The number of truncated records that `conv=block` reports is that of the records longer than the record size exactly when the
  input does not end in an unterminated record that is not longer, and no read ends right before the newline of a line that just
  fills a record (`DdConv.BlockStream`, `DdConv.Miscounted`).
- Two or more stars at the end of a pattern mean what `?*` means (`Matching.MatchIsGlob`), and an element that accepts the end of
  the string, such as a negated class, makes the matcher read on behind it (`Matching.AskIsMatch`, `Matching.NegatedOverrun`).
- In a class the manual makes a range of a pair of characters with a dash between them. The program divides a class into ranges
  and single characters in that way exactly when no dash stands right behind `[^` or a finished range, the last place of the class
  and ranges that end in `[` apart, and no range starts with `[` or runs backwards (`Matching.ReadsAlike`,
  `Matching.PatternReadsAlike`). So `[[-z]` does not have `a` (`Matching.BracketRange`), `[^-x]` has `-` (`Matching.NegatedDash`),
  `[a-c-e]` has no `-` (`Matching.ChainedRanges`) and `[z-a]` has `z` (`Matching.BackwardsRange`); in `[a-c-d-]` the difference
  does not show (`Matching.NoDifference`).
- The side of `||` or `&&` that does not count is never forked, but it is read: it must glob, have numbers where numbers belong, and
  name no operator for a file (`Expressions.RunIsMeaning`, `Expressions.ReadableIsRun`). So `1 || foo` is an error
  (`Expressions.DeadSideIsRead`).
- Of two output redirections of one command the first file is forgotten, and `>>` on either makes the other append
  (`PlainLines.ParseTwoOutputs`); a second input redirection is an error (`PlainLines.ParseTwoInputs`).
- The manual page has all operators group to the right. All do but the equalities: of two in a row the second is left unread
  (`Operators.CalculateChain`).
- The manual page reads a number that starts with 0 in octal. The program reads it in decimal, which is the same exactly if only the
  last digit counts (`Numbers.OctalIsDecimal`); `010` is ten (`Numbers.LeadingZero`).
- A line whose parentheses close more than they open may hand the parser a group without an end: the outcome `Lost`, which is
  excluded for all other lines. The line `> ) (` does (`Parser.LostLine`). The scan for aliases, which every caller runs first,
  rejects such lines (`AliasScan.ParseLine`).

## Model

| member | source | states |
|---|---|---|
| `Words.ScanCompare` | bin/csh/str.c:243-261 | the scanning loop returns the difference at the first place where the words differ, the end of a word collating lowest |
| `Words.StopIsCommonPrefix` | bin/csh/str.c:243-261 | the scan stops exactly at the length of the longest common prefix |
| `Words.CompareNames` | bin/csh/set.c:424-437 | the comparison made by the loops of lookup and assignment: zero exactly on equal names, else first-unit difference before `s_strcmp` |
| `Words.CmpZeroIffEqual` | bin/csh/set.c:481-482 | the comparison is zero exactly on equal names |
| `Words.CmpAntisymmetric` | bin/csh/set.c:481-482 | swapping the names reverses the sign |
| `Words.CmpTransitive` | bin/csh/set.c:481-482 | the order is transitive, although shorter words and negative units collate differently at the first unit and after it |
| `Words.LessIsStrictTotalOrder` | bin/csh/set.c:481-482 | the comparator is a strict total order |
| `Words.LessIsPrecedes` | bin/csh/str.c:243-261 | that order is the one by the first unit that differs, a word before its extensions; only at the first unit do negative units come before the end |
| `Words.TrimmedOnce` | bin/csh/glob.c:532-540 | trimming is fixed unit by unit: the vector keeps its length and order, every word is cut at its first bare quote mark and loses its quote bits; vectors without quote bits stay as they are |
| `VarTree.RightHeavyAvl` | bin/csh/set.c:686-718 | a step on a right-heavy node gives an exactly balanced node, whose height tells whether the loop may stop |
| `VarTree.LeftHeavyAvl` | bin/csh/set.c:719-751 | the mirror image for left-heavy nodes |
| `VarTree.RightHeavyContents` | bin/csh/set.c:686-718 | the step keeps the bindings in order and the same cells |
| `VarTree.LeftHeavyContents` | bin/csh/set.c:719-751 | the mirror image |
| `VarTree.AvlPlug` | bin/csh/set.c:663-759 | a store is balanced exactly if the subtree in the hole is and every step of the path above accounts for its height |
| `VarHeap.RotateLeft` | bin/csh/set.c:642-647 | `rleft` on the heap: links and parent links become those of the rotated tree, nothing else changes |
| `VarHeap.RotateRight` | bin/csh/set.c:636-641 | `rright`, likewise |
| `VarHeap.Locate` | bin/csh/csh.h:408-417 | every cell of a linked store is the root of a subtree at the end of some path |
| `VarBalance.FixRight` | bin/csh/set.c:686-718 | the right-heavy half of a step, single and double rotation, with the factors taken from the middle cell |
| `VarBalance.FixLeft` | bin/csh/set.c:719-751 | the left-heavy half |
| `VarBalance.FixedIsPending` | bin/csh/set.c:752-757 | stopping early is right exactly when the subtree's height is what the rest of the path expects, for insertion and for deletion; otherwise the same work is pending one level up |
| `VarBalance.BalanceStep` | bin/csh/set.c:684-751 | one turn of the loop performs that step on the heap and hangs the result where the node was |
| `VarBalance.Balance` | bin/csh/set.c:663-759 | started at the owner of a changed link, the loop ends with every factor in -1..1 equal to the height difference, parent links exact, bindings and cells unchanged |
| `VarStore.Store.Adrof1` | bin/csh/set.c:424-437 | lookup finds the cell of a name exactly if the name is bound |
| `VarStore.Store.Setq` | bin/csh/set.c:473-497 | the store stays an AVL search tree with exact parent links and denotes the old map with the vector under the name, word for word without quote bits |
| `VarStore.Store.Unsetv1` | bin/csh/set.c:541-581 | deletion, with two children by copying the predecessor up, removes exactly that name and keeps the tree |
| `VarStore.ExcisePredecessor` | bin/csh/set.c:561-581 | copying the predecessor's name and vector up and excising its cell drops exactly the overwritten binding |
| `VarStore.Excise` | bin/csh/set.c:569-581 | unlinking a cell with at most one child and rebalancing from its parent drops exactly its binding |
| `VarStore.Madrof` | bin/csh/set.c:410-422 | the first name in order that the pattern matches, or none |
| `VarStore.Store.UnsetMatching` | bin/csh/set.c:516-529 | the loop for one pattern terminates having removed exactly the names the pattern matches |
| `VarStore.Store.Unset1` | bin/csh/set.c:516-529 | all patterns of the command: exactly the names some pattern matches are gone |
| `VarStore.Store.Plist` | bin/csh/set.c:761-798 | the walk over child and parent links terminates and lists every binding of the map exactly once, in the order of the names |
| `VarStore.HistoryIsLastWord` | bin/csh/set.c:473-581 | after any history of sets and unsets a name is bound exactly to what was last said about it |
| `VarStore.Replay` | bin/csh/set.c:410-581 | any history run against an empty store, then a lookup: the answer is the vector of the last command about the name, if that set it, without quote bits, and otherwise nothing |
| `VarStore.LastWordAnswers` | bin/csh/set.c:473-581 | the same of the reference: word for word the vector last assigned with no matching unset behind it |
| `DdSpec.RunConcat` | bin/dd/conv.c:112-195 | the record automaton may be fed in pieces |
| `DdSpec.RunIsBlocked` | bin/dd/conv.c:105-215 | the automaton computes the whole-stream function: one cut or padded record per line, and one for an unterminated last line |
| `DdSpec.TranslationLaw` | bin/dd/conv.c:198-215 | blocking with a table gives the translation of what blocking without one gives, exactly when the unterminated tail is at least a record long or the table leaves all of it alone |
| `DdSpec.LinesConcat` | bin/dd/conv.c:217-256 | lines made from whole records do not depend on what is read later |
| `DdSpec.UnblockedIsLines` | bin/dd/conv.c:217-276 | whole records as lines, then a short last record as a line |
| `DdSpec.RoundTrip` | bin/dd/conv.c:112-276 | unblocking the blocked stream gives every line cut to the record size and stripped of trailing spaces |
| `DdSpec.CutLinesIdentity` | bin/dd/conv.c:112-276 | that is the stream itself exactly when every line is terminated, fits a record and does not end in a space |
| `DdSpec.TallyConcat` | bin/dd/conv.c:164-186 | the records counted as truncated are the same however the text is read, but for one more whenever a read ends between a line that just fills a record and its newline |
| `DdSpec.TallyIsLonger` | bin/dd/conv.c:171-178 | those counted in one read are the records longer than the record size, and an unterminated one that just fills it |
| `DdConv.Dd.Read` | bin/dd/dd.c:279-313 | a read appends its bytes behind the carried line and counts them |
| `DdConv.Dd.WriteBlock` | bin/dd/dd.c:368-396 | one block is written completely under any pattern of short writes |
| `DdConv.Dd.DdOut` | bin/dd/dd.c:342-405 | whole blocks leave the buffer in order and the rest moves to its front: nothing is lost or repeated |
| `DdConv.Dd.SkipPrelude` | bin/dd/conv.c:127-139 | a cut line that crosses reads is skipped to its newline, as the automaton does |
| `DdConv.Dd.CopyLine` | bin/dd/conv.c:146-154 | copies, translated, up to the newline or the record size |
| `DdConv.Dd.ConsumeLine` | bin/dd/conv.c:164-186 | the line is consumed to its newline, or the truncation state is entered at the end of the buffer; it is counted as truncated exactly if it is longer than a record or the buffer ends where the record is full |
| `DdConv.Dd.Block` | bin/dd/conv.c:112-195 | on any chunk the buffers and the truncation flag move exactly as the automaton does, and exactly the truncated records of the text gone through are counted |
| `DdConv.Dd.BlockClose` | bin/dd/conv.c:197-215 | the unterminated line becomes a last record, copied as it is and counted as truncated |
| `DdConv.Dd.Unblock` | bin/dd/conv.c:224-256 | whole records become lines and a partial record is carried over |
| `DdConv.Dd.UnblockClose` | bin/dd/conv.c:258-276 | a short last record becomes a line |
| `DdConv.BlockStream` | bin/dd/conv.c:112-215 | for every way of cutting the input into reads, the bytes written are the blocked form of the whole input; the number of truncated records is exactly what is stated above, and never too low |
| `DdConv.Miscounted` | bin/dd/dd.1:183-185 | a line that just fills a record, read in two pieces, is reported as truncated |
| `DdConv.UnblockStream` | bin/dd/conv.c:224-276 | for every way of cutting the input into reads, the bytes written are the unblocked form of the translated input |
| `DdConv.BlockThenUnblock` | bin/dd/conv.c:112-276 | both passes under any chunking give every line cut and stripped; the input comes back exactly when it fits |
| `DdConv.Dd.CloseBlockOsync` | bin/dd/dd.c:322-340 | what is written at the end with `osync`, byte for byte: padding in its place without an unterminated line; none when the last record passes the end of a block; otherwise spaces over that record and the old bytes behind them. It is the output filled up with spaces to whole blocks exactly under the condition given above |
| `DdConv.BlockStreamOsync` | bin/dd/dd.c:322-340 | the same, in every case, for a whole input under any reads and writes, with the bytes missed read off the blocked output before them |
| `DdConv.OsyncLosesTail` | bin/dd/dd.1:249-254 | one unterminated byte that is not a space is overwritten, for every such byte |
| `DdConv.OsyncRepeatsBytes` | bin/dd/dd.1:249-254 | four lines and an unterminated space, blocks of 8 and records of 2: six spaces and then the end of the block before, for all such lines |
| `DirStack.Unlink` | bin/csh/dir.c:581-582 | taking an entry out leaves the links mutually inverse around the remaining ring |
| `DirStack.LinkAfter` | bin/csh/dir.c:491-494 | linking an entry in behind another, likewise |
| `DirStack.SwapIn` | bin/csh/dir.c:363-366 | a new entry takes over another's links |
| `DirStack.BackwardsSwap` | bin/csh/dir.c:489-494 | relinking the entry below the top swaps the first two of the ring read backwards |
| `DirStack.BackwardsTurn` | bin/csh/dir.c:501-519 | moving the current entry `n` places back rotates the list |
| `DirStack.BackwardsLeave` | bin/csh/dir.c:346-357 | dropping the current entry and going on `n` places back drops the head and rotates |
| `DirStack.Dirs.constructor` | bin/csh/dir.c:125-131 | the ring of the starting directory alone |
| `DirStack.Dirs.Dfind` | bin/csh/dir.c:541-547 | `+n` is the entry `n` places down the list, or an error exactly when the stack is not that deep |
| `DirStack.Dirs.PushdSwap` | bin/csh/dir.c:480-495 | `pushd` swaps the top two, and changes nothing when there is one entry or the change of directory fails |
| `DirStack.Dirs.PushdTurn` | bin/csh/dir.c:501-519 | `pushd +n` rotates the list |
| `DirStack.Dirs.PushdNew` | bin/csh/dir.c:507-519 | `pushd dir` conses a fresh entry |
| `DirStack.Dirs.Popd` | bin/csh/dir.c:555-605 | `popd` drops the head, and frees it exactly if no job refers to it |
| `DirStack.Dirs.PopdAt` | bin/csh/dir.c:555-605 | `popd +n` removes the `n`th entry, freed exactly if no job refers to it |
| `DirStack.Dirs.CdTurn` | bin/csh/dir.c:346-357 | `cd +n` drops the old head and rotates |
| `DirStack.Dirs.CdNew` | bin/csh/dir.c:358-368 | `cd dir` replaces the head, and frees it exactly if no job refers to it |
| `DirStack.Dirs.Hold` | bin/csh/proc.c:484-485 | a job head adds one reference to the current directory |
| `DirStack.Dirs.Release` | bin/csh/proc.c:239-241 | reaping a job head takes one away, and frees the entry exactly if it was the last and the entry is off the ring |
| `DirStack.Dirs.OnRingIff` | bin/csh/dir.c:598-600 | an entry that is alive has a null `di_next` exactly when it is off the ring |
| `Jobs.RingsPartition` | bin/csh/proc.c:468-484 | the friends rings of a valid table are equal or disjoint |
| `Jobs.LeaderIsFirst` | bin/csh/proc.c:468-484 | a live ring has exactly one leader |
| `Jobs.FindLeader` | bin/csh/proc.c:398-399 | following `p_friends` ends at the leader |
| `Jobs.FlushRing` | bin/csh/proc.c:404-408 | the flushing loop clears index and pid of the whole ring and of nothing else |
| `Jobs.Pgetcurr` | bin/csh/proc.c:1196-1211 | the most recent other job that is stopped, failing that the most recent other job |
| `Jobs.GatherFlags` | bin/csh/proc.c:136-145 | one walk round the ring collects the flags of all its members, and marks as timed exactly those over the limit that neither run nor are stopped |
| `Jobs.JoinRing` | bin/csh/proc.c:472-478 | the new process becomes the last of the job's ring |
| `Jobs.FreeIndex` | bin/csh/proc.c:491-500 | the smallest index that no process uses |
| `Jobs.MaxIndex` | bin/csh/proc.c:409-414 | the largest index in use |
| `Jobs.Table.Palloc` | bin/csh/proc.c:447-510 | a new process, running, in the foreground unless followed by `&`, with timing and pipe flags as its command calls for and no others, joins the job under construction or starts one with an unused index, a mark if one is free, and a reference to the current directory |
| `Jobs.Table.Pclrcurr` | bin/csh/proc.c:421-436 | the job loses its mark, the previous job moves up, and what is missing then goes to the most recent other job that is stopped, failing that the most recent other job; the two marks stay distinct leaders |
| `Jobs.Table.Pflush` | bin/csh/proc.c:388-415 | the whole job of a process is flushed, loses marks and index, and `pmaxindex` is again the largest index |
| `Jobs.Table.Pflushall` | bin/csh/proc.c:373-381 | afterwards no process, mark or index is left |
| `Jobs.Table.Pprint` | bin/csh/proc.c:660-665 | printing changes one thing: a timed process alone in its job has its timing made the job's |
| `Jobs.Table.Pstart` | bin/csh/proc.c:1099-1124 | members that ran or were stopped run, in the foreground exactly if asked, the others stay as they are; the marks of a job put in the background go where `pclrcurr` sends them, and the job is printed, with what that changes; no flag is otherwise touched |
| `Jobs.Table.Donotify` | bin/csh/proc.c:1216-1224 | the job found is marked to be reported at once, and nothing else changes |
| `Jobs.Table.SetStatus` | bin/csh/proc.c:109-135 | the flags become those the status dictates, exactly one of the six states among them |
| `Jobs.AfterMeans` | bin/csh/proc.c:109-135 | stopped, interrupted, killed by another signal, exited with 0 or with another code: the process shows exactly that state, dumped core if it did |
| `Jobs.Table.Record` | bin/csh/proc.c:106-150 | the process shows the state its status dictates and is in the background, no other changes state, and the job's flags are those of its members |
| `Jobs.Table.Remark` | bin/csh/proc.c:151-165 | stopped members are reported; a stopped job becomes the current one and the current one the previous; a job that is over loses its marks |
| `Jobs.Table.SettleJob` | bin/csh/proc.c:151-193 | beyond that, a background job is flushed as a whole, left for a note, or kept, as notification and its flags demand, with every flag, index and mark fixed |
| `Jobs.Table.Pchild` | bin/csh/proc.c:102-193 | any status for any pid keeps the table valid and changes the state of no other process. While another member runs or has been reported, no mark, index or pid changes. Otherwise a stopped job becomes the current one and the current one the previous; a job that is over loses its marks as `pclrcurr` has it, and in the background is flushed exactly if notification is wanted, else left for a note |
| `Jobs.Table.Announce` | bin/csh/proc.c:166-192 | which jobs are flushed, noted or kept, and every flag that changes |
| `Jobs.Table.Pendjob` | bin/csh/proc.c:626-644 | the job under construction is complete |
| `Jobs.Table.Reap` | bin/csh/proc.c:223-247 | exactly the flushed processes leave the list, and every job head among them gives back its directory |
| `Jobs.KeptParts` | bin/csh/proc.c:233-245 | what stays of a list is what stays of its parts, in order, and of one process itself exactly if it has a pid |
| `Jobs.Table.Promises` | bin/csh/proc.c:388-510 | in a valid table: rings partition the list, are flushed only as a whole, have one leader; live jobs have distinct indices; directory counts are exact |
| `Jobs.Drive` | bin/csh/proc.c:76-644 | any run of forks, statuses with any processes over their time limit, flushes, restarts, notify requests, reaping, cd, pushd and popd from an empty table keeps all of that |
| `PathCanon.FinalIsNormalForm` | bin/csh/dir.c:643-843 | the result has no empty, `.` or `..` component and no trailing slash, the root and `/.` apart; it names the same components as the path; canonicalising again changes nothing |
| `PathCanon.WayLaws` | bin/csh/dir.c:643-843 | a name and a `..` behind it cancel, `.`, an empty component, a trailing slash and a `..` at the root are nothing, anywhere in any path |
| `PathCanon.WayOfNames` | bin/csh/dir.c:643-843 | a path of proper names leads along these names |
| `PathCanon.LoneDot` | bin/csh/dir.c:670-671 | the result is `/.` exactly when the last component is a `.` that nothing precedes |
| `PathCanon.FlushSlashes` | bin/csh/dir.c:644-649 | extra slashes are closed up in place without changing the path's meaning |
| `PathCanon.FindEnd` | bin/csh/dir.c:650-657 | the component is cut off at its slash |
| `PathCanon.EmptyComponent` | bin/csh/dir.c:659-663 | a trailing slash goes, unless it is the whole path |
| `PathCanon.DotComponent` | bin/csh/dir.c:664-672 | a `.` goes, unless it ends the path directly under the root |
| `PathCanon.DotDotComponent` | bin/csh/dir.c:749-761 | a `..` goes with the component before it |
| `PathCanon.NormalComponent` | bin/csh/dir.c:840-841 | any other component stays and its slash is put back |
| `PathCanon.Dcanon` | bin/csh/dir.c:643-843 | the loop terminates and leaves the canonical path in the buffer, from any point behind non-empty components, which are taken as they are |
| `PathCanon.BehindRootDot` | bin/csh/dir.c:372-402 | behind the directory `/.` the dot stays in front of the canonical rest, until a `..` climbs past it; then the result is that from the root |
| `PathCanon.Canonicalise` | bin/csh/dir.c:612-843 | for every absolute path the buffer ends up with its canonical form, which is a fixed point and leads where the path leads |
| `Grammar.SimpleTidy` | bin/csh/parse.c:466-641 | a simple command is balanced and has no separator outside parentheses but the `&` of `>&` |
| `Grammar.InfixCut` | bin/csh/parse.c:340-402 | a phrase with `\|\|` or `&&` in the open can only be cut at the first of them |
| `Grammar.PipelineCut` | bin/csh/parse.c:417-452 | a pipeline can only be cut at its first `\|` in the open |
| `Grammar.SequenceCut` | bin/csh/parse.c:301-333 | a sequence can only be cut at its first `;` or newline in the open |
| `Grammar.LineCut` | bin/csh/parse.c:235-294 | a line can only be cut at its first `&` in the open that no `>` or `\|` precedes |
| `Clauses.CountWords` | bin/csh/parse.c:499-540 | the first pass computes the sum of the words' weights, which is never negative |
| `Clauses.CountRedirection` | bin/csh/parse.c:499-540 | a redirection never lowers the count below what the second pass writes |
| `Clauses.Output` | bin/csh/parse.c:566-593 | `>` with its modifiers and name is taken exactly as the grammar allows in this context, and is an error otherwise; where the pass goes on does not depend on errors before |
| `Clauses.Input` | bin/csh/parse.c:595-615 | `<` likewise |
| `Clauses.Fill` | bin/csh/parse.c:541-628 | every write of the second pass is inside the vector sized by the first and leaves room for the null; the pass gathers exactly the items of the clause, or errs exactly when there is no such clause |
| `Parser.Syntax` | bin/csh/parse.c:218-228 | sound, complete and unambiguous for sentences |
| `Parser.Syn0` | bin/csh/parse.c:235-294 | likewise for lines with `&`, and for unbalanced ones an error |
| `Parser.Syn1` | bin/csh/parse.c:301-333 | likewise for sequences with `;` |
| `Parser.SynInfix` | bin/csh/parse.c:340-402 | likewise for `\|\|` and `&&`, the functions `syn1a` and `syn1b` |
| `Parser.Syn2` | bin/csh/parse.c:417-452 | likewise for pipelines, with `\|&` |
| `Parser.Syn3` | bin/csh/parse.c:466-641 | likewise for simple commands and subshells; with nested parentheses the subshell always has an end |
| `Parser.Parse` | bin/csh/csh.c:1094-1096 | a line is accepted exactly if it is a sentence, as the only tree it stands for, nested by precedence, with its ordinary words in order, written out as it is read, and with no redirection that a pipe or subshell forbids; with nested parentheses the parser never loses its way, and on one command whose subshell has no end it does |
| `Parser.LostLine` | bin/csh/parse.c:584-633 | on the line `> ) (` the parser loses its way |
| `AliasScan.Asyntax` | bin/csh/parse.c:94-104 | accepts exactly what the scan lets through, and a line that gets through closes no parenthesis it has not opened |
| `AliasScan.Asyn0` | bin/csh/parse.c:106-142 | the same for what follows the leading separators |
| `AliasScan.SentencePasses` | bin/csh/parse.c:94-164 | every sentence of the grammar gets through the alias scan, subshells at any depth included |
| `AliasScan.ParseLine` | bin/csh/csh.c:1089-1096 | after the alias scan the parser never loses its way, and a line is accepted exactly if it is a sentence, as the only tree it stands for, written out as it is read |
| `Phrases.SentenceOrdered` | bin/csh/parse.c:218-641 | `&` and `;` bind less than `\|\|`, that less than `&&`, that less than `\|` |
| `Phrases.SentenceWords` | bin/csh/parse.c:218-641 | the arguments of the tree, from left to right, are the ordinary words of the line as one left-to-right reading finds them, each once |
| `Spelling.KindChars` | bin/csh/parse.c:218-641 | what the words of each kind look like, by their characters |
| `Spelling.LineWritten` | bin/csh/parse.c:218-641 | the tree, written out from left to right, is what one pass over the characters of the line reads: the arguments, `&&`, `\|\|`, `\|` and `\|&` where they stand, the files and modes of every redirection at the end of its own command, and the mark of the background behind every part before a `&` and nowhere else |
| `Spelling.BackgroundWritten` | bin/csh/parse.c:266-289 | `&` marks the whole part before it, and changes nothing else of it |
| `Spelling.ClauseRead` | bin/csh/parse.c:542-628 | the items of a command leave the file behind its `<`, the file behind its last `>`, and the modes of all of them |
| `Plumbing.SentencePlumbed` | bin/csh/parse.c:566-615 | in an accepted line no command behind a pipe reads a file, none before one writes a file, unless the pipe takes the diagnostics too, and no subshell has text from the script |
| `PlainLines.ParseTwo` | bin/csh/parse.c:301-451 | two plain commands with `&&`, `\|\|`, `\|`, `\|&` or `;` between them are that node over the two |
| `PlainLines.ParseBackground` | bin/csh/parse.c:266-289 | a plain command before `&` is marked itself |
| `PlainLines.ParseTwoBackground` | bin/csh/parse.c:266-289 | so is a pipeline; the others are put into a subshell that is |
| `PlainLines.ParseRedirection` | bin/csh/parse.c:566-615 | `<`, `<<`, `>` and `>>` with `&` and `!` leave exactly their file and modes |
| `PlainLines.ParseTwoOutputs` | bin/csh/parse.c:566-593 | of two output redirections the second file stays, with the modes of both |
| `PlainLines.ParseTwoInputs` | bin/csh/parse.c:595-615 | a second input redirection is an error |
| `PlainLines.ParseSubshell` | bin/csh/parse.c:542-634 | a plain command in parentheses is a subshell, and need not fork in it |
| `PlainLines.ParseKeyword` | bin/csh/parse.c:478-498 | behind each of the seven keywords the parentheses are words of the command |
| `PlainLines.ParseBadGroup` | bin/csh/parse.c:629-634 | behind any other word they are an error |
| `Braces.JoinPieces` | bin/csh/glob.c:163-206 | the alternatives joined by commas are the text between the braces |
| `Braces.AlternativesShrink` | bin/csh/glob.c:122-210 | every alternative has strictly fewer left braces and is shorter |
| `Braces.ExpandMeaning` | bin/csh/glob.c:213-275 | for every pattern shorter than the buffer, with commas, brackets and right braces outside groups as they come, expansion gives every choice of alternatives, the first group varying slowest; the word `{}` stands for itself |
| `BraceWork.FindClosing` | bin/csh/glob.c:139-161 | the check for balance finds the closing brace past nested braces and bracketed classes, or the character that is missing |
| `BraceWork.Globbrace` | bin/csh/glob.c:122-210 | one word for each alternative of the first braces, cut to what the buffer holds, or the missing character |
| `BraceWork.SpreadOut` | bin/csh/glob.c:260-270 | the tail is moved up and the alternatives put in, in place |
| `BraceWork.Grow` | bin/csh/glob.c:246-259 | the vector always has room for the new words and the null |
| `BraceWork.Expbrace` | bin/csh/glob.c:213-275 | the work list terminates and leaves the flattened recursive expansion, in order, or reports the first missing character |
| `Matching.ScanClass` | bin/csh/glob.c:838-850 | the scan of a class from behind any character: found or not, no bracket, or carried past the end of the pattern by a range |
| `Matching.SweepClosed` | bin/csh/glob.c:838-850 | in a closed class the scan finds what its test on the text of the class says, and ends behind the bracket |
| `Matching.InClassIsScanned` | bin/csh/glob.c:838-850 | that test is whether the character is in one of the parts into which the program divides the class |
| `Matching.ReadsAlike` | bin/csh/csh.1:1146-1154 | the program divides a class as the manual says exactly if it is tame |
| `Matching.PatternReadsAlike` | bin/csh/csh.1:1139-1154 | it reads a pattern in the usual way exactly if all its classes are tame |
| `Matching.BracketRange` | bin/csh/glob.c:843-847 | `[[-y]` matches no character between `[` and `y`, for all of them |
| `Matching.NegatedDash` | bin/csh/glob.c:843-847 | `[^-x]` matches the dash, for every `x` |
| `Matching.ChainedRanges` | bin/csh/glob.c:843-847 | `[x-y-z]` does not match the dash, for all `x` and `y` behind it |
| `Matching.BackwardsRange` | bin/csh/glob.c:848-849 | `[x-y]` matches `x` even if `y` comes before it |
| `Matching.NoDifference` | bin/csh/glob.c:838-850 | a class that is not tame may still have the usual characters |
| `Matching.AskIsMatch` | bin/csh/glob.c:810-863 | for every string, and every pattern with closed classes and no `^` after `*`, bare quote marks included, the answer is the match element by element, except exactly when an element accepts the end of the string |
| `Matching.NeverOverruns` | bin/csh/glob.c:836-855 | without elements that accept it that never happens |
| `Matching.OnlyNegated` | bin/csh/glob.c:836-855 | in a pattern without bare quote marks the negated classes, all of them and nothing else, accept the end of the string |
| `Matching.NegatedOverrun` | bin/csh/glob.c:836-855 | `[^x]` against the empty string sends the scan past its end |
| `Matching.MatchIsGlob` | bin/csh/glob.c:828-833 | on strings without bare quote marks the match is the declarative one of the pattern with stars doubled at its end replaced by `?*` |
| `Matching.EffectiveSame` | bin/csh/glob.c:828-833 | without such stars the two patterns are the same |
| `Matching.Pmatch` | bin/csh/glob.c:810-863 | the answer to any string and any pattern: a verdict, the missing bracket, or a scan gone astray; a verdict is that of the declarative meaning, the usual one if the classes are tame |
| `Matching.Gmatch` | bin/csh/glob.c:786-808 | for any string and pattern: some expansion matches, or with a leading `^` none does, or the character missing from braces or brackets, or a scan gone astray; in the usual meaning if all classes are tame |
| `Numbers.Getn` | bin/csh/set.c:378-399 | the 32-bit value of the numeral, or an error exactly when the word is none |
| `Numbers.RoundTrip` | bin/csh/set.c:338-399 | every 32-bit number is read back as it was written, the smallest included |
| `Numbers.PutnIsDecimal` | bin/csh/set.c:338-376 | a number is written in decimal digit by digit, a minus in front, the smallest included |
| `Numbers.Signs` | bin/csh/set.c:384-398 | digits, with a plus, a minus or both in front, are that number; a sign needs a digit, and the empty word is 0 |
| `Numbers.OnlySigns` | bin/csh/set.c:384-398 | nothing else is a number |
| `Numbers.OctalIsDecimal` | bin/csh/csh.1:1397-1399 | read in decimal, octal digits denote their octal value exactly if only the last one counts |
| `Numbers.LeadingZero` | bin/csh/csh.1:1397-1399 | `010` is ten |
| `Expressions.Exp` | bin/csh/exp.c:93-393 | each level reads exactly the tree the grammar gives and delivers the position after it and what becomes of that tree, in 32-bit arithmetic, or an error exactly when there is none |
| `Operators.Calculate` | bin/csh/exp.c:93-393 | a number, one of the eighteen operators by its spelling and a number, where globbing leaves numbers alone, deliver what plain arithmetic makes of them in 32 bits, or an error exactly when dividing by zero, at every level that reads the operator |
| `Operators.CalculateChain` | bin/csh/csh.1:1331-1371 | of two operators in a row the stronger goes first and of equal ones the right one, for every pair; a side that settles `\|\|` or `&&` leaves even a division by zero out of account; of two equalities the second is left unread |
| `Operators.CalculateNested` | bin/csh/exp.c:424-434 | parentheses go first, for every pair of operators |
| `Operators.CalculatePrefix` | bin/csh/exp.c:404-423 | `!` and `~` of a number |
| `Operators.CalculateCommand` | bin/csh/exp.c:93-133 | a command on the right of `\|\|` or `&&` is forked exactly if the left side leaves the question open, once, and counts as true if its status is 0 |
| `Operators.Compare` | bin/csh/exp.c:198-242 | `==` and `!=` compare strings; `=~` tells whether the right one, which is not globbed, matches the left one, and `!~` whether it does not; the manual page lists the two in the opposite order |
| `Operators.Inquire` | bin/csh/exp.c:471-565 | every file inquiry by its letter, with its errors |
| `Operators.SignApplies` | bin/csh/exp.c:93-393 | every operator on two numbers gives what is reckoned |
| `Expressions.Exp6` | bin/csh/exp.c:396-571 | the operands: negation, complement, parentheses, brace commands, missing operands, file inquiries by their letter, words |
| `Expressions.BraceCommand` | bin/csh/exp.c:437-468 | a brace command is skipped to its end, and forked exactly once if its value counts |
| `Expressions.PutnIsNumber` | bin/csh/exp.c:650-656 | what `putn` writes `egetn` reads |
| `Expressions.IgnoredForksNothing` | bin/csh/exp.c:93-133 | nothing is forked where the value is ignored, at any nesting |
| `Expressions.ReadableIsRun` | bin/csh/exp.c:93-571 | an ignored subtree is gone through exactly if its words glob, those in the place of numbers are numbers and its inquiries name no missing operator file; its value is a number unless it is a word that is none |
| `Expressions.RunIsMeaning` | bin/csh/exp.c:93-133 | the evaluator finds the short-circuit meaning of the tree, value and forked commands, exactly when there is one and every side that does not count is readable and a number |
| `Expressions.BothWays` | bin/csh/exp.c:93-571 | on words: a value is found exactly under that condition; valued or ignored, whatever the system answers, an expression ends at the same word |
| `Expressions.DeadSideIsRead` | bin/csh/exp.c:650-656 | the words `1`, `\|\|`, `foo` mean 1 and are refused |
| `LexBuffer.Bin.constructor` | bin/csh/lex.c:1585-1598 | the buffer starts at the place where the input is |
| `LexBuffer.Bin.TellGetc` | bin/csh/lex.c:1411-1431 | with a tellable input, the character of the file at the current place; none exactly if the input refused a read, which it is not asked for inside the window |
| `LexBuffer.Bin.BlockGetc` | bin/csh/lex.c:1433-1504 | otherwise, the character of the stream at the current place; none exactly if the input refused a read, which it is not asked for what is buffered |
| `LexBuffer.Bin.Bgetc` | bin/csh/lex.c:1399-1505 | either way, one character and one place further, or none, the same place and one refusal |
| `LexBuffer.Bin.Bfree` | bin/csh/lex.c:1508-1526 | positions are rebased without changing what is read next, and nothing is freed while a loop is active |
| `LexBuffer.Bin.Bseek` | bin/csh/lex.c:1528-1547 | the place is the one that was told |
| `LexBuffer.Bin.Btell` | bin/csh/lex.c:1549-1569 | the present place, as a position that can be sought |
| `LexBuffer.Bin.Replay` | bin/csh/lex.c:1399-1569 | seeking back to a told position reads the same text again, all of it exactly if the input refuses nothing, which a buffer of blocks never has to ask |
| `LexBuffer.Bin.Drive` | bin/csh/lex.c:1399-1569 | any run of reads, tells, seeks and frees gives what the plain stream with a place and marked places gives, and one missing character for every refusal of the input and no other |
| `ExecHash.Hashname` | bin/csh/exec.c:487-495 | the fold of the hash over the name |
| `ExecHash.HashIsNumeral` | bin/csh/exec.c:82-87 | the hash of a name is its number in base 243, in the size of the table |
| `ExecHash.Table.Bis` | bin/csh/exec.c:87-89 | exactly one bit is set |
| `ExecHash.Table.Dohash` | bin/csh/exec.c:432-466 | a bit is set exactly if it is the hash of a name in some readable absolute directory of the path, `.` and `..` apart |
| `ExecHash.Table.NeverFalselyClear` | bin/csh/exec.c:70-89 | where a name can be executed and is listed in its directory the bit is set |
| `ExecHash.Table.IsCommand` | bin/csh/exec.c:497-539 | whatever the table holds, the answer is the first place that has the command and is not passed over, or 0 if there is none; that is the answer of the plain search exactly if the place where that one ends is not passed over; without a table always |
| `ExecHash.SearchIsFirst` | bin/csh/exec.c:507-539 | the plain search gives the first place along the path where the file called after directory, slash and name can be executed, 0 exactly if there is none; a name with a slash, or without a path, is looked for as it stands |
| `ExecHash.Table.HashingIsHarmless` | bin/csh/exec.c:497-539 | with a table built from the path that never happens, if the one name searched for is listed wherever it can be executed |
| `ExecHash.Table.HashAndFind` | bin/csh/exec.c:416-539 | building the table and then searching finds the first place along the path that has the command, and 0 exactly if there is none |

## Left out

- `def` and `def_close` of dd: straight copies that would only add easy members.
- `DdConv.Dd.Read`: models successful reads; the sync, swab, bs and noerror paths of `dd_in` are left out.
- The size arithmetic of dd's arguments.
- Symbolic links and the home-directory fix-up in `dcanon`, and the file system calls around it.
- `pjwait`, `pnote`, `dojobs`, `pkill` and the printing in `pprint`: terminal, signals and output.
- `DirStack.Dirs.constructor`: the choice of the starting name from `getcwd`, the home directory and `PWD` is a parameter.
- `psavejob` and `prestjob`: a held job that is flushed while it is held is not modelled.
- Alias substitution (the second half of `asyn3`, and `freenod`) and `freesyn`; the alias scan is modelled for lines on which no alias applies.
- Word globbing and backquotes, `access`, `stat` and the status variable, which are answers of the system in the evaluator.
- `Expressions.Exp`: a shift by a count outside 0 to 31 is an answer of the machine, and the smallest number divided by -1 wraps; C defines neither.
- `FILEC` completion in `bgetc`, which leaves gaps in the buffer on purpose.
- Narrowing of `off_t` to `int` in `bgetc` and `bfree`.
- `Matching.Pmatch`: what the program makes of the memory behind a string or pattern it has left is not modelled beyond that it has left it.
- `VarStore.Store.Unset1`: the patterns are arbitrary predicates on names; that `Gmatch` decides them is the subject of `Matching`.
- `BraceWork.Globbrace`: the part before the braces is copied without a bound; what a longer one overwrites is not modelled.
- `ExecHash.Table.HashAndFind`: assumes that the name, which has been trimmed, is still listed wherever it can be executed; `shift` on `path` does not rebuild the table.
- `DirStack.Dirs.Hold`: `di_count` is an unbounded number; it is declared as a pointer to `unsigned short`, and counts in steps of that size.
- History and `$` expansion, `setjmp` unwinding, fork and exec themselves.
