# Verified models of the algorithms in a BSD/glibc compatibility library

The library gives programs built on musl the BSD trees, `argp`, `obstack`, `fts` and a bridge to
glibc's threads. This project models the six of its parts that are algorithms rather than forwarding
calls, and proves what they promise. `dafny verify dfyconfig.toml` checks everything.

| part | files |
|---|---|
| red-black trees (`include/tree.h`) | `RbShape.dfy` (shapes and invariants), `RbTree.dfy` (the macros on the heap) |
| splay trees (`include/tree.h`) | `SplayShape.dfy`, `SplayTree.dfy` |
| `argp` parsing (`src/argp/argp-parse.c`) | `ArgpOptions.dfy` (option tables), `ArgpSpec.dfy` (what an argument vector means), `ArgpParse.dfy` (the parser), `ArgpTheorems.dfy`, `ArgpLaws.dfy` (the meaning element by element) |
| `argp` groups and callback keys (`src/argp/argp-parse.c`) | `ArgpGroups.dfy`, `ArgpProtocol.dfy` |
| `argp` help (`src/argp/argp-help.c`) | `UsageOdometer.dfy` (usage patterns), `ShortOptions.dfy` (shadowing of short options) |
| threads (`src/compat/pthread.c`, `src/compat/glibc_pthread_abi.h`) | `OnceProtocol.dfy`, `OnceHistory.dfy` (completions along an ancestry), `ResolverProtocol.dfy`, `StaticMutex.dfy` |
| obstacks (`src/obstack.c`, `include/obstack.h`) | `Obstack.dfy` |
| file tree walks (`src/fts.c`) | `FtsSpec.dfy` (the recursive walk), `FtsStop.dfy` (where `fts_build` gives up), `FtsTheorems.dfy`, `FtsComplete.dfy` (that nothing is missing), `FtsPath.dfy` (the path buffer), `FtsGauge.dfy` (the buffer over a whole walk), `FtsFrames.dfy`, `FtsCycle.dfy` (the table of directories), `FtsWalk.dfy` (the machine) |

`Basics.dfy` holds the notions that several parts share.

How the parts are modelled:

* **Trees.** Nodes are objects whose link fields the methods assign; a ghost tree and a ghost path to
  the cursor describe the heap. Pairs of mirrored cases share one text with the side as a parameter.
  Keys are integers, so the comparison is a total order.
* **argp.** Options are values, `argv` is an array that the parser permutes in place. The meaning of an
  argument vector is defined without any exchange; the parser is proved to deliver it.
* **Callback keys.** Every parser is an arbitrary sequence of answers: error, new `next`, hook, and
  values for its children. What `parser_parse_next` does between two calls is arbitrary too.
* **Threads.** One atomic load, store or compare-exchange is one step; runs interleave any number of
  threads with calls, nested calls, cancellation, spurious wake-ups, new threads and forks.
* **Obstacks.** Memory is a map from addresses to bytes; the allocator answers with any address apart
  from the chunks held, or fails. A ghost stack holds the finished objects.
* **fts.** The file system is a finite map from identities to directory entries, with cycles; the walk
  runs under `FTS_NOCHDIR`. The caller skips any directories, and calls `fts_children` for each as often
  as it likes. Nodes are linked objects, the table has 64 buckets, every write into the path buffer is
  bounds-checked, a directory is opened by the text that the buffer holds up to its first terminator, and
  errno is carried through the loop of `fts_build`.

Results about the code that a caller may want to know:

* The level bytes of the usage patterns are plain `char`s. With more than 128 alternatives in one argp
  (256 where `char` is unsigned) the pattern loop never ends; otherwise it prints every combination
  once (`UsageOdometer.Patterns`, an if and only if; `UsageOdometer.NeverEnds` is a case).
* A documentation entry that carries a key is taken by the parser as that option but never shown by
  help. The option the parser takes is the one that decoding the help list shows exactly when the first
  option with the key is no `OPTION_DOC` (`ShortOptions.HelpAndParser`; `ShortOptions.DocEntryTaken` is a
  case).
* `fts_build` tests errno after reading a directory, and a failed stat of an entry has set it. Then the
  whole walk ends with that directory open. The full recursive walk is returned exactly when this does not
  happen: no directory that is opened keeps an entry that could not be examined with no dangling link after
  it, or any entry at level `SHRT_MAX` (`FtsWalk.WalkTree`, `FtsStop.WholeWalk`, an if and only if;
  `FtsSpec.ErrnoMeans`; `FtsTheorems.GivenUp` is a case).
* Under `FTS_NOCHDIR` a directory is opened by the path buffer, in which `fts_build` leaves the path of the
  last entry it has read. `fts_read`, and the first `fts_children`, always find the directory's own path
  there, with a slash once it has been found empty (`FtsWalk.Fts.Open`). Further calls of `fts_children`
  change nothing exactly when the text left behind opens the directory again: no entry counts, or the last
  one read is the directory itself, and the text is not too long (`FtsTheorems.SecondCall`,
  `FtsSpec.AgainMeans`). Otherwise they mark it `FTS_ERR`, and that `FTS_D` is
  never closed (`FtsTheorems.ListedTwice` is a case).
* `fts_children` on a directory that cannot be opened does the same (`FtsTheorems.NeverClosed` is a case).
  What `fts_read` returns is properly nested exactly when `fts_children` was not called in vain in either way
  and `fts_build` did not give up (`FtsTheorems.RunIsProper`; `FtsWalk.OpenRuns` has a run for each).
* `fts_build` writes a terminator after the slash it appends to the directory's path before it looks
  at the room left. The write is inside the buffer exactly when the path does not fill it
  (`FtsPath.PathBuffer.Header`). Over a whole run the buffer's size, and whether this happens, is a function
  of the walk (`FtsWalk.WalkTree`, `FtsGauge.Whole`): never when no path of `PATH_MAX` bytes or more can
  be opened, and in the run of `FtsWalk.DeepRun` it does.
* `SPLAY_REMOVE` returns its argument. That is the node it has unlinked exactly when the argument was a
  member (`SplayTree.SplayTree.Remove`; `SplayTree.RemovesAnother` is a case where it was not).
* Along an ancestry of processes, an init routine completes once more for every fork that comes between
  the end of the routine and the store of DONE (`OnceHistory.InitOnceEver`, an equation;
  `OnceHistory.CompletesTwice` is a run).

## Model

| member | source | states |
|---|---|---|
| RbTree.RbTree.RotateLeft | include/tree.h:273-294 | the heap after the macro is the rotated tree at the same place: every child and parent link of the nodes involved, and the root when it is rotated |
| RbTree.RbTree.RotateRight | include/tree.h:296-317 | the mirror image |
| RbShape.RotatedSame | include/tree.h:273-317 | a rotation keeps the in-order sequence |
| RbShape.PlugOrder | include/tree.h:273-317 | the in-order sequence seen from any cursor is that of the whole tree, so a change at the cursor that keeps the first keeps the second |
| RbShape.PlugOk | include/tree.h:341-451 | a whole tree is red-black exactly when the subtree at the cursor and its context are, for the same black height |
| RbShape.Grandparent | include/tree.h:343-345 | in the insert loop the red parent of a red node has a parent, which is black |
| RbShape.PushUpInv | include/tree.h:346-352 | red uncle: recolouring keeps the loop invariant and the order, two levels up |
| RbShape.InnerInv | include/tree.h:353-358 | black uncle, inner child: the first rotation keeps the loop invariant and the order |
| RbShape.OuterInv | include/tree.h:359-360 | black uncle, outer child: recolouring and one rotation leave no red node with a red child |
| RbShape.InsertDone | include/tree.h:379-380 | when the loop stops, blackening the root gives a red-black tree with the same order |
| RbTree.RbTree.InsertStep | include/tree.h:341-378 | one round on the heap keeps the loop invariant, every link and the order, and moves the cursor up |
| RbTree.RbTree.InsertColor | include/tree.h:341-381 | from a red node put anywhere in its place, the loop ends with a red-black tree on the heap, with the same members in the same order |
| RbTree.RbTree.Place | include/tree.h:530-540 | the search returns an equal member, or the empty place between the neighbours of the key |
| RbTree.RbTree.Insert | include/tree.h:526-554 | a valid tree holds exactly the old members and the new one in its place; or an equal member is returned and neither tree nor node changes |
| RbShape.SiblingExists | include/tree.h:385-388 | the sibling that the delete loop reads is never null, and is one black level higher |
| RbShape.RedSiblingInv | include/tree.h:388-392 | red sibling: after the rotation the deficit is as before and the sibling is black |
| RbShape.BlackSiblingInv | include/tree.h:393-398 | black sibling with black children: it turns red and the deficit moves to the parent |
| RbShape.InnerNephewInv | include/tree.h:400-407 | only the inner nephew red: after the rotation at the sibling the outer nephew is red |
| RbShape.OuterNephewInv | include/tree.h:408-415 | outer nephew red: one rotation restores equal black heights everywhere |
| RbShape.RemoveDone | include/tree.h:449-451 | blackening the node where the loop stops gives a red-black tree with the same order |
| RbTree.RbTree.RemoveStep | include/tree.h:383-448 | one round on the heap keeps the loop invariant and the order, and either ends the loop or moves the cursor up |
| RbTree.RbTree.RemoveColor | include/tree.h:383-451 | from any tree whose only fault is one missing black node at the cursor, the loop ends with a red-black tree with the same members |
| RbShape.SpliceInv | include/tree.h:453-524 | taking out a node with at most one child leaves a red-black tree if it was red, and a deficit of one black node at its child otherwise |
| RbShape.SupplantInv | include/tree.h:462-504 | the successor in the place and colour of the removed node: the same holds for the successor's old place |
| RbShape.SupplantOrder | include/tree.h:462-504 | ...and the order is the old one without the removed node |
| RbTree.RbTree.Splice | include/tree.h:506-519 | the links after taking out a node with at most one child |
| RbTree.RbTree.Successor | include/tree.h:463-467 | the first member of the right subtree, and where it is |
| RbTree.RbTree.Supplant | include/tree.h:484-497 | the copied node has every link and the colour of the node it replaces, and its neighbours point to it |
| RbTree.RbTree.RemoveInner | include/tree.h:462-504 | removing a node with two children leaves a valid tree of exactly the others |
| RbTree.RbTree.Remove | include/tree.h:453-524 | removing any member leaves a valid red-black search tree, parent links included, with exactly the other members in the same order |
| RbShape.BlackHeightBounds | include/tree.h:556-569 | a tree of black height b has at least 2^b - 1 nodes and height at most 2b, or 2b + 1 at a red node |
| RbShape.HeightBound | include/tree.h:556-569 | a red-black tree of n nodes has height at most 2 log2(n + 1) |
| RbTree.RbTree.Find | include/tree.h:556-569 | a member with the key if there is one, within 2 log2(n + 1) iterations, the one that finds it included |
| RbTree.RbTree.NFind | include/tree.h:571-587 | the least member not below the key |
| RbTree.RbTree.Neighbour | include/tree.h:589-623 | the next (previous) member in order, null at the end |
| RbShape.NeighboursNth | include/tree.h:589-623 | the neighbour of the i-th member is the (i+1)-st, on either side, so that NEXT and PREV undo each other |
| RbTree.RbTree.MinMax | include/tree.h:625-636 | the first or last member, null for an empty tree |
| RbTree.RbTree.Foreach | include/tree.h:650-658 | from MIN by NEXT (from MAX by PREV) every member is visited once, in order |
| SplayShape.RaisedSame | include/tree.h:29-41 | a splay rotation keeps the in-order sequence and the size |
| SplayTree.SplayTree.Raise | include/tree.h:29-41 | the heap after the rotation |
| SplayShape.LinkOrder | include/tree.h:43-55 | moving the root to an accumulator keeps the order of accumulators and tree together |
| SplayShape.LinkParted | include/tree.h:43-55 | the small accumulator stays below the key, the large one above it |
| SplayTree.SplayTree.Link | include/tree.h:43-55 | the heap after the link, the outermost open place included |
| SplayShape.AssembledOrder | include/tree.h:57-63 | assembling keeps the order |
| SplayShape.AssembledSplayed | include/tree.h:57-63 | the assembled tree has the key or an in-order neighbour of it at the root |
| SplayTree.SplayTree.Assemble | include/tree.h:57-63 | the heap after assembling: one tree hanging from the root |
| SplayTree.SplayTree.Splay | include/tree.h:145-177 | terminates with the same members in the same order, and the key or a neighbour of it at the root |
| SplayShape.SplayedFinds | include/tree.h:71-78 | after splaying, the key is a member exactly if it is at the root |
| SplayTree.SplayTree.Find | include/tree.h:71-78 | the member with the key if there is one; the members stay |
| SplayShape.RootedOrder | include/tree.h:99-123 | the new root over the split tree: the old members and the new one, in order |
| SplayTree.SplayTree.Insert | include/tree.h:99-123 | exactly the old members and the new one in its place, or an equal member and no change of the members |
| SplayShape.SplayedMax | include/tree.h:136-138 | splayed for a key above all its members, a tree has no right child at the root |
| SplayTree.SplayTree.Meld | include/tree.h:134-139 | so hanging the right part there loses no member |
| SplayTree.SplayTree.Remove | include/tree.h:125-143 | the member with the key goes, and no other; without one nothing changes; the node returned is the one that went exactly if it was a member |
| SplayTree.RemovesAnother | include/tree.h:125-143 | a tree and a node with the key of a member for which it is another |
| SplayTree.SplayTree.MinMax | include/tree.h:93-96 | the first or last member |
| SplayTree.SplayTree.Pull | include/tree.h:179-210 | the loop keeps the members and ends with an empty side at the root |
| SplayTree.SplayTree.Next | include/tree.h:80-91 | the member after a given one, the members staying |
| SplayTree.SplayTree.Foreach | include/tree.h:222-222 | visits every member once, in order, though every step reshapes the tree |
| ArgpOptions.FindShortOption | src/argp/argp-parse.c:292-308 | the first option with the key in pre-order, and none only if no option has it |
| ArgpOptions.MatchOption | src/argp/argp-parse.c:319-338 | exact, partial or no match of the text before any `=` |
| ArgpOptions.ExactMeans | src/argp/argp-parse.c:319-338 | a match is exact if and only if the text is the name, or the name followed by `=` and a value |
| ArgpOptions.PartialMeans | src/argp/argp-parse.c:319-338 | a match is partial if and only if the text, or what precedes its first `=`, is a proper beginning of the name |
| ArgpOptions.OptionBase | src/argp/argp-parse.c:340-353 | the nearest option at or before it that is no alias, the option itself if there is none |
| ArgpOptions.FindLongOption | src/argp/argp-parse.c:355-408 | the first exact match; without one the first partial match if all partial matches stand for the same option; otherwise none, and whether that was for ambiguity |
| ArgpSpec.Classify | src/argp/argp-parse.c:815-865 | operands are what has no dash followed by something, the quote is `--`; an option is its dashes and its text, and an element is a short option exactly if one dash comes first and, under LONG_ONLY, a single known character follows |
| ArgpParse.Parser.SwapBlocks | src/argp/argp-parse.c:775-807 | two blocks of equal length trade places and nothing else moves |
| ArgpParse.Parser.Exchange | src/argp/argp-parse.c:763-811 | the skipped operands and the options after them trade places, each keeping its order; the two indices follow |
| ArgpParse.Parser.SkipOperand | src/argp/argp-parse.c:985-1003 | under PERMUTE a non-option joins the skipped ones and nothing is lost |
| ArgpParse.Parser.TakeQuote | src/argp/argp-parse.c:1017-1038 | the quote ends the options, and what follows is delivered as it stands |
| ArgpParse.Parser.StopAtOperand | src/argp/argp-parse.c:1005-1008 | under REQUIRE_ORDER the first non-option ends the options |
| ArgpParse.Parser.AtEnd | src/argp/argp-parse.c:956-975 | at the end the skipped operands are moved up and come next, in order, if there are any |
| ArgpParse.Parser.TakeLong | src/argp/argp-parse.c:1040-1118 | a long option, its value attached, taken from the next element, or missing |
| ArgpParse.Parser.TakeShort | src/argp/argp-parse.c:886-943 | one character of a cluster, with its value likewise |
| ArgpParse.Parser.ParseNext | src/argp/argp-parse.c:871-1129 | one call keeps the picture of argv and leads to the meaning of the whole vector; the assertions in it hold |
| ArgpParse.Parser.Parse | src/argp/argp-parse.c:1173-1174 | the loop terminates, delivers the calls and ends with the error that the meaning of the vector has, and leaves argv in the order it has, under each of the three orderings; with an option in error argv is still a permutation of what it was, and the part before `next` is untouched |
| ArgpTheorems.StablePartition | src/argp/argp-parse.c:763-811 | under PERMUTE a vector whose options are in order ends as options with their arguments, quote, operands, each in its first order; it is a permutation; and the calls come in that order |
| ArgpTheorems.PermuteThenStrict | src/argp/argp-parse.c:871-1129 | parsing the resulting vector under REQUIRE_ORDER gives the same calls and moves nothing |
| ArgpLaws.LongWithValue | src/argp/argp-parse.c:1062-1115 | `--name=v` delivers the option with the value v and goes on with the rest; for an option that takes no argument it is an error |
| ArgpLaws.LongAlone | src/argp/argp-parse.c:1062-1115 | `--name` of an option with a mandatory argument takes the next element as its value, and is an error when there is none; otherwise there is no value |
| ArgpLaws.LongUnknown | src/argp/argp-parse.c:1046-1061 | a name that denotes no option, or several, is an error, with a value or without |
| ArgpLaws.ShortAlone | src/argp/argp-parse.c:886-943 | the same for `-c` |
| ArgpLaws.ShortWithValue | src/argp/argp-parse.c:910-930 | `-cv` delivers the option c with the value v, if it takes an argument, optional or not |
| ArgpLaws.ShortInCluster | src/argp/argp-parse.c:886-943 | `-cmore` delivers the option c without a value, if it takes none, and then what `-more` delivers |
| ArgpLaws.ShortUnknown | src/argp/argp-parse.c:897-912 | a character that is no key is an error |
| ArgpLaws.OperandMeans | src/argp/argp-parse.c:985-1015 | an operand ends the options, with everything delivered as it stands, or is delivered in its place, or comes before the operands and after the options of the rest, in argv as in the calls, under the three orderings |
| ArgpLaws.QuoteDelivers | src/argp/argp-parse.c:1017-1038 | after `--` every element is delivered as it stands |
| ArgpGroups.CalcSizes | src/argp/argp-parse.c:503-521 | the number of groups and of child inputs of the tree |
| ArgpGroups.SlotsFit | src/argp/argp-parse.c:447-456 | the child inputs handed out are no more than those counted |
| ArgpGroups.Conversion.Convert | src/argp/argp-parse.c:421-469 | the groups are those of the tree in pre-order, appended to what is there |
| ArgpGroups.ConvertAll | src/argp/argp-parse.c:473-489 | groups and child inputs fit their storage; a group's parent comes before it and has it at its parent_index; no two groups share a child input |
| ArgpGroups.FlattenLinks | src/argp/argp-parse.c:421-469 | the links between groups are those of the tree |
| ArgpGroups.FlattenSlots | src/argp/argp-parse.c:447-456 | the child inputs of different groups are apart |
| ArgpProtocol.Session.Deliver | src/argp/argp-parse.c:203-216 | a call sees its own group's input, hook and count; a group without a parser is not called and answers EBADKEY |
| ArgpProtocol.Session.Introduce | src/argp/argp-parse.c:597-609 | one turn of the first pass: the input comes from the parent's child inputs, which only the parent has written |
| ArgpProtocol.Session.Initialize | src/argp/argp-parse.c:595-614 | every parser is called with INIT, parents first, up to the first error; each finds the input its parent left for it, the first child of an argp without a parser that argp's own, and the root the caller's |
| ArgpProtocol.Session.ParseArg | src/argp/argp-parse.c:712-752 | the argument is offered to the parsers in order, alone and then with the rest, until one does not refuse; what that one handled goes on its account |
| ArgpProtocol.Session.Step | src/argp/argp-parse.c:871-1129 | one call of parser_parse_next: an operand is offered to the parsers, an option goes to the parser of its group and to no other, and the error and `next` are what the last answer makes them |
| ArgpProtocol.Session.Parse | src/argp/argp-parse.c:1173-1174 | the calls of the loop are those of its rounds, in order, up to the first that ends in an error |
| ArgpProtocol.Session.Sweep | src/argp/argp-parse.c:643-697 | a pass over the groups, forwards or backwards: in order, complete unless an error stops it |
| ArgpProtocol.Session.Finalize | src/argp/argp-parse.c:631-705 | the stages of the end of a run, the error it returns and the end index it stores, all by the answers in the log; EBADKEY is never returned |
| ArgpProtocol.Session.Run | src/argp/argp-parse.c:1136-1179 | a whole run that passes the first stage has the stages INIT, arguments and options, NO_ARGS, END, one of SUCCESS and ERROR, FINI, in this order; it returns 0 exactly if the loop ended with EBADKEY for an argument (arg_ebadkey), all arguments were parsed or the end index was asked for, and no call with NO_ARGS, END or SUCCESS returned an error other than EBADKEY; otherwise the first such error, the error of the loop, or EINVAL for EBADKEY |
| ArgpProtocol.History | src/argp/argp-parse.c:631-705 | one parser's keys: INIT once and first, FINI once and last, NO_ARGS and END at most once and only if all arguments were consumed, never both SUCCESS and ERROR |
| ArgpProtocol.NoArgsMeansNone | src/argp/argp-parse.c:643-645 | a parser called with NO_ARGS has handled no argument |
| ArgpProtocol.ParentFirst | src/argp/argp-parse.c:595-609 | INIT comes to the parent group before its child; END, SUCCESS and FINI after it |
| ArgpGroups.GroupAtHolds | src/argp/argp-parse.c:421-469 | which group belongs to a place in the tree of argps |
| ArgpGroups.PlaceHasGroup | src/argp/argp-parse.c:421-469 | every argp of the tree with options or a parser has a group |
| ArgpGroups.GroupHasPlace | src/argp/argp-parse.c:421-469 | and every group belongs to such an argp |
| ArgpGroups.PlacesInOrder | src/argp/argp-parse.c:421-469 | the groups are in pre-order |
| ArgpGroups.GroupParent | src/argp/argp-parse.c:421-469 | the parent of a group is the group of the argp right above, at its place among the children, or none if that has no group |
| ArgpGroups.AncestorBefore | src/argp/argp-parse.c:421-469 | the group of an argp comes before those of all its descendants |
| ArgpProtocol.AncestorFirst | src/argp/argp-parse.c:595-609 | INIT comes to every ancestor in the tree before its descendants, END, SUCCESS and FINI after them, argps without a group in between or not |
| ArgpProtocol.HookIsPrivate | src/argp/argp-parse.c:203-216 | a parser finds the hook its own last call left, and the number of arguments it has handled |
| UsageOdometer.ArgsLevels | src/argp/argp-help.c:1234-1246 | one level byte for each argp with alternatives |
| UsageOdometer.ArgsUsage | src/argp/argp-help.c:1253-1305 | prints the chosen alternatives in pre-order, found by skipping newlines, and steps the level bytes in place, the carry passing through the recursion |
| UsageOdometer.LinesMeans | src/argp/argp-help.c:1259-1282 | the alternatives contain no newline and, joined by newlines, are the args_doc |
| UsageOdometer.OnlyLines | src/argp/argp-help.c:1259-1282 | no other pieces do |
| UsageOdometer.Skip | src/argp/argp-help.c:1273-1275 | the loop over the level byte ends at the alternative with its number, and at its newline if another follows |
| UsageOdometer.PatternShows | src/argp/argp-help.c:1259-1292 | a pattern shows, for every argp in pre-order, exactly the alternative its level byte stands for |
| UsageOdometer.StepCounts | src/argp/argp-help.c:1253-1305 | a step adds one to the level bytes read as a mixed-radix number, with a carry exactly from the largest |
| UsageOdometer.ValBound | src/argp/argp-help.c:1234-1246 | that number is below the product of the alternative counts |
| UsageOdometer.ValInjective | src/argp/argp-help.c:1234-1246 | different combinations have different numbers |
| UsageOdometer.Patterns | src/argp/argp-help.c:1429-1471 | the pattern loop ends exactly if no argp has more alternatives than a char counts, and then after exactly the product of the counts; every line shows, for each argp in pre-order, one of its alternatives; no combination comes twice, and when the loop ends every combination has come |
| UsageOdometer.NeverEnds | src/argp/argp-help.c:1429-1471 | with 129 alternatives and a signed char, any number of lines leaves the loop running |
| UsageOdometer.EndsOnce | src/argp/argp-help.c:1429-1471 | with 128 alternatives it ends after 128 lines |
| UsageOdometer.EveryCombinationOnce | src/argp/argp-help.c:1429-1471 | every combination is printed exactly once, at the line of its number |
| UsageOdometer.ChoiceMade | src/argp/argp-help.c:1429-1471 | every choice of alternatives is that of some level bytes |
| UsageOdometer.ChoiceInjective | src/argp/argp-help.c:1429-1471 | and of no others |
| UsageOdometer.ShowsOne | src/argp/argp-help.c:1429-1471 | if no argp repeats an alternative, different combinations give different lines |
| ShortOptions.NoKeyTwice | src/argp/argp-help.c:457-463 | the string of short options never contains a key twice |
| ShortOptions.Hol.constructor | src/argp/argp-help.c:410-469 | the list of one argp: entries of an option and its aliases, and the string of its first short options |
| ShortOptions.Hol.Append | src/argp/argp-help.c:756-837 | the appended list is that of the concatenated options, so nesting does not matter |
| ShortOptions.ArgpHol | src/argp/argp-help.c:1215-1230 | the list of the whole tree in pre-order |
| ShortOptions.Decoding | src/argp/argp-help.c:522-529 | the next byte of the string is an option's exactly when that option is short and the first with its key |
| ShortOptions.Hol.ShortIterate | src/argp/argp-help.c:512-532 | an entry shows exactly its unshadowed short options, in order, each with the option it is an alias of |
| ShortOptions.RealsMean | src/argp/argp-help.c:522-529 | the option it stands for is the last one shown so far that is no alias, or the first of the entry |
| ShortOptions.ParserPicks | src/argp/argp-parse.c:292-308 | the parser takes the first option of the list that carries the key |
| ShortOptions.GroupsList | src/argp/argp-parse.c:421-469 | the options of the groups are those of the tree in pre-order |
| ShortOptions.Agreement | src/argp/argp-help.c:512-532 | help shows for a key the option the parser takes exactly when the first option with the key is no documentation entry |
| ShortOptions.TreeAgreement | src/argp/argp-help.c:1215-1230 | the same for help and parser made from one tree |
| ShortOptions.HelpShows | src/argp/argp-help.c:512-532 | the help list of a tree, decoded entry by entry, shows for a key exactly the visible options with it, in order |
| ShortOptions.HelpAndParser | src/argp/argp-help.c:512-532 | decoding the help list finds the places of the visible options with the key; the one the parser finds in the groups of the same tree is the only one of them, exactly if the first option with the key is no documentation entry |
| ShortOptions.DocEntryTaken | src/argp/argp-parse.c:301-305 | a table for which they disagree |
| OnceProtocol.RunInv | src/compat/pthread.c:457-545 | the protocol's invariant over every run, with forks, cancellation, nested calls and spurious wake-ups |
| OnceProtocol.MutualExclusion | src/compat/pthread.c:519-540 | at most one activation of a process is inside init or ending the attempt |
| OnceProtocol.InitOnce | src/compat/pthread.c:508-545 | in a process init completes at most once, a completion inherited with DONE included, and every return of 0 follows it |
| OnceHistory.InitOnceEver | src/compat/pthread.c:508-545 | along an ancestry init completes as often as forks have found it completed without DONE, and once more if DONE is stored or about to be |
| OnceHistory.CompletesTwice | src/compat/pthread.c:508-545 | a run with such a fork in which it completes twice |
| OnceProtocol.DoneStays | src/compat/pthread.c:508-545 | DONE is for ever, in the process and its children |
| OnceProtocol.NoStrandedWaiter | src/compat/pthread.c:460-545 | while a thread sleeps, or is about to, a live activation of its own process is inside init or a wake of all is due |
| OnceProtocol.SpinsForLivePublisher | src/compat/pthread.c:476-488 | a thread spins on once_pid only while a live activation of its own process is about to publish it |
| OnceProtocol.WaitsForLiveOwner | src/compat/pthread.c:517-542 | a caller goes to wait exactly if a live activation of its own process has raised the word; a word an ancestor left behind is taken over |
| ResolverProtocol.Unpack | src/compat/pthread.c:134-137 | pid and state are recovered from the packed word |
| ResolverProtocol.RunInv | src/compat/pthread.c:124-250 | the resolver's invariant over every run with forks |
| ResolverProtocol.OneResolution | src/compat/pthread.c:124-250 | in the life of a process at most one activation resolves, whatever comes of it |
| ResolverProtocol.OneResolver | src/compat/pthread.c:124-250 | at any time at most one activation of a process resolves |
| ResolverProtocol.ZeroMeansResolved | src/compat/pthread.c:124-250 | whoever gets 0 finds every pointer resolved, after a fork during RUNNING as well |
| ResolverProtocol.FinalWord | src/compat/pthread.c:244-250 | the final store says READY exactly if every pointer is resolved, and FAILED otherwise, and the resolver returns accordingly |
| ResolverProtocol.WordTells | src/compat/pthread.c:124-250 | the word is READY only while every pointer is resolved, and FAILED only while one is missing, in children as well |
| ResolverProtocol.EnosysMeans | src/compat/pthread.c:124-250 | ENOSYS is returned only with a pointer missing for good, or to a call from inside dlsym |
| ResolverProtocol.ReentryReturns | src/compat/pthread.c:141-144 | a call from inside dlsym returns at its first look at the word |
| ResolverProtocol.ReadyStays | src/compat/pthread.c:124-250 | READY is for ever and no pointer changes after it |
| ResolverProtocol.FailedStays | src/compat/pthread.c:124-250 | FAILED is for ever and no pointer changes after it |
| ResolverProtocol.SpinsForLiveResolver | src/compat/pthread.c:124-250 | a thread spins only while an activation of its own process resolves |
| StaticMutex.Translation | src/compat/glibc_pthread_abi.h:98-138 | every caller of a supported kind gets 0 and leaves with word 0 equal to the kind, published exactly once; kind 0 stays 0; other kinds are refused and left alone |
| StaticMutex.PublishedStays | src/compat/glibc_pthread_abi.h:98-138 | the published kind never changes |
| StaticMutex.KindCleared | src/compat/glibc_pthread_abi.h:125-137 | once the kind is published, word 4 is 0 exactly if the one caller that published it has cleared it, and stays 0 |
| StaticMutex.RetryReturns | src/compat/glibc_pthread_abi.h:98-138 | a failed exchange is followed by a return |
| Obstack.AlignLeast | include/obstack.h:32-35 | the rounding macro gives the first aligned address |
| Obstack.Obstack.constructor | src/obstack.c:74-104 | one chunk with an aligned, empty object |
| Obstack.Obstack.NewSize | src/obstack.c:136-154 | the wrap-around tests fail exactly when the size in unbounded arithmetic is no size_t; otherwise it is that size, or the chunk size if larger |
| Obstack.Obstack.NewChunk | src/obstack.c:132-181 | either nothing changes and failure is signalled, exactly for a size or an allocation that fails; or the object's bytes are at the first aligned address after the header of a chunk of the size asked for; the live objects are as before, and the old chunk is released exactly when the unmarked object started it |
| Obstack.UnmarkedIsEmpty | src/obstack.c:170-176 | a chunk released then holds no live object, not even an empty one |
| Obstack.Obstack.Grow | include/obstack.h:188-196 | appends the bytes to the object under construction; what fits into the room is never refused, moves nothing and takes just that much; it fails, and then changes nothing, exactly if they do not fit and no chunk is to be had |
| Obstack.Obstack.Grow0 | include/obstack.h:198-207 | appends the bytes and a zero, or fails likewise |
| Obstack.Obstack.Blank | include/obstack.h:219-226 | lengthens the object and keeps what it has, or fails, likewise |
| Obstack.Obstack.MakeRoom | include/obstack.h:173-179 | room for the length, exactly if there was, and then nothing changes, or a chunk is to be had |
| Obstack.Obstack.Finish | include/obstack.h:230-245 | the object becomes live where it stands, with its bytes; the next one starts at the first aligned address after it that the chunk has, and at its end otherwise, so that at most the alignment less one of the room is lost; the chunk is marked exactly if the object is empty or it was marked |
| Obstack.Obstack.Free | include/obstack.h:247-255 | freeing a live object leaves exactly those below it, releases exactly the chunks above its own, and makes its address the base |
| Obstack.Obstack.FreeBack | src/obstack.c:203-218 | the same by the loop over the chunks, whose abort is never reached |
| Obstack.Obstack.FreeAll | src/obstack.c:189-200 | every chunk ever obtained has been released exactly as often |
| Obstack.Obstack.MemoryUsed | src/obstack.c:221-227 | the bytes obtained less the bytes released, without wrapping |
| Obstack.UsedFits | src/obstack.c:221-227 | chunks apart from one another never add up to more than the address space |
| Obstack.Obstack.EmptyP | include/obstack.h:181-186 | exactly if one chunk is held and the object under construction is empty and starts it; then every live object is empty |
| Obstack.LiveDisjoint | src/obstack.c:132-219 | live objects share no byte |
| Obstack.Obstack.Inside | src/obstack.c:132-181 | every object lies between the header of its chunk and the end of it |
| Obstack.Run | include/obstack.h:188-255 | over every sequence of calls the obstack is a stack of objects, each finished object appearing with its bytes at its address, and its room goes down by what is taken while it lasts; it stops early only at a call that frees no live object, or that asks for more than the room when memory refuses |
| Obstack.LiveStays | include/obstack.h:188-255 | over every run a finished object keeps its address and bytes until it or one below it is freed |
| FtsPath.PowerOfTwo | src/fts.c:934-948 | the least power of two not below the argument, up to 2^63; 0 beyond |
| FtsPath.PathBuffer.Palloc | src/fts.c:950-967 | the new size, and what the buffer held |
| FtsPath.PathBuffer.Load | src/fts.c:1164-1180 | the buffer says the root's path |
| FtsPath.PathBuffer.Header | src/fts.c:653-660 | the directory's path stays, a slash follows and ends the text, and the terminator is out of bounds exactly when the path fills the buffer |
| FtsPath.PathBuffer.Reserve | src/fts.c:675-687 | maxlen is not negative, and afterwards name and terminator fit; what the buffer held stays, and it only grows if they did not |
| FtsPath.PathBuffer.Place | src/fts.c:719-722 | the buffer then says what preceded and the name; the directory's path stays |
| FtsPath.PathBuffer.Visit | src/fts.c:438-445 | the buffer says the directory's path, a slash and the name |
| FtsPath.PathBuffer.Cut | src/fts.c:461-461 | the buffer says the directory's path again |
| FtsGauge.BuiltTwice | src/fts.c:653-687 | reading a directory again, after fts_children, changes nothing about the size of the buffer, nor whether it was overrun |
| FtsGauge.DeepOverruns | src/fts.c:653-660 | a file system in whose walk the terminator is written past the end |
| FtsSpec.KidsSorted | src/fts.c:874-899 | when qsort has done its work, the entries of a directory come in the order of the comparison function, all of them and no others |
| FtsSpec.LeftShrinks | src/fts.c:841-861 | every directory on the way down leaves one fewer to enter: the measure of the walk |
| FtsSpec.ErrnoMeans | src/fts.c:664-752 | errno is set after the loop exactly if an entry that counts failed, and no dangling link that counts came after it |
| FtsSpec.AgainMeans | src/fts.c:590-612 | the text that fts_build leaves behind opens the directory again exactly if no entry counts or the last one read has the identity of the directory, and the text is short enough |
| FtsStop.WholeWalk | src/fts.c:752-760 | the whole recursive walk is returned exactly when no directory that fts_build opens ends with errno set |
| FtsTheorems.WalkIsProper | src/fts.c:316-497 | in the recursive walk, before it is cut off, a directory is FTS_DC exactly if its identity is that of an open one, dot entries and levels from SHRT_MAX on aside, every other entry is reported as what it is, every FTS_D is closed by one FTS_DP or FTS_DNR, innermost first, and levels fit - exactly when fts_children was not called in vain |
| FtsTheorems.RunIsProper | src/fts.c:316-497 | the same of what is returned: exactly when, besides, fts_build did not give up |
| FtsTheorems.SecondCall | src/fts.c:509-559 | after a first fts_children that has read the directory, further calls leave what is still to come as it is exactly if the text in the path buffer opens the directory again; otherwise nothing more is returned of it |
| FtsTheorems.GivenUp | src/fts.c:752-760 | a directory with one entry that cannot be examined: the walk ends with the directory open |
| FtsTheorems.ListedTwice | src/fts.c:590-612 | a directory with one file, listed twice: it is not returned again |
| FtsTheorems.NeverClosed | src/fts.c:590-595 | a directory that cannot be opened, listed: it is not returned again |
| FtsComplete.WalkIsComplete | src/fts.c:316-497 | in the recursive walk a directory that is entered is followed by each of its entries exactly once, `.` and `..` only under FTS_SEEDOT, with its path, a slash and the name, in the order of the comparison function, and by nothing else, and then by itself; one that is skipped, on another device or unreadable by itself at once; anything else by nothing below it; and the roots come in order, by their last component |
| FtsComplete.KidsListed | src/fts.c:665-740 | the entries of a directory, with their multiplicities |
| FtsComplete.LeafMeans | src/fts.c:1169-1174 | the name of a root is what follows its last slash, but for `/` |
| FtsComplete.CutBegins | src/fts.c:752-760 | what is returned of the walk is its beginning |
| FtsFrames.NextEntry | src/fts.c:401-446 | what is left to return after an entry begins with the next one of its directory |
| FtsFrames.GoDown | src/fts.c:355-399 | ...after a directory that is entered, with its first entry |
| FtsFrames.GoUp | src/fts.c:448-496 | ...after the last entry, with the directory again |
| FtsFrames.StayHere | src/fts.c:355-387 | ...after a skipped, unreadable or empty directory, with the directory itself |
| FtsCycle.CycleTable.Lookup | src/fts.c:1085-1094 | what the table holds for the identity |
| FtsCycle.CycleTable.Insert | src/fts.c:1096-1120 | adds an identity that is new, in its bucket |
| FtsCycle.CycleTable.Remove | src/fts.c:1122-1136 | removes the identity, and no other |
| FtsWalk.IsAbove | src/fts.c:849-854 | whether the identity is one of the ancestors' |
| FtsWalk.Fts.Stat | src/fts.c:791-872 | fts_info by the ancestors alone: a directory is FTS_DC exactly if an ancestor has its identity, as the table holds ancestors only; a failure sets errno and a dangling link clears it |
| FtsWalk.Fts.Push | src/fts.c:1138-1146 | adds the directory under an identity the table does not hold, and the table still holds open directories only |
| FtsWalk.Fts.Pop | src/fts.c:1148-1162 | removes the identity of the node that is left, an FTS_DC included; afterwards the table holds none but directories above it |
| FtsWalk.Sort | src/fts.c:874-899 | the same nodes in the order qsort leads to, linked; in the order of any comparison function for which qsort has done its work |
| FtsWalk.Fts.Open | src/fts.c:590-612 | the identity that the text in the path buffer opens; the text is the directory's own path before its first fts_build, and has a slash after it when that has found nothing |
| FtsWalk.Fts.Gather | src/fts.c:664-740 | a node for every entry that counts, with its level, parent, fts_info and path length, all paths fitting the buffer; the buffer says the path of the last one; errno is what the entries make it |
| FtsWalk.Fts.Build | src/fts.c:561-789 | the sorted children of the directory if the text in the buffer opens the directory itself and errno is clear; otherwise none, and the mark FTS_DNR or FTS_ERR, with FTS_STOP if errno is set; FTS_DP for an empty one |
| FtsWalk.Fts.Children | src/fts.c:509-559 | with the calls still to come, what is left to return stays the same, and what the path buffer will come to; the list is that of the directory, or the roots before the first fts_read; the directory is in the table |
| FtsWalk.Fts.Next | src/fts.c:401-496 | the next entry or the directory above, as the recursive walk says, with its path in the buffer |
| FtsWalk.Fts.EnterDir | src/fts.c:368-399 | likewise for a directory that is entered; null exactly if fts_build gives up in it |
| FtsWalk.Fts.SkipDir | src/fts.c:356-366 | likewise for one that is skipped or on another device |
| FtsWalk.Fts.Read | src/fts.c:316-497 | returns the first of the events still to come, its path being the first fts_pathlen bytes of the buffer, and null only at the end or once fts_build has given up; the table refers to open directories only, at every return |
| FtsWalk.Fts.Drain | src/fts.c:316-497 | a whole run terminates and returns the recursive walk up to where fts_build gives up, whatever is skipped or listed on the way; the path buffer ends with the size the walk makes it have, overrun exactly if the walk makes it so, and never when paths of PATH_MAX bytes or more do not open |
| FtsWalk.WalkTree | src/fts.c:139-272 | the same from fts_open on; the whole recursive walk exactly when fts_build gives up nowhere; in that walk nothing is missing and nothing is added |
| FtsWalk.DeepRun | src/fts.c:653-660 | a run that writes past the end |
| FtsWalk.OpenRuns | src/fts.c:590-760 | three runs that return one FTS_D and then null: an entry that cannot be examined, a directory listed twice, a directory that cannot be opened listed once |

## Left out

- Weak memory orderings: atomics are sequentially consistent steps, and a futex wait compares and sleeps in one step.
- Process ids that recur along an ancestry, a fork inside an init routine, and 2^30 - 1 or more forks along one ancestry.
- OnceProtocol.InitOnce: counts completions since the last fork that did not find DONE; OnceHistory.InitOnceEver counts them along the whole ancestry.
- Comparison functions of trees other than a total order on integer keys; `RB_AUGMENT`, `RBT_*`, `include/queue.h`.
- ArgpParse.Parser.Parse: the parsers accept every key and leave `next` and `argv` alone; other answers are covered for the callback keys only (ArgpProtocol).
- A short option character that is not ASCII stops find_short_option at an assertion; the model ends such a run with an error.
- FindShortOption on an argp with a parser and a null options array, which the code would dereference; an options array is a possibly empty list here.
- Under `ARGP_LONG_ONLY` the string of short options is data; how it is stored and measured is not modelled.
- ArgpProtocol.Session.ParseArg: `args_processed` is unbounded, not an unsigned int.
- The INIT pass that ends in an error: the run is over then, without FINI, as in the code.
- ShortOptions.Agreement: keys 32 to 126, which isprint accepts in the C locale.
- Clusters, sorting and layout of help output, help filters, `argp-fmtstream.c`, `OPTION_HIDDEN` (the callback of ShortIterate is called for visible options only).
- Missing `args_doc` and an empty one are the same in UsageOdometer.
- The failure handler of obstacks does not return; `obstack_vprintf`, `obstack_int_grow` and `obstack_ptr_grow` (stores of the bytes of a word), and the `_fast` macros.
- Obstack.Obstack.Free: takes the start of a live object, as its documentation asks; other addresses are not modelled.
- fts with a changing working directory, `FTS_AGAIN`, `FTS_FOLLOW`, `FTS_NOSTAT`, `FTS_NAMEONLY`, `FTS_WHITEOUT`, an instruction set on a node that has not been returned yet, allocation failures, errors of readdir, fstat and fdopendir, a file system that changes during the walk, a link given as a root under `FTS_COMFOLLOW` with `FTS_PHYSICAL`, a stream without roots, and fts_close.
- Opening a path: the text in the path buffer names the directory at hand or one of its entries, with the identity that stat has found; how a path is resolved is not modelled.
- FtsWalk.Sort: qsort is the order it leads to, an argument; the list of a directory is linked in one pass once its order is known; the roots come in the order of the walk.
- fts_padjust: the nodes refer to the path buffer through the stream, so that no pointer is stale after a resize; freed nodes are no longer referred to, but their release is not modelled.
- The forwarding shims, the stubs for locales and the other headers of the library.
