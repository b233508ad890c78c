# Powerman, verified

A Dafny model of the parts of powerman that carry its guarantees: the host lists, the two
containers under the daemon, and the daemon itself. `dafny verify dfyconfig.toml` checks all of
it.

**Host lists** (`Digits`, `HostRange`, `HostList`, `HostOrder`, `HostSort`, `HostText`,
`HostPrint`, `Conf`). A list is an array of ranges, and what it means is the sequence of names it
prints. Every operation is specified by what it does to that sequence, although the code rewrites
widths while it searches and compares. On top of that: the search is exact, the sort with its
restarting coalesce loop ends and orders the same multiset of names, `uniq` leaves no host twice,
and the compressed text that is printed parses to the same names. Alias expansion has a simple
meaning and the exact condition under which it ends.

**Containers** (`Ring`, `Cbuf`, `CbufLines`, `LinkedList`, `ListSort`). The circular buffer holds
two byte sequences, replayable and unread, and its operations are specified on them under all
three overwrite policies; growth cannot be observed. Line search in both directions is exact. The
linked list is specified by its sequence of nodes together with the view of every live iterator.

**Daemon** (`Script`, `ArgList`, `Action`, `Device`, `Targeting`, `DeviceList`, `Client`,
`Daemon`). `Script` gives scripts a recursive meaning, the sequence of primitive statements with
their plugs, and proves that the explicit stack of contexts with its shared flags carries it out
over any pattern of stalls. The outcome of each ifon/ifoff is part of the log, so the meaning is
compared for every way the tests may turn out. `Device` runs a queue of actions on it, with login
ahead of everything else, timeouts, aborts and reconnects, and keeps a record of the actions that
have ended. `Daemon` puts clients on top: over any run, pending counts, callbacks and reference
counts agree, every line is counted and gets its answer, and every action carries out its script
pass by pass until it ends.

Modelling decisions that hold throughout:

- Classes, fields and loops follow the source. Ranges, contexts and the commands of clients are
  values in the slots that own them. A link address (`&p->next`) is the node that owns the
  pointer, and null for the head.
- Clocks, bytes from a device, the outcome of a connect, and the regular expression engine are
  arbitrary: a clock may even run backwards. Times are in microseconds.
- Completion callbacks are collected by the device and delivered when its pass over its queue is
  over, in the same order, rather than from inside the pass.
- The `processing` flag and the plug iterator stay set when an action is rewound, as in the code.
  `RewindExact` says when that matters.

What the model shows about the code beyond what it promises:

- An action that is rewound while `processing` or its plug iterator is set may leave out a send,
  a whole ifon/ifoff or the first plugs of a foreach (`RewindExact`, `RewindLosesSend`).
- `hostlist_delete_nth` accepts position `nhosts`, deletes nothing and lowers `nhosts`.
- Mixed zero padding under one prefix can break the assertion in `hostlist_coalesce`
  (`MixedPaddingBreaksOrder`). Pairwise compatible widths are enough to rule it out, but not
  necessary: f[1-3] and f[07-09] are incompatible and sort well.
- The expansion of aliases never ends when a range of numbers prints the name of an alias whose
  number is above MAX_HOST_SUFFIX, as the text a[99999999] does for an alias a99999999
  (`HangsWitness`); on every other list it ends (`EndsIff`, `ExpandAliases`). The same name as a
  plain word is a single host, and is expanded.
- A nodes request sorts the configured nodes in place, so that later commands without argument
  take them in another order; on nodes with mixed padding under one prefix it can run into the
  assertion above.
- The comparison of ranges is exact only below 2^31, the search only up to MAX_HOST_SUFFIX, and
  both limits are tight (`CmpExactDomain`, `FindExactDomain`).
- A list iterator whose upcoming node is deleted by others loses the node it returned last, so
  that `list_remove` then does nothing.
- `cbuf_copier` does not mark a fresh buffer as wrapped when it skips bytes before copying.
- `strtoul` lets the parser accept `5-` and text behind the first number of a range (`DashAtEnd`,
  `TextBehindNumber`).

## Model

| member | source | states |
|---|---|---|
| `Digits.ZeroPadded` | liblsd/hostlist.c:398-404 | the division loop counts exactly the zeros that "%0*lu" puts in front |
| `Digits.PadStable` | liblsd/hostlist.c:419-449 | two widths that pad lo alike pad every larger number alike, which is why a width rewrite changes no printed name |
| `Digits.ValueNumber` | liblsd/hostlist.c:1031-1051 | reading back a printed number gives the number, whatever its padding |
| `Digits.NumberValue` | liblsd/hostlist.c:1396-1434 | printing a number that was read, at the width it was written with, gives its text again |
| `HostRange.SameNames` | liblsd/hostlist.c:419-449 | a range whose width was rewritten to one that pads lo alike keeps all its names |
| `HostRange.CmpIsKeyOrder` | liblsd/hostlist.c:696-760 | the comparison, which rewrites widths as it goes, has the sign of the order by prefix, single hosts first, printed length of lo, lo; and the rewrites keep every name of both ranges (lo below 2^31) |
| `HostRange.CmpExactDomain` | liblsd/hostlist.c:696-708 | the int result decides the order on all ranges that start below a bound if and only if the bound is at most 2^31 |
| `HostRange.KeyLePreorder` | liblsd/hostlist.c:696-729 | that order is a total preorder |
| `HostRange.HostPrefixEnd` | liblsd/hostlist.c:457-464 | the loop stops where the trailing digits start |
| `HostRange.NameInjective` | liblsd/hostlist.c:896-985 | a range prints no name twice |
| `HostRange.HnWithinSound` | liblsd/hostlist.c:896-985 | a hit in a range is at the offset that prints as the name, and the search keeps the names of the range |
| `HostRange.HnWithinComplete` | liblsd/hostlist.c:896-985 | every name of a range whose suffix is small enough is hit at its offset, also when the prefix of the range ends in digits and the name is split again |
| `HostLists.FoundExact` | liblsd/hostlist.c:1913-1938 | on a searchable name the search ends at the least position that prints as the name, and at -1 if and only if there is none |
| `HostLists.FoundSound` | liblsd/hostlist.c:1913-1938 | a hit is a true hit for every name, searchable or not |
| `HostLists.FindExactDomain` | liblsd/hostlist.c:541-544 | the search is exact for a name on all lists if and only if the name has no digit suffix above MAX_HOST_SUFFIX, whatever its length |
| `HostLists.FoundUnspelled` | liblsd/hostlist.c:1913-1938 | for every name at all the search is exact on the lists in which no range of numbers prints that name |
| `HostLists.FoundFindable` | liblsd/hostlist.c:1913-1938 | together: exact on every list for a searchable name, and for any other on the lists in which no range of numbers prints it |
| `HostLists.FoundNoSingle` | liblsd/hostlist.c:896-985 | a name that is not searchable is never found when no single host has it, whatever the ranges of numbers print |
| `HostLists.FoundSame` | liblsd/hostlist.c:1913-1938 | width rewrites of earlier searches do not change where a name is found |
| `HostLists.HostList.constructor` | liblsd/hostlist.c:1059-1087 | the new list has no names |
| `HostLists.HostList.Copy` | liblsd/hostlist.c:1558-1581 | the copy has the names of the original |
| `HostLists.HostList.PushRange` | liblsd/hostlist.c:1130-1162 | the names of the range are appended, whether the last range is extended or a new one stored; nhosts stays the number of names; and ranges of numbers print what they printed and the new numbers |
| `HostLists.HostList.PushHost` | liblsd/hostlist.c:1622-1644 | one name is appended, however it splits into prefix and suffix |
| `HostLists.HostList.PushList` | liblsd/hostlist.c:1646-1661 | the names of the other list are appended; the other list keeps its names |
| `HostLists.HostList.Find` | liblsd/hostlist.c:1913-1938 | returns the position of the name, and rewrites widths without changing a printed name |
| `HostLists.HostList.Nth` | liblsd/hostlist.c:1844-1864 | returns the name at a position, and nothing past the end |
| `HostLists.HostList.DeleteNth` | liblsd/hostlist.c:1867-1902 | takes out exactly the name at the position, splitting its range if need be; for position nhosts, which the assertion lets through, deletes nothing and still lowers nhosts |
| `HostLists.HostList.DeleteHost` | liblsd/hostlist.c:1823-1829 | takes out the host that the search finds and nothing else, or nothing when it finds none; on a searchable name that is the first occurrence; what ranges of numbers print stays, but for a searchable name |
| `HostLists.HostList.Pop` | liblsd/hostlist.c:1664-1680 | takes the last name off and returns it |
| `HostLists.HostList.Shift` | liblsd/hostlist.c:1703-1725 | takes the first name off and returns it |
| `HostLists.HostIterator.constructor` | liblsd/hostlist.c:2222-2236 | the iterator has passed no name |
| `HostLists.HostIterator.Reset` | liblsd/hostlist.c:2243-2251 | a reset iterator has passed no name, also when the list was changed meanwhile |
| `HostLists.HostIterator.Next` | liblsd/hostlist.c:2273-2337 | yields the names of the list one by one, in order, and then nothing |
| `HostOrder.UniformIffCompatible` | liblsd/hostlist.c:419-449 | ranges under one prefix are pairwise width-compatible if and only if one width per prefix prints them all as they are |
| `HostOrder.PermutedNames` | liblsd/hostlist.c:1951-1971 | ranges in another order, with widths rewritten, print the same multiset of names |
| `HostOrder.AllHostsInOrder` | liblsd/hostlist.c:1951-1971 | ranges in order with no overlap hold their hosts in host order |
| `HostOrder.NamesOfHosts` | liblsd/hostlist.c:991-1026 | under one width per prefix the names of a list are its hosts printed one by one |
| `HostSort.Qsort` | liblsd/hostlist.c:1943-1971 | the ranges are permuted into comparison order, with the same multiset of names |
| `HostSort.SplitCount` | liblsd/hostlist.c:1999-2047 | splitting two overlapping ranges keeps how often each name occurs |
| `HostSort.SplitMeasure` | liblsd/hostlist.c:1999-2047 | each split and restart raises the number of ranges, or keeps it and lowers the sum of the running totals of their upper ends |
| `HostSort.InsertRange` | liblsd/hostlist.c:1182-1217 | a range is put in at an index, the ranges behind it move up by one |
| `HostSort.InsertDouble` | liblsd/hostlist.c:2024-2038 | the inner loop puts each common number in twice between the two ends |
| `HostSort.Coalesce` | liblsd/hostlist.c:1999-2047 | the restarting loop ends, keeps the multiset of names, and leaves no two neighbours overlapping |
| `HostSort.Collapse` | liblsd/hostlist.c:1977-1994 | neighbours that continue each other are merged, with the same names in the same order, until none is left |
| `HostSort.Sort` | liblsd/hostlist.c:1951-1971 | the same multiset of names, in host order, in ranges none of which continues its neighbour, with no higher number than before; nhosts untouched (lo below 2^31, pairwise compatible widths) |
| `HostSort.MixedPaddingBreaksOrder` | liblsd/hostlist.c:1999-2047 | f[1-30], f[5-20], f[05-07]: with mixed padding a split leaves ranges that contradict the assertion on the next comparison |
| `HostSort.JoinSound` | liblsd/hostlist.c:834-860 | joining two ranges in order counts exactly the names they share |
| `HostSort.NoJoinGap` | liblsd/hostlist.c:834-860 | ranges in order that do not join leave a gap |
| `HostSort.Uniq` | liblsd/hostlist.c:2053-2089 | the same set of names and an exact nhosts on every list with lo below 2^31; with pairwise compatible widths no host twice, and ranges kept apart by gaps |
| `HostText.SkipSeparators` | liblsd/hostlist.c:366-393 | moves to the first character that is no separator |
| `HostText.NextTok` | liblsd/hostlist.c:366-393 | the next token: up to a separator outside brackets |
| `HostText.DashAtEnd` | liblsd/hostlist.c:1396-1434 | the parser reads 5- as the number 5 |
| `HostText.TextBehindNumber` | liblsd/hostlist.c:1396-1434 | the parser reads 5x-7 as the range 5-7, one digit wider than it should be |
| `HostText.ParseRangeList` | liblsd/hostlist.c:1443-1458 | the loop over the commas gives the list of ranges the text stands for, or the error |
| `HostText.PushRangeList` | liblsd/hostlist.c:1460-1469 | appends the names of all ranges of a bracket, in order, as ranges of numbers |
| `HostText.PushRangeListWithSuffix` | liblsd/hostlist.c:1471-1491 | the same with text behind the bracket: every name is pushed as a host of its own |
| `HostText.PushToken` | liblsd/hostlist.c:1513-1538 | appends the names of one token, or fails and appends nothing when its bracket cannot be read |
| `HostText.Create` | liblsd/hostlist.c:1497-1555 | a list with exactly the names the text stands for, or null if and only if a bracket cannot be read; ranges of numbers print exactly those unsearchable names that the text writes in a bracket with nothing behind it |
| `HostPrint.GetBracketedList` | liblsd/hostlist.c:2135-2179 | writes the group of ranges that share a bracket, and returns the index behind it |
| `HostPrint.RangedString` | liblsd/hostlist.c:2181-2204 | writes the groups of the list separated by commas |
| `HostPrint.ParseNumstr` | liblsd/hostlist.c:1031-1051 | one printed range reads back as its numbers at the width they were printed with |
| `HostPrint.BracketNames` | liblsd/hostlist.c:2135-2179 | a printed bracket reads back as the names of its ranges, zero padding included |
| `HostPrint.BracketNumber` | liblsd/hostlist.c:1031-1051 | text that ends in a bracket with one number stands for the one name without the brackets, and writes it as a range of numbers |
| `HostPrint.RoundTrip` | liblsd/hostlist.c:2181-2204 | the printed text of a list stands for exactly the names of the list (clean prefixes, at most MAX_RANGE numbers in a range and MAX_RANGES ranges in a bracket) |
| `HostPrint.PrintAndParse` | liblsd/hostlist.c:1497-1555 | printing a list and creating a list from the text gives a list with the same names |
| `Conf.TakeAlias` | powermand/parse_util.c:245-256 | taking the first alias name out of a list takes its expansion out of the meaning and leaves the rest |
| `Conf.FindAlias` | powermand/parse_util.c:226-229 | the first alias of that name, or none |
| `Conf.FoundMet` | powermand/parse_util.c:245-256 | the search finds an alias where the loop meets it, unless a range of numbers prints an alias that is not searchable |
| `Conf.Turn` | powermand/parse_util.c:245-256 | one turn: over when all names are passed; else passes a plain name, or puts the hosts of an alias aside, starts the iterator again, and takes the alias out of the list if and only if the search finds it |
| `Conf.TurnedLess` | powermand/parse_util.c:245-256 | a turn leaves fewer turns to go, and an alias that it meets is found where it was met, unless a range of numbers prints an alias that is not searchable |
| `Conf.EndsIff` | powermand/parse_util.c:234-264 | over traces of turns: there is one of any length if and only if a range of numbers prints an alias name that is not searchable; and one of (n + 1)^2 turns on n names is enough to tell |
| `Conf.ExpandAliases` | powermand/parse_util.c:234-264 | when no range of numbers prints an alias name that is not searchable: ends, and leaves the names that are no aliases in order, followed by the expansions of the alias occurrences in order; alias names inside expansions stay |
| `Conf.ExpandFor` | powermand/parse_util.c:234-264 | for any number of turns: where the loop stood after each, every turn a step of that meaning; stopped early only when over; and still going after (n + 1)^2 turns if and only if it never ends |
| `Conf.EndlessAlias` | powermand/parse_util.c:245-256 | for every alias name that is not searchable, of any length, there is a valid list on which the loop does not end: its last digit alone as the number of a range |
| `Conf.EndlessWitness` | powermand/parse_util.c:245-256 | for instance the alias a99999999 and the list a[99999999] |
| `Conf.Push` | liblsd/hostlist.c:1605-1620 | appends what a text stands for, or nothing |
| `Conf.NodeExists` | powermand/parse_util.c:158-164 | a node that is found is configured; true if and only if the node is configured, unless a range of numbers prints that node and it is not searchable |
| `Conf.AddedDistinct` | powermand/parse_util.c:166-187 | adding plain names keeps a list without duplicates, and succeeds if and only if all are new and distinct |
| `Conf.AddNodes` | powermand/parse_util.c:166-187 | adds what each name stands for when it is read again, up to the first name that is there already; and the node list keeps no plain name twice (unless a range of numbers prints one of the names and it is not searchable, or comes to print it) |
| `Ring.CursorsIff` | liblsd/cbuf.c:1766-1816 | the cursor conditions of cbuf_is_valid say exactly that replay and unread bytes lie one behind the other and fit the size |
| `Ring.WrittenTail` | liblsd/cbuf.c:1564-1648 | after a copy loop the bytes before its end are the last ones of old contents and new bytes |
| `Cbufs.Create` | liblsd/cbuf.c:216-275 | nothing if and only if the minimum size is not positive; else an empty valid buffer |
| `Cbufs.Cbuf.SetOverwrite` | liblsd/cbuf.c:450-477 | changes the policy, keeps validity and contents |
| `Cbufs.Cbuf.Flush` | liblsd/cbuf.c:303-318 | both sequences become empty |
| `Cbufs.Cbuf.Grow` | liblsd/cbuf.c:1651-1723 | relocates the wrapped part so that replay and unread bytes are what they were |
| `Cbufs.Cbuf.Dropper` | liblsd/cbuf.c:1425-1448 | the oldest unread bytes become the newest replay bytes |
| `Cbufs.Cbuf.Reader` | liblsd/cbuf.c:1451-1504 | hands out the oldest unread bytes that the sink takes, and consumes none |
| `Cbufs.Cbuf.Replayer` | liblsd/cbuf.c:1507-1561 | hands out the newest replay bytes, oldest of them first |
| `Cbufs.Cbuf.Writer` | liblsd/cbuf.c:1564-1648 | the accepted bytes d make unread the last size bytes of unread++d and all bytes the last size bytes of all++d, with exact dropped count and got_wrap, under all three policies; nothing is dropped below the maximum size |
| `Cbufs.Cbuf.CopyFrom` | liblsd/cbuf.c:1339-1422 | the same for a copy from another buffer, whose unread bytes stay; got_wrap ignores bytes skipped before the copy |
| `Cbufs.Cbuf.Write` | liblsd/cbuf.c:616-639 | a write from memory: what is accepted depends on the policy and the maximum size alone |
| `Cbufs.Cbuf.Read` | liblsd/cbuf.c:533-556 | returns the oldest unread bytes and moves them to replay |
| `Cbufs.Cbuf.Peek` | liblsd/cbuf.c:510-530 | returns the oldest unread bytes and changes nothing |
| `Cbufs.Cbuf.Drop` | liblsd/cbuf.c:480-507 | moves bytes from unread to replay; -1 means all, less is an error |
| `Cbufs.Cbuf.ReplayBytes` | liblsd/cbuf.c:559-579 | returns the newest replay bytes and changes nothing |
| `Cbufs.Cbuf.Rewind` | liblsd/cbuf.c:582-613 | moves the newest replay bytes back in front of the unread ones |
| `Cbufs.Gather` | liblsd/cbuf.c:1476-1495 | the copy-out loop yields the bytes in order across the end of the array |
| `Cbufs.Run` | liblsd/cbuf.c:1651-1723 | any sequence of writes, reads, peeks and drops shows what a buffer of one fixed size shows |
| `Cbufs.Lockstep` | liblsd/cbuf.c:1651-1723 | two buffers with one maximum size, one already grown, cannot be told apart by any such sequence: both show what the buffer of fixed size shows |
| `CbufLines.WholeLinesUnique` | liblsd/cbuf.c:1205-1260 | a number of complete lines fixes their length |
| `CbufLines.FindUnreadLine` | liblsd/cbuf.c:1205-1260 | exactly the requested number of complete lines or nothing; for -1 the longest whole-line stretch that fits |
| `CbufLines.ReadLine` | liblsd/cbuf.c:705-739 | takes the lines asked for or nothing, for -1 the longest whole-line stretch that fits the destination; hands them out cut to the destination; they become replayable; -1 for a negative length or a count below -1 |
| `CbufLines.MarkedIsFirst` | liblsd/cbuf.c:1110-1202 | no line start that the backward scan has passed lies behind its mark |
| `CbufLines.FindReplayLine` | liblsd/cbuf.c:1110-1202 | the same for replay bytes: the newest line counts without a newline, the oldest only while nothing was overwritten |
| `LinkedLists.InsertRepair` | liblsd/list.c:649-681 | the repair after an insertion keeps every iterator on a link of the list, with no returned node still to come |
| `LinkedLists.DestroyRepair` | liblsd/list.c:684-717 | the repair after a deletion does the same, for iterators at, before and behind the deleted node |
| `LinkedLists.List.constructor` | liblsd/list.c:214-229 | an empty list with tail at its head |
| `LinkedLists.List.NodeCreate` | liblsd/list.c:649-681 | a new node at a link; count, tail and all iterators stay right |
| `LinkedLists.List.NodeDestroy` | liblsd/list.c:684-717 | the node behind a link leaves the list; count, tail and all iterators stay right |
| `LinkedLists.List.Append` | liblsd/list.c:293-305 | one node at the end |
| `LinkedLists.List.Prepend` | liblsd/list.c:308-320 | one node in front |
| `LinkedLists.List.Pop` | liblsd/list.c:455-466 | the first node leaves, if there is one |
| `LinkedLists.List.FindFirst` | liblsd/list.c:323-341 | the first node whose data matches |
| `LinkedLists.List.DeleteAll` | liblsd/list.c:344-370 | exactly the matching nodes leave, in one pass, and are counted |
| `LinkedLists.List.IteratorCreate` | liblsd/list.c:512-530 | a new iterator before the first node |
| `LinkedLists.List.IteratorReset` | liblsd/list.c:533-544 | the iterator is before the first node again |
| `LinkedLists.List.IteratorDestroy` | liblsd/list.c:547-567 | the iterator leaves the list of live ones, the others stay |
| `LinkedLists.List.Next` | liblsd/list.c:570-585 | the upcoming node, which is in the list and was not returned since the last reset |
| `LinkedLists.CursorStep` | liblsd/list.c:570-585 | moving on keeps an iterator on a link of the list, with no returned node still to come |
| `LinkedLists.List.Insert` | liblsd/list.c:588-601 | a new node at the link of the iterator, with all iterators repaired |
| `LinkedLists.List.Remove` | liblsd/list.c:617-630 | takes out exactly the node this iterator returned last, after which its successor is next; or nothing when the iterator has lost that node |
| `ListSort.Relink` | liblsd/list.c:411-421 | the assignments through two links move one node back to an earlier link |
| `ListSort.MoveAt` | liblsd/list.c:411-421 | what such a move does to each position, and that it is a permutation |
| `ListSort.Sort` | liblsd/list.c:395-437 | a stable sorted permutation of the nodes for any total preorder, tail at the last link, every iterator at the head |
| `Scripts.CleanRun` | powermand/device.c:228-240 | a context with clear flags still has the whole recursive unrolling of its block to do |
| `Scripts.StepForeach` | powermand/device.c:954-998 | taking the next plug and pushing its block keeps log plus remaining work equal to the meaning |
| `Scripts.StepTrue` | powermand/device.c:1000-1062 | so does pushing the block of a test that matches |
| `Scripts.StepFalse` | powermand/device.c:1000-1062 | so does passing over the block of a test that does not |
| `Scripts.StepSent` | powermand/device.c:1163-1246 | so does writing a send, whose event is logged when it is written and never again |
| `Scripts.StepPrim` | powermand/device.c:923-952 | so does the end of a primitive statement, and the return from an inner block |
| `Scripts.LogIsPrefix` | powermand/device.c:809-952 | the log of an action started with clear flags is a prefix of the unrolling, however the tests to come turn out |
| `Scripts.LogIsComplete` | powermand/device.c:876-893 | with an empty stack the log is the full unrolling |
| `Scripts.FuelAdvance` | powermand/device.c:874-882 | going on to the next statement, or popping a context, lowers the measure of the stack |
| `Scripts.FuelPush` | powermand/device.c:857-867 | pushing the context of a foreach or an ifon/ifoff lowers it too |
| `Scripts.RewindExact` | powermand/device.c:254-271 | a rewound action runs its whole script again, for all outcomes of its tests, if and only if the flags it kept are harmless to that script |
| `Scripts.RewindLosesSend` | powermand/device.c:254-271 | a script that sends and then delays, rewound during the delay, never sends again |
| `Scripts.HarmfulRun` | powermand/device.c:254-271 | flags that are not harmless make the run strictly shorter than the unrolling |
| `ArgLists.Fill` | powermand/arglist.c:102-107 | one unknown result for each name of the list, and no other |
| `ArgLists.ArgList.constructor` | powermand/arglist.c:86-112 | a list with one unknown result per node and one holder |
| `ArgLists.ArgList.Link` | powermand/arglist.c:123-128 | one holder more |
| `ArgLists.ArgList.Unlink` | powermand/arglist.c:114-121 | one holder less; no use without a holder |
| `ArgLists.ArgList.Find` | powermand/arglist.c:130-138 | the result of a node, if the list has one |
| `Actions.Action.constructor` | powermand/device.c:273-296 | an action with one context at the start of its script and clear flags, and one holder more of its result list |
| `Actions.Action.Rewind` | powermand/device.c:254-271 | the outer context at its first statement with its flags kept, a new start of the log, and one rewind more |
| `Actions.CompletedUnrolled` | powermand/device.c:876-893 | an action that completed, and was never rewound or only with harmless flags, has executed exactly the unrolling of its script, and met no unknown state |
| `Actions.FaithfulSnoc` | powermand/device.c:876-911 | so the record of all actions that have ended stays faithful with each that completes or fails |
| `Actions.CarriedTrans` | powermand/device.c:1513-1552 | what is carried over one pass and over the next is carried over both: each action still waits or has ended, with its start and its log but for a rewind |
| `Actions.QueuedPrefix` | powermand/device.c:809-921 | an action in the queue, never rewound or only with harmless flags, has executed a prefix of it |
| `Actions.CompletionsOwed` | powermand/device.c:777-802 | each ended action that owes a callback makes one, and no other is made |
| `Devices.Memtrans` | powermand/device.c:177-185 | replaces every occurrence of one byte |
| `Devices.PlugFindFirst` | libcommon/pluglist.c:116-128 | the first plug of the name decides: found if a node is assigned to it; nothing is found when no plug has the name |
| `Devices.FindInterp` | powermand/device.c:1097-1104 | the state of the first interpretation that matches |
| `Devices.BufferedWritten` | powermand/device.c:1216-1221 | the output buffer holds the newest 64 kB of everything the sends of a log have written: an overflow loses the oldest bytes and no others |
| `Devices.Device.constructor` | powermand/device.c:1277-1307 | a valid idle device |
| `Devices.Device.ProcessSend` | powermand/device.c:1163-1246 | the text is written the first time only, into a buffer that keeps the newest 64 kB; over when the output is empty |
| `Devices.Device.ProcessExpect` | powermand/device.c:1123-1143 | consumes the input up to the end of the match, or stalls and leaves the input |
| `Devices.Device.ProcessSetPlugState` | powermand/device.c:1064-1120 | records the interpreted status for the node of the plug that is named, matched or targeted, if the command asked for it; else nothing |
| `Devices.Device.ProcessDelay` | powermand/device.c:1249-1275 | starts the clock once, and is over when the time is up |
| `Devices.Device.NextPlug` | powermand/device.c:967-975 | the next plug, or the next one with a node |
| `Devices.Device.ProcessForeach` | powermand/device.c:954-998 | pushes the block for the next plug, or clears the iterator when there is none |
| `Devices.Device.ProcessIfOnOff` | powermand/device.c:1000-1062 | pushes the block if the recorded state matches, fails the action if it is unknown, and clears the flag on the way back |
| `Devices.Device.ProcessStmt` | powermand/device.c:923-952 | every kind of statement keeps the refinement and takes fuel when it finishes; the output buffer gets the texts of the sends logged; a test is logged with the state recorded for its plug; only a setplugstate changes the results, as it should; it stalls only when the device keeps it waiting |
| `Devices.Device.RunStmts` | powermand/device.c:857-868 | the same for the loop that follows pushed contexts, which ends; all its tests find the states recorded at its start |
| `Devices.Device.TimedOut` | powermand/device.c:823-836 | the clock starts once; the error tells an unconnected device from one not logged in from one that does not answer |
| `Devices.Device.NextStmt` | powermand/device.c:874-883 | the stack moves to the next statement, or to the context below |
| `Devices.Device.StepHead` | powermand/device.c:814-883 | one round at the head of the queue: no statement runs unless connected, the log only grows from the same start, each new test carries the state recorded for its plug at the start of the round, and the measure falls unless it stalls |
| `Devices.Device.Retire` | powermand/device.c:885-893 | the head leaves and is recorded, its callback is made, its result list loses one holder |
| `Devices.Device.FailAll` | powermand/device.c:895-911 | a failed action and all behind it end in order; those behind get EABORT if it was an expect failure, else its error |
| `Devices.Device.GiveUp` | powermand/device.c:895-918 | and a connected device is reconnected, which throws away what was on its way to it |
| `Devices.Device.ProcessAction` | powermand/device.c:809-921 | every call ends. The actions that end are the first of the queue, in order, each recorded and with its callback; either all have completed and the next one cannot go on, or one failed, all behind it are aborted and the queue holds at most a new login. No action of the queue is rewound or loses anything of its log, and the bytes on their way to the device are the newest of what was there and what the actions have sent, one after the other, unless the reconnect throws them away |
| `Devices.Device.EnqueueLogin` | powermand/device.c:511-530 | the login action comes first, the action it preempts is rewound, and no other |
| `Devices.Device.Disconnect` | powermand/device.c:757-775 | buffers empty, not logged in, the queued login gone, all other actions kept |
| `Devices.Device.Connect` | powermand/device.c:404-420 | a login is queued first if and only if the attempt succeeds at once |
| `Devices.Device.TimeToReconnect` | powermand/device.c:383-402 | by the clock it returns, retries wait 1, 2, 4, 8, 15, 30 and then 60 seconds after the last one |
| `Devices.Device.Reconnect` | powermand/device.c:422-433 | the queue keeps its actions but for the old login and a new one; only the foremost of them can have been rewound, and only when connected |
| `Devices.Device.EnqueuePing` | powermand/device.c:1349-1362 | a ping is appended if and only if one is due |
| `Devices.Device.HandleRead` | powermand/device.c:1383-1403 | the input buffer keeps the newest 64 kB of what it held and what was read; nothing read is an error |
| `Devices.Device.HandleReady` | powermand/device.c:1428-1473 | keeps the login action at the head exactly while connected and not logged in; an error changes nothing but is reported |
| `Devices.Device.PollConnection` | powermand/device.c:1513-1539 | reconnect, login and ping leave the callbacks owed and the holders of result lists alone, keep all actions but logins, and move none but the one a new login preempts |
| `Devices.Device.Work` | powermand/device.c:1541-1552 | the pass over the queue pays of what is owed exactly the callbacks it makes, and leaves either a head that cannot go on or at most a new login |
| `Devices.Device.PostPoll` | powermand/device.c:1513-1552 | for every client, callbacks still owed plus callbacks made are what was owed; every result list loses a holder for each action ended; the login-first invariant holds again. Every action but a login still waits or has been recorded as ended, with its start and its log grown; only the foremost one can have been rewound, and none on a connected device with nothing to report. The pass ends only when the action at the head cannot go on or all have ended, and what is on its way to the device is what the connection left of it and what the actions have sent, in order |
| `Devices.CoreRefined` | powermand/device.c:809-921 | on a device in order every waiting action that no rewind has harmed has executed a prefix of the unrolling of its script, whatever the tests to come find, and every recorded one that succeeded all of it, with no unknown state met |
| `Targeting.TargetedExact` | powermand/device.c:670-703 | the plugs collected are exactly those whose node is named by the targets, unless a range of numbers prints that node and it is not searchable |
| `Targeting.NeedsDevice` | powermand/device.c:436-451 | true if and only if some plug is a target |
| `Targeting.CollectTargets` | powermand/device.c:656-704 | the targeted plugs in order, whether they are all, and an action for each if there is a script |
| `Targeting.Choose` | powermand/device.c:706-740 | the script for all plugs, else the ranged one, else one action per plug; unused actions let go of the result list |
| `Targeting.EnqueueTargetted` | powermand/device.c:651-747 | the queue grows by the chosen actions, all at the start of their scripts with clear flags; the result is their number, and the result list gains as many holders |
| `Targeting.CoveredExactly` | powermand/device.c:651-747 | for a command that is no query the actions cover the targeted plugs exactly, each once and in order; the script for all plugs is chosen only when all are targets; and when nothing at all is queued |
| `DeviceList.CheckActions` | powermand/device.c:457-477 | true if and only if every device with targets implements the command |
| `DeviceList.EnqueueOne` | powermand/device.c:492-504 | one device queues what its targets need, and an unconnected one is retried at once |
| `DeviceList.EnqueueActions` | powermand/device.c:484-509 | every device queues, behind what it had, what its targets need: the chosen scripts if it implements the command, else nothing; the callbacks owed to the client grow by exactly the total returned, no other client is owed more, and all result lists stay accounted for |
| `DeviceList.PollOne` | powermand/device.c:1513-1552 | one device of the pass: callbacks owed by all devices are conserved, all result lists stay accounted for, all queues stay apart, on every device all actions are carried on, and on this one nothing is left that could go on but a login after a reconnect |
| `Clients.AlternatesMore` | powermand/client.c:637-639 | one final line and one prompt more keep a transcript in order |
| `Clients.Client.constructor` | powermand/client.c:931-946 | version and prompt, nothing pending |
| `Clients.Client.Respond` | powermand/client.c:559-640 | one final line with the right number and one prompt for each request; a busy client gets the 208 line and nothing else, a line too long is answered even then, a quitting client gets no prompt; every line is counted |
| `Clients.Client.ActFinish` | powermand/client.c:663-718 | one callback less to wait for, errors remembered; with the last one the final line and the prompt, and the command is gone |
| `Clients.Client.Refuse` | powermand/client.c:628-639 | an error line and a prompt |
| `Daemons.BalancedCallback` | powermand/client.c:663-687 | a callback for a live client finds a command with pending callbacks, and leaves the count exact |
| `Daemons.BalancedGone` | powermand/client.c:669-671 | a callback for a client that has gone changes no count |
| `Daemons.HoldersWithout` | powermand/client.c:533-540 | without a client, each result list has one holder less if its command held it |
| `Daemons.Daemon.constructor` | powermand/client.c:191-195 | a daemon with no clients, and devices on which at most logins and pings are queued, has its books in order |
| `Daemons.Daemon.FindClient` | powermand/client.c:755-766 | the first client of that identifier |
| `Daemons.Daemon.ActFinish` | powermand/client.c:663-718 | exactly the client of the callback waits for one less; books and transcripts stay right |
| `Daemons.Daemon.PostPoll` | powermand/device.c:1513-1552 | a pass over all devices with the callbacks they make keeps books and transcripts, carries all actions on, and leaves no device with an action that could go on but a login after a reconnect |
| `Daemons.Daemon.Accept` | powermand/client.c:867-947 | a new client that nobody owes anything |
| `Daemons.Daemon.DestroyClient` | powermand/client.c:723-752 | the client is gone and its command lets go of its result list; queued actions stay |
| `Daemons.HangsEndless` | powermand/parse_util.c:234-264 | a text makes the expansion of aliases run for ever if and only if it writes an unsearchable alias name in a bracket with nothing behind it |
| `Daemons.HangsAlias` | powermand/parse_util.c:234-264 | for every alias name that is not searchable and can be written, the text with its last digit in a bracket is one |
| `Daemons.HangsWitness` | powermand/parse_util.c:234-264 | so is a[99999999] for an alias a99999999 |
| `Daemons.Daemon.CreateValidated` | powermand/client.c:211-259 | the hosts of the text with aliases expanded, all of them configured; 205 if and only if it cannot be read; 209 if and only if some host is not configured (unless a range of numbers prints one of the hosts among the nodes and it is not searchable) |
| `Daemons.Validate` | powermand/client.c:238-245 | the loop over the hosts: valid only if all are configured, and then whenever they are, with the same exception |
| `Daemons.Daemon.CreateCommand` | powermand/client.c:488-528 | configured hosts of a command that every device with targets implements, or 205, 209 or 213; no argument stands for all nodes |
| `Daemons.Daemon.StartCommand` | powermand/client.c:621-635 | the client waits for as many callbacks as actions were queued, which are those that the targets need on each device for this client and its result list; or it is refused with 213 when there are none, and no queue changes |
| `Daemons.Daemon.RunCommand` | powermand/client.c:621-635 | a command line of an idle client queues the actions for the hosts it names, all nodes without an argument, on devices that all implement it; or it is refused with an error and a prompt, and no queue changes |
| `Daemons.Daemon.SortNodes` | powermand/client.c:264-268 | the nodes request leaves the configured nodes in host order, the same nodes as before, and sortable again |
| `Daemons.Daemon.ParseInput` | powermand/client.c:559-640 | a line keeps books and transcripts and is counted; a busy client gets the 208 line and nothing else, unless the line is too long; only a command line of an idle client changes its command, and then it waits or is refused; nothing else touches the queues, and an accepted command queues what its targets need; only a nodes request of an idle client reorders the nodes; all queued actions are carried on |
| `Daemons.Daemon.HandleInput` | powermand/client.c:1022-1031 | all lines of a client are counted and keep books and transcripts; a client that has quit or ended its input is destroyed after them, and no other |
| `Daemons.TalliedMore` | powermand/client.c:1022-1031 | the counts of lines stay exact over one more event |
| `Daemons.Daemon.Step` | powermand/client.c:1072-1129 | each event of the main loop keeps books and transcripts, raises the count of lines of each client by the lines it brings from that client, and carries all actions on |
| `Daemons.Daemon.Run` | powermand/device.c:1513-1552 | over any run of connections, input, hang-ups and polls: pending counts equal callbacks owed, no callback finds a client without a command, reference counts equal live holders. Every line that a client has sent since it came is counted, and each has one final line and one prompt, or a 208 line, but for the line of a pending command. Every action but a login still waits or is recorded as ended, from its start with a longer log but for rewinds; waiting ones have executed a prefix and successful ones exactly the unrolling of their scripts, unless rewound with harmful flags. The configured nodes stay the same multiset |

## Left out

- hostset, `hostlist_pop_range`, `hostlist_shift_range`, `hostlist_remove`, `hostlist_delete`, `hostlist_deranged_string` and the older parser without brackets: not used by the daemon, or easy.
- Host iterators over a list that is changed behind their back: the daemon resets them after a change, as the model does.
- Fixed-size output buffers of the printers, failing allocations, mutexes, magic cookies and guard bytes beyond their count.
- Host ranges are values in the list's array: the source keeps each in a heap record that one slot owns, so aliasing between slots is not modelled.
- `qsort`: an insertion sort on the same comparison stands for the library's algorithm.
- HostText.Create: rejects a number equal to ULONG_MAX in a bracket, which the source accepts although `hostrange_empty` reserves it.
- HostSort.Sort: needs pairwise compatible widths under each prefix and numbers below 2^31, which is sufficient but not necessary; `MixedPaddingBreaksOrder` and `CmpExactDomain` show what goes wrong without.
- Daemons.Daemon.SortNodes: needs what the sort needs; a run with nodes requests is one whose nodes have pairwise compatible widths and numbers below 2^31.
- HostSort.Uniq: needs numbers below 2^31, as `HostSort.Sort` does.
- Conf.AddNodes: says nothing about which names are added when a range of numbers among the nodes prints one of them that is not searchable, or comes to print it while they are added.
- Daemons.Daemon.CreateValidated: not on the texts of `Hangs`, from which the source's loop over the aliases does not come back.
- Cbuf file descriptors: sources and sinks are byte sequences with an error code; `cbuf_shrink`, the line functions other than the two searches and reading lines, `cbuf_move` and null arguments are not modelled.
- Linked list: `list_for_each` and the allocators.
- Sockets, ptys, serial setup, poll sets, the getaddrinfo walk and telnet negotiation: connects and reads are nondeterministic, input reaches the buffer unchanged.
- Regular expressions: the engine is a function from pattern and text to a match, as the C library's is not visible; the assertion that a match was tried before a setplugstate is not modelled.
- Devices.Device.ProcessSend: several plug names are compressed by a function parameter, which stands for `hostlist_push`, `Sort` and `RangedString`; a format has at most one `%s`.
- Devices.Device.ProcessSetPlugState: login and ping scripts have no result list; the source would dereference null there, the model finds no argument.
- Telemetry output, statistics counters, and the poll timeout that the daemon computes.
- `parse_lex.c` and `parse_tab.c`: scripts are a datatype with non-empty blocks, and a device has a login script.
- Clients.Client.Respond: the keyword of a line is recognised before it reaches the model, and information lines are counted only by kind; their texts and numbers are not modelled.
- Daemons.Daemon.Run: client identifiers do not wrap around.
- Daemons.Daemon.ParseInput: the text that a quitting client still gets is not ordered by prompts, as in the source.
