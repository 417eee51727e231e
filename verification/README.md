# libyod

A Dafny model of the data structures, the text and binary codecs and the
connection protocol of libyod, a C library for small network servers, with
proofs about them.

## What is modelled

**Containers.**

- `RbTree` is the red-black tree of `libyod/rbtree.c`: nodes on the heap with
  parent pointers, a shared sentinel `leaf`, both rotations, both rebalancing
  loops, the splice of the successor on deletion, and beside the tree the doubly
  linked list with its cursor. `RbShape`, `RbLinks`, `RbBalance`, `RbDelete` and
  `RbSplice` hold what is true of shapes and of pointers, `Multimap` the abstract
  content: pairs in key order.
- `HTable` is the chained hash table of `libyod/htable.c`: buckets, chains and
  the list in order of arrival, on the heap, with the doubling of the bucket
  array and the unrolled hash. Its content is a sequence of entries in order of
  arrival.
- `RbTreeRuns` and `HTableRuns` are whole series of calls on one container.

**JSON** (`libyod/jvalue.c`).

- `JsonScan` is one turn of the decoder's flag-driven loop, for both passes;
  `JsonPasses` makes runs of it. `JsonGrowth` follows the measures of the first
  pass, `JsonVisits` the order of its nodes, and `JsonAgree` compares the passes.
  `JsonOverrun` says when the scan leaves the text, `JsonSlash` what becomes of
  strings that begin with a slash.
- `JsonSpelling` is how strings may be spelled, with a UTF-8 reader of its own,
  `JsonWords` strings and names without quotes, `JsonGaps` white space and comments.
  `JsonBuild`, `JsonMeasure` and `JsonFill` tell the passes by recursion on a value;
  `JsonRoundTrip` says what is read back of printed text, `JsonTwins` and `JsonDocs`
  what is read of any text of a value, `JsonNumbers` which numerals are numbers, and
  `JsonRefused` what is refused.
- `JsonValue` is the recursive printer, `JsonPrinter` the one in the code, which
  climbs parent pointers and keeps a cursor in every node.
- `JsonMembers` and `JsonTree` are objects as arrays sorted by name.

**Server** (`libyod/thread.c`, `libyod/evloop.c`, `libyod/server.c`).

- `Workers`, `EventLoop` and `Lifecycle` are state machines whose steps are lock
  sections, unlocked tests, system calls and callbacks, in any interleaving;
  `LifecycleSteps` says what single steps of a connection's life do to it.
  `WorkQueue`, `Roster`, `EventLoop` and `Server` are the linked structures on the
  heap that carry out these steps.

**Arithmetic.** `Md5` and `Md5Stream` are the buffering and padding of MD5
(`libyod/crypto.c`), `Vint` the variable-length integers (`libyod/common.c`).

## Where the code does not do what one would expect

Each of these is stated with its exact condition, most with an input.

- The decoder steps over the end of its text when a value is sought at its last
  three bytes and these are an `n`, not a `u` and not an `l`: `nab` is enough
  (`JsonOverrun.LeavesText`, `JsonOverrun.Nab`).
- A container with more than half of the largest size passes the first pass of
  the decoder and is refused by the second, which counts on where the first left
  off (`JsonAgree.PassesAgree`, `JsonRoundTrip.CrowdedArray`).
- The decoder takes a slash that opens no comment for the start of a string in any
  container. Behind a finished text such a string is read and belongs to nothing:
  `[]/x` and a space (`JsonVisits.VisitsAre`, `JsonSlash.Behind`). Where the name
  of a member should stand it replaces the value with the smallest name, or is
  lost in an object without members: `{a:[]/x}` decodes to `a` = `/x`
  (`JsonSlash.OnlyAtSlash`, `JsonSlash.ValueWithoutName`, `JsonSlash.Beside`).
- Setting a member to the value it already holds releases that value and keeps it
  (`JsonTree.ReleasedIsOut`).
- Decoding what was printed gives back the same value unless it is a lone number
  or null, holds a null or a negative number, has a number as the last part of
  a container, or an object whose names are not in order (`JsonRoundTrip.RoundTrip`).
- A number is taken for one only if a comma follows it at once: in `[1 ,2]` both are
  strings (`JsonDocs.TextIsRead`, `JsonDocs.SpacedNumber`).
- Numbers lose their sign and wrap around at 64 bits, and a minus sign is a number
  without any digits behind it: `[-,1]` begins with 0 (`JsonNumbers.NumeralIsTaken`,
  `JsonNumbers.NumericIs`).
- A pair of surrogates is taken for its code point exactly if the plane of that is
  odd, because bit 16 is set where 1 should be added to the plane: `\uD840\uDC00`,
  U+20000, is read as U+10000 (`JsonSpelling.PairIsRight`).
- A variable-length integer comes back unless one of its quotients by powers of
  128 is 128: 128 itself does not (`Vint.RoundTrip32`, `Vint.Examples`). From
  129 * 2^56 on the 64-bit encoder writes ten bytes (`Vint.RoundTrip64`).
- MD5 of a block of memory counts its length modulo 2^32: of 2^32 bytes it counts
  none (`Md5.LengthIsRight`, `Md5.LengthIsLost`). For the same reason one update
  differs from two where the lengths overflow 32 bits (`Md5.AbsorbSplit`).
- An entry of the event loop registered for anything besides READ and WRITE can be
  deleted, and so closed and freed, twice (`EventLoop.PushedOnceExactly`).
- So can any entry whose deletions overlap: the mask is tested before the lock is
  taken, and a deletion that has passed its test when another one's lock section
  empties the mask pushes the entry again. A connection closed from two sides at
  once is one (`EventLoop.TidyExactly`, `EventLoop.ClosedFromTwoSides`).
- An entry deleted by the first call of its event still gets the other calls of
  that event (`EventLoop.LastEvent`, `EventLoop.CalledAfterDeletion`).
- The cursor of the hash table is left behind when its entry is deleted
  (`HTable.CursorAfterDel`).

## Model

| member | source | states |
|---|---|---|
| RbTree.RbTree.Add | libyod/rbtree.c:155-295 | every insertion keeps the whole structure in order (colours, black heights, parent pointers, list, ends, counter); without `force`, or for a new key, the pair is inserted behind all pairs with keys not greater; with it the value of one pair of that key is replaced and the old one released; the cursor stays |
| RbTree.RbTree.Del | libyod/rbtree.c:301-500 | every deletion keeps the whole structure in order, through all cases of the successor splice and of the rebalancing; it takes out exactly one pair of the key, fails exactly if there is none, and moves the cursor off the deleted node |
| RbTree.RbTree.Find | libyod/rbtree.c:508-535 | gives the value of a pair with that key if there is one, and NULL otherwise |
| RbTree.RbTree.DescentBound | libyod/rbtree.c:219-222 | at depth d of any descent in a tree of n pairs, 2^(d/2) <= n + 1 |
| RbTree.RbTree.LeftRotate | libyod/rbtree.c:689-720 | the pointers it rewrites, field by field, and that no other changes |
| RbTree.RbTree.LeftRotateAt | libyod/rbtree.c:689-720 | a rotation turns the tree seen in memory into the rotated one, in any context |
| RbTree.RbTree.RightRotateAt | libyod/rbtree.c:726-757 | the same for the other direction |
| RbTree.RbTree.InsertFixup | libyod/rbtree.c:242-281 | the loop ends with a red-black tree of the same in-order sequence, whatever the shape above the new node |
| RbTree.RbTree.DeleteFixup | libyod/rbtree.c:426-488 | the loop repairs a subtree that is one black node short, keeping the in-order sequence, and ends at the root or a red node |
| RbTree.RbTree.Head | libyod/rbtree.c:561-587 | puts the cursor on the first pair in key order, if there is one |
| RbTree.RbTree.Tail | libyod/rbtree.c:593-619 | puts the cursor on the last pair in key order, if there is one |
| RbTree.RbTree.Next | libyod/rbtree.c:625-651 | moves the cursor from pair i to pair i + 1 in key order, and stays on the last |
| RbTree.RbTree.Prev | libyod/rbtree.c:657-683 | moves the cursor from pair i to pair i - 1 in key order, and stays on the first |
| RbTree.RbTree.Free | libyod/rbtree.c:120-149 | releases every value that is left, in key order |
| RbShape.HeightBound | libyod/rbtree.c:219-222 | in every red-black shape of height h and n nodes, 2^(h/2) <= n + 1 |
| RbShape.PlugRedBlack | libyod/rbtree.c:242-281 | a subtree without two reds in a row, put where its black height fits, gives a red-black tree |
| RbBalance.InorderRotation | libyod/rbtree.c:689-757 | rotations and recolourings leave the in-order sequence alone |
| RbSplice.SpliceTwo | libyod/rbtree.c:350-405 | after the pointer writes of the successor splice the memory shows the tree with the successor in the place of the node |
| RbSplice.SpliceTwoOrder | libyod/rbtree.c:350-405 | and its in-order sequence is the old one without the node |
| RbTreeRuns.Run | libyod/rbtree.c:155-535 | a series of additions, deletions and searches on any tree leads through contents each of which its operation may make of the one before, with the answers given |
| RbTreeRuns.RunOnNew | libyod/rbtree.c:62-535 | and so on a new tree, from the empty content |
| RbTreeRuns.RunCounts | libyod/rbtree.c:155-535 | whichever of several pairs of a key the calls take, the keys stay in order and how many pairs each key has depends on the calls alone |
| RbTreeRuns.AnswerInRun | libyod/rbtree.c:155-535 | and so do the answers: a deletion fails and a search finds nothing exactly if that number is 0, and otherwise the search gives the value of one of them |
| RbTreeRuns.RunConserves | libyod/rbtree.c:155-535 | after any run every value added is held by one pair or was released, once |
| Multimap.PutInOrder | libyod/rbtree.c:213-240 | an insertion keeps the pairs in key order and brings in no other key |
| Multimap.PutAppends | libyod/rbtree.c:213-240 | the values of a key are kept in order of arrival: an insertion appends to those of its own key and leaves the others alone |
| Multimap.PutKeepsValues | libyod/rbtree.c:213-240 | no value is lost or doubled by an insertion |
| Multimap.ChangedKeepsValues | libyod/rbtree.c:166-190 | a replaced value is given up, all others stay |
| Multimap.DroppedKeepsValues | libyod/rbtree.c:314-348 | a deletion gives up one value, all others stay |
| HTable.HTable.Add | libyod/htable.c:281-391 | a new key is appended, with force a known one gets the new value in its old place and the old value is released, without force it fails; buckets, chains, list and counters stay in agreement, with at most as many entries as buckets; the cursor stays |
| HTable.HTable.Del | libyod/htable.c:395-491 | takes out the entry of the key, if there is one, and nothing else, keeping the order of the others, the agreement of chains and list, and the cursor |
| HTable.HTable.Find | libyod/htable.c:497-553 | gives the value of the key's entry, and NULL if there is none |
| HTable.HTable.Resize | libyod/htable.c:735-830 | doubling the bucket array changes neither the entries nor their order; each is in the bucket of its masked number again |
| HTable.StrNkey | libyod/htable.c:836-862 | the hash unrolled eight times is the byte-by-byte hash 33 * h + c in 64 bits |
| HTableRuns.Run | libyod/htable.c:281-553 | a series of additions, deletions and look-ups on any table leaves and answers what the fold of the abstract operations does |
| HTableRuns.RunOnNew | libyod/htable.c:57-553 | and so on a new table, from no entries |
| HTableRuns.RunIsMap | libyod/htable.c:281-553 | after any run on a new table the entries are those of the map the calls make, each key once |
| HTableRuns.LookUpInRun | libyod/htable.c:497-553 | and a look-up answers with the value of that map, or NULL |
| HTable.KeysDiffer | libyod/htable.c:304-311 | two keys are the same exactly if their strings are, or there is none and their numbers are; a shared hash does not count |
| HTableRuns.RunConserves | libyod/htable.c:281-491 | after any run every value the table took over is held by one entry or was released, once |
| HTable.HTable.Next | libyod/htable.c:657-690 | moves the cursor from entry i to entry i + 1 in order of arrival |
| HTable.HTable.Prev | libyod/htable.c:696-729 | moves the cursor from entry i to entry i - 1 in order of arrival |
| HTable.CursorAfterDel | libyod/htable.c:415-463 | after a deletion the cursor is still on an entry exactly if it was not on the deleted one, and on which |
| JsonPasses.StepShrinks | libyod/jvalue.c:770-1598 | every turn of the decoder's loop that goes on lowers a measure, although characters are read again and numbers are started over as strings |
| JsonPasses.Pass | libyod/jvalue.c:755-1598 | the loop computes the run of its turns, and ends |
| JsonPasses.Decode | libyod/jvalue.c:741-1615 | both passes one after the other, behind a byte order mark |
| JsonDocs.TextIsRead | libyod/jvalue.c:741-1615 | every text of a container, string or boolean, with any white space and comments between its tokens, any spelling of its strings and names, and these without quotes where they need none, behind a byte order mark or not, is decoded to the value it spells, whatever stands behind a NUL; it is refused exactly if a container is too large for the second pass |
| JsonDocs.SpacedNumber | libyod/jvalue.c:1541-1554 | of `[1 ,2]` both elements are strings |
| JsonRefused.StringIsRead | libyod/jvalue.c:787-978 | a string in quotes, each character raw or as one of the escapes of section 7 of RFC 8259, is decoded to the bytes these stand for: 34, 92, 47, 8, 12, 10, 13 and 9, or the UTF-8 of a code point; behind a backslash any other character stands for itself; with more than 0xFFFFFFF7 bytes it is refused |
| JsonSpelling.OnlyUtf8 | libyod/jvalue.c:878-921 | the bytes of an escape are the one sequence that a reader of UTF-8 (RFC 3629) takes for its code point |
| JsonSpelling.PairIsRight | libyod/jvalue.c:857-876 | a pair of surrogates is taken for its code point exactly if the plane of that is odd |
| JsonNumbers.NumeralIs | libyod/jvalue.c:1430-1560 | of all numerals, with a point or a power of ten or not, those with a comma behind them are refused that have a leading zero, no digit on a side of the point, or none behind the `e`, and no others |
| JsonNumbers.NumeralIsTaken | libyod/jvalue.c:1300-1560 | one that is not refused is one more child of its container: an integer without point and power, with the number its digits spell, wrapped around at 64 bits and without its sign, and else a double |
| JsonNumbers.NumericIs | libyod/jvalue.c:1464-1530 | these are the numbers of section 6 of RFC 8259, and a minus sign with no digits, alone or before an `e` |
| JsonRefused.FlawIsRefused | libyod/jvalue.c:741-1615 | at any depth and behind anything that is right, whatever follows: the text is refused if it ends, or has a NUL, where it is not finished; if a finished value is followed by anything but a comma, the bracket of its own container, white space or a slash, or a name by anything but a colon; if a string or name is too long, or has a `\u` without four digits or half a pair, or a string without quotes has a quote; if a comment is not closed; if a slash follows a number, or a comma a numeral that is none; if a text begins with what begins no value |
| JsonAgree.PassesAgree | libyod/jvalue.c:741-1615 | on every text the first pass accepts, the second begins the same nodes at the same places; every array then holds exactly the nodes that have it as their parent, in the order of the text, and every member of an object one of them, but for a string behind the finished text; arrays, strings and name areas are as long as measured, nothing is written elsewhere, and the second pass fails exactly if a container has more than half of the largest size |
| JsonVisits.VisitsAre | libyod/jvalue.c:741-1615 | the first pass begins one node for each it hands on, and at most one behind the finished text, a string in the outermost container, on which it then ends |
| JsonVisits.ChildrenAscend | libyod/jvalue.c:1582-1597 | what the children of a node are: exactly the nodes with it as their parent that begin before the text is finished, in ascending order |
| JsonSlash.Behind | libyod/jvalue.c:1036-1111 | `[]/x` and a space, for one, is accepted, and the string belongs to nothing |
| JsonSlash.OnlyAtSlash | libyod/jvalue.c:1036-1085 | in an object that seeks no value a node begins exactly at a slash that opens no comment |
| JsonSlash.ValueAfterName | libyod/jvalue.c:970-978 | a value that follows a name is stored under it |
| JsonSlash.ValueWithoutName | libyod/jvalue.c:1582-1597 | a value without a name takes the place of the value with the smallest name, and is lost if there is none |
| JsonSlash.Beside | libyod/jvalue.c:1036-1085 | in `{a:[]/x}`, for one, the array is lost and `a` is the string |
| JsonOverrun.LeavesText | libyod/jvalue.c:1255-1266 | the decoder leaves its text exactly if its first pass seeks a value at the last three bytes and these are an `n`, not a `u`, not an `l`; on a text that does not end so neither pass leaves it |
| JsonOverrun.BaitAlone | libyod/jvalue.c:1255-1266 | every text of just such three bytes is an input |
| JsonOverrun.Nab | libyod/jvalue.c:1255-1266 | `nab`, for one |
| JsonRoundTrip.RoundTrip | libyod/jvalue.c:508-1615 | what decoding the printed form of a value gives back, for every value whose containers the first pass can count, with names in any order or repeated; and that it is the value itself exactly if it is no lone number or null, has no container too large for the second pass, its names are increasing, and it holds no null, no negative number and no number at the end of a container |
| JsonRoundTrip.FirstPass | libyod/jvalue.c:741-1615 | the first pass accepts every printed container, string or boolean and measures it |
| JsonRoundTrip.CrowdedArray | libyod/jvalue.c:1582-1607 | an array of 0x7FFFFFFC booleans is accepted by the first pass and refused by the second |
| JsonPrinter.Encode | libyod/jvalue.c:508-736 | the climbing printer writes exactly what the recursive one gives, ends, and leaves all cursors at 0; without a buffer it returns that length plus one for every quote and backslash |
| JsonPrinter.Dump | libyod/jvalue.c:480-502 | the buffer allocated from the measured length suffices, and holds the printed value and a NUL |
| JsonPrinter.EncodeString | libyod/jvalue.c:2595-2654 | writes the string with its escapes (section 7 of RFC 8259) and nothing behind them |
| JsonSpelling.QuoteSpells | libyod/jvalue.c:2595-2654 | what is printed of a string, byte for byte: a byte below 32 as a backslash, `u` and the four digits that spell it, a quote or backslash behind a backslash, any other as it is; so it spells the string and no byte of it is below 32 |
| JsonSpelling.PrintClean | libyod/jvalue.c:508-736 | no byte of a printed value is below 32 |
| JsonPrinter.EncodeStrlen | libyod/jvalue.c:2659-2686 | measures the same, plus one for every quote and backslash |
| JsonPrinter.EncodeInteger | libyod/jvalue.c:635-661 | writes the decimal form of the number and returns its length, with and without a buffer |
| JsonTree.JValue.ObjectFind | libyod/jvalue.c:2691-2736 | finds a name exactly if it is there; if not, and if asked to, makes room at the one place that keeps the names in order, unless the object is full |
| JsonTree.JValue.ObjectSet | libyod/jvalue.c:1699-1745 | sets the member if the name is there or there is room, keeping the names strictly increasing, byte by byte, and the length of all names kept in the spare slot right, and hands back the value it replaces; otherwise, as on other values than objects, it changes nothing |
| JsonTree.ReleasedIsOut | libyod/jvalue.c:1719-1725 | a value handed back that no other member holds is out of the object exactly if it is not the one that was set |
| JsonMembers.SetNamesLen | libyod/jvalue.c:1714-1717 | a new member makes the names longer by its name and a NUL, a known one does not |
| JsonTree.JValue.ObjectGet | libyod/jvalue.c:1750-1774 | gives the value the object holds under that name as a map, and NULL if it has none or is no object |
| JsonMembers.SetIsUpdate | libyod/jvalue.c:1714-1730 | setting a member is an update of the object as a map |
| JsonMembers.GetIsLookup | libyod/jvalue.c:1759-1762 | looking a name up is a lookup in that map |
| JsonMembers.AsMapSize | libyod/jvalue.c:1813-1834 | the number of members is the size of that map |
| JsonMembers.SetIncreasing | libyod/jvalue.c:2714-2733 | setting a member keeps the names strictly increasing as `strcmp` orders them, byte by byte |
| JsonMembers.FindUnique | libyod/jvalue.c:2696-2712 | there is only one place in the order for a name |
| JsonText.LessMeans | libyod/jvalue.c:2700 | the order of names: one is less exactly if they agree up to a place where it ends and the other does not, or has the smaller byte |
| JsonMembers.IncreasingMeans | libyod/jvalue.c:2691-2712 | and so for all names of an object |
| JsonMembers.CollectedIsSaid | libyod/jvalue.c:2691-2736 | an object read from a text is, as a map, the one its members make from the first to the last |
| JsonMembers.SaidLast | libyod/jvalue.c:2691-2736 | in which each name has the value of its last member |
| JsonText.HexRoundTrip | libyod/common.c:815-843 | a hexadecimal digit is read back as the number it was written for |
| Workers.EveryRun | libyod/thread.c:361-637 | in every interleaving a worker has run a prefix of its jobs in the order given, each once; its counter is what is queued; it blocks in `read` only between a producer's enqueue and that producer's write; asleep on a queue it has an edge pending or a byte about to be written |
| Workers.NeverStuck | libyod/thread.c:361-637 | unless every job handed out is done, some step other than new work can be taken |
| Workers.InternalRunsAreBounded | libyod/thread.c:361-637 | without new work only a bounded number of steps follows, however scheduled, and when none is left every job is done |
| Workers.RoundRobin | libyod/thread.c:376-420 | as long as no worker joins, the jobs go to the workers in turn |
| Workers.EvenSpread | libyod/thread.c:376-420 | of m jobs each of n workers ends up with m / n or one more, and has done them in the order they were submitted |
| WorkQueue.Queue.Enqueue | libyod/thread.c:390-420 | takes the first free cell or a new one and puts it, with the job, in front of the cells queued, so that the job is behind all others |
| WorkQueue.Queue.Dequeue | libyod/thread.c:612-626 | unlinks the oldest job |
| WorkQueue.Queue.Drain | libyod/thread.c:587-637 | with nobody enqueueing meanwhile, runs the queued jobs oldest first and puts all their cells on the free list |
| WorkQueue.Queue.Run | libyod/thread.c:390-637 | with producers between the turns of the drain, in any alternation, leaves and runs what the fold of the abstract acts does |
| WorkQueue.FirstInFirstOut | libyod/thread.c:390-637 | and there the jobs run and then those left are the jobs there were and then those given, in that order |
| EventLoop.Register | libyod/evloop.c:452-631 | registers a descriptor at the head of the list, or fails and changes nothing |
| EventLoop.Unregister | libyod/evloop.c:742-850 | with nobody between the test and the lock section, clears the bits of the entry's mask and pushes it on the stack exactly if it had one of them and neither READ nor WRITE is left |
| EventLoop.ClearAndPush | libyod/evloop.c:771-829 | the lock section by itself |
| EventLoop.FreeDeleted | libyod/evloop.c:278-303 | unlinks, closes and frees exactly the entries on the stack, keeping the order of the others |
| EventLoop.CloseDeletes | libyod/evloop.c:767-829 | the deletion the server uses pushes an entry once; done again afterwards it changes nothing |
| EventLoop.PushedOnceExactly | libyod/evloop.c:767-829 | by deletions that follow one another an entry is pushed at most once, whatever is deleted from it, exactly if it was registered for READ and WRITE only |
| EventLoop.DelKeepsSound | libyod/evloop.c:767-829 | with entries for READ and WRITE only a whole deletion keeps the loop in agreement and finds nothing to delete on an entry of the stack |
| EventLoop.TidyExactly | libyod/evloop.c:767-829 | with deletions that overlap, no entry is on the stack twice after a step and after any lock section behind it exactly if a lock section that leaves neither READ nor WRITE finds no other deletion of the entry past its test |
| EventLoop.UntidyPushesTwice | libyod/evloop.c:767-829 | otherwise the entry is on the stack twice after the lock section of that other deletion |
| EventLoop.ClosedFromTwoSides | libyod/evloop.c:767-829 | an entry registered for READ and deleted by two threads at once, for one |
| EventLoop.EveryRun | libyod/evloop.c:221-397 | in every run whose lock sections meet that condition the stack holds registered entries, none twice; the counter is their number, so nothing is lost where a zero counter skips the drain; each deleted entry is freed once; no entry with an event or a call still to come has been freed; a deletion past its test finds its entry registered |
| EventLoop.NextDrainFrees | libyod/evloop.c:268-303 | a deleted entry is freed by the next drain, and the loop cannot pass it by as if there were nothing to drain |
| EventLoop.OnlyDrainNext | libyod/evloop.c:253-303 | once a batch has ended, or the loop was stopped, with an entry on the stack, the next step of the loop itself can only be the drain |
| EventLoop.DrainBetweenWaits | libyod/evloop.c:253-378 | in every run there is a drain between two waits |
| EventLoop.FreedAtNextWait | libyod/evloop.c:253-378 | an entry deleted by the time a batch ends has been freed at the next wait |
| EventLoop.CallsOfMeans | libyod/evloop.c:368-394 | which calls an event makes, and in which order |
| EventLoop.BatchIsMade | libyod/evloop.c:368-394 | between a wait and the end of its batch exactly the calls of the events it reported are made, in order, unless the loop is stopped |
| EventLoop.LastEvent | libyod/evloop.c:368-394 | a deleted entry hears nothing but the calls left of the one event the current batch holds for it, in their order: READ, WRITE and at most two of ERROR |
| EventLoop.CalledAfterDeletion | libyod/evloop.c:368-394 | an entry deleted while it hears READ, with ERROR still to come, for one |
| Server.Server.Open | libyod/server.c:607-683 | hands out a pooled object or a new one, with one reference, at the head of the live list |
| Server.Server.Destroy | libyod/server.c:689-745 | gives up one reference; the last one moves the object from the live list to the pool |
| Server.Server.Trim | libyod/server.c:1073-1087 | the loop ends, never finds the pool empty, and leaves no more pooled objects than live ones |
| Lifecycle.EveryRun | libyod/server.c:607-1026 | in every run an object is either live or pooled, and the two counters say how many there are; a live one counts exactly the references that are out; a pooled one has none, was recycled as often as it was opened, and was told of the end of each registration |
| Lifecycle.NoLateStep | libyod/server.c:797-1026 | no job and no event reaches a connection that was recycled or freed, and it is recycled by the very step that gives up its last reference |
| Lifecycle.NothingLeaks | libyod/server.c:797-1026 | a live connection always has a job, an event or a drain to come |
| Lifecycle.ClosedIsReleased | libyod/server.c:689-1026 | whatever else goes on, a closed connection with n references stays live for n - 1 of its jobs and drains and is recycled by the n-th |
| LifecycleSteps.OpenMeans | libyod/server.c:607-683 | a new connection is an object nobody had, with the one reference of its connect job; if that cannot be queued it goes back to the pool |
| LifecycleSteps.CloseMeans | libyod/server.c:510-536 | closing deletes the registration, if there is one, and takes no reference |
| LifecycleSteps.ConnectMeans | libyod/server.c:797-1026 | the connect job hands its reference on to a registration, at once deleted if the user closes; if that fails it gives the reference up |
| LifecycleSteps.EventMeans | libyod/server.c:797-1026 | a readable event orders one input job if it can be queued, with one reference; an error, or any event of a stopping server, deletes the registration |
| LifecycleSteps.InputMeans | libyod/server.c:797-1026 | an input job gives up its reference, and deletes the registration if the user or the peer closes or the server stops |
| LifecycleSteps.DrainMeans | libyod/server.c:797-1026 | the drain gives up the reference of a deleted registration and tells of its end |
| LifecycleSteps.ClosesIt | libyod/server.c:510-1026 | each step that closes leaves the connection live and closing, its registration deleted, and with how many references |
| LifecycleSteps.ClosedOnceForAll | libyod/server.c:510-1026 | and from that step on, whatever else goes on, the connection stays live for all but one of those references and is recycled with the last |
| Md5Stream.Context.Update | libyod/crypto.c:57-178 | taking in data mixes the blocks it completes, in order, keeps the rest in the buffer and adds its length to the count |
| Md5Stream.Context.Finish | libyod/crypto.c:199-219 | padding and length field complete the last block, as sections 3.1 and 3.2 of RFC 1321 ask, and the state comes out low byte first |
| Md5Stream.Encode | libyod/crypto.c:184-224 | the digest of a block of memory, with the length cut to 32 bits; there is none of no data |
| Md5Stream.EncodeFile | libyod/crypto.c:257-312 | the digest of a file read in pieces of 1024 bytes, with its length modulo 2^64 |
| Md5Stream.FileIsStandard | libyod/crypto.c:184-312 | the digest of a file is that of RFC 1321; that of memory is too if the length is below 2^32, or above it by a multiple of 2^61 |
| Md5.StartIs | libyod/crypto.c:194-198 | the words to start from, as bytes (section 3.3 of RFC 1321) |
| Md5.AbsorbAllIs | libyod/crypto.c:64-170 | any way of cutting a message gives the state and the tail of the whole; the count is eight times the lengths of the pieces, each cut to 32 bits |
| Md5.AbsorbSplit | libyod/crypto.c:64-170 | two updates equal one in state and tail, and in the count too exactly if the two lengths, cut to 32 bits, do not overflow |
| Md5.CountedAdds | libyod/crypto.c:64-68 | the two-word count with its carry is an addition modulo 2^64 |
| Md5.CountBytes | libyod/crypto.c:201-206 | the eight bytes written are those of the count, lowest first |
| Md5.LengthIsRight | libyod/crypto.c:64-68 | the length field of a message taken in at once is right exactly if what 32 bits lose of the length is a multiple of 2^61 |
| Md5.LengthIsLost | libyod/crypto.c:64-68 | for 2^32 bytes it is not |
| Vint.RoundTrip32 | libyod/common.c:497-711 | the decoder stays within the buffer and value and length come back, whatever bytes follow or none, exactly if no quotient of the number by 1, 128, 128^2 or 128^3 is 128; five bytes suffice |
| Vint.RoundTrip64 | libyod/common.c:525-731 | a number none of whose quotients by 128^k, k < 8, is 128 comes back, whatever follows or nothing; its length does exactly below 129 * 2^56, and only there do nine bytes suffice |
| Vint.Inverts32 | libyod/common.c:497-711 | the value comes back whatever follows for the decoder to stop at only under that condition |
| Vint.Inverts64 | libyod/common.c:525-731 | and so with 64 bits |
| Vint.PlainMeans | libyod/common.c:700-706 | the condition in terms of quotients |
| Vint.Examples | libyod/common.c:497-731 | 128 is read back as 0, two bytes long; 129 * 2^56 takes ten bytes |
| Vint.Set | libyod/common.c:696-731 | both encoding loops write these bytes and touch none behind them |
| Vint.Get | libyod/common.c:497-548 | both decoding loops, with sums and weights cut to the width of the integer, compute value and length, on every buffer in which they stop |
| Vint.BlobRoundTrip | libyod/common.c:480-691 | a blob is found again, in length and place, whatever follows it or nothing, exactly if its length comes back |

## Left out

- RbTree: allocation failure, the lock, and calls with a NULL container; for HTable, JsonTree, JsonPrinter, Server and WorkQueue likewise.
- RbTree: the values themselves; a value given up is appended to the log `freed`.
- RbTree.RbTree.Free: that the nodes and the sentinel are given back to the allocator.
- HTable: `_yod_htable_reset`, `_yod_htable_free` and `_yod_htable_ref`; keys are copied on insertion.
- HTable.HTable.Next: the call with a cursor whose entry was deleted, which reads freed memory; Prev likewise. `HTable.CursorAfterDel` says when that is so.
- JsonText.CharAt: the byte behind the end of the text is NUL, as it is behind a C string; the looks ahead in `true`, `false`, `n` and `\u` read it. Where the caller's buffer goes on with other bytes, as with `tru` in front of an `e`, the model does not say what happens.
- JsonRoundTrip.RoundTrip: values with containers of more than 0xFFFFFFF7 parts or strings and names of more than 0xFFFFFFF7 bytes, which the first pass refuses; doubles; integers outside the range of the printer.
- JsonScan: nodes are values known by their place, not cells on the heap; doubles keep their kind but no value; line, column and error texts; the parsing of files by `_yod_jvalue_load`.
- JsonTree: arrays, strings, clones and the variadic constructors.
- JsonPrinter.Encode: doubles, and the smallest 64-bit integer, which has no negation.
- JsonPrinter.EncodeInteger: the smallest 64-bit integer likewise.
- JsonAgree.PassesAgree: which bytes the second pass writes into strings and names; `JsonDocs.TextIsRead` says so for the texts it covers.
- JsonDocs.TextIsRead: texts with numbers of more than 64 bits, fractions or powers (for which see `JsonNumbers.NumeralIsTaken`), with escapes in strings without quotes, with a comma behind the last part, with a comment at once behind a number (which is refused) or behind a string without quotes (of which it becomes part), and lone numbers and strings without quotes.
- JsonRefused.FlawIsRefused: malformed numerals without a comma behind them, of which the decoder makes strings as a rule, and what is refused for its size.
- JsonSlash.ValueAfterName: one name and its value, not a whole text.
- Workers: jobs that submit jobs, which run under the lock of their worker; failing reads and writes of the pipe; removing workers.
- EventLoop.EveryRun: what happens after an entry is on the stack twice; the loop then reads freed memory.
- EventLoop: `_yod_evloop_set`, `_yod_evloop_loop` and the branches for Windows and Apple; a failing `epoll_ctl` on deletion leaves the entry in the kernel's set, which the runs do not show.
- Lifecycle: callbacks are single steps, and a callback of the user acts on its own connection only; the receive loop appears as its two outcomes, closed by the user or by the peer; timeouts and clocks.
- Server: the buffer of a connection, its callback and its times.
- Md5: the rounds on one block; they are a parameter.
- Md5Stream: the hexadecimal form of the digest.
- Vint.SetVint64: needs room for ten bytes where the code declares nine, because it writes the tenth.
- Configuration, logging, sockets, the database, the file server and the debug allocator of the repository.
