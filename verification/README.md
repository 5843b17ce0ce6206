# A verified model of the matrix control centre's core

The control centre routes camera pictures to monitors through a tree of video matrices.  This
project models four of its components and proves what they promise, for every input and every
run:

- **the INI store** (`src/confile.c`): an unbalanced search tree edited in place through pointers,
  trees nested in trees, a character-driven parser and an in-order printer;
- **the matrix hierarchy** (`src/mccresourcemanager.{h,cpp}`): registration of child matrices,
  routing of SWITCH requests down the tree and of responses back up, arbitration of trunks and of
  pan-tilt-zoom (PTZ) control;
- **the monitor queue** (`src/squeue.h`): a queue under a mutex and a condition variable;
- **the calendar** (`src/timeutil.cpp`): seconds to date and back.

`dafny verify dfyconfig.toml` checks the project with Dafny 4.11.

## How it is laid out

| file | role |
|---|---|
| `CStrings` | `strcmp`, `memcmp` over the new key's length, and the order they induce |
| `ConfTree` | the tree as a value: insert, find, delete, in-order sequence, the map it stands for |
| `ConfBTree` | the pointer code on heap nodes, proved to compute the functions of `ConfTree` |
| `IniConfig`, `IniStore` | get and set through both levels: on values, and on nested heap trees |
| `IniText`, `IniParser` | a file's meaning line by line, and the jump-table machine that computes it |
| `IniRoundTrip` | the printer, and save followed by parse |
| `IniMeaning` | which of the values a text sets are in the configuration it parses to |
| `IniCases` | line ends of either kind, limits and malformed lines, byte by byte |
| `IniIdentity` | exactly which configurations survive a save and a parse |
| `Calendar` | the date conversions and the POSIX formula |
| `MonitorQueue` | thread steps of `add`, `get`, `tryget` |
| `GlobalIds`, `Ptz`, `Trunks` | id order and lease clock, PTZ locks, trunk choice |
| `Topology`, `Matrix`, `Hierarchy` | the tree of matrices, one handler each as a function, the network as a state machine |
| `Routing`, `Registration`, `Reconnection`, `Capacity` | soundness, completeness and size of the tables over every run of that machine |
| `Switching`, `SwitchContexts`, `Liveness` | requests, responses and contexts over every run, and progress |
| `Answers` | what the responses say: each one a keyboard gets is a true answer to its question |
| `Stranding`, `Recovery` | requests whose connections were lost: which can still be answered |
| `Devices` | the camera and monitor maps under the requests of local keyboards |
| `ResourceManager` | the handlers as methods of a class, proved to compute the functions of `Matrix` and `Devices` |

A run of the network is any sequence of steps (a child connects, either end notices a broken
connection, the oldest message of a link is delivered, a keyboard asks for a camera); a step that
is not possible leaves the state alone, so a statement about `After(topo, steps)` for all `steps`
is about every reachable state.  The tree of matrices is fixed and links are FIFO.

## Findings

Where the code does not meet what a caller would expect, the model keeps the code and proves
exactly when the property holds.

- Insertion compares with `memcmp` over the new key's length, lookup and deletion with `strcmp`.
  Inserting "abc", "abb", "ab" leaves "abb" unreachable (`PrefixHazard`).  Insertion is map update
  if and only if its search path does not stop at a proper extension of the key
  (`InsertIsMapUpdateIff`), and it keeps the tree ordered if and only if the key it stops at is the
  least stored extension (`InsertKeepsOrderIff`).
- Saving and reading back an ordered configuration is the identity if and only if its names, keys and
  values can be printed (trimmed, on one line, section names of at most 63 bytes without ']', keys
  without '=' or '[' and not starting with ';') and some section name is "default" or a prefix of it
  (`SaveThenParseIsIdentityIff`).  A printable one without such a name comes back with an empty
  "default" added (`SaveThenParse`); `CommentKeyDoesNotComeBack` gives keys that are lost.
- `TimeToSec` returns an `int`: the round trip from seconds holds if and only if the number is below
  2^31 (`RoundTripIff32Bit`).  The every-fourth-year rule agrees with POSIX if and only if the date
  is before March 2100 (`AgreesWithPosixIff`).
- On an unlocked camera, a request to lock looks at the holder's id but not at its lease
  (`src/mccresourcemanager.cpp:120`).  The holder is replaced by a smaller id if and only if that id
  operates the camera after the lease (`HolderGoesDownIff`); until then a lower id cannot lock,
  however long the lease has been over (`ExpiryDoesNotAdmitLocks`), and from then on it can
  (`TakeoverEndsLockout`).
- `isCameraExist` and `processPtzMessage` read the camera map with `operator[]`, which plants a null
  entry.  A later remote request for that camera finds the entry and is answered 200
  (`PhantomCamera`).  Null entries are exactly those of unknown ids that a local switch past the
  monitor test or a local PTZ request has asked for (`PhantomIff`), and granted remote requests are
  answered rightly if and only if the camera is configured or was never asked for in that way
  (`AnsweredTrulyIff`).  Under the same condition, and only then, a PTZ request from the parent does
  not dereference a null pointer (`PtzIsDefinedIff`).
- A register message has 50 slots.  No message a matrix builds overruns them, in any run, if and only
  if the matrix has at most 50 descendants (`SlotsSufficeIff`).
- A lost connection can lose a request for good, and then its contexts stay (`DoomedForEver`).  In
  every reachable state a request can still be answered if and only if it is not doomed in this
  sense (`AnswerableIff`).
- Opening a section in a file replaces its tree, or that of a longer name at which the insertion
  stops, with an empty one.  On an ordered configuration no cell is lost if and only if the section,
  and every stored section whose name extends the new one up to that longer name, is empty
  (`OpeningKeepsCellsIff`); `OpeningLoses` gives texts of both kinds.  In a text whose names and keys
  are prefix-free, a value set survives if and only if its section is not opened again and its cell
  not set again later (`SurvivesIff`, `ParsedCells`).
- A re-registration keeps the connection of the entry it finds, so a parent that handles it before
  the end of the old connection loses the child when that end arrives (`LateCloseLosesTheChild`).
  Old connections close without losing a connected child if and only if every connected child is
  registered over its own connection (`ClosingLosesNobodyIff`).  In any reachable state the tables
  describe the whole tree if and only if each parent lists at least what each child has
  (`TablesCompleteIff`), and they do so after any reconnections in which the parent sees the old
  connection close first (`TablesCompleteAfterReconnects`).

## Model

| member | source | states |
|---|---|---|
| CStrings.MemCmpIsStrCmpUnlessProperPrefix | src/confile.c:99 | `memcmp` over the new key's length returns what `strcmp` returns, except that it calls a proper prefix of the stored key equal |
| CStrings.StrCmpTrichotomy | src/confile.c:164 | `strcmp` is 0 exactly on equal strings and changes sign when its arguments are swapped |
| CStrings.LessTransitive | src/confile.c:164 | the `strcmp` order is transitive |
| CStrings.LessIsLexicographic | src/confile.c:164 | the order is lexicographic on byte values: the first difference decides, and a proper prefix comes first |
| CStrings.ExtensionsAreConvex | src/confile.c:99 | the strings that start with a given string form an interval of the `strcmp` order |
| ConfTree.FindReadsTheMap | src/confile.c:159-176 | on every ordered tree a lookup reads the finite map the tree stands for |
| ConfTree.HitIsAnExtension | src/confile.c:84-126 | navigation by `memcmp` stops at a stored key exactly when some stored key starts with the new one |
| ConfTree.InsertOnMaps | src/confile.c:84-126 | in every case insertion drops the key at which it stopped, adds the new one and changes nothing else |
| ConfTree.InsertIsMapUpdateIff | src/confile.c:84-126 | insertion is map update if and only if it does not stop at a key other than the new one |
| ConfTree.InsertKeepsOrderIff | src/confile.c:84-126 | insertion keeps the tree ordered if and only if the key at which it stops, if any, is the least stored extension of the new key |
| ConfTree.InsertCounts | src/confile.c:84-126 | the node count grows by one exactly when the result code is 1 |
| ConfTree.InsertRefinesMapUpdate | src/confile.c:84-126 | with no stored proper extension of the key: order kept, map updated at that key alone, code 1 and count raised when fresh, code 2 and count unchanged when replacing |
| ConfTree.FindAfterInsert | src/confile.c:84-176 | on any tree at all, ordered or not, a lookup right after an insertion finds the new data |
| ConfTree.FindAfterAnyInsert | src/confile.c:84-176 | after any insertion into an ordered tree every other lookup finds what it found, except that the keys starting with the new one, up to the stored key it took the place of, are out of reach |
| ConfTree.PrefixHazard | src/confile.c:84-126 | inserting "abc", "abb", "ab" breaks the order and makes "abb" unreachable though still stored |
| ConfTree.SpliceInOrder | src/confile.c:197-246 | joining the two subtrees of a removed node, by predecessor or successor, keeps their in-order sequences |
| ConfTree.SpliceRoot | src/confile.c:197-246 | the entry that takes the place of the removed one is the one just before it in order when there is a left subtree, else the one just after it, and the other subtree stays as it was |
| ConfTree.DeleteRemovesTheEntry | src/confile.c:178-252 | the in-order sequence after deletion is the old one without the entry of that key |
| ConfTree.DeleteCountsFound | src/confile.c:178-252 | on any tree the count drops by one exactly when a lookup finds the key |
| ConfTree.DeleteCounts | src/confile.c:178-252 | on an ordered tree the count drops by one exactly when the key is stored, and an absent key leaves the tree as it was |
| ConfTree.DeleteIsMapRemoval | src/confile.c:178-252 | deletion keeps the order and removes exactly that key from the map |
| ConfTree.OrderedIffAscending | src/confile.c:254-260 | a tree is ordered if and only if the traversal visits strictly ascending keys |
| ConfTree.EntriesAreTheMap | src/confile.c:254-260 | the traversal of an ordered tree visits exactly the entries of its map |
| ConfBTree.BTree.Insert | src/confile.c:84-126 | the pointer code computes tree insertion, returns its code, keeps `numNodes` equal to the reachable nodes and the structure a tree |
| ConfBTree.BTree.FindNode | src/confile.c:159-176 | the node returned is reachable and carries the data the lookup finds; null exactly when there is none |
| ConfBTree.BTree.Delete | src/confile.c:178-252 | the pointer code computes tree deletion and returns 0 with nothing changed or 1 with exactly one node, of that key, unlinked; `numNodes` follows |
| ConfBTree.BTree.Unlink | src/confile.c:197-246 | in all splice cases exactly the node found is unlinked and the value around it is the spliced one |
| ConfBTree.BTree.SpliceLeft | src/confile.c:197-219 | with a left subtree, the in-order predecessor takes the removed node's place |
| ConfBTree.BTree.SpliceRight | src/confile.c:220-241 | with only a right subtree, the in-order successor takes its place |
| IniConfig.SetChangesOneCell | src/confile.c:498-510 | on an ordered configuration, a set whose names are no proper prefix of a stored one keeps both orders and changes one cell only |
| IniConfig.SetChangesOneCellIff | src/confile.c:498-510 | on every ordered configuration a set changes its cell only if and only if it puts no other key of its section out of reach or, when it has to create the section, no section with anything in it |
| IniConfig.OpeningClears | src/confile.c:128-138 | inserting a section that is no proper prefix of a stored name keeps both orders, empties that section and leaves every other cell |
| IniConfig.OpeningKeepsCellsIff | src/confile.c:128-138 | on every ordered configuration, opening a section changes no cell if and only if the section, and every stored section it puts out of reach because its name extends the new one, is empty |
| IniConfig.ReopeningKeepsCellsIff | src/confile.c:128-138 | for a name that is no proper prefix of a stored one, that is: if and only if the section did not exist or was empty |
| IniConfig.OpeningShadowsALongerName | src/confile.c:84-138 | for every name, longer name, key and value: opening the first, which did not exist, loses the cell of the second |
| IniConfig.GetAfterSet | src/confile.c:487-510 | on any configuration, ordered or not, get after set returns the value set |
| IniConfig.GetReadsTheMaps | src/confile.c:487-496 | on every ordered configuration `get_string` returns what the two levels of maps hold for section and key, and the default argument when either has nothing; a null section stands for "default" |
| IniConfig.GetIntReadsTheMaps | src/confile.c:476-485 | the same for `get_int`, which reads the stored string as a number |
| IniConfig.MissingGivesDefault | src/confile.c:476-496 | on any configuration, ordered or not, both gets return their default argument when a lookup finds no section or no key |
| IniConfig.NullMeansDefault | src/confile.c:476-516 | a null section name reads and writes the section "default" |
| IniConfig.ReadAfterSets | src/confile.c:487-510 | after any prefix-free sequence of sets, every cell holds the last value set or what it held before, and both levels are ordered |
| IniConfig.LastWriterWins | src/confile.c:487-510 | after any prefix-free sequence of sets, get returns the last value set, or what it returned before |
| IniConfig.LastNumberWins | src/confile.c:476-516 | after any prefix-free sequence of sets, `get_int` returns the last number set, or what it returned before |
| IniConfig.DigitsReadBack | src/confile.c:476-516 | the decimal digits of a number read back to it |
| IniConfig.AtoiOfItoa | src/confile.c:476-516 | `atoi` undoes decimal printing for every integer, negative ones included |
| IniConfig.AtoiReads | src/confile.c:476-485 | `atoi` of any string: white space, at most one sign, and the value in base ten of the digits up to the first other byte, 0 without digits |
| IniConfig.ItoaIsDecimal | src/confile.c:512-516 | printing gives the shortest digits that mean the number, after a "-" when it is negative |
| IniConfig.GetIntAfterSetInt | src/confile.c:476-516 | on any configuration, `get_int` after `set_int` returns the number set |
| IniStore.InsertFollows | src/confile.c:128-138 | hanging a new section tree into the outer tree is an insertion on the configuration's value, and no section tree becomes shared |
| IniStore.WriteFollows | src/confile.c:149-157 | editing one section tree through its pointer changes that section of the value and no other |
| IniStore.Store.AddSection | src/confile.c:128-138 | on the heap: the section is inserted or replaced by an empty one |
| IniStore.Store.GetSection | src/confile.c:140-147 | the section tree returned is the one the lookup names |
| IniStore.Store.AddSectionNode | src/confile.c:149-157 | on the heap: 0 and no change when the section is missing, otherwise the key is inserted in it and the code is 1 when it is new, 2 when it replaces |
| IniStore.Store.SetValue | src/confile.c:498-510 | the nested heap trees follow the value-level set, and the code is that of the insertion in the section: 1 new, 2 replaced |
| IniStore.Store.GetValue | src/confile.c:487-496 | the value read is that of the value-level get, whose meaning, default included, is `GetReadsTheMaps` |
| IniStore.Store.SetNumber | src/confile.c:512-516 | the nested heap trees follow the value-level `set_int`, with the code of the inner insertion |
| IniStore.Store.GetNumber | src/confile.c:476-485 | the number read is that of the value-level `get_int`, whose meaning is `GetIntReadsTheMaps` |
| IniText.MemTrim | src/confile.c:37-53 | returns null exactly when the trim is empty, otherwise the trim |
| IniText.TrimCutsOnlyBlanks | src/confile.c:37-53 | the trim is a slice, and every byte outside it is ' ', '\r' or '\n' |
| IniText.TrimCutsAllBlanks | src/confile.c:37-53 | it begins and ends with none of these three bytes, and is empty if and only if there is no other byte |
| IniText.TrimIsLongest | src/confile.c:37-53 | it has no blank at either end and no slice with that property is longer |
| IniText.TrimIsNullIff | src/confile.c:37-53 | it is empty if and only if every byte is blank |
| IniText.FoldSkipsComments | src/confile.c:385-392 | folding over the lines equals folding over the lines that are not comments |
| IniText.CommentLinesDoNotMatter | src/confile.c:385-392 | two texts with the same lines apart from ';' lines have the same outcome |
| IniText.ScanFollowsCheck | src/confile.c:305-392 | whether a line is accepted depends on its text alone, and after an accepted line the current section exists |
| IniText.ParseSucceedsIff | src/confile.c:397-451 | a text parses if and only if each of its lines is well formed, a condition on single lines |
| IniText.LinesOfConcat | src/confile.c:397-451 | splitting commutes with putting a newline-free string in front |
| IniCases.CrlfParsesAlike | src/confile.c:37-53 | every text and the text with "\r\n" in place of each "\n" have the same outcome |
| IniCases.LinesOfCrlf | src/confile.c:357-383 | the lines of the second are those of the first, each but the last with a "\r" at its end |
| IniCases.ScanCr | src/confile.c:305-392 | a "\r" at the end of any line changes nothing of what the line does |
| IniCases.NamesOf63BytesFit | src/confile.c:325-343 | a section name of up to 63 bytes is opened, a longer one is undefined |
| IniCases.MalformedLinesFail | src/confile.c:325-383 | an unclosed bracket, a blank name and a blank key make the parse fail, whatever else is on the line |
| IniCases.IdleLine | src/confile.c:305-383 | a line without '[' and '=' leaves the initial configuration |
| IniCases.SemicolonInTheFirstColumn | src/confile.c:385-392 | a ';' makes a comment in the first column only: after a blank it begins a key |
| IniCases.KeyBehindABracket | src/confile.c:315-355 | what precedes a bracket on its line is forgotten, and a key behind it is set in the section just opened |
| IniMeaning.ParsedCells | src/confile.c:397-451 | every text of well-formed lines whose names, with "default", and whose keys per section are prefix-free parses to exactly the sections it opens, each cell holding the last value set since its section was last opened |
| IniMeaning.SurvivesIff | src/confile.c:325-383 | in a sequence of edits, which for prefix-free texts is what the parser leaves (`ParsedCells`), a value survives if and only if some edit sets it and no later one sets that cell again or reopens its section |
| IniMeaning.FoldEdits | src/confile.c:305-392 | reading well-formed lines makes exactly the edits of those lines, in order |
| IniMeaning.OpeningLoses | src/confile.c:325-343 | for every good name, key and value, the text that opens the section, sets the key and opens the same section again, or one whose name is a proper prefix of it and not of "default", has lost the value that the text before it still had |
| IniMeaning.ParseMakesEdits | src/confile.c:397-451 | every text of well-formed lines, prefix-free or not, parses to what its edits make of the initial configuration |
| IniParser.CreateFromString | src/confile.c:397-451 | the character machine gives, for every NUL-free text, the configuration or the failure of the fold over its lines |
| IniParser.Run | src/confile.c:439-449 | the loop ends, and its result is what the fold says of the text still ahead |
| IniParser.Dispatch | src/confile.c:439-446 | every successful handler advances `pos` by one, keeps the indices in range and keeps the outcome ahead |
| IniParser.Parser.OnDefault | src/confile.c:305-309 | an ordinary byte changes the position only |
| IniParser.Parser.OnSectionStart | src/confile.c:315-323 | '[' starts a name from either place in a line and keeps the outcome ahead |
| IniParser.Parser.OnSectionEnd | src/confile.c:325-343 | ']' opens the trimmed section, fails on an empty name, and is undefined beyond 63 bytes |
| IniParser.Parser.OnValueStart | src/confile.c:345-355 | '=' ends a key once per line and keeps the outcome ahead |
| IniParser.Parser.OnNewLine | src/confile.c:357-383 | a line end stores the trimmed key and value, fails inside a bracket or on an empty part, and at the end of input yields the final configuration |
| IniParser.Parser.OnComment | src/confile.c:385-392 | ';' in the first column turns the line into a comment |
| IniParser.PassesOver | src/confile.c:305-392 | in every state, a byte without meaning there moves the cursor and keeps the index bounds and the outcome ahead |
| IniParser.OpensBracket | src/confile.c:315-323 | what precedes '[' on a line has no effect |
| IniParser.EndsKey | src/confile.c:345-355 | after '=' the key slice and the value slice are real slices in order |
| IniParser.ClosesBracket | src/confile.c:325-343 | the name slice is a real slice and the line goes on in the new section |
| IniParser.EndsLine | src/confile.c:357-383 | what the end of a line means in each of the four parser states |
| IniRoundTrip.PrintByLines | src/confile.c:254-268 | the recursive printer writes the lines of the in-order sequences, sections in order, keys in order |
| IniCases.PrintedBytes | src/confile.c:518-527 | the bytes printed for a section of three keys: its bracketed name and the keys in order, one a line, without blanks |
| IniRoundTrip.AscendingInsertion | src/confile.c:84-126 | inserting ascending keys never meets the prefix hazard: order kept and every pair assigned, with no assumption on prefixes |
| IniRoundTrip.HitsOnlyDefault | src/confile.c:397-451 | sections arriving in order can only hit the pre-inserted "default" |
| IniRoundTrip.ReadSections | src/confile.c:305-392 | reading the printed lines of ascending sections loads exactly their cells |
| IniRoundTrip.SaveThenParse | src/confile.c:397-540 | for every printable ordered configuration, parsing the printed text succeeds, gives ordered trees, and gives the same cells except for an added empty "default" in the stated case |
| IniRoundTrip.PrintableComesBackIff | src/confile.c:397-540 | a printable ordered configuration comes back unchanged if and only if some section name is "default" or a prefix of it; a section "default" is enough |
| IniIdentity.SaveThenParseIsIdentityIff | src/confile.c:397-540 | every ordered configuration comes back unchanged if and only if all its names, keys and values can be printed and some section name is "default" or a prefix of it |
| IniIdentity.LineEditsAreOk | src/confile.c:305-383 | whatever a well-formed line stores has a trimmed one-line name of at most 63 bytes without ']', a trimmed one-line key without '=' or '[' and a trimmed one-line value |
| IniIdentity.CommentKeyDoesNotComeBack | src/confile.c:385-392 | a "default" section with any key that begins with ';' does not come back: its line is read as a comment |
| IniRoundTrip.PrintIsCanonical | src/confile.c:518-540 | ordered configurations with the same cells print the same text, whatever their shapes |
| IniRoundTrip.SaveIsStable | src/confile.c:397-540 | saving what was read back writes the same text again |
| Calendar.FindBracket | src/timeutil.cpp:64-101 | the table search always ends in the bracket that holds the day |
| Calendar.SetDay | src/timeutil.cpp:64-101 | the 1461-day cycle and both table searches give a valid day with that day number |
| Calendar.SecToTime | src/timeutil.cpp:64-101 | 0 and no change for negative input; otherwise the one valid date with that number of seconds |
| Calendar.TimeToSec | src/timeutil.cpp:103-123 | the seconds of the date, truncated to the 32-bit return type |
| Calendar.DateOf | src/timeutil.cpp:64-101 | the date is valid and its seconds are the input, for every n >= 0 |
| Calendar.DateOfSeconds | src/timeutil.cpp:64-123 | every valid date is recovered from its seconds |
| Calendar.DateIsUnique | src/timeutil.cpp:103-123 | no two valid dates have the same seconds |
| Calendar.SecondsGrow | src/timeutil.cpp:103-123 | a later date in lexicographic order has more seconds |
| Calendar.DateGrows | src/timeutil.cpp:64-101 | more seconds give a later date |
| Calendar.FirstDay | src/timeutil.cpp:64-101 | the first day, second by second, is 1 January 1970 with hour, minute and second of the number |
| Calendar.DayAfterDay | src/timeutil.cpp:64-101 | 86400 seconds later the date is that of the next day in the calendar of 30, 31 and 28 or 29 days, at the same time |
| Calendar.TruncationDropsHighBits | src/timeutil.cpp:103-123 | what the return type drops is a multiple of 2^32 |
| Calendar.RoundTripIff32Bit | src/timeutil.cpp:103-123 | the truncated round trip from seconds holds if and only if n < 2^31 |
| Calendar.AgreesWithPosixIff | src/timeutil.cpp:103-123 | agrees with section 4.16 of IEEE Std 1003.1-2017 if and only if the date is before March 2100 |
| Calendar.AgreesWithPosixThrough2099 | src/timeutil.cpp:103-123 | agrees with that formula on every date through 2099 |
| MonitorQueue.RunKeepsExclusion | src/squeue.h:14-51 | at most one thread is inside the lock, whatever step is taken |
| MonitorQueue.SignalKeepsInv | src/squeue.h:14-27 | a signal that wakes any non-empty choice of waiters keeps the invariant |
| MonitorQueue.RunKeepsWakeups | src/squeue.h:14-51 | every thread step keeps the bound of queue length by threads due to run |
| MonitorQueue.AfterKeepsInv | src/squeue.h:14-51 | exclusion, knowledge of the lock holder, conservation and the wake-up bound hold after every interleaving, spurious wake-ups included |
| MonitorQueue.NoThreadSleepsOverWork | src/squeue.h:14-51 | whenever some thread waits unsignalled, the queue is no longer than the number of signalled threads yet to resume, plus one value while the lock holder is about to signal or to take |
| MonitorQueue.SomebodyIsDueToRun | src/squeue.h:14-51 | no thread sleeps over a non-empty queue unless a signalled thread is on its way or the lock holder is itself about to signal or to take a value |
| MonitorQueue.DeliveryIsFifo | src/squeue.h:14-51 | the values handed out in lock order followed by the queue are the values added in lock order |
| MonitorQueue.AlwaysBooks | src/squeue.h:14-51 | in every interleaving the calls begun and returned agree with where the threads stand, and with what was added and delivered |
| MonitorQueue.CallsReturnRightly | src/squeue.h:14-51 | in every interleaving each return is of the call its thread had begun; an add returns nothing, a get a value, and a tryget returns none only while the queue is empty |
| MonitorQueue.CallsAreFifo | src/squeue.h:14-51 | whenever the mutex is free, the values of the adds returned, in order, are those that gets and trygets have returned, in order, followed by the queue |
| GlobalIds.IdsAreOrdered | src/mccglobalid.cpp:42-64 | the comparisons are those of one total order, matrix number first, with the null id below every id of a non-negative matrix number |
| Ptz.ProcessLocalPtz | src/mccresourcemanager.cpp:97-149 | the answer and the camera's new hold, for each kind of request |
| Ptz.LeaseIsBounded | src/mccresourcemanager.h:95-100 | in every run a lock's deadline is at most 20 seconds past the last request |
| Ptz.PlainOperation | src/mccresourcemanager.cpp:128-149 | an operation that neither locks nor unlocks: against a live lock it is accepted from the holder up and changes nothing; otherwise from the holder up or after the lease, and then takes the hold for 20 seconds |
| Ptz.LockRequest | src/mccresourcemanager.cpp:97-125 | a request to lock is accepted exactly from the holder up, and then locks for 20 seconds |
| Ptz.UnlockRequest | src/mccresourcemanager.cpp:97-130 | an unlock is accepted exactly against a live lock and from the holder up; it leaves the camera unlocked, with holder and deadline as they were |
| Ptz.TakenForTwentySeconds | src/mccresourcemanager.cpp:128-149 | a camera taken by a plain operation at t is open to a plain operation from below at `now` if and only if `now > t + 20` |
| Ptz.LockedForTwentySeconds | src/mccresourcemanager.cpp:97-149 | the same for a camera locked at t |
| Ptz.UnlockedUntilLocked | src/mccresourcemanager.cpp:97-127 | after an accepted unlock, every unlock by anybody is rejected until somebody locks |
| Ptz.UnlockedIsFree | src/mccresourcemanager.cpp:97-149 | after an accepted unlock, the next plain operation at or above the old holder takes the hold, and for 20 seconds every request from below it is rejected |
| Ptz.LeaseOnlyGrows | src/mccresourcemanager.cpp:97-149 | over any stretch in which the lock neither expires nor is given up, it stays, and neither holder id nor deadline decreases |
| Ptz.LowerIdsStayOut | src/mccresourcemanager.cpp:97-149 | during such a stretch every request below the user who held the lock at its start is rejected without change, whoever holds it by then |
| Ptz.LiveLockFilters | src/mccresourcemanager.cpp:97-149 | a live lock accepts exactly the ids at or above the holder, and those below change nothing |
| Ptz.HolderGoesDownIff | src/mccresourcemanager.cpp:97-149 | locked or not, anywhere in a run, the holder is replaced by a smaller id if and only if that id operates the camera, neither locking nor unlocking, after the lease has run out |
| Ptz.HolderOnlyGrows | src/mccresourcemanager.cpp:97-149 | over any stretch without such an operation the holder id never decreases, whatever locks, unlocks and expiries happen |
| Ptz.ExpiryDoesNotAdmitLocks | src/mccresourcemanager.cpp:117-125 | over any stretch without such an operation every request to lock from below the holder is rejected and changes neither holder nor deadline, however late it comes |
| Ptz.TakeoverEndsLockout | src/mccresourcemanager.cpp:131-147 | such an operation makes the lower id the holder, whose next request to lock is accepted |
| Trunks.Trunk.Top | src/mccresourcemanager.h:128-132 | a user of the trunk with the smallest id |
| Trunks.Trunk.UpdateUsers | src/mccresourcemanager.h:144-151 | pops expired tops until none is left at the top, and resets the camera exactly when no user remains |
| Trunks.ChooseTrunk | src/mccresourcemanager.cpp:616-650 | reuse first, then idle, then a trunk whose smallest user is largest; none exactly when all are held at or below the requester |
| Trunks.CheckTrunk | src/mccresourcemanager.cpp:609-651 | after expiry clearing, the choice is right; false if and only if nothing can be reused, nothing is idle and every trunk has a user at or below the requester |
| Trunks.RefusedIff | src/mccresourcemanager.cpp:639-651 | refused if and only if no trunk carries the camera and every trunk has a user whose id, matrix number first, is no larger than that of the requester |
| Trunks.TakenOnlyFromLargerIds | src/mccresourcemanager.cpp:609-697 | a trunk with a user within its lease changes camera only for an existing local camera and a requester of smaller id than every such user |
| Trunks.ClearingRule | src/mccresourcemanager.h:144-151 | clearing at `now` keeps every user whose deadline is at least `now` and everyone above one of them; if there are none it leaves no users and the null camera |
| Trunks.WhoStays | src/mccresourcemanager.h:144-151 | whoever stays has at or below it a user whose deadline is at least `now`, and the camera stays too |
| Trunks.GrantTakesATrunk | src/mccresourcemanager.cpp:664-697 | with some trunk whose users have all run out, a request for a local camera puts its user on a trunk carrying that camera, with a deadline 20 seconds later |
| Trunks.GrantLasts | src/mccuser.cpp:35-49 | in every run a user stays on its trunk as long as no request reads a clock past its deadline |
| Trunks.ExpiredTrunkIsGranted | src/mccresourcemanager.cpp:609-638 | if the deadlines of all users of some trunk are below the reading, that trunk is left empty with the null camera and any request is granted |
| Trunks.WeakestDecides | src/mccresourcemanager.cpp:639-650 | comparing with the weakest trunk's top alone decides whether any trunk can be taken |
| Trunks.UseTrunk | src/mccresourcemanager.cpp:653-697 | granted exactly when not all trunks are busy; the port returned is that of the trunk chosen; a granted request for a local camera puts camera and user on that trunk, and nothing else changes |
| Trunks.SwitchKeepsSound | src/mccresourcemanager.cpp:609-697 | one request keeps: camera ids distinct and local, no users if and only if the camera is `NullID` |
| Trunks.NoCameraOnTwoTrunks | src/mccresourcemanager.cpp:609-697 | in every reachable state no two trunks carry the same camera, the camera map being free to change between requests |
| Topology.Tree.SiblingsAreApart | src/mccresourcemanager.h:183-215 | the subtrees of two children share no matrix |
| Matrix.AnnouncedAreServed | src/mccresourcemanager.cpp:571-590 | a matrix announces exactly the matrices some table entry serves |
| Matrix.SortedAscends | src/mccresourcemanager.cpp:571-590 | children are listed in the ascending order of the set's iteration |
| Matrix.AnnouncedInOrder | src/mccresourcemanager.cpp:571-590 | the announcement lists the child of smallest number, then what that child has below itself, then the other children |
| Matrix.MatchServes | src/mccresourcemanager.cpp:369-377 | a match is found if and only if some entry is the target or lists it, and is such an entry |
| Matrix.StartSwitchSends | src/mccresourcemanager.cpp:65-92 | a keyboard's request names this matrix, the keyboard and the camera, goes to the matching child and leaves one own context; without a match nothing happens |
| Matrix.RequestAnswers | src/mccresourcemanager.cpp:653-741 | field by field: 404 and port 0 without a trunk, 200 or 404 with the port at the target, 404 with the port where no child matches, and otherwise the request itself passed on with one context, or the abort for a known id |
| Matrix.ResponseGoesOn | src/mccresourcemanager.cpp:495-569 | a response without a context is dropped; otherwise its context goes and the very same response completes or goes up |
| Matrix.RegisterPutsOrTakes | src/mccresourcemanager.cpp:401-441 | a positive expiry puts the sender on the table with exactly the matrices it lists, over the connection of the entry it had or else this one; any other takes it off; the other entries stay |
| Matrix.RegisterIsPassedOn | src/mccresourcemanager.cpp:442-448 | an announcement of all the new table serves, with expiry 60, goes to the parent exactly when there is one and it is connected |
| Matrix.ConnectionsComeAndGo | src/mccresourcemanager.cpp:383-606 | connecting announces all the table serves, losing the parent keeps the tables, and losing a child's connection takes off exactly the entries over it |
| Routing.AnnouncesDescendants | src/mccresourcemanager.cpp:571-590 | from a sound table only strict descendants are announced |
| Routing.OnlyOneChildServes | src/mccresourcemanager.cpp:369-377 | at most one entry of a sound table matches a target, so the map's order does not matter |
| Routing.MatchLeadsDown | src/mccresourcemanager.cpp:369-377 | the match is a direct child with the target in its subtree, and its fd is that child's connection |
| Routing.AlwaysSound | src/mccresourcemanager.cpp:383-448 | in every run, disconnects and re-registrations included, every table entry and every register in flight names only true descendants |
| Registration.AlwaysSteady | src/mccresourcemanager.cpp:401-448 | without disconnects, what a parent knows or is about to learn of a connected child is what the child's table says now |
| Registration.TablesCompleteAtQuiescence | src/mccresourcemanager.cpp:401-599 | when all are connected and no register is in flight, each matrix has exactly one entry per direct child, with exactly its strict descendants |
| Registration.TablesCompleteIff | src/mccresourcemanager.cpp:369-448 | in every reachable state of every run, disconnects included, all tables describe exactly the tree if and only if each parent has, for each child, an entry listing at least what that child has in its own table |
| Registration.AnnounceHasNoRepeats | src/mccresourcemanager.cpp:571-590 | a sound table announces no matrix twice |
| Registration.AnnouncementFits | src/mccresourcemanager.cpp:571-590 | an announcement is never longer than the number of descendants |
| Registration.RegisterFits | src/mccresourcemanager.cpp:571-590 | in every run the 50 slots suffice for a matrix with at most 50 descendants |
| Capacity.SlotsSufficeIff | src/mccresourcemanager.cpp:571-599 | every register message that a matrix other than the root ever builds, in whatever run, fits the 50 slots if and only if the matrix has at most 50 descendants |
| Capacity.EverybodyIsHeard | src/mccresourcemanager.cpp:401-599 | in some run without disconnects every matrix comes to announce all its descendants |
| Capacity.RootBuildsNone | src/mccresourcemanager.cpp:442-447 | the root never builds a register message |
| Reconnection.AlwaysPlain | src/mccresourcemanager.cpp:383-448 | in every run, disconnects included, table entries are over connections the parent has not seen closed and the connected flag tells whether there is a connection |
| Reconnection.AlwaysHeard | src/mccresourcemanager.cpp:401-448 | if no registration is ever handled over an entry of another connection, a parent holds, over the current connection, at least what its child has, or is about to learn it |
| Reconnection.TablesCompleteAfterReconnects | src/mccresourcemanager.cpp:383-599 | in such runs, with any disconnects and reconnections, when all connections are whole and no register is in flight each matrix has exactly one entry per direct child, over its connection, with exactly its strict descendants |
| Reconnection.NoDisconnectsAreInTurn | src/mccresourcemanager.cpp:401-448 | every run without disconnects is such a run |
| Reconnection.ClosingLosesNobodyIff | src/mccresourcemanager.cpp:383-399 | in every reachable state, seeing old connections close loses no connected child if and only if every connected child is registered over the connection it has |
| Reconnection.LateCloseLosesTheChild | src/mccresourcemanager.cpp:383-430 | in every reachable state a registered child can be lost although it is connected and was heard: it reconnects, and the parent handles the new registration before the end of the old connection |
| Switching.RequestOutcome | src/mccresourcemanager.cpp:653-741 | a delivered request is either answered to its origin with no context left, or passed unchanged to the one child towards the target with one new context |
| Switching.AlwaysOrderly | src/mccresourcemanager.cpp:495-741 | in every run, disconnects included: each id is in flight at most once, contexts lie on the path from the origin, addresses are right and the abort is never reached |
| Switching.RequestsOnlyGoDown | src/mccresourcemanager.cpp:698-729 | the matrices a request visits are strictly deeper each time, so none is visited twice |
| Switching.ServedAtMostOnce | src/mccresourcemanager.cpp:495-569 | a request completes at most once, at its origin, and nothing happens to it afterwards |
| Switching.NoDuplicateContexts | src/mccresourcemanager.cpp:718-722 | the "duplicate message id" abort is unreachable in every run with fresh ids |
| Switching.ForwardsGetCloser | src/mccresourcemanager.cpp:698-729 | in every reachable state a forward goes one level down, to an ancestor of the target or the target itself |
| Answers.AlwaysTruthful | src/mccresourcemanager.cpp:495-741 | in every run, every request under way is a question some keyboard asked, every response under way an answer some matrix gave to one, and every answer given is true |
| Answers.DeliveredAnswersAreTrue | src/mccresourcemanager.cpp:495-741 | in every run the response handed to a keyboard is one a matrix gave to a question of that keyboard at that matrix; its status is 200 if and only if that matrix was the one asked for, granted a trunk and found the camera, otherwise 404; its port is that of the trunk granted there, or 0 |
| Answers.CompletedIsDelivered | src/mccresourcemanager.cpp:495-569 | a request counts as completed exactly when a response to it has been handed over |
| SwitchContexts.AlwaysConserved | src/mccresourcemanager.cpp:495-741 | without disconnects, every issued id is at one place and its holders are exactly what that place implies |
| SwitchContexts.ContextsAreThePath | src/mccresourcemanager.cpp:495-741 | the holders of an id are exactly the tree path from the origin to the sender of the request in flight, or to the receiver of the response in flight |
| SwitchContexts.UnissuedIdsHaveNoContext | src/mccresourcemanager.cpp:78-87 | no context exists for an id nobody issued |
| SwitchContexts.AllAnsweredWhenIdle | src/mccresourcemanager.cpp:495-569 | once no switch message is in flight, every issued request has completed at its origin exactly once and left no context anywhere |
| SwitchContexts.DeliveriesMakeProgress | src/mccresourcemanager.cpp:495-741 | each delivery of a request or its response, and no other step, lowers a measure that is positive exactly until the request is home |
| SwitchContexts.WorkAtIssue | src/mccresourcemanager.cpp:78-87 | at issue the measure is twice the number of levels between origin and target: the bound on deliveries |
| Liveness.DeliveryDrains | src/mccresourcemanager.cpp:401-741 | in every run, disconnects included, handling any message strictly lowers the traffic under way |
| Liveness.DeliveriesAreBounded | src/mccresourcemanager.cpp:401-741 | in every run no more messages can be delivered in a row than the traffic under way: messages do not multiply and none goes in circles |
| Liveness.SomethingToDeliver | src/mccresourcemanager.cpp:401-741 | without disconnects, whenever anything is under way some delivery is possible |
| Liveness.RequestsAreNeverStuck | src/mccresourcemanager.cpp:495-741 | without disconnects, the message of a request that is not home is on a connection whose next message can be delivered |
| Liveness.DrainsToSilence | src/mccresourcemanager.cpp:401-741 | every run without disconnects can be continued by deliveries alone until nothing is under way |
| Liveness.AnyOrderAnswersAll | src/mccresourcemanager.cpp:495-741 | deliveries in any order, made until none is possible, leave every request issued completed exactly once at its origin with no context anywhere |
| Liveness.EveryRequestCanBeAnswered | src/mccresourcemanager.cpp:495-741 | and such deliveries exist from every run without disconnects |
| Stranding.DoomedForEver | src/mccresourcemanager.cpp:495-741 | in every run, once neither a request nor its response is under way to anyone who could act on it, or the request is on a closed connection to its own target, it is never answered in any continuation and exactly its contexts of that moment remain |
| Recovery.AlwaysSane | src/mccresourcemanager.cpp:495-741 | in every run, disconnects included, while a message of a request is under way every matrix on the path above it holds its context |
| Recovery.ResponseGetsHome | src/mccresourcemanager.cpp:495-569 | in every reachable state, whatever connections were lost, a response under way can be brought home by reconnecting the matrices above it |
| Recovery.SetUpRoute | src/mccresourcemanager.cpp:383-448 | in every reachable state a route to any descendant can be set up over fresh connections without disturbing a request held above |
| Recovery.AnswerableIff | src/mccresourcemanager.cpp:495-741 | in every reachable state of every run, a request that is not home can still be answered if and only if it is not doomed |
| ResourceManager.Manager.MatchMatrix | src/mccresourcemanager.cpp:369-377 | the loop over the child table returns the first match in key order |
| ResourceManager.Manager.BuildRegister | src/mccresourcemanager.cpp:571-590 | the array filled slot by slot lists each child followed by its set, within the 50 slots |
| ResourceManager.Manager.OnRegister | src/mccresourcemanager.cpp:401-448 | a first registration, an update and an unregistration, followed by the announcement to the parent when there is one and it is connected |
| ResourceManager.Manager.OnDisconnect | src/mccresourcemanager.cpp:383-399 | exactly the entries with this fd are removed |
| ResourceManager.Manager.OnClientConnected | src/mccresourcemanager.cpp:591-599 | marks the link up and registers with the parent |
| ResourceManager.Manager.OnClientDisconnected | src/mccresourcemanager.cpp:601-606 | marks the link down and keeps the tables |
| ResourceManager.Manager.CameraAt | src/mccresourcemanager.cpp:159 | the entry found, and the null entry that the lookup plants for an unknown id |
| ResourceManager.Manager.IsCameraExist | src/mccresourcemanager.h:234 | the answer, and the null entry that the lookup plants for an unknown id |
| ResourceManager.Manager.ProcessSwitchMessage | src/mccresourcemanager.cpp:32-96 | the monitor test, the local switch and the remote request with its context, each with what it does to cameras, monitors and contexts |
| ResourceManager.Manager.ProcessOwnPtzMessage | src/mccresourcemanager.cpp:151-164 | steering a local camera: rejected for a camera that is not there, whose lookup plants a null entry, otherwise decided and recorded by the PTZ rule on that camera alone |
| ResourceManager.Manager.OnClientRxPtz | src/mccresourcemanager.cpp:742-781 | a PTZ request from the parent for a camera of this matrix: 404 without an entry, a null dereference exactly for a null entry, otherwise 200 or 400 by the PTZ rule on that camera alone |
| ResourceManager.Manager.OnClientRxRequest | src/mccresourcemanager.cpp:653-741 | the handler computes the request step and its trunk step together: granted exactly when not all trunks are busy, the port answered is that of the trunk chosen, and a granted request for this matrix is answered 200 exactly when the camera map has an entry |
| ResourceManager.Manager.AnswerOrForward | src/mccresourcemanager.cpp:664-741 | once the trunks have been asked, the request is refused, answered or forwarded as the request step says |
| ResourceManager.Manager.OnServerRxResponse | src/mccresourcemanager.cpp:495-569 | a response without a context is dropped; otherwise the context goes and the response completes here or is passed up |
| ResourceManager.PhantomCamera | src/mccresourcemanager.cpp:53-61 | with an idle trunk, after a rejected local switch to an unknown camera the next remote request for it is granted and answered 200 |
| ResourceManager.PhantomCameraFromTheStart | src/mccresourcemanager.cpp:53-61 | that happens to a new matrix without cameras, down to the response sent |
| Devices.PhantomIff | src/mccresourcemanager.cpp:53-61 | after any run of local requests the real cameras are those configured, and an entry is null exactly when the id was not configured and some local switch past the monitor test or some local PTZ request has asked for it |
| Devices.AnsweredTrulyIff | src/mccresourcemanager.cpp:664-692 | after any such run, a granted remote request is answered 200 exactly for a real camera if and only if the camera is configured or no local request has looked it up |
| Devices.PtzIsDefinedIff | src/mccresourcemanager.cpp:742-781 | after any such run, a PTZ request from the parent is defined if and only if the camera is configured or no local request has looked it up |
| Devices.ShowCases | src/mccresourcemanager.cpp:32-61 | a local switch does nothing if the monitor is missing, held within its lease by a higher keyboard, or the camera is elsewhere; otherwise it takes the monitor for 20 seconds, or leaves a null entry for an unknown camera |
| Devices.AnswerPtzCases | src/mccresourcemanager.cpp:742-781 | a PTZ request from the parent is answered 404 without an entry, is a null dereference for a null entry, and otherwise 200 or 400 as the PTZ rule decides |
| Devices.SteerCases | src/mccresourcemanager.cpp:151-164 | steering leaves a null entry for an unknown local camera and changes nothing else here |
| Devices.MonitorForTwentySeconds | src/mccresourcemanager.cpp:32-61 | a monitor taken by a keyboard at t is open to another one at `now` if and only if that one is no lower or `now > t + 20` |

## Left out

- GBK parsing (`isGBK` set): only the plain dispatch table is modelled.
- File reading and writing, failed allocation, tree destruction, and the memory lost when a section is reopened.
- NUL bytes inside texts, names, keys and values: strings are NUL-free by type, and length arguments are the strings' own lengths.
- Section names longer than 63 bytes overrun a buffer in the source; the model only names that outcome `Undefined`.
- The printer is modelled as the text it writes for a tree value, not as writes to a `FILE` while walking heap nodes.
- Integer widths other than the return type of `TimeToSec`: counters, `atoi` and `sprintf` are over unbounded integers, of which the 32-bit ones are a part.
- XML parsing and printing of agent messages: a message on a link is its fields.
- Forwarded PTZ requests and PTZ responses: the source builds the context of a forwarded one from a null message reference.
- The timed `Squeue::get`: a timed-out wait may consume a signal.
- The heap inside a trunk: its users are a multiset, and any user with the smallest id may be the top.
- ChooseTrunk: requires at least one trunk, since the source dereferences the end iterator otherwise.
- CheckTrunk: requires at least one trunk, for the same reason.
- UseTrunk: requires at least one trunk, for the same reason.
- OnRegister: requires that the announcement fits in 50 slots, which `SlotsSufficeIff` proves of every run for a matrix with at most 50 descendants and of no other; beyond that the source writes past its array.
- TimeToSec: requires a year from 1970 and a month that the day table has; the source checks neither.
- MatrixInfo's `clearChildren` and `onDisconnect` erase while iterating, which is undefined in C++; the model does the intended clearing and removal.
- `releasePtz` is a comparison in the source and has no effect in the model either.
- Request ids and connection fds are assumed fresh, the clock is read once per call, and a matrix's level is its depth in the tree.
- LeaseOnlyGrows: assumes that the clock does not go back.
- AlwaysConserved: assumes no disconnects, since a lost message leaves contexts behind (`DoomedForEver`); `AlwaysOrderly`, `AlwaysSane` and `AnswerableIff` cover runs with disconnects.
- DrainsToSilence: assumes no disconnects, since what is sent on a connection its child has given up is never delivered; `DeliveriesAreBounded` covers runs with disconnects.
- TablesCompleteAfterReconnects: a run that handles a registration out of turn may still end with complete tables, so the condition on the run is sufficient only; the exact condition, on the state reached, is that of `TablesCompleteIff`, and what such a run risks is `LateCloseLosesTheChild`.
- AllAnsweredWhenIdle: speaks of states in which nothing is in flight; that they are reached is `AnyOrderAnswersAll`.
- Driving the video matrix and answering the keyboard, mutexes around the maps (each handler is one atomic step), and the null entries that `operator[]` may plant among the monitors.
- TCP, threads, serial keyboards and their packet codecs, SIP, HTTP, logging, configuration of resources: foreign calls, and codecs over small finite domains.
