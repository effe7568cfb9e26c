# Verified models of the systems exercises

The repository is a collection of stand-alone C programs about storage engines, transactions, threads,
parsers and data structures. This project models the ones that keep real invariants and proves those
invariants for all inputs, all interleavings and all runs. Sizes that the C code fixes with `#define`
(slots, threads, queue length, key and value lengths, node fan-out, hash size, pool size) are parameters
throughout.

| file | what it models |
|---|---|
| `Mvcc`, `SnapshotIsolation`, `MvccHistory`, `MvccProgress`, `WriteKeys`, `KeyTable` | the in-memory store with multi-version concurrency control |
| `TwoPhase`, `TwoPhaseBounds` | transfers between accounts under two-phase locking |
| `BoundedQueue`, `QueueRuns`, `QueueBounds` | the request queue with two condition variables and stop items |
| `Grammar`, `Lalr`, `LalrComplete`, `LalrSound`, `Parser`, `Printer` | the table-driven expression parser, its grammar, its lexer and the tree printer |
| `RbModel`, `RbFix`, `RbHeap`, `RbPaint`, `RbRotate`, `RbSplice`, `RbSearch`, `RbSteps`, `RbTree` | the red-black tree with parent links and a shared sentinel |
| `WaitGraph`, `CycleTest`, `VictimSearch` | deadlock detection on wait-for graphs, recursive and iterative |
| `LruPaging`, `CacheSpec`, `LinkedList`, `HashChains`, `LruCache` | page replacement by timestamps, and the cache made of a hash table and a linked list |
| `SlidingWindow`, `WindowHeap` | the window maximum three ways |
| `BTree`, `BTreeHeap`, `Avl`, `AvlHeap` | the B-tree with splitting on the way down and the AVL tree, each as a tree and as nodes updated in place |
| `MemoryPool`, `PoolRuns` | the first-fit pool allocator, and sequences of its calls |
| `WalTable`, `WalLog`, `WalView` | the write-ahead log, its replay, and what it means for each key |
| `Arenas`, `Circles`, `Options`, `Pigeonholes`, `Rows` | nodes by index, places on a circle, missing values, lists without repetition, and brackets in rows, shared by several of the above |

**Concurrency.** A concurrent program is a state machine whose steps are the accesses to shared state:
taking one lock, reading or storing one balance, validating or installing one key, testing a loop
condition, waiting, signalling. A run is any interleaving of enabled steps of any number of threads.
History variables (`log`, `asked`, `put`, `taken`, `takers`, `handled`) record what happened; no step reads them.
The theorems speak of every state of every run. What the histories hold is proved from the steps of the run alone
(`MvccHistory.LogIsStamped`, `MvccHistory.CommitWrites`, `TwoPhase.AskedIsBegun`).

**In-place structures.** The red-black tree, the AVL tree, the B-tree and the cache keep their nodes in an
arena: a sequence of records whose pointer fields are indices, with index 0 for the sentinel or the null
pointer. Every pointer assignment of the C code is one update of the arena. The abstract tree or list is a
ghost value that an invariant ties to the arena; it also says that no node is used twice. For the fixup
loops of the red-black tree the ghost state is a focus and the path above it. The methods of the AVL tree
are proved to do to their nodes what the functions of `Avl` do to a tree.

**Parser.** The tables of the generated parser are copied as data, with the lookup rules of its engine.
The machine that runs them is proved to accept exactly what the grammar derives, up to the stack limit,
which enters as the parameter `maxDepth`.

**Where the code and its promise part.**
`KeyTable.SameIndexIffFits`: a key of `MAX_KEY_LEN` bytes or more is stored cut off and does not find its own
slot again, so each call makes a new one; a key keeps its slot exactly when it fits (`KeyTable.LongKeyMoves`
is an instance).
`KeyTable.SharesIff`: two keys can get one slot exactly when the second is what the first is stored as, so a
key that does not fit shares versions and lock with its own beginning (`KeyTable.LongKeyMeetsShort`).
`Printer.RoundTrip`: a printed tree is read back exactly when no leaf is negative and the line fits the
stack (`Printer.NegativeLeaf`: on the sign the parser gives up before the first line is read).
`WalLog.RecoversIff`: the log cannot tell the text `NULL` from a missing value. The rebuilt table is the live
one with every value `NULL` made empty, so it is the same exactly when no record has that value
(`WalLog.NullIsLost` is an instance), and the printed summary is the same exactly when no valid record has it.
`QueueRuns.ExactlyOnce` and `QueueBounds.EndIsFinishedIff`: without workers nothing is handled; all threads
still return exactly when the requests fit the queue, and otherwise the clients block for good.
`LruPaging.FollowsIff`: the page number -1 also marks an empty frame. The simulation is right about every request
and about the pages in the frames after it exactly when every request is harmless: the page is among the n most
recently used; or it is -1 and n pages have been used; or -1 is not among them, or is the one to drop.
`LruPaging.MarkerFirst` and `LruPaging.MarkerBetween` are instances of the failure: a first request for -1 counts
as a hit, and after 1, 2, -1, 3 two frames hold 3 and 2 where 3 and -1 are the most recently used.

## Model

| member | source | states |
|---|---|---|
| `Mvcc.StepInv` | concurrency-and-multithreading/s_mem_key_value_stored_with_mvcc.c:85-265 | every step of begin, read, write, lock, validate, stamp, install, unlock and abort keeps the invariant that ties version chains, locks, transactions and the log of commits together; what the log holds is the subject of the `MvccHistory` rows |
| `Mvcc.RunInv` | concurrency-and-multithreading/s_mem_key_value_stored_with_mvcc.c:85-265 | the invariant holds in every state of every interleaved run |
| `Mvcc.ValidateKey` | concurrency-and-multithreading/s_mem_key_value_stored_with_mvcc.c:206-214 | looking at the head of a chain under its lock is enough to rule out every commit to the key since the snapshot; `MvccHistory.FailsOnConflict` is the converse |
| `SnapshotIsolation.SnapshotRead` | concurrency-and-multithreading/s_mem_key_value_stored_with_mvcc.c:85-132 | a read of a key not written by the transaction itself returns the value of the newest commit at the time it began, even while later commits are half installed |
| `SnapshotIsolation.SnapshotIsLogAtBegin` | concurrency-and-multithreading/s_mem_key_value_stored_with_mvcc.c:93-95 | the commits with timestamp up to `start_ts` are at any later time exactly those stamped before the transaction began |
| `SnapshotIsolation.RepeatableRead` | concurrency-and-multithreading/s_mem_key_value_stored_with_mvcc.c:111-132 | two reads of one key by one transaction agree however far apart they are |
| `SnapshotIsolation.AllOrNothing` | concurrency-and-multithreading/s_mem_key_value_stored_with_mvcc.c:182-252 | all reads of a transaction come from one prefix of the commit order, so each commit is seen on all its keys or on none |
| `SnapshotIsolation.FirstCommitterWins` | concurrency-and-multithreading/s_mem_key_value_stored_with_mvcc.c:204-246 | two commits with a common key have disjoint intervals from start to commit timestamp |
| `SnapshotIsolation.NoLostUpdate` | concurrency-and-multithreading/s_mem_key_value_stored_with_mvcc.c:204-246 | whatever a commit overwrites is what its snapshot showed for that key |
| `SnapshotIsolation.ChainsDescend` | concurrency-and-multithreading/s_mem_key_value_stored_with_mvcc.c:228-240 | every version chain descends strictly in commit timestamp and stays below the clock |
| `SnapshotIsolation.CommitInstalled` | concurrency-and-multithreading/s_mem_key_value_stored_with_mvcc.c:232-251 | when a commit reports success its versions are on the chains of all keys it locked |
| `SnapshotIsolation.NoCyclicWait` | concurrency-and-multithreading/s_mem_key_value_stored_with_mvcc.c:150-174 | no reachable state has transactions waiting for key locks in a ring of any length |
| `SnapshotIsolation.NeverStuck` | concurrency-and-multithreading/s_mem_key_value_stored_with_mvcc.c:150-252 | while a commit is in progress some commit can take its next step |
| `MvccHistory.LogIsStamped` | concurrency-and-multithreading/s_mem_key_value_stored_with_mvcc.c:228-230 | the log lists, in every state of every run, the transactions of the stamping steps so far, in their order |
| `MvccHistory.CommitWrites` | concurrency-and-multithreading/s_mem_key_value_stored_with_mvcc.c:134-240 | a commit gives each key the value its transaction last wrote there, and no value to the keys it did not write |
| `MvccHistory.PutLocalLookup` | concurrency-and-multithreading/s_mem_key_value_stored_with_mvcc.c:134-148 | a write sets the entry of its key, whether there was one or not, and leaves the entries of all other keys |
| `MvccHistory.ClipKeeps` | concurrency-and-multithreading/s_mem_key_value_stored_with_mvcc.c:145-146 | a value that fits its buffer is kept whole, a longer one keeps its first MAX_VALUE_LEN - 1 characters |
| `MvccHistory.ReadIs` | concurrency-and-multithreading/s_mem_key_value_stored_with_mvcc.c:111-148 | what a read returns, told from the steps alone: the last value the transaction wrote to the key itself; else the last value written by the newest transaction that wrote the key and drew its commit timestamp before this one began; else the empty string |
| `MvccHistory.ClockIs` | concurrency-and-multithreading/s_mem_key_value_stored_with_mvcc.c:85-99 | the clock counts the begins and commits, ids are given in order, and no more transactions begin than the table has room for |
| `MvccHistory.FailsOnConflict` | concurrency-and-multithreading/s_mem_key_value_stored_with_mvcc.c:206-214 | a key fails its validation only if another transaction has committed it since this one began |
| `MvccHistory.CommitOutcome` | concurrency-and-multithreading/s_mem_key_value_stored_with_mvcc.c:204-251 | a commit that wrote something ends committed if and only if, when it held all its locks, nobody had committed one of its keys since it began; and if and only if it drew a timestamp |
| `MvccHistory.ConflictIs` | concurrency-and-multithreading/s_mem_key_value_stored_with_mvcc.c:206-214 | that condition told from the steps alone: some transaction drew its timestamp after this one began, and both wrote a common key |
| `MvccHistory.AbortLeavesNothing` | concurrency-and-multithreading/s_mem_key_value_stored_with_mvcc.c:190-265 | a transaction that aborts, or commits without writes, never draws a timestamp for the log, and stays as it ended |
| `MvccProgress.Offered` | concurrency-and-multithreading/s_mem_key_value_stored_with_mvcc.c:111-265 | whatever the others do, a running transaction can write any key, abort, read what it has written and what is not locked, and start its commit, with locking exactly if it has written something |
| `MvccProgress.BeginOffered` | concurrency-and-multithreading/s_mem_key_value_stored_with_mvcc.c:85-99 | a transaction can begin exactly as long as the table has room |
| `MvccProgress.CommitLength` | concurrency-and-multithreading/s_mem_key_value_stored_with_mvcc.c:182-252 | a commit takes exactly four steps for each key written and four more, a failing one no more than that, a commit without writes none; so with the absence of deadlock every commit ends |
| `WriteKeys.FindLocalWrite` | concurrency-and-multithreading/s_mem_key_value_stored_with_mvcc.c:106-109 | the loop over the write list finds the entry the model looks up |
| `WriteKeys.ReadVersion` | concurrency-and-multithreading/s_mem_key_value_stored_with_mvcc.c:121-131 | the walk down a version chain returns the newest version not after the snapshot, or the empty string |
| `WriteKeys.CollectKeys` | concurrency-and-multithreading/s_mem_key_value_stored_with_mvcc.c:151-159 | the loop with the presence table collects each write key once |
| `WriteKeys.LockOrder` | concurrency-and-multithreading/s_mem_key_value_stored_with_mvcc.c:150-167 | the exchange sort yields the strictly ascending list of exactly the distinct write keys |
| `WriteKeys.LockOrderUnique` | concurrency-and-multithreading/s_mem_key_value_stored_with_mvcc.c:161-167 | there is one such list, so the order of locking depends on the key set alone |
| `KeyTable.HashOf` | concurrency-and-multithreading/s_mem_key_value_stored_with_mvcc.c:31-35 | shifting and adding with wrap-around at every operation gives the number with digits 5381 and the bytes of the key to base 33, modulo 2^64 |
| `KeyTable.HashExamples` | concurrency-and-multithreading/s_mem_key_value_stored_with_mvcc.c:31-35 | the hashes of the empty key and of the key "a" |
| `KeyTable.Table.GetOrCreate` | concurrency-and-multithreading/s_mem_key_value_stored_with_mvcc.c:37-61 | the probing loop returns the slot that the specification finds and fills it if it was free, or fails and changes nothing when no slot is left |
| `KeyTable.FindIs` | concurrency-and-multithreading/s_mem_key_value_stored_with_mvcc.c:38-58 | the slot found is the first one, going round from the hash of the key modulo the number of slots, that is free or bears the key |
| `KeyTable.SameIndexIffFits` | concurrency-and-multithreading/s_mem_key_value_stored_with_mvcc.c:37-61 | a key keeps its slot through all later calls if and only if it is shorter than the name buffer |
| `KeyTable.LongKeyMoves` | concurrency-and-multithreading/s_mem_key_value_stored_with_mvcc.c:42-53 | a key as long as the buffer gets slot 0 at the first call and slot 1 at the second |
| `KeyTable.SharesIff` | concurrency-and-multithreading/s_mem_key_value_stored_with_mvcc.c:42-53 | some table and some calls give key b the slot of key a if and only if b is what a is stored as |
| `KeyTable.SharedIsStored` | concurrency-and-multithreading/s_mem_key_value_stored_with_mvcc.c:42-53 | whatever the table and the calls between, only the stored name of a key gets its slot |
| `KeyTable.LongKeyMeetsShort` | concurrency-and-multithreading/s_mem_key_value_stored_with_mvcc.c:42-53 | a key as long as the buffer and its beginning are given one slot |
| `KeyTable.FullOnlyWhenFull` | concurrency-and-multithreading/s_mem_key_value_stored_with_mvcc.c:54-59 | the table reports that it is full exactly when no slot is free and no slot holds the key |
| `TwoPhase.StepInv` | concurrency-and-multithreading/2pl.c:45-117 | every lock, load, store and unlock keeps the invariant that the balances are those of the serial execution up to what transfers past their lock points still owe |
| `TwoPhase.PointBalance` | concurrency-and-multithreading/2pl.c:87-97 | at its lock point a transfer sees the serial balances, so the serial execution decides about the transfer as the thread will |
| `TwoPhase.Serializable` | concurrency-and-multithreading/2pl.c:45-117 | when no transfer is under way the accounts equal the serial execution, in lock-point order, of exactly the transfers that the steps of the run began between two different accounts (the same multiset), each thread's in its own order |
| `TwoPhase.AskedIsBegun` | concurrency-and-multithreading/2pl.c:70-78 | the transfers recorded as asked for are, in every state, those of the begin steps with two different accounts, in their order |
| `TwoPhase.ExecMeans` | concurrency-and-multithreading/2pl.c:97-100 | what the serial execution does with one transfer: moves the amount if the balance covers it, and otherwise nothing, and no other account changes |
| `TwoPhase.MoneyKept` | concurrency-and-multithreading/2pl.c:97-100 | in every state balances plus debited and not yet credited amounts equal the initial total, and every balance is between zero and the total |
| `TwoPhase.NoCyclicWait` | concurrency-and-multithreading/2pl.c:73-95 | no reachable state has threads waiting for record locks in a ring of any length |
| `TwoPhase.NeverStuck` | concurrency-and-multithreading/2pl.c:71-109 | while a transfer is under way some thread can take its next step |
| `TwoPhaseBounds.TransferLength` | concurrency-and-multithreading/2pl.c:71-109 | a thread takes at most ten steps for each transfer it has begun between two different accounts, so without new transfers every run ends |
| `TwoPhaseBounds.IdleMayBegin` | concurrency-and-multithreading/2pl.c:71-78 | an idle thread can begin a transfer between any two accounts, whatever the others hold |
| `TwoPhase.TotalBalance` | concurrency-and-multithreading/2pl.c:27-36 | the loop computes the sum of all accounts |
| `BoundedQueue.PushItems` | Posix-Thread/pthread_db.c:46-48 | storing at the tail of the circular buffer appends to its items |
| `BoundedQueue.PopItems` | Posix-Thread/pthread_db.c:64-66 | taking from the head of the circular buffer removes the oldest item |
| `BoundedQueue.KeepWakeful` | Posix-Thread/pthread_db.c:40-50 | while a worker waits, each item has a worker on its way or a signal about to be sent, and likewise for producers and empty slots; every step keeps this |
| `BoundedQueue.KeepRoom` | Posix-Thread/pthread_db.c:58-66 | what a loop test found about the buffer still holds when the buffer is changed |
| `BoundedQueue.RunInv` | Posix-Thread/pthread_db.c:36-168 | the invariant holds in every state of every run, with arbitrary spurious wakeups |
| `QueueRuns.FirstInFirstOut` | Posix-Thread/pthread_db.c:36-72 | items are taken in the order they were put, and no more than the queue size are under way |
| `QueueRuns.NoEarlyStop` | Posix-Thread/pthread_db.c:150-162 | when a worker has taken a stop item every request of every client has been taken before |
| `QueueRuns.AtMostOnce` | Posix-Thread/pthread_db.c:75-124 | no request is handled twice, none is made up, and no stop item is handled as a request |
| `QueueRuns.ExactlyOnce` | Posix-Thread/pthread_db.c:75-168 | when all threads have returned each worker took exactly one stop item, and every request was handled exactly once if and only if there was a worker or no request |
| `QueueRuns.NoWorkers` | Posix-Thread/pthread_db.c:36-72 | without workers nothing is taken or handled, and the threads never all return if there are more requests than slots |
| `QueueRuns.NeverStuck` | Posix-Thread/pthread_db.c:36-168 | until all threads have returned some thread can take a step of its own, so no wakeup is lost; with at least one worker, or with requests that fit the queue |
| `QueueBounds.RunLength` | Posix-Thread/pthread_db.c:36-168 | every run has at most 16 steps per request, 18 per worker, one per client, one, and three per spurious wakeup in it |
| `QueueBounds.EndIsFinishedIff` | Posix-Thread/pthread_db.c:36-168 | every run in which no thread can go on has all threads returned, if and only if there is a worker or the requests fit the queue |
| `Lalr.ActIsTable` | LEXICAL_ANALYZER/lex_analyzer.tab.c:561-623 | the packed action tables, read as the engine reads them, give the shift, reduce and error entries of the grammar's automaton |
| `Lalr.GotoIsTable` | LEXICAL_ANALYZER/lex_analyzer.tab.c:561-623 | the packed goto tables give the successor states of the automaton |
| `LalrComplete.ParseExpr` | LEXICAL_ANALYZER/lex_analyzer.tab.c:983-1179 | from any state that expects an expression the machine reads the tokens of a derivation and pushes its tree, or runs out of stack exactly when the derivation is too deep |
| `LalrComplete.AcceptsLines` | LEXICAL_ANALYZER/lex_analyzer.y:37-63 | every sequence of derivable lines is accepted with its trees if it fits the stack, and exhausts the stack if not |
| `LalrSound.StepSound` | LEXICAL_ANALYZER/lex_analyzer.tab.c:983-1179 | after every step the stack spells, in derivations, exactly the tokens consumed, and trees reported are those of whole lines |
| `Parser.Verdict` | LEXICAL_ANALYZER/lex_analyzer.tab.c:983-1179 | however a parse ends, it accepts exactly the derivable inputs that fit the stack, with the derivation's trees |
| `Parser.Unambiguous` | LEXICAL_ANALYZER/lex_analyzer.y:37-63 | derivations of the same tokens have the same trees, so precedence and associativity are settled by the grammar |
| `Parser.NoStateShiftsError` | LEXICAL_ANALYZER/lex_analyzer.tab.c:1185-1281 | no state can shift the error token |
| `Parser.Recover` | LEXICAL_ANALYZER/lex_analyzer.tab.c:1185-1281 | the recovery loop pops to the bottom of the stack, so the first syntax error ends the parse |
| `Parser.Yyparse` | LEXICAL_ANALYZER/lex_analyzer.tab.c:983-1179 | the parse loop terminates and returns 0 exactly for derivable inputs that fit the stack, with their trees, and 2 for derivable inputs that do not fit |
| `Printer.LexPrint` | LEXICAL_ANALYZER/lex_analyzer.l:7-17 | the scanner turns the printed text of a tree into the tokens of its fully parenthesised derivation |
| `Printer.ScansAs` | LEXICAL_ANALYZER/lex_analyzer.l:8-17 | the token of every character: the seven of the grammar by their kinds, blanks and tabs none, any other the undefined one |
| `Printer.LexRun` | LEXICAL_ANALYZER/lex_analyzer.l:7 | a longest run of digits is one number, zeros in front or not |
| `Printer.DecodeIs` | LEXICAL_ANALYZER/lex_analyzer.l:7 | the number is the sum of the digits times the powers of ten of their places |
| `Printer.LeadingZero` | LEXICAL_ANALYZER/lex_analyzer.l:7 | a zero in front does not change the number |
| `Printer.PrintIs` | LEXICAL_ANALYZER/lex_analyzer.y:88-99 | the text of each of the four operations around the texts of its operands |
| `Printer.RoundTrip` | LEXICAL_ANALYZER/lex_analyzer.tab.c:1363-1374 | parsing the printed line gives back exactly the tree, if and only if the parser can build the tree and the line fits the stack |
| `Printer.NegativeLeaf` | LEXICAL_ANALYZER/lex_analyzer.tab.c:1363-1374 | the printed form of a leaf below zero makes the parser abort after two steps without a tree |
| `RbRotate.RotatedLeftHolds` | day-8(Avl-Tree)/rb-tree.c:44-54 | the pointer changes of a left rotation, with parent links, are the rotation of the tree in the arena |
| `RbRotate.RotatedRightHolds` | day-8(Avl-Tree)/rb-tree.c:57-67 | the pointer changes of a right rotation are the rotation of the tree in the arena |
| `RbTree.RBTree.LeftRotate` | day-8(Avl-Tree)/rb-tree.c:44-54 | the code leaves the rotated tree at the same place, parent links included |
| `RbTree.RBTree.RightRotate` | day-8(Avl-Tree)/rb-tree.c:57-67 | the code leaves the rotated tree at the same place, parent links included |
| `RbTree.RBTree.InsertFixup` | day-8(Avl-Tree)/rb-tree.c:70-113 | from a red node under a possibly red parent the loop terminates in a red-black tree with black root and the same keys |
| `RbTree.RBTree.Insert` | day-8(Avl-Tree)/rb-tree.c:116-140 | the tree stays a red-black search tree with consistent links and holds the old keys and the new one; a key already there changes nothing |
| `RbTree.RBTree.Search` | day-8(Avl-Tree)/rb-tree.c:143-150 | finds the node of a key exactly when the key is in the tree, at a depth of at most 2 log2(n + 1) |
| `RbTree.RBTree.TreeMinimum` | day-8(Avl-Tree)/rb-tree.c:153-156 | goes left to the node with the smallest key of a subtree |
| `RbTree.RBTree.Transplant` | day-8(Avl-Tree)/rb-tree.c:158-163 | changes exactly the link to the old node and the parent link of the new one, the sentinel's too |
| `RbTree.RBTree.DeleteFixup` | day-8(Avl-Tree)/rb-tree.c:166-219 | from a subtree one black short, which may be the sentinel, the loop terminates in a red-black tree with black root and the same keys |
| `RbTree.RBTree.Splice` | day-8(Avl-Tree)/rb-tree.c:230-255 | taking a node out, directly or by its successor, removes its key and leaves a tree that is red-black or short at one known place |
| `RbTree.RBTree.Delete` | day-8(Avl-Tree)/rb-tree.c:222-262 | the tree stays a red-black search tree with consistent links and holds the old keys without the given one; an absent key changes nothing |
| `RbTree.RBTree.Run` | day-8(Avl-Tree)/rb-tree.c:116-262 | after any sequence of insertions and deletions the tree is red-black, holds exactly the keys left and has height at most 2 log2(n + 1) |
| `RbSearch.HeightBound` | day-8(Avl-Tree)/rb-tree.c:116-262 | a red-black tree of n keys has height at most 2 log2(n + 1) |
| `RbFix.RedSiblingKeeps` | day-8(Avl-Tree)/rb-tree.c:170-175 | raising a red sibling keeps the tree short at the same place, now with a black sibling |
| `RbFix.PassUpKeeps` | day-8(Avl-Tree)/rb-tree.c:176-178 | painting a sibling with black children red moves the shortage to the parent |
| `RbFix.NearNephewKeeps` | day-8(Avl-Tree)/rb-tree.c:180-185 | turning the near nephew up leaves a red far nephew |
| `RbFix.FarNephewKeeps` | day-8(Avl-Tree)/rb-tree.c:186-190 | the last rotation restores the black height everywhere |
| `RbFix.RedUncleKeeps` | day-8(Avl-Tree)/rb-tree.c:74-79 | recolouring moves the red node two levels up |
| `RbFix.TurnedOutKeeps` | day-8(Avl-Tree)/rb-tree.c:81-85 | the first rotation turns an inner grandchild into an outer one |
| `RbFix.RebalancedKeeps` | day-8(Avl-Tree)/rb-tree.c:86-89 | the second rotation ends the clash of colours |
| `CycleTest.DetectCycle` | concurrency-and-multithreading/deadlock_with_wfg.c:56-75 | the recursion finds a cycle, or finishes its node after all nodes it waits for |
| `CycleTest.HasWaitCycle` | concurrency-and-multithreading/deadlock_with_wfg.c:77-88 | the result is true if and only if the wait-for graph has a cycle |
| `WaitGraph.Acyclic` | concurrency-and-multithreading/deadlock_with_wfg.c:56-88 | a graph whose nodes can be listed so that each waits only for earlier ones has no cycle |
| `WaitGraph.DroppedCycles` | concurrency-and-multithreading/deadlock_mutex_txn.c:228-231 | removing the edges of the victim breaks exactly the cycles through it and makes no new one |
| `VictimSearch.PickVictim` | concurrency-and-multithreading/deadlock_mutex_txn.c:159-177 | the transaction picked is on the path from the repeated node on and none there started later |
| `VictimSearch.ScanEdges` | concurrency-and-multithreading/deadlock_mutex_txn.c:151-187 | the edge loop stops at the first new node, and any cycle it meets yields a victim that is youngest on that cycle |
| `VictimSearch.SearchFrom` | concurrency-and-multithreading/deadlock_mutex_txn.c:141-195 | the explicit stack and the path stay in bounds and in step, and the search terminates with everything reachable finished |
| `VictimSearch.DetectAndPick` | concurrency-and-multithreading/deadlock_mutex_txn.c:131-202 | a cycle is reported if and only if there is one; the victim is on a cycle and has the largest start timestamp on it, and on every other cycle some transaction and the one it waits for have start timestamps no larger |
| `VictimSearch.CycleAnswered` | concurrency-and-multithreading/deadlock_mutex_txn.c:179-184 | if leaving out the waits between transactions not younger than the victim breaks all cycles, every cycle has such a wait |
| `LruPaging.RecentByUse` | BUFFERPOOL_PAGE_REPLACEMENT/lru.c:33-94 | the reference order lists the distinct pages by the time of their last request |
| `LruPaging.FollowsIff` | BUFFERPOOL_PAGE_REPLACEMENT/lru.c:33-94 | the simulation calls every request a hit or a miss, and leaves the pages in the frames, as the policy of the n most recently used pages says, if and only if every request is harmless, a condition on the request string alone |
| `LruPaging.FollowsMisses` | BUFFERPOOL_PAGE_REPLACEMENT/lru.c:54-61 | then its misses are those of the policy, at every point of the string |
| `LruPaging.NoMarkerHarmless` | BUFFERPOOL_PAGE_REPLACEMENT/lru.c:38-42 | strings that do not request page -1 are harmless for every number of frames |
| `LruPaging.SimulatedNoAnomaly` | BUFFERPOOL_PAGE_REPLACEMENT/lru.c:33-94 | on harmless strings more frames never mean more misses of the simulation |
| `LruPaging.MarkerFirst` | BUFFERPOOL_PAGE_REPLACEMENT/lru.c:49-58 | a first request for page -1 is counted as a hit where the policy has a miss |
| `LruPaging.MarkerBetween` | BUFFERPOOL_PAGE_REPLACEMENT/lru.c:63-76 | after the pages 1, 2, -1, 3 two frames hold 3 and 2, where the policy has 3 and -1 |
| `LruPaging.MarkerOnly` | BUFFERPOOL_PAGE_REPLACEMENT/lru.c:49-58 | if only page -1 is requested no request is counted as a miss |
| `LruPaging.Simulate` | BUFFERPOOL_PAGE_REPLACEMENT/lru.c:33-94 | the loop over the arrays computes the simulation for any string of requests; on harmless strings its misses are those of the policy and its frames hold exactly the n most recently used pages |
| `LruPaging.EvictTracks` | BUFFERPOOL_PAGE_REPLACEMENT/lru.c:78-87 | the frame with the smallest timestamp is the one whose page drops out of the most recently used |
| `LruPaging.FindPage` | BUFFERPOOL_PAGE_REPLACEMENT/lru.c:10-19 | the first frame with the page, or -1 |
| `LruPaging.Inclusion` | BUFFERPOOL_PAGE_REPLACEMENT/lru.c:33-94 | more frames hold all pages that fewer frames hold |
| `LruPaging.NoAnomaly` | BUFFERPOOL_PAGE_REPLACEMENT/lru.c:33-94 | more frames never mean more misses |
| `CacheSpec.HoldsMostRecent` | day-5(Leetcode_LRU)/leetcode-lru-cache.c:191-225 | over every history of calls the keys held are the most recently used ones, in order, so the key evicted is the least recently used |
| `CacheSpec.HoldsLastPut` | day-5(Leetcode_LRU)/leetcode-lru-cache.c:191-225 | a key in the cache has the value last put under it |
| `LinkedList.AddedLinks` | day-5(Leetcode_LRU)/leetcode-lru-cache.c:46-61 | adding a node at the head keeps the links well formed both ways |
| `LinkedList.UnlinkedLinks` | day-5(Leetcode_LRU)/leetcode-lru-cache.c:64-83 | removing any node keeps the links well formed both ways |
| `HashChains.PutNew` | day-5(Leetcode_LRU)/leetcode-lru-cache.c:127-146 | a new entry in front of its chain adds the key to the dictionary the table stores |
| `HashChains.TakeOut` | day-5(Leetcode_LRU)/leetcode-lru-cache.c:149-175 | unlinking an entry removes its key and no other from the dictionary |
| `LruCache.LRUCache.HashGetEntry` | day-5(Leetcode_LRU)/leetcode-lru-cache.c:100-115 | walking a chain finds the entry of a key exactly when the dictionary has it |
| `LruCache.LRUCache.HashPut` | day-5(Leetcode_LRU)/leetcode-lru-cache.c:127-146 | the dictionary maps the key to the node and is otherwise unchanged |
| `LruCache.LRUCache.HashRemove` | day-5(Leetcode_LRU)/leetcode-lru-cache.c:149-175 | the dictionary loses the key and is otherwise unchanged |
| `LruCache.LRUCache.AddToHead` | day-5(Leetcode_LRU)/leetcode-lru-cache.c:46-61 | the list is the node followed by the old list |
| `LruCache.LRUCache.RemoveNode` | day-5(Leetcode_LRU)/leetcode-lru-cache.c:64-83 | the list is the old one without the node |
| `LruCache.LRUCache.MoveToHead` | day-5(Leetcode_LRU)/leetcode-lru-cache.c:94-98 | the node comes first and the others keep their order |
| `LruCache.LRUCache.Get` | day-5(Leetcode_LRU)/leetcode-lru-cache.c:191-200 | returns the value of the key or -1, makes a key found the most recently used and changes nothing else |
| `LruCache.LRUCache.Put` | day-5(Leetcode_LRU)/leetcode-lru-cache.c:202-225 | the key with its value is the most recently used; a cache over its capacity loses the least recently used key |
| `LruCache.LRUCache.Serve` | day-5(Leetcode_LRU)/leetcode-lru-cache.c:178-225 | after any history the table and the list agree and hold the most recently used keys, never more than the capacity |
| `SlidingWindow.BruteForce` | day-3(SlidingWin)/sliding-window-brute-force.c:11-26 | prints the maximum of every full window |
| `SlidingWindow.MaximaUnique` | day-3(SlidingWin)/sliding-window-brute-force.c:11-26 | the row of maxima is determined, so all three programs print the same |
| `SlidingWindow.MonotoneDeque` | day-3(SlidingWin)/slliding-window-deque.c:3-28 | the monotone deque prints the maximum of every full window, for every row and every k from 1 on |
| `SlidingWindow.TrimBack` | day-3(SlidingWin)/slliding-window-deque.c:15-18 | dropping smaller numbers from the back keeps the deque standing for the whole window |
| `WindowHeap.HeapifyUp` | day-3(SlidingWin)/sliding-window-heap-priority-queue.c:16-27 | sifting up restores heap order and permutes the entries |
| `WindowHeap.HeapifyDown` | day-3(SlidingWin)/sliding-window-heap-priority-queue.c:29-52 | sifting down restores heap order and permutes the entries |
| `WindowHeap.Push` | day-3(SlidingWin)/sliding-window-heap-priority-queue.c:54-59 | heap order holds and the entry is added |
| `WindowHeap.Pop` | day-3(SlidingWin)/sliding-window-heap-priority-queue.c:61-65 | heap order holds and the top entry is removed |
| `WindowHeap.DropStale` | day-3(SlidingWin)/sliding-window-heap-priority-queue.c:81-84 | the loop ends with a top inside the window and never empties the heap |
| `WindowHeap.LazyHeap` | day-3(SlidingWin)/sliding-window-heap-priority-queue.c:72-90 | the heap with lazy deletion prints the maximum of every full window |
| `BTree.SplitShape` | day-7(B-Tree)/b-tree-dynamic-insertion.c:40-67 | splitting a full child gives two nodes in shape with room, each at least half full, and a parent in shape |
| `BTree.SplitFlat` | day-7(B-Tree)/b-tree-dynamic-insertion.c:40-67 | splitting moves no key in the row of all keys |
| `BTree.DepthBound` | day-7(B-Tree)/b-tree-dynamic-insertion.c:40-110 | a tree in shape whose leaves are d levels down has at least 2 m^d - 1 keys, m being half the fan-out of a node |
| `BTree.HalfFits` | day-7(B-Tree)/b-tree-dynamic-insertion.c:81-85 | after a split the half descended into is the right one for the key and not full, and no key has moved |
| `BTree.NodeHasKey` | day-7(B-Tree)/b-tree-dynamic-insertion.c:28-36 | a key of the tree is at the index where the search loop stops or in the child there, and nowhere else |
| `BTree.KidPut` | day-7(B-Tree)/b-tree-dynamic-insertion.c:79-85 | a key put into the right child is put where it belongs in the row of all keys, and the shape is kept |
| `BTree.PutInMeans` | day-7(B-Tree)/b-tree-dynamic-insertion.c:69-110 | a key put where it belongs leaves the row sorted and adds exactly one occurrence of it |
| `BTreeHeap.SplitLaid` | day-7(B-Tree)/b-tree-dynamic-insertion.c:40-67 | the nodes after a split are linked as the tree after a split, and none is used twice |
| `BTreeHeap.SplitValue` | day-7(B-Tree)/b-tree-dynamic-insertion.c:40-67 | their keys are those of the tree after a split |
| `BTreeHeap.KidChanged` | day-7(B-Tree)/b-tree-dynamic-insertion.c:85 | changing the nodes below one child changes nothing else of the tree |
| `BTreeHeap.Store.CopyRight` | day-7(B-Tree)/b-tree-dynamic-insertion.c:41-52 | the copying loops fill a new node with the right half of the keys and pointers |
| `BTreeHeap.Store.ShiftChildren` | day-7(B-Tree)/b-tree-dynamic-insertion.c:56-59 | the loop moves the pointers behind an index up by one and puts the new node there |
| `BTreeHeap.Store.ShiftKeys` | day-7(B-Tree)/b-tree-dynamic-insertion.c:61-65 | the loop moves the keys from an index on up by one and puts the middle key there |
| `BTreeHeap.Store.SplitChildAt` | day-7(B-Tree)/b-tree-dynamic-insertion.c:40-67 | the code splits the full child in place |
| `BTreeHeap.Store.InsertKey` | day-7(B-Tree)/b-tree-dynamic-insertion.c:70-77 | the shifting loop of a leaf inserts behind the last key that is not larger |
| `BTreeHeap.Store.InsertNonFullAt` | day-7(B-Tree)/b-tree-dynamic-insertion.c:69-87 | insertion below a node with room keeps the shape, puts the key where it belongs in the row of all keys, and touches only nodes of the subtree and new ones |
| `BTreeHeap.Store.FindIndex` | day-7(B-Tree)/b-tree-dynamic-insertion.c:28-32 | the loop finds the first key that is not smaller |
| `BTreeHeap.Store.Search` | day-7(B-Tree)/b-tree-dynamic-insertion.c:26-37 | the search is true exactly for keys in the tree |
| `BTreeHeap.Store.InsertDown` | day-7(B-Tree)/b-tree-dynamic-insertion.c:97-109 | the leaves get one level deeper exactly when the root was full, and the key is put where it belongs |
| `BTreeHeap.Store.Insert` | day-7(B-Tree)/b-tree-dynamic-insertion.c:90-110 | all leaves stay at one depth, the root keeps 1 to MAX keys and every other node at least (MAX - 1) / 2, keys stay sorted, links stay consistent, and exactly one occurrence of the key is added |
| `BTreeHeap.Store.Run` | day-7(B-Tree)/b-tree-dynamic-insertion.c:131-138 | after any sequence of insertions the tree is in shape and in order, holds exactly the keys inserted, and is no deeper than the logarithm of their number to half the fan-out |
| `Avl.InsertAdds` | day-8(Avl-Tree)/avl-tree.c:72-112 | insertion keeps search order and adds exactly the key |
| `Avl.InsertBalances` | day-8(Avl-Tree)/avl-tree.c:72-112 | insertion keeps stored heights true and balances within one, and raises the height by at most one |
| `Avl.DeleteTakes` | day-8(Avl-Tree)/avl-tree.c:155-219 | deletion keeps search order and removes exactly the key |
| `Avl.DeleteBalances` | day-8(Avl-Tree)/avl-tree.c:155-219 | deletion keeps stored heights true and balances within one, and lowers the height by at most one |
| `Avl.StoredIsTrue` | day-8(Avl-Tree)/avl-tree.c:16-20 | the stored height is the height |
| `Avl.SearchFinds` | day-8(Avl-Tree)/avl-tree.c:135-143 | the search succeeds exactly for keys in the tree |
| `Avl.FibonacciBound` | day-8(Avl-Tree)/avl-tree.c:33-112 | a tree of height h has at least Fib(h + 2) - 1 keys |
| `AvlHeap.AVLTree.RightRotate` | day-8(Avl-Tree)/avl-tree.c:33-46 | the assignments rotate the tree in place, stored heights included, and touch nothing else |
| `AvlHeap.AVLTree.LeftRotate` | day-8(Avl-Tree)/avl-tree.c:49-62 | the assignments rotate the tree in place, stored heights included, and touch nothing else |
| `AvlHeap.AVLTree.FixInsert` | day-8(Avl-Tree)/avl-tree.c:86-111 | the four cases rotate as the tree function does, and what they dereference is there |
| `AvlHeap.AVLTree.FixDelete` | day-8(Avl-Tree)/avl-tree.c:195-218 | the four cases rotate as the tree function does, and what they dereference is there |
| `AvlHeap.AVLTree.InsertAt` | day-8(Avl-Tree)/avl-tree.c:72-112 | the recursion leaves the tree that the tree function gives, using only its old nodes and new ones |
| `AvlHeap.AVLTree.MinimumNode` | day-8(Avl-Tree)/avl-tree.c:147-152 | the loop goes left to the node with the smallest key |
| `AvlHeap.AVLTree.DeleteAt` | day-8(Avl-Tree)/avl-tree.c:155-219 | the recursion leaves the tree that the tree function gives, whether the node has no child, one (overwritten by it) or two (taking its successor's key) |
| `AvlHeap.AVLTree.Insert` | day-8(Avl-Tree)/avl-tree.c:72-112 | the tree stays ordered and balanced with consistent links, gains exactly the key and at most one level |
| `AvlHeap.AVLTree.Delete` | day-8(Avl-Tree)/avl-tree.c:155-219 | the tree stays ordered and balanced with consistent links, loses exactly the key and at most one level |
| `AvlHeap.AVLTree.Search` | day-8(Avl-Tree)/avl-tree.c:135-143 | finds a node with the key exactly when the key is in the tree |
| `AvlHeap.AVLTree.Run` | day-8(Avl-Tree)/avl-tree.c:72-219 | after any sequence of insertions and deletions the tree is ordered and balanced, holds exactly the keys left, its stored height is the height, and the Fibonacci bound holds |
| `MemoryPool.TilesApart` | day-5(Leetcode_LRU)/simple-memory-pool.c:16-87 | blocks do not overlap and lie inside the pool |
| `MemoryPool.TilesTotal` | day-5(Leetcode_LRU)/simple-memory-pool.c:16-87 | headers and blocks add up to the pool |
| `MemoryPool.SplitTiles` | day-5(Leetcode_LRU)/simple-memory-pool.c:33-39 | cutting a block in two keeps the pool tiled |
| `MemoryPool.Pool.FirstFit` | day-5(Leetcode_LRU)/simple-memory-pool.c:26-31 | finds the first free block that is large enough, and one exactly when there is one |
| `MemoryPool.Pool.Allocate` | day-5(Leetcode_LRU)/simple-memory-pool.c:24-72 | fails exactly when no free block is large enough; else the first one that is becomes live, cut to the size asked for when a header and a byte are left over, and the part cut off takes its place in the free list; other blocks are untouched and the pool stays tiled |
| `MemoryPool.TakenSnug` | day-5(Leetcode_LRU)/simple-memory-pool.c:33-39 | a block so taken has at least the size asked for and at most a header more |
| `MemoryPool.Pool.Free` | day-5(Leetcode_LRU)/simple-memory-pool.c:75-87 | the block goes to the front of the free list and the pool stays tiled; the null pointer is ignored |
| `PoolRuns.Run` | day-5(Leetcode_LRU)/simple-memory-pool.c:16-87 | after any sequence of allocations and valid frees all blocks are inside the pool, do not overlap, and add up to it with their headers; every pointer in use is that of a block as large as asked for and at most a header larger, and no two share a byte or a header |
| `PoolRuns.HeldIff` | day-5(Leetcode_LRU)/simple-memory-pool.c:24-87 | the pointers in use are those of the allocations that succeeded and were not freed |
| `WalTable.Store.Apply` | WEEKEND_TASK/wal_replay_and_mem_reconstruction.c:48-84 | the search loop and the branches do what the operation means: an insertion gives its key the value if the key has a record or there is room; an update does if the key has a record; a deletion takes the key away; no other key changes |
| `WalTable.AppliedActs` | WEEKEND_TASK/wal_replay_and_mem_reconstruction.c:48-84 | the same of the function that replays a log, on the map from the keys of valid records to their values and on the list of keys with a record |
| `WalView.ReplayedShows` | WEEKEND_TASK/wal_replay_and_mem_reconstruction.c:48-112 | a replayed table has records for the keys inserted while there was room, in this order, and shows for each key the value of the last operation on it, or none after a deletion |
| `WalView.InsertedIs` | WEEKEND_TASK/wal_replay_and_mem_reconstruction.c:59-65 | while there are slots enough a key has a record exactly when it was inserted |
| `WalView.SummaryIsView` | WEEKEND_TASK/wal_replay_and_mem_reconstruction.c:114-122 | the lines printed are exactly the keys of valid records with their values |
| `WalView.SummaryOrder` | WEEKEND_TASK/wal_replay_and_mem_reconstruction.c:114-122 | they come in the order of the table, none twice |
| `WalView.PrintedIs` | WEEKEND_TASK/wal_replay_and_mem_reconstruction.c:93-122 | after a replay a key is printed with a value exactly when that is what its last operation left |
| `WalTable.ReplayTwice` | WEEKEND_TASK/wal_replay_and_mem_reconstruction.c:93-112 | replaying a log again changes nothing, even when the table filled up |
| `WalTable.ReplayGoesOn` | WEEKEND_TASK/wal_replay_and_mem_reconstruction.c:86-112 | replaying a log and going on equals replaying the longer log |
| `WalLog.ReadsBack` | WEEKEND_TASK/wal_replay_and_mem_reconstruction.c:36-46 | reading the log returns every operation written, in order |
| `WalLog.LineShape` | WEEKEND_TASK/wal_replay_and_mem_reconstruction.c:36-46 | a line is the time in brackets, the operation, the key and the value or NULL, each after a blank, and a line end |
| `WalLog.CommitOperation` | WEEKEND_TASK/wal_replay_and_mem_reconstruction.c:86-91 | if log and table are those of a program that started on the log of some commits and made others since, they are afterwards, with one commit more |
| `WalLog.Session` | WEEKEND_TASK/wal_replay_and_mem_reconstruction.c:124-136 | a run that replays the log it finds and goes on committing leaves the log of all commits and the table of the replay and the new commits |
| `WalLog.RestartIff` | WEEKEND_TASK/wal_replay_and_mem_reconstruction.c:93-136 | the next restart after any such run rebuilds its table with every value NULL made empty, so the same table if and only if no record there has the value NULL |
| `WalLog.Replay` | WEEKEND_TASK/wal_replay_and_mem_reconstruction.c:93-112 | the reading loop applies the operations of the log in order, up to the first line that cannot be read |
| `WalLog.ReplayBlanks` | WEEKEND_TASK/wal_replay_and_mem_reconstruction.c:93-112 | replaying what is read back gives the live table with every value NULL made empty |
| `WalLog.RecoversIff` | WEEKEND_TASK/wal_replay_and_mem_reconstruction.c:86-112 | after a restart the replay rebuilds the table of the commits if and only if no record there has the value NULL |
| `WalLog.NullIsLost` | WEEKEND_TASK/wal_replay_and_mem_reconstruction.c:44-107 | one insertion of the value NULL is replayed with an empty value |
| `WalLog.SummaryRecoversIff` | WEEKEND_TASK/wal_replay_and_mem_reconstruction.c:114-122 | the printed summary is the same after a restart if and only if no valid record has the value NULL |
| `WalLog.Recovers` | WEEKEND_TASK/wal_replay_and_mem_reconstruction.c:86-112 | if no insertion and no update carries the value NULL the replay rebuilds the table of the commits, and doing it again changes nothing |
| `WalLog.RecoversCrash` | WEEKEND_TASK/wal_replay_and_mem_reconstruction.c:86-91 | after a crash between logging and applying the replay also applies that one operation, with values NULL made empty |

## Left out

- Thread creation, sleeps, random choices and printing: choices are arbitrary inputs, printed results are return values.
- Integer width where no code depends on it: clocks, ids, balances, heights and `atoi` are unbounded; the hash of the key table keeps its 64-bit wrap-around, and the balances are shown to stay within the initial total.
- Memory exhaustion, and `free`: a freed node stays in the arena as an unused entry; the one exception is the unused node of a duplicate red-black insertion, which is dropped again.
- Mvcc.RunInv: each transaction is driven by one thread at a time, as the program does; calls on one transaction from several threads at once are not modelled.
- The transaction mutex and the timestamp mutex of the store guard single steps of the model and have no lock state of their own.
- BoundedQueue.RunInv: the critical section that draws a request id is one step, and the text of a request is left out.
- QueueBounds.RunLength: bounds a run by the spurious wakeups in it; how many of those the system makes is not bounded.
- Parser.Yyparse: the relocation of the growing parser stack is replaced by the limit it grows to; error messages are left out.
- The evaluation of trees, which adds nothing to the round trip.
- Printer.LexPrint: characters outside the ASCII range and the zero character end the input of the scanner model.
- The locking and monitor parts around both deadlock detectors: their edges outlive the waits they record, and one of them takes a mutex it already holds.
- VictimSearch.DetectAndPick: the array of cycle nodes, which is written and never read, and the fallback for a cycle without transactions, which cannot occur.
- LruCache.LRUCache.Put: negative keys, for which the hash of the program is not a valid index.
- BTreeHeap.Store.Insert: the number of keys of a node is a parameter of at least 3, the value the program fixes; smaller nodes cannot be split.
- MemoryPool.Pool.Allocate: headers are kept in a map by address; alignment, and writes of a caller past the end of a block, are not captured.
- WalLog.ReadsBack: tokens longer than the buffers of the reader; file errors.
- WalLog.RecoversIff: commits of an insertion or an update without a value, which the program would copy from a null pointer.
- Programs of the repository with no internal invariant (sockets, pipes, timers, shared memory, benchmarks, kernel modules), and those whose code does not keep the invariant one would state.
