# A verified model of the ROKT table server

ROKT is a table server: an epoll thread feeds requests through a bounded priority
queue to a pool of workers; each request is a command of a small query language
over JSON rows; every table is an encrypted file under an encrypted name.  This
project models the four parts and proves what they promise, separately and put
together.

- **Scheduler** (`Scheduler`, `Safety`, `Shutdown`, `PopOrder`, `SyncService`).
  A transition system over every access to the mutex, the queue, `running_` and
  the condition variable, for any number of workers and any interleaving, with
  spurious wakeups.  `SyncService` shows the critical sections as code whose
  effect is a run of that system.
- **Storage** (`Encryption`, `JsonReader`, `Storage`, `Service`).  The catalogue
  and the dataset files on a tree of encrypted files refine a map from dataset
  names to rows.
- **Queries** (`Conditions`, `Ordering`, `Query`).  The loops of the handlers are
  methods proved against specification functions, and the laws are proved about
  those functions.
- **Command language** (`Text`, `Parsers`, `Printing`, `WhereClauses`,
  `QueryBuilder`, `Client`).  The parsers, and the PHP query builder as the printer
  they answer to.
- **Everything together** (`Commands`, `Answers`, `Server`, `EndToEnd`,
  `WorkerLoop`).  Commands as operations on an abstract store; what clients observe
  of them, told through the members of rows; the handlers on the tree implement
  them; and with one worker the running server is their fold in pop order.  In
  `EndToEnd` the handler step is the contract `Handles`; `Server.Handlers.Handle`
  meets it in code, and `WorkerLoop` runs that code between the scheduler's
  critical sections as steps of the same system.

`Options`, `Hex`, `Json`, `Rows` and `Counting` are shared vocabulary.

## Where the code differs from its documentation

The model follows the code.  Each difference is a lemma below.

- `evaluateConditions` overwrites its accumulator with evaluability
  (app/lib/ConditionUtils.h:202-208), so a single WHERE condition matches every
  row on which it can be evaluated, whatever the value (`WhereIgnoresTheValue`,
  `SingleCondition`).  `LoopAgreesWithFold` and `SelectedIsIntended` give exactly
  the rows and tables on which the outcome is the intended one.
- The GET parser consumes and drops the token that ends a WHERE clause
  (app/handlers/GetCommandHandler.h:119-147), so the first clause after WHERE is
  lost, as from the query shown in connectors/php/src/usage.php:88-97.
  `GetSeesWhatWasWritten` and `SeenWhenUsedOnce` give the exact conditions.
- The client documents the operators <, <=, >, >= in `where`
  (connectors/php/doc/readme.md:126); the parsers refuse them (`GetAccepted`).
- The builder decides between WHERE and AND by searching its text
  (connectors/php/src/RoktClient.php:90), so a word containing WHERE ahead of the
  conditions loses them all in a GET (`ConditionsArrive`) and has a CHANGE refused
  (`SentChange`).
- A second `set` prints a comma the server does not know; the command is refused,
  unless the second field is named IN or WHERE (`SentChangeTwice`).
- CREATE TABLE without a name asks for a dataset with an empty one
  (`EmptyNameArrives`), which has the database root for a directory
  (`EmptyNameOwnsEverything`).
- Texts are ordered by their JSON dumps, so "Ann Lee" sorts before "Ann"
  (`BlankSortsFirst`); `TextOrderIsExact` says which texts sort as texts.
- COUNT takes a dot for part of a field's name and compares printed text, where a
  condition follows the dots and compares numbers; `CountWithinEquality` and
  `CountIsEqualityWhenCanonical` give the keys and values for which that is no
  difference.
- A CHANGE of a dotted field writes a member no condition can see
  (`DottedChangeIsInvisible`).

## Assumptions

- `running_` is sequentially consistent; connections carry ids that are never
  reused, standing for descriptors the system does reuse.
- `wait` and `notify_one` follow section [thread.condition.condvar] of ISO C++17;
  `std::priority_queue::top` is any task no other strictly precedes; `std::sort`
  is any ordered permutation, as [alg.sorting] promises for a strict weak
  ordering.
- The cipher is an abstract keystream combined by exclusive or (counter mode,
  section 6.5 of NIST SP 800-38A), the same for every message since key and
  initial counter are fixed.
- The JSON parser is needed only on dumped text, where `JsonReader` defines it
  and proves it inverse to the dump; text it cannot read counts as a parse error.
- The regular expression of ADD, together with the JSON parser on its block, is a
  parameter (`AddPattern`); a block that parses is an object.
- One `char` stands for one byte.

## Model

| member | source | states |
|---|---|---|
| `Safety.ExclusiveStep` | app/lib/SyncService.cpp:95-110 | Every step keeps the mutex held by exactly the thread that is inside a critical section, over workers, epoll thread and stop. |
| `Safety.StopFlagsStep` | app/lib/SyncService.cpp:78-96 | Every step keeps: `running_` is cleared only by stop; once `notify_all` has happened no worker sleeps or is about to; joined means all exited. |
| `Safety.QueueFactsStep` | app/lib/SyncService.cpp:99-109 | Every step keeps the queue within its bound, and what a worker saw in its critical section (empty before blocking, non-empty before popping) still true when it acts. |
| `Safety.NoLostWakeupStep` | app/lib/SyncService.cpp:229-248 | Every step, spurious wakeups included, keeps: while running, if some worker sleeps then the queue is no longer than the number of awake workers, one more only between a push and its notification. |
| `Safety.OnePlaceStep` | app/lib/SyncService.cpp:187-256 | Every step keeps each accepted connection in exactly one place (armed, reported, with the epoll thread, queued, held by a worker, closed) and unaccepted ones in none. |
| `Safety.OneResponseStep` | app/lib/SyncService.cpp:137-147 | Every step keeps, per connection: response attempts = replies about to be closed + closures on answer or overload. |
| `Safety.ConservedStep` | app/lib/SyncService.cpp:187-256 | Every step keeps accepted = armed + reported + in hand + queued + held + answered + rejected + failed. |
| `Safety.ReachableInvariant` | app/lib/SyncService.cpp:95-256 | All of the above hold in every state any interleaving reaches from the constructor's state, for any worker count and queue limit. |
| `Safety.QueueNeverSleeps` | app/lib/SyncService.cpp:95-110 | No lost wakeup: with a worker there at all, a non-empty queue meets an entirely sleeping pool only between the first push and its notification. |
| `Safety.NoEmptyTask` | app/lib/SyncService.cpp:106-112 | The guard `task.socket >= 0` is never needed: a worker leaving its wait to pop always finds a task. |
| `Safety.QueueIsBounded` | app/lib/SyncService.cpp:230-238 | In every reachable state the queue holds at most max(0, `maxTaskQueueSize_`) tasks. |
| `Safety.ConnectionFate` | app/lib/SyncService.cpp:187-256 | In every reachable state a connection is in one place, closed at most once, and answered exactly once unless it failed, and then never. |
| `Safety.ConnectionsAreConserved` | app/lib/SyncService.cpp:187-256 | The conservation equation in every reachable state. |
| `Shutdown.StopMeasureStep` | app/lib/SyncService.cpp:78-110 | Once `running_` is false every step of any thread, spurious wakeups included, lowers a natural number. |
| `Shutdown.StopNeverBlocks` | app/lib/SyncService.cpp:78-110 | While stopping, until every thread is done some thread can take a step that is not a spurious wakeup (no deadlock). |
| `Shutdown.StopTerminates` | app/lib/SyncService.cpp:78-89 | From the moment stop clears `running_`, every run is finite with an explicit bound, and a run that cannot go on has exited every worker and returned from the joins. |
| `Shutdown.AtMostOneLatePopEach` | app/lib/SyncService.cpp:96-110 | In every run after stop is called, each single worker starts at most one more task, and none if it was not then between its test of `running_` and a task. |
| `Shutdown.LatePopsBounded` | app/lib/SyncService.cpp:96-110 | So the pops after stop number at most the workers. |
| `Shutdown.NoNewSleepers` | app/lib/SyncService.cpp:99-104 | In every run after stop is called, a worker asleep or about to block was so when stop was called, and after `notify_all` none is. |
| `Shutdown.PoolDrainsQueue` | app/lib/SyncService.cpp:95-149 | When arrivals cease while running, the workers alone take a bounded number of steps and can come to rest only with the queue empty and all asleep. |
| `PopOrder.HigherPriorityFirst` | app/lib/SyncService.h:59-70 | In no run is a task popped before a queued task of strictly higher priority, whether it was queued then or arrived later. |
| `PopOrder.PopsDescend` | app/lib/SyncService.cpp:106-109 | Without arrivals a run pops in descending priority, what it popped dominates what is left, both together are the queue, and queue-length pops empty it. |
| `PopOrder.PriorityIgnoresArguments` | app/lib/SyncService.cpp:263-265 | Only the text before the first blank decides the priority. |
| `Commands.PriorityOfCommand` | app/lib/SyncService.cpp:263-271 | Scheduling and dispatch agree on the command word: create and drop get 10, writes 5, reads and EMPTY 1, unknown commands 0. |
| `Commands.DispatchIsByWord` | app/lib/SyncService.cpp:119-127 | Eight words are known, any other is code 1; what a handler cannot read is 423. |
| `SyncService.Sync.constructor` | app/lib/SyncService.cpp:11-48 | The constructed object is the initial state of the transition system with at most 64 workers. |
| `SyncService.Sync.HandleClientData` | app/lib/SyncService.cpp:217-256 | Run with a free mutex, the code of `handleClientData` is a run of the transition system; it loses, refuses or queues the request exactly by read failure and queue length, with the stated sends and closes. |
| `SyncService.Sync.Enqueue` | app/lib/SyncService.cpp:229-256 | Its locked part: full-queue test, push, one notification, unlock, as steps of the system. |
| `SyncService.Sync.Take` | app/lib/SyncService.cpp:98-110 | The locked block of `workerLoop` is a run of the system: it takes a task no other precedes, sleeps on an empty queue, or leaves once stopped, exactly as the queue and `running_` say. |
| `SyncService.Sync.Resume` | app/lib/SyncService.cpp:102-109 | A woken worker's way back through the wait is a run of the system: a task exactly if there is one, sleep again exactly on an empty queue while running, else exit. |
| `SyncService.Sync.Answer` | app/lib/SyncService.cpp:119-147 | The rest of an iteration is a run of the system that attempts one response and closes the socket once. |
| `SyncService.Sync.HandleNewConnection` | app/lib/SyncService.cpp:187-210 | Accepting is a step of the system: the new connection is armed, or closed without a response when epoll will not have it. |
| `SyncService.Sync.Stop` | app/lib/SyncService.cpp:78-83 | The code of stop up to the joins is a run of the system that leaves no worker asleep and the queue untouched. |
| `SyncService.TopOf` | app/lib/SyncService.cpp:107 | The popped position carries a greatest priority. |
| `EndToEnd.SerialRefinement` | app/lib/SyncService.cpp:95-149 | With one worker, at every point of every run: the encrypted tree represents the fold of the popped commands handled so far; every response is the one its command calls for at its position, or the 504 substitute; the i-th delivery goes to the i-th popped connection with the i-th response. |
| `EndToEnd.OneDeliveryEach` | app/lib/SyncService.cpp:137-147 | On those runs no connection is delivered two responses. |
| `WorkerLoop.Worker.constructor` | app/lib/SyncService.cpp:11-48 | A pool of one worker over a consistent tree starts a trace of the server. |
| `WorkerLoop.Worker.Follow` | app/lib/SyncService.cpp:95-110 | Scheduling steps of any thread extend the trace and leave tree, log and outbox alone. |
| `WorkerLoop.Worker.Iterate` | app/lib/SyncService.cpp:95-149 | One turn of `workerLoop`, with the handler code at work on the tree, extends the trace step by step: a popped task is handled, delivered to its connection once and closed, and with one worker the tree after it is the fold of the commands handled. |
| `Encryption.DecryptEncrypt` | app/lib/EncryptService.cpp:31-95 | Counter mode, bytewise exclusive or with a fixed keystream, is undone by itself and keeps bytes bytes. |
| `Encryption.EncryptFlipsBits` | app/lib/EncryptService.cpp:31-62 | Each ciphertext bit is the plaintext bit, flipped exactly where the keystream has a 1. |
| `Encryption.ToHexText` | app/lib/EncryptService.cpp:9-15 | The printing loop computes two lower-case hex digits per byte. |
| `Encryption.FromHexText` | app/lib/EncryptService.cpp:17-26 | The reading loop computes the decoder, with an empty result on odd length and each pair read as `stoi` does. |
| `Encryption.PairCases` | app/lib/EncryptService.cpp:22 | Which pairs of characters `stoi` reads in base 16, prefixes, blanks and signs included, as which byte, and which make it throw. |
| `Encryption.FromToHex` | app/lib/EncryptService.cpp:9-26 | Hex text decodes to what it was printed from. |
| `Encryption.FilenameRoundTrip` | app/lib/EncryptService.cpp:97-106 | `decryptFilename(encryptFilename(f)) = f` for every byte string. |
| `Encryption.FilenamesDiffer` | app/lib/EncryptService.cpp:97-101 | Two names encrypt to the same file name exactly when they are equal. |
| `JsonReader.ParseDump` | app/src/RoktDataset.cpp:48-50 | Every JSON value is read back from its compact dump. |
| `JsonReader.DumpInjective` | app/handlers/GetCommandHandler.h:233 | Dumps are equal exactly when the values are, so the text of a key identifies the key. |
| `Json.DumpIsJoined` | app/handlers/GetCommandHandler.h:277 | Arrays and objects are dumped element by element, in order, with commas between. |
| `Json.FieldAfterSet` | app/handlers/ChangeCommandHandler.h:172-176 | `item[k] = v` changes field k and no other. |
| `Json.InsertKeepsSorted` | app/handlers/ChangeCommandHandler.h:174 | Writing a field keeps the members strictly sorted by key and adds no other key. |
| `Storage.DataWithinDir` | app/src/RoktService.cpp:149-155 | The data file of a dataset lies inside the directory of a non-empty name exactly when both are the same dataset. |
| `Storage.ConfigOutsideDir` | app/src/RoktService.cpp:149-155 | The catalogue lies outside the directory of a non-empty name exactly when that name is not the catalogue's own. |
| `Storage.EmptyNameOwnsEverything` | app/src/RoktService.cpp:144-164 | For the empty name isolation fails: its directory contains the catalogue and the data file of every dataset, and removing it removes them. |
| `Commands.EmptyNameArrives` | app/handlers/CreateTableCommandHandler.h:17-26 | `CREATE TABLE ;` asks for the dataset with the empty name, and `DELETE ;` to drop it. |
| `Storage.FreshIsEmpty` | app/src/RoktService.cpp:29-35 | A tree holding only the default catalogue is consistent and represents the empty store. |
| `Storage.WriteIsLocal` | app/src/RoktDataset.cpp:108-116 | Rewriting a registered dataset's file keeps the tree consistent and changes that dataset's rows and no other's. |
| `Storage.CreateIsLocal` | app/src/RoktService.cpp:77-141 | Creating a new good name adds one empty dataset to what the tree represents and nothing else. |
| `Storage.DropIsLocal` | app/src/RoktService.cpp:144-164 | Dropping removes exactly that dataset from what the tree represents. |
| `Service.RoktDataset.WriteDataset` | app/src/RoktDataset.cpp:108-116 | The file then decrypts and parses to the value written, and every other file to what it did. |
| `Storage.LoadSave` | app/src/RoktDataset.cpp:22-58 | A saved value is loaded back from its path; other paths load as before. |
| `Service.RoktDataset.ReadDataset` | app/src/RoktDataset.cpp:22-58 | Returns the file's value untouched if it decrypts and parses, else an empty array that it also writes back; other files are not affected. |
| `Service.RoktDataset.ReadData` | app/src/RoktDataset.cpp:61-104 | Agrees with `readDataset` on every tree, in value and in effect. |
| `Service.RoktDataset.Insert` | app/src/RoktDataset.cpp:143-156 | Appends the row to what a read gives (null counts as empty); fails, leaving the healed file, on other values. |
| `Service.RoktService.constructor` | app/src/RoktService.cpp:13-36 | A new tree represents the empty store; an existing consistent one represents what it did. |
| `Service.RoktService.LoadConfig` | app/src/RoktService.cpp:38-66 | The self-healing read of the catalogue. |
| `Service.RoktService.Create` | app/src/RoktService.cpp:77-141 | Keeps the tree consistent; answers 10 and changes nothing for an existing dataset, else 0 and the store gains exactly that empty dataset. |
| `Service.RoktService.Drop` | app/src/RoktService.cpp:144-164 | Keeps the tree consistent; answers 567 and changes nothing for an unknown dataset, else 0 and the store loses exactly that dataset. |
| `Service.RoktService.From` | app/src/RoktService.cpp:166-187 | Finds exactly the datasets of the store, changes nothing, and opens the very file `create` made. |
| `Service.ReadIsRows` | app/src/RoktDataset.cpp:22-58 | In a consistent tree a registered dataset reads as its rows, all objects, without healing. |
| `Server.Handlers.HandleGet` | app/handlers/GetCommandHandler.h:320-390 | No file changes and the answer is one GET may give on the represented rows; 1 for an unknown dataset, 3 for an unknown connective. |
| `Server.Handlers.HandleRemove` | app/handlers/RemoveCommandHandler.h:150-184 | The represented rows lose exactly the matching ones, no other dataset changes, and the count is reported. |
| `Server.Handlers.HandleChange` | app/handlers/ChangeCommandHandler.h:149-185 | The represented rows become the changed ones, no other dataset changes, and the count is reported. |
| `Server.Handlers.HandleAdd` | app/handlers/AddCommandHandler.h:21-57 | Codes 11, 12, 1, 10, 2 in the order of the code; the row is appended exactly for 2. |
| `Server.Handlers.HandleCount` | app/handlers/CountCommandHandler.h:27-91 | No file changes and the number reported is that of the counted rows; 423 without a colon. |
| `Server.Handlers.HandleEmpty` | app/handlers/EmptyCommandHandler.h:15-29 | The represented dataset becomes empty; 1 for an unknown one. |
| `Server.Handlers.Handle` | app/lib/SyncService.cpp:119-127 | Dispatch by command word: the tree changes as the decoded command changes the store, and the answer is one that command may give. |
| `Server.Handlers.Serve` | app/lib/SyncService.cpp:106-146 | Over any request list served in order, the tree represents the fold of the commands and answer i fits the store the first i commands lead to. |
| `Commands.UpdateIsLocal` | app/src/RoktService.cpp:144-187 | A command never changes a dataset it does not name. |
| `Commands.RemoveThenGet` | app/handlers/RemoveCommandHandler.h:163-178 | After REMOVE, GET with the same conditions returns no row, and a second REMOVE reports none and changes nothing. |
| `Commands.ChangeTwice` | app/handlers/ChangeCommandHandler.h:162-179 | Applying a CHANGE twice leaves the same store as applying it once. |
| `Commands.UniqueStep` | app/handlers/AddCommandHandler.h:36-56 | ADD .. UNIQUE f, CHANGE of other fields and every other command but a plain ADD keep the rows of a dataset equipped with f and pairwise different in it. |
| `Commands.UniqueThroughoutRun` | app/handlers/AddCommandHandler.h:36-56 | The UNIQUE guarantee over every serial run of such commands on any datasets. |
| `Answers.GetIsAnswered` | app/handlers/GetCommandHandler.h:345-384 | GET gives a body unless a row meets an unknown connective, which is code 3; the body is bare exactly when the query has no clause. |
| `Answers.GetLists` | app/handlers/GetCommandHandler.h:345-384 | Without GROUP BY and ORDER BY the answer is, of the rows the conditions pick in table order: the first k for a positive limit, else all; of these the named field of those that have it, in order, or with `*` the rows; each under the alias, if any, as the one member of an object. |
| `Answers.GetSorts` | app/handlers/GetCommandHandler.h:244-303 | With ORDER BY the same of the picked rows whose key shows a value other than null, each as often as stored, sorted by that value in the direction asked; the others are counted as ignored. |
| `Answers.GetGroups` | app/handlers/GetCommandHandler.h:221-240 | With GROUP BY the answer is the groups of the picked rows, whatever other clauses there are. |
| `Answers.GetShowsTable` | app/handlers/GetCommandHandler.h:337-384 | GET * shows the stored rows. |
| `Answers.RemoveLeavesTheRest` | app/handlers/RemoveCommandHandler.h:163-184 | After REMOVE the table holds exactly the rows the conditions do not pick, each as often as before; with what GET returned before they merge back to the old table, and the count reported plus the new size is the old size. |
| `Answers.RefusedRemove` | app/handlers/RemoveCommandHandler.h:166-172 | With an unknown connective and a row to meet it nothing is removed and the code is 3. |
| `Answers.AddIsAnswered` | app/handlers/AddCommandHandler.h:21-57 | Exactly when ADD answers 2, 10, 11 and 12: inserted, value already stored, block not parsed, UNIQUE field absent. |
| `Answers.AddThenGet` | app/handlers/AddCommandHandler.h:52-57 | After code 2 GET * shows the old rows and the new one behind them; otherwise nothing changed. |
| `Answers.EmptyThenGet` | app/handlers/EmptyCommandHandler.h:15-29 | After EMPTY GET * shows no row and COUNT reports 0. |
| `Answers.CreateThenGet` | app/src/RoktService.cpp:77-164 | A created dataset shows no row, and dropping it undoes the creation. |
| `Answers.ChangeThenGet` | app/handlers/ChangeCommandHandler.h:162-185 | After CHANGE GET * shows the rows in number and order as before, with the field set to the text in exactly the rows the conditions pick and every other field as it was; the count is that of the picked rows. |
| `Answers.CountIsAnswered` | app/handlers/CountCommandHandler.h:61-85 | COUNT key:value reports the rows whose field key, named before the first colon, has the text value behind it. |
| `Answers.CountOfAll` | app/handlers/CountCommandHandler.h:55-65 | Without a condition it reports all rows; a condition without colon is 423. |
| `Answers.UnknownDataset` | app/src/RoktService.cpp:144-187 | A command on a dataset that is not there changes nothing but by creating it; the code is 1, 567 for a drop, for an ADD possibly 11 or 12. |
| `Conditions.GetNestedValue` | app/lib/ConditionUtils.h:20-33 | The loop over the pieces between dots computes the dotted lookup. |
| `Conditions.NestedComposes` | app/lib/ConditionUtils.h:20-33 | `get(j, p.q) = get(get(j, p), q)` for every q, when p is non-empty and does not end in a dot. |
| `Conditions.NestedComposesOnlyThen` | app/lib/ConditionUtils.h:24-31 | For every other p and every q there is a value on which the composition law fails. |
| `Conditions.PathShows` | app/lib/ConditionUtils.h:20-33 | A key made of names with dots between them shows the value the members on that path lead to. |
| `Conditions.EvaluateCondition` | app/lib/ConditionUtils.h:35-196 | Returns whether the condition is evaluable and stores its truth only then. |
| `Conditions.ConditionMeaning` | app/lib/ConditionUtils.h:35-196 | On the value its key shows in a row, a condition compares an integer with an operand that reads as a number by value, and anything else by text; HAS is membership of the operand in an array, and not evaluable on number against number. |
| `Conditions.NothingShown` | app/lib/ConditionUtils.h:37-49 | Where the key shows nothing but null no condition is evaluable. |
| `Conditions.ConditionDescends` | app/lib/ConditionUtils.h:20-47 | A condition on `p.q`, for p without dot and any q, evaluates on a row as the condition on q does on its member p, and not at all without that member. |
| `Conditions.ConditionFollowsPath` | app/lib/ConditionUtils.h:20-47 | A condition on a path through nested members evaluates as it would on the value at the end, were that a plain member. |
| `Conditions.OperatorsCohere` | app/lib/ConditionUtils.h:56-85 | On a present, non-null field at most one of <, ==, > holds, and exactly one unless a number meets an operand spelling NaN; <=, >=, != are their combinations, for numbers and texts alike. |
| `Conditions.IntegersCompareByValue` | app/lib/ConditionUtils.h:50-85 | Integer fields equal a decimal operand exactly when the integers are equal, and precede it by value while it is in the range of doubles. |
| `Conditions.EvaluateConditions` | app/lib/ConditionUtils.h:198-217 | The loop leaves in `*result` what `Loop` defines and fails exactly when `Loop` gives up. |
| `Conditions.LoopSucceeds` | app/lib/ConditionUtils.h:203-216 | The list evaluates exactly when every connective after the first condition is AND or OR. |
| `Conditions.LoopClosedForm` | app/lib/ConditionUtils.h:202-215 | For every list: result = (evaluability of condition 0, or truth at the last AND) or (some later condition is evaluable). |
| `Conditions.FoldImpliesLoop` | app/lib/ConditionUtils.h:198-217 | Whatever the left-to-right AND/OR reading matches, the loop matches. |
| `Conditions.LoopAgreesWithFold` | app/lib/ConditionUtils.h:198-217 | The exact rows on which loop and left-to-right reading agree: the reading up to the last AND or a condition after it is true, or the base fails and no later condition is evaluable. |
| `Conditions.SingleCondition` | app/lib/ConditionUtils.h:202 | With one condition the loop asks only whether it is evaluable; it agrees with the intended reading exactly unless the condition is evaluable and false. |
| `Conditions.ConjunctionKeepsLast` | app/lib/ConditionUtils.h:203-208 | A conjunction is decided by its last condition; it agrees with the intended reading exactly when that one is false or all others hold. |
| `Conditions.WhereIgnoresTheValue` | app/lib/ConditionUtils.h:202 | Counterexample: `WHERE id IS 1` accepts the row {"id":2}. |
| `Query.ApplyWhere` | app/handlers/GetCommandHandler.h:345-354 | The filter loop returns the matching rows in order, and fails exactly on a non-empty table with an unknown connective. |
| `Query.SelectedContainsIntended` | app/handlers/GetCommandHandler.h:345-354 | GET misses no intended row. |
| `Query.SelectedIsIntended` | app/handlers/GetCommandHandler.h:345-354 | GET returns just the intended rows of a table exactly when every row is decided from the last AND on. |
| `Ordering.KeyLessIsTransitive` | app/handlers/GetCommandHandler.h:274-277 | The comparator is transitive across numbers, texts, arrays, booleans, null and objects. |
| `Ordering.KeyLessIsTotal` | app/handlers/GetCommandHandler.h:274-277 | Keys neither of which precedes the other are equal. |
| `Ordering.RowsCompareByValue` | app/handlers/GetCommandHandler.h:251-278 | ORDER BY compares two rows by the values found under the key, as a member or down a dotted path. |
| `Ordering.KindDecides` | app/handlers/GetCommandHandler.h:277 | Values of different kinds sort as texts, integers, arrays, false, null, true, objects. |
| `Ordering.RowLessIsStrictWeak` | app/handlers/GetCommandHandler.h:263-278 | What `std::sort` demands: irreflexive, transitive, ties transitive, in both directions; DESC is the converse of ASC. |
| `Ordering.TiesShowTheSame` | app/handlers/GetCommandHandler.h:263-278 | Rows tie exactly when their keys show the same value. |
| `Ordering.TextOrderIsExact` | app/handlers/GetCommandHandler.h:277 | Two text keys compare as texts exactly when, at their first difference, the longer one does not go on with a blank or '!' and escaping keeps the order of the two characters. |
| `Ordering.StringsSortAsTexts` | app/handlers/GetCommandHandler.h:277 | So all texts of characters above the quote and without backslash sort as texts, |
| `Ordering.BlankSortsFirst` | app/handlers/GetCommandHandler.h:277 | and no text sorts as one against its continuation with a blank, which always comes first. |
| `Ordering.SortedKeysAreUnique` | app/handlers/GetCommandHandler.h:263-279 | However ties are broken, the column of sorted keys is the same. |
| `Ordering.OrderBy` | app/handlers/GetCommandHandler.h:244-280 | Returns an ordered permutation of exactly the rows whose key shows a value other than null, each as often as given; output + ignored = input. |
| `Ordering.SortKeepsKeyed` | app/handlers/GetCommandHandler.h:248-262 | So a row is ignored exactly when its key is missing or null. |
| `Ordering.ApplyLimit` | app/handlers/GetCommandHandler.h:283-291 | The copying loop returns the prefix, or everything for a negative or large limit. |
| `Ordering.TopK` | app/handlers/GetCommandHandler.h:361-367 | ORDER BY then LIMIT k > 0 returns min(k, n) keyed rows in order, and no row cut off shows a value that strictly precedes that of one returned. |
| `Ordering.TopKOfIntegers` | app/handlers/GetCommandHandler.h:361-367 | Where the key shows integers these are the k smallest in ascending order, or with DESC the k largest in descending order. |
| `Query.GroupBy` | app/handlers/GetCommandHandler.h:221-240 | The loop builds the map from key text to the rows with that key, in input order. |
| `Query.GroupsPartition` | app/handlers/GetCommandHandler.h:221-240 | Group sizes add up to the input and no group is empty. |
| `Query.GroupsByValue` | app/handlers/GetCommandHandler.h:221-240 | A row is in the group of the text of the value its key shows and in no other; groups keep the table's order; two rows share a group exactly when their keys show the same value. |
| `Query.GroupOfMissingKey` | app/handlers/GetCommandHandler.h:225-233 | Rows without a plain key are in the group "undefined", without a dotted path in the group null. |
| `Query.ApplyProjection` | app/handlers/GetCommandHandler.h:294-303 | The loop computes the projection; `*` keeps the rows. |
| `Query.ProjectionIsColumn` | app/handlers/GetCommandHandler.h:298-301 | The projection is the column of the rows having the field, in order. |
| `Query.ApplyAlias` | app/handlers/GetCommandHandler.h:306-316 | Each element is wrapped in an object with the alias as its one key. |
| `Query.LimitBeforeProjection` | app/handlers/GetCommandHandler.h:365-370 | The limit cuts first, so the projection of a limited result has as many elements as the first k rows have the field. |
| `Query.AnswerGet` | app/handlers/GetCommandHandler.h:337-384 | The whole pipeline, WHERE, GROUP BY, ORDER BY, LIMIT, projection, alias and response shape, gives a body `IsGetBody` allows. |
| `Query.RemoveRows` | app/handlers/RemoveCommandHandler.h:163-178 | Keeps the unmatched rows in order and counts the matched ones. |
| `Query.RemoveSplitsTable` | app/handlers/RemoveCommandHandler.h:163-178 | REMOVE deletes exactly the rows GET returned; both sides merge back to the table in order; sizes add up; a second filter changes nothing; all of it for the conditions as evaluated and as intended. |
| `Query.DeletionSplits` | app/handlers/RemoveCommandHandler.h:163-178 | The same for deletion by any predicate. |
| `Query.ChangeRows` | app/handlers/ChangeCommandHandler.h:162-177 | The in-place loop changes exactly the matched rows and counts what GET with the same conditions would return. |
| `Query.ChangeTouchesOneField` | app/handlers/ChangeCommandHandler.h:172-176 | Unmatched rows and all other fields are kept; the field of a matched row gets the text. |
| `Query.ChangeIsIdempotent` | app/handlers/ChangeCommandHandler.h:162-177 | Twice is once, also when the assigned field occurs in its own conditions, as evaluated and as intended. |
| `Query.ChangedTwice` | app/handlers/ChangeCommandHandler.h:162-177 | The same for changing the rows any predicate picks. |
| `Query.ChangeIsVisible` | app/handlers/ChangeCommandHandler.h:174 | For a field without a dot every changed row satisfies `field == value`. |
| `Query.DottedChangeIsInvisible` | app/handlers/ChangeCommandHandler.h:174 | After a CHANGE of a dotted field every condition, on whatever field, evaluates as before. |
| `Query.CountRows` | app/handlers/CountCommandHandler.h:69-84 | The loop counts the rows whose field has the given text. |
| `Query.CountWithinEquality` | app/handlers/CountCommandHandler.h:61-85 | COUNT never exceeds the number of rows with true equality, on every table, exactly when the key has no dot and the value is not null. |
| `Query.CountIsEqualityWhenCanonical` | app/handlers/CountCommandHandler.h:61-85 | COUNT equals that number on every table exactly when the key has no dot, the value is not null and, if `stod` reads it as a whole number, it is that number's decimal text. |
| `Query.ExponentIsNotCanonical` | app/handlers/CountCommandHandler.h:75-80 | COUNT k:1.5e1 is such a miscount: `stod` reads 15. |
| `Query.AlreadyExists` | app/handlers/AddCommandHandler.h:46-50 | The search loop finds a row with an equal field exactly when there is one. |
| `Text.TrimText` | app/lib/Utils.h:9-16 | The two scans and the `pop_back` compute `Trim`. |
| `Text.TrimMeaning` | app/lib/Utils.h:8-16 | trim removes exactly the outer white space and then at most one ';'. |
| `Text.TokensSplit` | app/handlers/GetCommandHandler.h:39-40 | Tokens are separated by any white space and by nothing else. |
| `Text.BeforeIsLexicographic` | app/lib/ConditionUtils.h:128-165 | `std::string` order: at the first difference the smaller character, or the end of the shorter text, comes first. |
| `Text.StoiOfIntText` | app/handlers/GetCommandHandler.h:195-200 | Reading a printed integer gives it back exactly when it fits 32 bits. |
| `Text.StoiReadsPrefix` | app/handlers/GetCommandHandler.h:195-200 | `stoi` skips white space, takes a sign and ignores what follows the digits, within 32 bits. |
| `Text.StodOfIntText` | app/lib/ConditionUtils.h:52 | `stod` undoes the decimal printer for every integer in the range of doubles, and throws beyond. |
| `Text.IntegersInRange` | app/lib/ConditionUtils.h:52 | That range holds every 64-bit integer. |
| `Text.HugeIsOutOfRange` | app/lib/ConditionUtils.h:52 | From 2^1024 on a number is out of range. |
| `Text.StodOfDecimal` | app/lib/ConditionUtils.h:52 | `stod` reads a signed decimal fraction, scaled by the exponent that may follow it. |
| `Text.StodReadsPrefix` | app/lib/ConditionUtils.h:52 | `stod` reads the signed number a text begins with, scaled by the exponent that may follow it, so "30 years" compares as 30 and "3e2" as 300. |
| `Text.StodSkipsSpaces` | app/lib/ConditionUtils.h:52 | `stod` skips white space. |
| `Text.StodOfHexadecimal` | app/lib/ConditionUtils.h:52 | Behind 0x it reads hexadecimal digits, scaled by a binary exponent. |
| `Text.StodOfHexFraction` | app/lib/ConditionUtils.h:52 | Hexadecimal fractions too. |
| `Text.ExponentReads` | app/lib/ConditionUtils.h:52 | An exponent is the signed decimal number behind its mark, and 0 when the mark is not there. |
| `Text.ScaleSteps` | app/lib/ConditionUtils.h:52 | The scale is the base to the exponent: 1 at 0, and times the base with each step up, below 0 too. |
| `Parsers.OperatorsMeanWhatTheySay` | app/handlers/GetCommandHandler.h:108-115 | IS is numeric or textual equality, NOT its complement, and no operators but IS, NOT, ==, !=, HAS are accepted. |
| `Parsers.ReadOneCondition` | app/handlers/GetCommandHandler.h:100-116 | Three reads, the rewriting of IS and NOT and the refusal of other operators compute `ReadCondition`. |
| `Parsers.ReadWhereClause` | app/handlers/GetCommandHandler.h:98-148 | The condition loop shared by the three parsers computes `ReadWhere`. |
| `Parsers.ParseGetCommand` | app/handlers/GetCommandHandler.h:36-206 | The GET parser computes `ParseGet`, dropped token after WHERE included. |
| `Parsers.ParseRemoveCommand` | app/handlers/RemoveCommandHandler.h:27-146 | The REMOVE parser computes `ParseRemove`. |
| `Parsers.ParseChangeCommand` | app/handlers/ChangeCommandHandler.h:25-145 | The CHANGE parser computes `ParseChange`. |
| `Parsers.ParsedConditionsEvaluate` | app/lib/ConditionUtils.h:203-214 | Whatever text REMOVE or CHANGE accepts, its condition list makes `evaluateConditions` succeed; REMOVE's is never empty. |
| `Printing.CommandTokens` | connectors/php/src/RoktClient.php:182-189 | Splitting and trimming a sent command gives back the words it was printed from. |
| `Printing.GetRoundTrip` | app/handlers/GetCommandHandler.h:96-206 | Printing a GET with clauses in any order and number around WHERE and parsing it yields the query without the first clause after WHERE, operators normalised. |
| `Printing.GetAccepted` | app/handlers/GetCommandHandler.h:108-115 | It is accepted exactly when all operators are among the five and the remaining limits fit 32 bits. |
| `Printing.DirectionIgnoresCase` | connectors/php/src/RoktClient.php:103-106 | The server descends on desc in any case of letters, ascends on asc, and keeps its direction on anything else. |
| `Printing.GetSeesWhatWasWritten` | app/handlers/GetCommandHandler.h:140-148 | The server sees the query as written exactly when no clause follows WHERE, or the first to follow is overridden by a later one or asks for what the earlier ones set. |
| `WhereClauses.SeenWhenUsedOnce` | app/handlers/GetCommandHandler.h:140-148 | With each clause used at most once, and whatever the words, exactly when nothing effective directly follows WHERE. |
| `WhereClauses.ConditionsReceived` | app/handlers/GetCommandHandler.h:98-148 | The conditions parsed from an accepted GET are the printed ones, normalised, exactly when there are none or they open with WHERE, whatever words clauses and conditions hold. |
| `WhereClauses.ClausesAddNothing` | app/handlers/GetCommandHandler.h:96-206 | Clauses read from any of their words on, keywords for keys included, add no condition. |
| `WhereClauses.MisopenedConditions` | app/handlers/GetCommandHandler.h:96-206 | Conditions that open with AND can yield only no conditions, fewer, a list that starts anew, or one whose first field is an operator. |
| `WhereClauses.PlainGetIsRead` | app/handlers/GetCommandHandler.h:36-97 | A GET without clauses asks for all rows, no group, no sort key, ascending, no limit. |
| `WhereClauses.ReadTail` | app/handlers/GetCommandHandler.h:96-206 | Behind well-formed clauses a malformed one has the query refused, and an ORDER BY at the very end, without direction, sorts by its key. |
| `WhereClauses.RemoveShortForm` | app/handlers/RemoveCommandHandler.h:118-144 | REMOVE without WHERE is read exactly when its third word is IN and a name follows. |
| `WhereClauses.RemoveNeedsDataset` | app/handlers/RemoveCommandHandler.h:98-117 | REMOVE WHERE is refused without IN and a name behind its conditions. |
| `WhereClauses.ChangeShortForm` | app/handlers/ChangeCommandHandler.h:36-145 | CHANGE without WHERE is read exactly when it has its equals sign, IN and a name. |
| `WhereClauses.ChangeNeedsDataset` | app/handlers/ChangeCommandHandler.h:36-145 | CHANGE with conditions is refused without IN and a name behind them. |
| `Printing.ConditionsAreLost` | connectors/php/src/RoktClient.php:89-96 | A GET whose conditions open with AND is parsed as the query without them. |
| `Printing.RemoveRoundTrip` | app/handlers/RemoveCommandHandler.h:49-117 | REMOVE with any AND/OR conditions reads back as printed, or is refused for an operator. |
| `Printing.RemoveValueRoundTrip` | app/handlers/RemoveCommandHandler.h:118-144 | The short form compares the field name. |
| `Printing.ChangeRoundTrip` | app/handlers/ChangeCommandHandler.h:36-145 | CHANGE with one assignment and any AND/OR conditions reads back as printed, or is refused for an operator. |
| `Printing.SecondAssignment` | connectors/php/src/RoktClient.php:155-165 | The exact fate of a second assignment, printed after a comma: accepted only if its field is named IN, then as a change of dataset "=", or is named WHERE and the words behind it, read one late, lead up to an IN. |
| `Printing.MisopenedChangeIsRefused` | app/handlers/ChangeCommandHandler.h:36-145 | A CHANGE whose conditions open with AND is refused. |
| `QueryBuilder.MentionsLine` | connectors/php/src/RoktClient.php:90 | The text of some words contains a blank-free word exactly when one of the words does. |
| `QueryBuilder.RtrimMeaning` | connectors/php/src/RoktClient.php:182-189 | rtrim removes exactly the white space and NULs at the end. |
| `QueryBuilder.Builder.Wheres` | connectors/php/src/RoktClient.php:89-96 | A chain of where calls prints the conditions, opened with WHERE exactly when the words before do not mention it. |
| `QueryBuilder.Builder.BuildGet` | connectors/php/src/RoktClient.php:79-116 | The chain select, as, from, clauses, where .., clauses, get prints exactly the query's words. |
| `QueryBuilder.Builder.BuildRemove` | connectors/php/src/RoktClient.php:169-189 | The chain remove, where .., from, get prints exactly its words. |
| `QueryBuilder.Builder.BuildRemoveValue` | connectors/php/src/RoktClient.php:169-189 | The chain remove, value, from, get prints exactly its words. |
| `QueryBuilder.Builder.BuildChange` | connectors/php/src/RoktClient.php:147-165 | The chain change, set, where .., from, get prints exactly its words. |
| `QueryBuilder.Builder.BuildChangeTwice` | connectors/php/src/RoktClient.php:147-165 | The chain change, set, set, where .., from, get prints exactly the words of `TwoAssignments`. |
| `Client.SentGet` | connectors/php/src/RoktClient.php:79-116 | A built GET is dispatched as the GET that means what the server heard: without its conditions if a word before them mentions WHERE, else without the clause after them. |
| `Client.ConditionsArrive` | connectors/php/src/RoktClient.php:89-96 | From any built GET the server accepts, the conditions it parses are those the builder was given exactly when there are none or no word before them mentions WHERE. |
| `Client.SentRemove` | connectors/php/src/RoktClient.php:169-189 | A built REMOVE is dispatched as that REMOVE. |
| `Client.SentRemoveValue` | connectors/php/src/RoktClient.php:169-189 | The short form is dispatched as the removal by name. |
| `Client.SentChange` | connectors/php/src/RoktClient.php:147-165 | A built CHANGE is dispatched as that CHANGE, or refused, exactly if it has conditions and its field or value mentions WHERE or an operator is not accepted. |
| `Client.SentChangeTwice` | connectors/php/src/RoktClient.php:147-165 | A built CHANGE with two assignments is refused but for the two field names above. |
| `Client.SentOthers` | connectors/php/src/RoktClient.php:127-143 | EMPTY, DELETE and COUNT are dispatched as sent, without a terminator. |
| `Client.SentCount` | connectors/php/src/RoktClient.php:137-143 | COUNT with a condition is dispatched with it. |
| `Client.SentCreate` | connectors/php/src/RoktClient.php:74-77 | CREATE TABLE is dispatched with the table's name. |

## Left out

- Service.RoktService.Create: requires a name that is non-empty, made of bytes and not `datasets.config.json`; for the other two names the tree does not represent separate datasets (`Storage.EmptyNameOwnsEverything`, `Storage.ConfigOutsideDir`).
- Server.Handlers.Handle: requires the same of the name in a CREATE TABLE request.
- Server.Handlers.Serve: requires it of every request.
- SyncService.Sync.HandleClientData: shows the function run without another thread stepping in between, as one run of the system; the interleavings are covered by the transition system, not by the code.
- SyncService.Sync.Take: likewise shows the locked block from a free mutex to its release or to sleep.
- SyncService.Sync.Resume: likewise from waking with a free mutex.
- EndToEnd.SerialRefinement: one worker only, because the handlers take no lock around reading and rewriting a file and so promise nothing for two; runs that create a badly named dataset are excluded.
- Text.StodOfIntText: values are not rounded to double; numbers too small for a normal double count as out of range, also the few that `stod` would return.
- Ordering.KeyLessIsTotal: keys are compared exactly; in the code integers beyond 2^53 that round to one double tie without being equal.
- Ordering.RowLessIsStrictWeak: likewise, that ties are equal keys holds within exact doubles.
- Ordering.SortedKeysAreUnique: likewise, keys that round to one double may come in either order.
- Query.CountIsEqualityWhenCanonical: is about tables whose numbers are integers, compared exactly; a floating point field, which `1.50` equals and `1.5` is printed as, and the rounding of integers beyond 2^53 are not modelled.
- Conditions.IntegersCompareByValue: numbers are unbounded integers; 64-bit limits, floating point fields and rounding to double are not modelled.
- Printing.GetRoundTrip: excludes a key or direction that is one of the words WHERE, GROUP, ORDER and LIMIT in the clause directly behind WHERE, whose other words the server would take for clauses; `WhereClauses.SeenWhenUsedOnce` and `WhereClauses.ConditionsReceived` hold without that.
- Printing.GetAccepted: excludes the same.
- Printing.GetSeesWhatWasWritten: excludes the same, and limits beyond 32 bits.
- Printing.ConditionsAreLost: excludes those words in the conditions; what arrives of the conditions then is in `Client.ConditionsArrive`.
- Client.SentGet: excludes the same two.
- WorkerLoop.Worker.Iterate: as its parts, shown without another thread stepping in between; a worker's way back from sleep is `SyncService.Sync.Resume`.
- Ordering.Sort: a stand-in for the library's sort; only its contract, an ordered permutation, is used.
- Sockets, epoll, accept, read and send are nondeterministic events; timeouts, sleeps and signals appear only as the 504 substitution and as a call of stop.
- A request read in pieces or longer than the buffer, a second call of stop by the destructor, and failure to create the epoll instance.
- File system failures, directories as objects, and the indentation of the catalogue file.
- ROTATE datasets, `RoktDataset::update` and `remove`, `clear`, and the methods of `RoktData`, which no command reaches with effect.
- Exceptions thrown by nlohmann::json on text that is not UTF-8.
- Wording of messages, response text, configuration, logging and the load tests.
- First-in-first-out order among equal priorities and freedom from starvation, which the code does not promise.
