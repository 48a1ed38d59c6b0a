# Verification of the systems programs

A Dafny model of the repository's concurrent, in-place and arithmetic cores, with proofs about every run,
every input or every reachable state. `dafny verify dfyconfig.toml` checks all of it.

## What is modelled

**The IPC shop** (`shop_*.dfy`, `message_queue.dfy`). The shop, the inventory manager with its menu and
notifier threads, and any number of customers share an inventory, a binary semaphore and one typed, bounded
message queue. `ShopSystem` gives each process a program counter and makes every read, comparison and write of
shared memory a step of its own: `ShopNext` is `process_order` and the polling loop
(IPC/shop_process.c:125-193), `MgrNext` is `restock_item`, `update_price` and `display_inventory`
(IPC/inventory_manager.c:71-158), `NotifierNext` is `notification_handler` (IPC/inventory_manager.c:190-215),
and `Moved` is `add_to_cart`, `checkout` and `clear_cart` (IPC/customer_process.c:81-203). A run is any
sequence of enabled steps from `Init`: inventory loaded, semaphore 1, queue empty, at most `MAX_ITEMS` rows,
no negative stock. A history records what a run did for stating properties; no step depends on it.
`ShopSpec` says what the operations mean when nothing interleaves. `SharedMemory` and `ShoppingCarts` are the
in-place loops themselves, as classes, proved to compute those meanings.

Three expectations turn out false, each shown so by a run (`ShopScenarios`) and proved under an exact condition:

- A cart total is the sum of its lines. Adding a line keeps it so if and only if both reads of the price agree
  (`AddKeepsTotal`; `TornTotal` is a run where they do not).
- Whoever waits can still be served. In a reachable state this holds if and only if the shop is not committed to
  an order whose response the queued orders leave no room for (`NoStuckCustomer`). A start can run into the
  bad state if and only if there is something to buy and room for an order but not for one per customer
  (`RoomCondition`; `FullQueue` is the run).
- A response is taken by the customer whose order it answers. In a state reached without a wrong delivery, with a
  response to take, this holds of the next one if and only if one customer waits (`ExactDelivery`). Some run
  from a given start goes wrong if and only if there are two customers or more, something to buy, and room for
  a response beside an order (`DeliveryCondition`; `Misdelivered` is the run, for two different quantities).

**The line scanner** (`meminfo_scan.dfy`): `read_meminfo_value` with its 1024-byte buffer and carried-over
partial line, against a scan of the whole file. What `regexec` and `sscanf` do with a line is an arbitrary
function of the line.

**The shell** (`tokenizer.dfy`, `command_line.dfy`, `descriptors.dfy`, `pipeline.dfy`): `strtok` and
`parse_input` in place, the redirection loop, the descriptor tables of parent and child, the pipe splitter, and
`pipCmd` as five interleaved processes. Opens and forks may fail.

**The SIGCHLD reaper** (`reaper.dfy`): `sigchld_handler` and the block, install, unblock, fork order of `main`,
for N children, with SIGCHLD pending or not but never counted, as in section 2.4.1 (Signal Generation and
Delivery) of POSIX.1-2017, System Interfaces.

**The listing** (`ls_listing.dfy`, `ls_columns.dfy`): filtering into a doubling array, the comparators with
their 32-bit truncation, the choice of sort key and of the time shown, and the column-major layout.

**The logger** (`logger.dfy`) and **trial division** (`primes.dfy`).

Where code and documentation differ the code is followed: `ls_cmd/my_ls.c:303-326` sorts a plain listing only
when -t, -u or -c is given (by name only with -l), `LQ_SHELL/lqshell_optm.c:160-165` closes only the last
descriptor of a stream redirected more than once, and `LQ_SHELL/lqshell_optm.c:33-46` reserves no slot for the
NULL behind a multiple of ten tokens.

## Model

| member | source | states |
|---|---|---|
| `ShopSpec.Lookup` | IPC/shop_process.c:130-131 | the search loops find the first row with the given name: no earlier row has it, and the row found does; the number of rows when there is none |
| `ShopSpec.AlertMeaning` | IPC/shop_process.c:107-152 | an order is accepted exactly when its item exists with enough units; it raises at most one alert, exactly when it is accepted and leaves nothing (out of stock) or no more than the threshold (low stock), with the item, the units left, the threshold and the right kind |
| `ShopSpec.ReplyMeaning` | IPC/shop_process.c:126-136 | the reply is the customer's own order with status 0 or 1 and, when accepted, the row's price times the quantity |
| `ShopSpec.ChargeLaws` | IPC/shop_process.c:136-136 | one unit is charged the row's price, none is charged nothing, and an order for a + b units what the orders for a and for b are charged |
| `ShopSpec.OperationEffect` | IPC/inventory_manager.c:108-153 | an operation touches one field of one row, the first of its name: orders and restocks its quantity, price updates its price; every other row and field stays |
| `ShopSpec.ReplayKeepsNames` | IPC/inventory_manager.c:109-116 | no sequence of operations changes a name, a threshold or the number of rows |
| `SharedMemory.SharedInventory.constructor` | IPC/shop_process.c:40-50 | the zeroed segment is an empty inventory |
| `SharedMemory.SharedInventory.LoadInventory` | IPC/shop_process.c:61-80 | the rows are exactly the lines of the file, in order, fields in their places |
| `SharedMemory.SharedInventory.ProcessOrder` | IPC/shop_process.c:125-153 | the in-place loop leaves the rows, the reply and the alerts of the atomic order `ApplyOrder` (see AlertMeaning and Conservation for what that is) |
| `SharedMemory.SharedInventory.RestockItem` | IPC/inventory_manager.c:103-117 | adds a positive quantity to the first row of that name and to nothing else; refuses other quantities; reports whether the item was found |
| `SharedMemory.SharedInventory.UpdatePrice` | IPC/inventory_manager.c:139-153 | stores a positive price in the first row of that name and nowhere else; refuses other prices; reports whether the item was found |
| `ShoppingCarts.ShoppingCart.AddToCart` | IPC/customer_process.c:81-128 | which of the five outcomes occurs, exactly, whatever each unlocked read sees; on success the line carries the unit price of one read and the total grows by that of the later one; otherwise the cart is unchanged |
| `ShoppingCarts.ShoppingCart.ClearCart` | IPC/customer_process.c:188-203 | empties a non-empty cart when confirmed, and changes nothing otherwise |
| `ShoppingCarts.ShoppingCart.Checkout` | IPC/customer_process.c:131-185 | succeeds exactly when confirmed and every line is sent, answered and accepted, and then empties the cart; a failure at line i means lines 0..i-1 were accepted and line i was not, the orders sent are those of these lines in order, and the cart is unchanged |
| `MessageQueue.SendEffect` | IPC/shop_process.c:117-117 | a send appends to the sequence of its own type, leaves every other type alone and adds the message's size |
| `MessageQueue.ReceiveEffect` | IPC/shop_process.c:188-188 | a typed receive takes the oldest message of that type and leaves every other type, and their order, alone |
| `MessageQueue.SelectIsNonempty` | IPC/inventory_manager.c:199-203 | a receive finds something exactly when a message of its type is queued |
| `MessageQueue.BytesByType` | IPC/shop_common.h:24-81 | the bytes in the queue are 72 for every message of type 1 or 4 and 64 for every message of type 5 or 6 |
| `ShopSystem.QueueAfter` | IPC/shop_process.c:157-159 | each step sends or takes at most one message; a blocking send happens only when it fits, and an alert is dropped when it does not |
| `ShopSystem.OrderTraffic` | IPC/customer_process.c:152-158 | only a customer sends orders, and only the polling shop takes them |
| `ShopSystem.ResponseTraffic` | IPC/customer_process.c:165-165 | only the shop sends responses, of the order in its hands, and only customers take them |
| `ShopRefinement.MutualExclusion` | IPC/shop_process.c:29-37 | in every reachable state at most one of shop and manager is between lock and unlock, and the semaphore is 0 exactly when one is |
| `ShopRefinement.Refinement` | IPC/shop_process.c:128-155 | over every interleaving of single reads, comparisons and writes: whenever nobody is inside, the rows are those of running the locked operations one at a time in lock-acquisition order; the replies sent (status and price) are that run's replies, in order; every display showed that run's inventory at its own position |
| `ShopRefinement.RefinementRun` | IPC/inventory_manager.c:108-117 | the refinement invariant, which relates every intermediate program position to the atomic operation in progress, survives every run |
| `ShopLedger.Conservation` | IPC/shop_process.c:133-134 | for every history, each row holds what was loaded plus the restocks of it minus the accepted orders for it |
| `ShopLedger.StockConservation` | IPC/shop_process.c:130-153 | the same in every reachable state of the interleaved system outside the locked regions; and no quantity is negative in any reachable state, even within an operation |
| `ShopLedger.OnlyRestocksRaise` | IPC/inventory_manager.c:111-111 | from any reachable state, the only step that raises a quantity is the manager's write of a restock, and it raises that row only |
| `ShopLedger.PositiveRun` | IPC/customer_process.c:99-114 | every quantity that enters a cart, and so the queue and the shop, is positive, over every run |
| `ShopProgress.Accounting` | IPC/customer_process.c:157-165 | for any number of customers and every run: customers in msgrcv are exactly queued orders plus the order in hand plus queued responses, the queue keeps its byte bound, and whoever is inside a locked region can take its next step |
| `ShopProgress.NoStuckCustomer` | IPC/shop_process.c:155-159 | from every reachable state: unless the shop is committed to an order whose response the queued orders leave no room for, service steps alone can serve everyone who waits; if it is, no continuation whatever ever does |
| `ShopProgress.Serve` | IPC/shop_process.c:183-193 | from a state that is not doomed, a finite run of steps of the server processes and of customers taking responses leaves nobody waiting |
| `ShopProgress.ServiceProgress` | IPC/shop_process.c:188-190 | while someone waits and the state is not doomed, the next service step is enabled, decreases the remaining work and does not doom the state |
| `ShopProgress.EnoughRoom` | IPC/shop_process.c:159-159 | with room in the queue for one order per customer, with room for none, or with nothing to buy, the doomed state is never reached |
| `ShopCheckout.CheckoutPrefix` | IPC/customer_process.c:146-184 | one customer, every run: each response taken is to the customer's own order, with the item and quantity just sent; the shop's replies since the checkout began are that response preceded by acceptances of exactly the earlier lines, in order; a rejection leaves the cart unchanged; accepting the last line empties it |
| `ShopCheckout.OutstandingMoves` | IPC/shop_process.c:188-190 | the one outstanding request is always in exactly one place, queued, in hand or answered, with its item and quantity intact |
| `ShopAlerts.AlertHistory` | IPC/shop_process.c:107-149 | for each kind and every run: the alerts the notifier took, followed by those queued, are in order the undropped alerts attempted; and outside the locked region the alerts attempted are those of the sequential run |
| `ShopAlerts.OneAlertPerOrder` | IPC/shop_process.c:139-149 | no history raises more alerts than it has accepted orders |
| `ShopAlerts.TakenOwn` | IPC/inventory_manager.c:199-204 | taking an alert moves it from the front of its kind in the queue to the end of those taken |
| `ShopAlerts.LowStockFirst` | IPC/inventory_manager.c:199-204 | the notifier looks for an out-of-stock alert exactly when it has just found no low-stock one, and never takes one while it polls for the other |
| `ShopPrices.PriceAgreement` | IPC/customer_process.c:178-181 | one customer, every run, from any state with an empty cart on: if no step stores a price in the row of a cart line still to be priced, the prices the shop computed for a checkout that completes successfully sum to the total shown |
| `ShopPrices.CartTotal` | IPC/customer_process.c:112-114 | any number of customers, every run: if each line added finds the same price at both reads, the total is the sum of unit price times quantity over at most ten lines |
| `ShopPrices.AddKeepsTotal` | IPC/customer_process.c:112-113 | adding a line keeps total and sum equal exactly when the two reads of the price agree |
| `ShopRuns.AddOutcome` | IPC/customer_process.c:104-127 | add_to_cart that nothing interleaves with, from its search on: with enough stock of the first item of that name the cart gets one more line at the item's price and its cost, otherwise it is unchanged |
| `ShopRuns.FillCart` | IPC/customer_process.c:82-114 | with an item in stock, moves of the customer alone bring a cart to ten lines |
| `ShopRuns.ClearOutcome` | IPC/customer_process.c:188-203 | clearing leaves no line and no total, and room to add |
| `ShopRuns.ManagerServes` | IPC/inventory_manager.c:71-158 | a restock, price update or display chosen while the semaphore is free can be carried through, and then has had its effect on the rows and no other |
| `ShopScenarios.TornTotal` | IPC/customer_process.c:112-113 | a run in which a price store falls between the two reads: the total shown is not the sum of the lines |
| `ShopScenarios.FullQueue` | IPC/shop_process.c:159-159 | from every start with something to buy and room for an order but not for one per customer: a run after which a customer waits for ever, whatever happens next |
| `ShopScenarios.RoomCondition` | IPC/shop_process.c:155-159 | some run from a start reaches the doomed state if and only if there is something to buy and room for an order but not for one per customer |
| `ShopScenarios.Misdelivered` | IPC/customer_process.c:165-165 | from every start with two customers or more, something to buy and room for a response beside an order: a run after which the second customer can take the response to the first one's order, which is for another quantity |
| `ShopScenarios.DeliveryCondition` | IPC/customer_process.c:152-165 | some run from a start hands a response to a customer whose order it does not answer if and only if there are two customers or more, something to buy, and room for a response beside an order |
| `ShopDelivery.ExactDelivery` | IPC/customer_process.c:165-165 | any number of customers, every run without a wrong delivery so far, with a response queued: every customer that can take it takes the answer to its own order for the line just sent if and only if one customer waits |
| `ShopDelivery.OwnerRun` | IPC/shop_process.c:125-159 | over such runs every order and response on its way, in the queue or in the shop's hands, is for a different customer, which waits for it and has just sent that line |
| `MeminfoScan.ReadMeminfoValue` | LQ_SHELL/commands.c:328-383 | for every NUL-free file and every way read splits it, the buffer scan returns what one scan of the whole file up to the first overlong line finds, or 0 when a read fails first; every buffer index is in range and the loop ends |
| `MeminfoScan.ScanAgrees` | LQ_SHELL/commands.c:351-376 | that is the value of the first matching newline-terminated line (0 if none) if and only if that line and those before it have at most 1022 characters, or no line matches, or the value is 0 |
| `MeminfoScan.LinesCharacterized` | LQ_SHELL/commands.c:356-364 | a file is its lines with a newline behind each, followed by a rest without newline |
| `MeminfoScan.LinesAreWhole` | LQ_SHELL/commands.c:356-357 | no line has a newline inside |
| `MeminfoScan.ScanBuffer` | LQ_SHELL/commands.c:356-363 | the inner loop either finds the scan's answer or skips only complete lines that do not match and stops at the partial line left |
| `MeminfoScan.ScanChunk` | LQ_SHELL/commands.c:351-376 | one read: the answer, 0 if the read fails, or exactly the partial line carried to the front of the buffer |
| `MeminfoScan.OpenFile.Read` | LQ_SHELL/commands.c:351-351 | read fails, or delivers the next bytes of the file, at least one unless none was asked for or the file has ended |
| `Tokenizer.ParseInput` | LQ_SHELL/lqshell_optm.c:18-47 | in place: the pointers stored are, across every growth of the array, to C strings of the cut buffer equal in order to the tokens of the original line; NULL follows when a slot is left |
| `Tokenizer.TokensCharacterized` | LQ_SHELL/lqshell_optm.c:28-28 | the tokens are exactly the maximal runs free of space and newline, in order: the words that, set apart by non-empty separators, make up the line |
| `Tokenizer.JoinTokens` | LQ_SHELL/lqshell_optm.c:28-45 | words joined by single spaces, with or without a newline, parse back to themselves |
| `Tokenizer.Reparse` | LQ_SHELL/lqshell_optm.c:28-45 | joining the tokens of any line and parsing again gives the same tokens |
| `Tokenizer.GuardGivesToken` | LQ_SHELL/lqshell_optm.c:302-305 | a line that passes the guard in main has a token; a line has none exactly when it is all separators |
| `Tokenizer.Strtok` | LQ_SHELL/lqshell_optm.c:28-28 | strtok in place: skips separators, ends the token with a NUL, leaves the rest of the line uncut, and finds the first token of what was left |
| `Tokenizer.TerminatorFits` | LQ_SHELL/lqshell_optm.c:33-46 | the array has a slot for the NULL exactly when the number of tokens is 0 or no multiple of ten |
| `Tokenizer.TenWordsLeaveNoSlot` | LQ_SHELL/lqshell_optm.c:33-46 | a line of ten words for which it has none |
| `CommandLine.Process.Prepare` | LQ_SHELL/lqshell_optm.c:57-124 | the loop opens the files of the redirections in order up to the first that cannot be opened or is missing, and otherwise returns the words and the descriptors of the scan |
| `CommandLine.Process.ExecuteCommand` | LQ_SHELL/lqshell_optm.c:49-167 | the shell's descriptor table afterwards and what reaches exec, in each of the cases refused, fork failed and run |
| `CommandLine.CommandRoundTrip` | LQ_SHELL/lqshell_optm.c:57-124 | a command printed with single spaces, tokenized and scanned gives back its words and redirections in order if and only if it has fewer than 63 words, or 63 with nothing after the last |
| `CommandLine.DescriptorsRestored` | LQ_SHELL/lqshell_optm.c:156-166 | the shell's descriptors after a command are those before it if and only if the command ran with each stream redirected at most once, or did not run and no file had been opened |
| `CommandLine.TypedCommand` | LQ_SHELL/lqshell_optm.c:57-151 | from the typed line to exec: the child runs the typed words; 0 is on the file last typed behind `<`, read-only; 1 on the one last typed behind `>` (truncated) or `>>` (appended to); 2 on the one last typed behind `2>`, truncated; each of them is as before when nothing was typed for it |
| `Descriptors.LowestFree` | LQ_SHELL/lqshell_optm.c:67-67 | open returns a descriptor that is free while all lower ones are in use |
| `Descriptors.ChildConnected` | LQ_SHELL/lqshell_optm.c:135-149 | the child reaches exec with 0, 1 and 2 on each stream's last redirection and everything above 2 it inherited untouched; no extra descriptor is open if and only if no stream was redirected twice |
| `Descriptors.ParentRestored` | LQ_SHELL/lqshell_optm.c:160-165 | the parent's table is the one before if and only if no stream was redirected twice; nothing it had is ever lost |
| `Pipeline.SplitPipeline` | LQ_SHELL/lqshell_optm.c:171-198 | in place: splits exactly when there are three arguments or more and the first bar is neither first nor last; cmd1, the bar and cmd2 concatenate to the arguments, cmd1 has no bar, neither is empty; otherwise nothing changes |
| `Pipeline.EndOfFile` | LQ_SHELL/lqshell_optm.c:214-242 | in every reachable state of the shell, both children and both commands: no process holds the write end if and only if the shell has closed both ends, the second child has closed its copy and the first child has exited; likewise for the read end |
| `Pipeline.PipelineEnds` | LQ_SHELL/lqshell_optm.c:195-245 | no run has more than eighteen steps; where nobody can move, even if the second command ends only at end of file, both children have exited and nobody holds either end; from every reachable state some run leads there |
| `Pipeline.RunsAreBounded` | LQ_SHELL/lqshell_optm.c:214-242 | every step of the shell, a child or a command brings the pipeline closer to its end |
| `Pipeline.Connected` | LQ_SHELL/lqshell_optm.c:217-237 | while the commands run, each standard descriptor is where its last redirection put it; unless redirected, the first's output and the second's input are the two pipe ends |
| `Pipeline.TypedPipeline` | LQ_SHELL/lqshell_optm.c:171-245 | from the typed line to both running commands: the halves at the bar, the words of each, and each of 0, 1 and 2 on the file last typed for it, in the mode of its operator, or else on the pipe end or as the shell has it |
| `Pipeline.HalvesUnique` | LQ_SHELL/lqshell_optm.c:178-198 | the split at the first bar is the only way to read the arguments as a command without a bar, a bar, and a command |
| `Pipeline.EndsAttach` | LQ_SHELL/lqshell_optm.c:217-236 | the second child reads from the pipe if and only if descriptor 0 was open, and the first writes to it if and only if 0 or 1 was |
| `Reaper.NoLostChild` | Signals/Non-Blocking_Wait/non_blocking_wait.c:16-42 | N children, every interleaving of exits, deliveries and handler steps: a zombie means SIGCHLD is pending or the handler still in its loop; forked children are alive, zombie or reaped, exclusively, each reaped once, with the status it died with |
| `Reaper.QuietMeansReported` | Signals/Non-Blocking_Wait/non_blocking_wait.c:49-87 | with nothing pending and no handler running there is no zombie, and every dead child has been reported exactly once, with its own status |
| `Reaper.BecomesQuiet` | Signals/Non-Blocking_Wait/non_blocking_wait.c:23-35 | when no more children die, at most as many deliveries and handler steps as the remaining work bring the system to rest with every dead child reported |
| `Reaper.AllReported` | Signals/Non-Blocking_Wait/non_blocking_wait.c:49-87 | from every reachable state some run has all N children forked, dead and reported, and no zombie left |
| `Reaper.ErrnoPreserved` | Signals/Non-Blocking_Wait/non_blocking_wait.c:20-41 | code the handler interrupts finds errno as it left it |
| `Columns.PrintColumns` | ls_cmd/my_ls.c:461-486 | columns are as wide as the longest name and two more, and line `row` shows exactly the cells of row `row` |
| `Columns.GridIsTight` | ls_cmd/my_ls.c:461-465 | one more column would not fit, the columns fit when there are several, and one row less would not hold all entries |
| `Columns.ShownOnce` | ls_cmd/my_ls.c:467-472 | for every count and number of rows, each index is shown in exactly one cell, that of row i % rows and column i / rows |
| `Columns.RowTextWidth` | ls_cmd/my_ls.c:474-481 | the padded text of a row, with or without inode numbers, is as wide as the number of its cells times the width of one |
| `Columns.RowsFitTerminal` | ls_cmd/my_ls.c:461-481 | without inode numbers all rows fit the terminal if and only if one column does |
| `Columns.InodeRowsFit` | ls_cmd/my_ls.c:474-477 | with inode numbers they fit if and only if the first row does |
| `Columns.InodeRowTooWide` | ls_cmd/my_ls.c:462-477 | two names that each fit with their inode numbers, and whose row fits without, but not with them |
| `Listing.ProcessAndSort` | ls_cmd/my_ls.c:185-328 | the filled part of the doubling array is the filtered entries in the order of the comparator for these flags (see ListedExactly, TimeOrdered and NameOrdered); the count never exceeds the capacity, which is 64 or at most twice the count |
| `Listing.ListedExactly` | ls_cmd/my_ls.c:185-270 | a file is listed as often as the directory has an entry of that name that can be examined, unless its name begins with a dot and neither -a nor -f is given, and then never; with -f, or with no order asked for, in directory order |
| `Listing.TimeOrdered` | ls_cmd/my_ls.c:303-321 | with -t but not -f (and with -u or -c alone without -l): a permutation of the kept entries whose access times (-u), change times (-c) or modification times never increase, when all lie in a window shorter than 2^31 seconds |
| `Listing.SortedByShownTime` | ls_cmd/my_ls.c:508-522 | in a long listing without -f the field sorted by is the field shown if and only if -t is given |
| `Listing.TimeKey` | ls_cmd/my_ls.c:303-321 | when the sort key is a time, exactly, and that it is then the field that a long listing shows |
| `Listing.ShownTime` | ls_cmd/my_ls.c:508-522 | the time shown is the access time exactly with -u, the change time exactly with -c and not -u, whether or not -t is given |
| `Listing.NameOrdered` | ls_cmd/my_ls.c:322-325 | names are the sort key exactly with -l and neither -t nor -f, and then come in dictionary order |
| `Listing.StrCmpIsBefore` | ls_cmd/my_ls.c:37-40 | a name compares less exactly when it ends, or has the smaller character, where the two first differ |
| `Listing.ListPermutes` | ls_cmd/my_ls.c:303-326 | for every flag set the listing has exactly the kept entries |
| `Listing.SortInPlace` | ls_cmd/my_ls.c:308-324 | the in-place sort leaves the sorted sequence in the filled part |
| `Listing.SortNewestFirst` | ls_cmd/my_ls.c:42-55 | sorting with a time comparator orders newest first when the times lie in such a window |
| `Listing.ToIntSign` | ls_cmd/my_ls.c:42-45 | the comparator's int is the time difference reduced to 32 bits, and has its sign exactly when the reduced difference falls on its own side |
| `Listing.ComparatorContradicts` | ls_cmd/my_ls.c:42-45 | two files 2^31 seconds apart that the comparator puts each before the other |
| `Logging.LevelAfter` | Signals/real-time_logger/logger.c:31-36 | after any signals the level is in 0..4 |
| `Logging.LevelMeaning` | Signals/real-time_logger/logger.c:31-36 | the level is what the last signal from base to base + 4 selects, and INFO without one |
| `Logging.BaseFor` | Signals/real-time_logger/logger.c:45-51 | the base signal is the one asked for when it and the four above it are real-time signals, and SIGRTMIN otherwise |
| `Logging.Logger.HandleSignal` | Signals/real-time_logger/logger.c:31-36 | the level becomes that of the last signal that selects one |
| `Logging.Logger.SetLogLevel` | Signals/real-time_logger/logger.c:77-81 | stores a level in 0..4 and ignores others |
| `Logging.Logger.SafeWrite` | Signals/real-time_logger/logger.c:18-28 | terminates; without write errors the whole buffer is written through any partial writes and interruptions; on an error a prefix of it was |
| `Logging.Logger.Log` | Signals/real-time_logger/logger.c:84-129 | a call sees the levels in force at its two tests and, without write errors, writes its whole record exactly when it passes both, nothing otherwise |
| `Logging.Logger.Session` | Signals/real-time_logger/logger.c:84-129 | for every schedule of partial writes, interruptions and signals: the level stays in 0..4, each call saw levels in force at moments in call order, and without write errors the output is the concatenation of the whole records of the calls that passed |
| `Logging.RecordShape` | Signals/real-time_logger/logger.c:87-91 | a record is the longest prefix of tag and message that fits 255 characters, and a newline, the only one unless the message has more |
| `Logging.LevelSelects` | Signals/real-time_logger/logger.c:95-129 | at level L exactly the first L of LOG_ERROR, LOG_WARNING, LOG_INFO and LOG_DEBUG write, none at 0, each behind its own tag |
| `Logging.FourCalls` | Signals/real-time_logger/logger.c:84-129 | what the four write one after the other when no signal is handled meanwhile |
| `Primes.IsPrime` | C_Compilation_and_Symbol_Analysis/prime.c:6-17 | for every num and mx: 1 exactly when num is prime and at most mx, else 0 |
| `Primes.SmallDivisor` | C_Compilation_and_Symbol_Analysis/prime.c:12-14 | a composite odd number has an odd divisor from 3 up to its square root |

## Left out

- ShoppingCarts.ShoppingCart.AddToCart: what is typed is a parameter, so input that scanf cannot read is left out.
- SharedMemory.SharedInventory.LoadInventory: requires at most MAX_ITEMS lines, which the source does not check before storing.
- ShopRefinement.Refinement: assumes that semop does not fail and is not interrupted; with a failing semop the manager's sem_lock (IPC/inventory_manager.c:45-50) goes on without the lock.
- ShopCheckout.CheckoutPrefix: one customer and no failing queue call; ShopDelivery says when responses reach their customers with several, and ShoppingCarts.ShoppingCart.Checkout has failing calls.
- ShopProgress.NoStuckCustomer: says which runs can still serve everyone, not that a scheduler picks one.
- ShopPrices.PriceAgreement: prices are real numbers, so rounding of double is not modelled.
- Tokenizer.ParseInput: stores the NULL only when there is a slot for it, where the source stores it past the end of the array (Tokenizer.TerminatorFits says exactly when).
- MeminfoScan.ReadMeminfoValue: the file has no NUL byte, and a failing open or regcomp is not modelled.
- CommandLine.Process.ExecuteCommand: a command that execvp cannot run, and a command without words, end in the child and are not followed there.
- Pipeline.EndOfFile: pipe and fork succeed (the source exits when they do not); the shell's final waits are left out, as no descriptor changes there.
- Reaper.NoLostChild: children are numbered in fork order, so reuse of process ids does not arise; fork does not fail.
- Listing.SortInPlace: an insertion sort stands for qsort, whose body is not part of the repository.
- Listing.ProcessAndSort: the -d path, link names and failures of opendir, strdup and malloc.
- Logging.Logger.SafeWrite: a write that takes no byte and reports no error does not happen.
- Primes.IsPrime: mathematical integers, so `i * i` does not overflow.
- Quantities are mathematical integers: overflow of int on restock is not modelled.
- Shutdown, signals and clean-up of the shop processes, creation of IPC objects and restarts with a stale queue.
- Menus, prompts, colours, the customer's and the shop's own displays; names are not cut to 49 characters.
- The handler's messages as text, and its error branch, which writes to standard error only.
- Permission strings, owners and the widths of a long listing in my_ls.c; option parsing.
- fdisk_l, Elf_parser, Signals/snd.c, Signals/rcv.c and the rest of LQ_SHELL/commands.c.
