# TekNap: verified models of its core algorithms

TekNap is an IRC-style client with a scripting language. This project models the parts of it that do more
than input and output, in the form the C code has, and proves what they achieve:

- **Expressions** (`source/expr2.c`; `Expr*.dfy`). A precedence-climbing parser drives an operand stack and a
  token table of lazily cached conversions; a `noeval` counter short-circuits. `ExprProgram` has the
  procedures over the fields and arrays of `expr_info`, each proved equal to a function of `ExprMachine`.
  `ExprEval` is an independent semantics on trees. `ExprTheorems` shows that parsing the minimally
  parenthesised form of any tree gives the text of that semantics and makes exactly its requests to the
  client (variable reads and stores, expansions, `{...}` blocks), in its order. `ExprPrecedence` lists the
  operators by families and proves which tree a text without parentheses is; `ExprLaws` and `ExprImplied` say of
  texts what each operator does.
- **Resolver** (`source/cdns.c`; `DnsProtocol`, `DnsQueue`). The main thread and the worker as an interleaving of
  single lock, queue, signal and pipe steps, over every schedule; and the linked queues themselves.
- **Name tables** (`source/alist.c`, `include/alist.h`, `source/alias.c`; `Names`, `NameTable`, `NameSlots`,
  `AliasCache`). The two-phase binary search, the table as a map, the shifting of slots, and the
  move-to-front cache of variables.
- **Script arrays** (`source/array.c`; `ScriptArray`, `ArrayRegistry`). Items and their sorted index, and the
  same structure one level up as the registry of arrays.
- **Key sequences** (`source/keys.c`; `Keys`, `KeyTable`). Chains of meta states.
- **Patterns** (`source/glob.c`; `Glob`, `GlobMatch`, `GlobLaws`, `Braces`, `BraceText`, `BraceLaws`).
  Compiling and matching one path segment, and brace expansion; the laws say of characters what patterns mean.
- **Hooks** (`source/hook.c`; `Hooks`, `HookList`) and **memmove** (`source/compat.c`; `Memmove`).

`Options` and `Lists` are shared helpers. What the client does on the engine's behalf (expanding text, reading
and storing variables, running blocks, converting text and numbers, comparing by wildcard) is `Host`: arbitrary
functions, where answers may depend on everything that was asked before. Results hold for every such host.
Two sequences are bookkeeping that the C code does not have: the history of these requests, and the log, which
says for which table entry each lookup was made.
`dafny verify dfyconfig.toml` checks the project.

Some facts the proofs brought out:

- Short-circuiting is not exact when a skipped part uses `*`: a skipped `*x = 5` stores the empty string in the
  nameless variable. `SkipExactly` says exactly what a skipped part asks for.
- `&&=` and `||=` are listed with right associativity, so the test for them among the short-circuit operators
  is never reached: they always evaluate their right side. The comments suggest otherwise.
- A finished lookup is never stranded, provided the window counts from the worker's taking the finished lock,
  not from its enqueueing (`WindowStartsAtTheLock` is a schedule that shows the difference).
- Every submitted lookup is delivered in the end, under any schedule that goes on giving both threads steps and
  main polls (`EventuallyDelivered`); only spurious wake-ups without end can hold up a submission.
- `stop_dns` signals without the pending lock, so its wake-up is lost exactly when the worker has just passed
  the quit mutex with nothing to do (`StopSeenIff`).
- Brace expansion hands on `{}` for an empty word if a choice of alternatives leaves an empty pair alone, as in
  `{}{}`, and the word itself if not, as in `{,}` (`ExpandExactly`, `TwoPairs`).
- `move_array_items` never clears the slots a move down vacates: the loop for it is empty.
- `delete_all_var_alias` uses the cache without a test that there is one, and assigning makes none; `resize_metamap` complains about a
  size under 5 and then goes on with it; the comment on `function_setitem` (`source/array.c:624-629`) swaps the
  return codes 1 and 2 of the code and of the file's header.
- A key sequence whose first new key occurs again may not reach its state (`RepeatedKeyMayMiss`), and may
  (`RepeatedKeyMayArrive`). The condition of `ParsedReaches` can be checked beforehand but is not a necessary
  one; `ParsedReachesExactly` is exact, but follows the chain.
- `do_hook` collects into an array of 2048 entries. The limit that the comment on the ON command says is
  enforced is not: the array is too small exactly if hooks score under more than 2048 serial numbers.

## Model

| member | source | states |
|---|---|---|
| ExprTheorems.MathevalCorrect | source/expr2.c:1896-2107 | for every well-formed tree whose entries and operands fit table and stack, evaluating its minimally parenthesised form gives the text of the tree semantics, makes exactly the same requests to the client in the same order, and takes exactly the table entries counted for the tree |
| ExprPrecedence.GroupedByFamilies | source/expr2.c:314-389 | any expression written without parentheses, of small operands, binary operators, `?:` and assignments, evaluates as the tree that the list of operator families gives, tightest first; nothing in the statement uses the parser's table or the printer |
| ExprPrecedence.TwoOperators | source/expr2.c:314-389 | of two operators between three operands the one of the earlier family goes first; within a family the left one, but for `**` and the assignments the right one |
| ExprPrecedence.Parenthesised | source/expr2.c:1896-2055 | parentheses let the looser of two operators go first, on either side |
| ExprPrecedence.EveryOperator | source/expr2.c:314-389 | the families leave no binary operator out |
| ExprLaws.ConstantLaw | source/expr2.c:953-1382 | every binary operator between two constants, in the client's conversions and arithmetic; a zero divisor gives empty text, and nothing is asked of the client |
| ExprLaws.PrefixLaw | source/expr2.c:1173-1216 | every prefix operator before a constant |
| ExprLaws.ConditionalLaw | source/expr2.c:1978-1996 | `c ? a : z` of constants is `a` or `z` by the truth of `c` |
| ExprLaws.OperandLaw | source/expr2.c:585-735 | what each kind of operand comes to on its own: a variable's value under its expanded name, text expanded, a block run |
| ExprLaws.AssignLaw | source/expr2.c:1245-1320 | every assignment of a constant to a variable: it is read once unless simply set, and what is stored is the result |
| ExprLaws.SwapLaw | source/expr2.c:1297-1319 | `<=>` exchanges the values of two variables |
| ExprLaws.BumpBeforeLaw | source/expr2.c:1213-1214 | `++` and `--` before a variable give its new value |
| ExprLaws.BumpBehindLaw | source/expr2.c:1215-1216 | behind it they give its old one, and store the same |
| ExprLaws.ShortLaw | source/expr2.c:2003-2047 | a variable to the right of `&&` or `||` is looked up exactly if the left side does not settle the result |
| ExprImplied.ImpliedLaw | source/expr2.c:1409-1417 | an operator behind a lone `*` works on the arguments the expression was called with, as on a constant |
| ExprImplied.AloneLaw | source/expr2.c:1192-1212 | `@`, `#` and `*` with nothing behind them work on those arguments; nothing is asked of the client |
| ExprImplied.ImpliedSetLaw | source/expr2.c:1288-1296 | `* = b` stores in the variable that the arguments name |
| ExprTheorems.AddsOneOperand | source/expr2.c:1896-2055 | parsing a printed tree, evaluated or skipped, adds exactly one operand that stands for the tree's value, keeps the operands below it, restores noeval, and takes exactly the table entries counted for it in that mode |
| ExprTheorems.SkippedOperand | source/expr2.c:2003-2047 | when the left operand of `&&` or `||` settles it, the text does not depend on the right one, and what that asks of the client is empty exactly if its skip requests are; without `*` they are |
| ExprTheorems.SkippedBranch | source/expr2.c:1978-1996 | `c ? a : z` evaluates like the branch taken, whatever that is, from the state after the condition, as long as the branch not taken has no `*` |
| ExprTheorems.SkipExactly | source/expr2.c:1202-1210 | while nothing is evaluated a tree makes exactly its skip stores, all of the empty string to the nameless variable, so none at all if and only if there are none |
| ExprTheorems.SkippedDerefStores | source/expr2.c:1202-1210 | the case in point: evaluating `0 && (*x = 5)` gives false and yet stores the empty string in the nameless variable |
| ExprTheorems.AnyInput | source/expr2.c:1896-2055 | on any lexemes, malformed or not, parsing ends with noeval restored, at most 80 table entries and 80 operands and every handle valid; up to and including the final conversion to text, what is looked up is exactly what is logged, each lookup for an entry flagged for it and no entry twice for its name or twice for its text |
| ExprTheorems.AnyState | source/expr2.c:1896-2055 | the same from any state the parser may be called in: entries only gain representations, and the lookups added to the history are, in order, those added to the log |
| ExprEval.NoDerefSkipsClean | source/expr2.c:1202-1210 | a tree without the dereference operator has no skip stores |
| ExprEval.FitsBySize | source/expr2.c:453-500 | a tree fits whatever its variables hold if the entries its operands and operators may take are fewer than 80; `=`, `,` and `<=>` take none |
| ExprParse.ParsePrinted | source/expr2.c:1896-2055 | at every level the parser may be called with, it consumes a printed tree, leaves its result and goes on as from there |
| ExprParse.ParseBin | source/expr2.c:2001-2047 | the case of binary operators: associativity and the lowered level on the right keep the tree's shape |
| ExprParse.ParseCondPrinted | source/expr2.c:1978-1996 | the case of `?:`, whose middle is parsed one level lower |
| ExprParse.ParsePost | source/expr2.c:2001-2047 | the case of postfix operators, which are reduced by way of an empty right side |
| ExprReduce.UnaryLeaves | source/expr2.c:1173-1216 | reducing a unary operator over an operand that stands for a value leaves one that stands for the operator applied to it, with the requests of the semantics and the entries counted for it |
| ExprReduce.BinaryLeaves | source/expr2.c:953-1382 | the same for every binary and assignment operator, operands being forced in the order of the code |
| ExprReduce.TextHolds | source/expr2.c:674-735 | taking an entry's text gives the text of the value it stands for, and afterwards it stands for the value with its text known |
| ExprReduce.NameHolds | source/expr2.c:641-665 | the same for an entry's name |
| ExprSkip.DeadUnary | source/expr2.c:953-1382 | while skipping, unary operators leave the dummy the semantics says, number or not, make only the nameless stores, and take the entries counted for them |
| ExprSkip.DeadBinary | source/expr2.c:953-1382 | the same for binary and assignment operators |
| ExprOperands.BinResult | source/expr2.c:2001-2047 | both operands' results and the short-circuit test give the whole operator's result, whichever of them were skipped |
| ExprOperands.CondResult | source/expr2.c:1978-1996 | the same for `?:` |
| ExprMachine.Parse | source/expr2.c:1896-2055 | from any state: bounds are kept, noeval is restored, no representation of an entry is lost or changed, the log stays without repetition and grows with the lookups |
| ExprMachine.GetExpanded | source/expr2.c:674-735 | an entry's text is determined once: what is cached stays and is what is returned, no other entry and nothing on the stack changes, and a lookup is charged to the entry |
| ExprMachine.GetLval | source/expr2.c:641-665 | the same for its name |
| ExprProgram.ExprInfo.Mathparse | source/expr2.c:1896-2055 | the parser over the fields of the context does to them exactly what the function does to the state, and terminates |
| ExprProgram.ExprInfo.Zzlex | source/expr2.c:1447-1888 | the context-sensitive lexer, from lexemes on |
| ExprProgram.ExprInfo.Op | source/expr2.c:953-1382 | reduction of one operator on the stack array |
| ExprProgram.ExprInfo.AssignOperator | source/expr2.c:1245-1320 | assignments, with the operand forms of the code |
| ExprProgram.ExprInfo.GetTokenExpanded | source/expr2.c:674-735 | the lazily cached text in the token array |
| ExprProgram.ExprInfo.GetTokenRaw | source/expr2.c:585-633 | the lazily cached raw text |
| ExprProgram.ExprInfo.GetTokenBoolean | source/expr2.c:789-808 | the lazily cached truth value |
| ExprProgram.ExprInfo.PushToken | source/expr2.c:818-829 | the bounded stack |
| ExprProgram.ExprInfo.PopToken | source/expr2.c:869-883 | the bounded stack |
| ExprProgram.ExprInfo.CheckImpliedArg | source/expr2.c:1409-1417 | the implied argument |
| ExprProgram.ExprInfo.Evaluate | source/expr2.c:2066-2107 | matheval from a fresh context on |
| DnsProtocol.InvStep | source/cdns.c:378-427 | every step of either thread, spurious wake-ups included, keeps the invariant: locks held where the code says, nothing stranded, nobody asleep over work, the pipeline of requests complete and fair |
| DnsProtocol.NeverStranded | source/cdns.c:185-227 | in every schedule, if a result is waiting and main is not draining then a byte is in the pipe or the worker is committed to writing one, a drain that ended on a failed trylock included |
| DnsProtocol.CommittedWrites | source/cdns.c:378-427 | a committed worker cannot be blocked: in every schedule that gives it three steps, however main's come in between, it writes its byte and is committed until then |
| DnsProtocol.WindowStartsAtTheLock | source/cdns.c:198-227 | a reachable state in which a result waits unannounced while the worker has the lock but has not enqueued: the window must start at the lock |
| DnsProtocol.NeverAsleep | source/cdns.c:154-165 | in every schedule the worker is never waiting unsignalled while a request is pending, outside main's locked submission |
| DnsProtocol.NothingLost | source/cdns.c:137-172 | in every schedule each submitted request is in exactly one place: pending, in flight, finished, being delivered or delivered |
| DnsProtocol.SubmissionPuts | source/cdns.c:150-161 | from every reachable state at rest with the pending lock free, a submission puts its request, with the next id and its own urgency, at the head of the queue if urgent and at the tail if not, and changes nothing else |
| DnsProtocol.SubmissionSignals | source/cdns.c:162-165 | then the worker is signalled if it waits, and the lock is given back |
| DnsProtocol.UrgencyKept | source/cdns.c:137-172 | in every schedule every request, wherever it is, has the urgency of its own submission: that with id n of the n-th that took effect |
| DnsProtocol.WorkerRound | source/cdns.c:378-427 | a round of the worker alone: the first pending request becomes the last result, and one byte is written |
| DnsProtocol.WorkerSleeps | source/cdns.c:393-406 | with nothing pending it sleeps and has given the lock back |
| DnsProtocol.PollTakes | source/cdns.c:185-227 | a poll reads one byte and takes the first result, or none if there is none or the worker has the lock |
| DnsProtocol.DeliveredInOrder | source/cdns.c:473-513 | a later request is delivered before an earlier one only if it was submitted as urgent; one submitted as urgent comes after an earlier one only if that one's place is among those that were dequeued when the urgent one was submitted |
| DnsProtocol.TakenStays | source/cdns.c:137-172 | what that count means: the places of dequeued requests in the order of delivery never change again, in any schedule |
| DnsProtocol.UrgentOvertakes | source/cdns.c:137-172 | so in every schedule an earlier request delivered before an urgent one is one the worker had dequeued when main put the urgent one in the queue |
| DnsProtocol.NoDeadlock | source/cdns.c:185-227 | in a reachable state with the worker not asked to stop, if neither thread can do anything and there is nothing to poll then everything submitted has been delivered |
| DnsProtocol.StepWorks | source/cdns.c:378-427 | every step of either thread that does anything brings the end nearer, by a measure that only submissions and spurious wake-ups raise |
| DnsProtocol.EventuallyDelivered | source/cdns.c:137-227 | after any schedule, every further one without submissions and without a stop that keeps giving both threads steps and main polls delivers everything, in a number of rounds known beforehand but for the spurious wake-ups |
| DnsProtocol.WakeupsCanStarve | source/cdns.c:154-165 | their count is needed: a schedule with a spurious wake-up in every round in which main never gets the pending lock |
| DnsProtocol.StopSeenIff | source/cdns.c:245-261 | the worker left to itself sees the request to stop if and only if it was not between the quit mutex and the wait with nothing pending |
| DnsProtocol.StopCanBeMissed | source/cdns.c:245-261 | and such a schedule exists |
| DnsQueue.Queue.Dequeue | source/cdns.c:473-486 | the first request goes, the rest stay in order, head and tail stay consistent |
| DnsQueue.Queue.Enqueue | source/cdns.c:489-500 | the request comes last |
| DnsQueue.Queue.EnqueueUrgent | source/cdns.c:505-514 | the request comes first |
| Names.CompareMeans | source/alist.c:221-232 | comparing as many characters as the name has is zero exactly for its extensions and positive exactly for what comes before it |
| Names.LessMeans | source/array.c:201-220 | the order of strings: there is a first difference with the smaller character, or the end, on the left |
| Names.UpperMeans | source/ircaux.c:217-233 | on character codes: the 26 small letters come down by 32, nothing else changes |
| Names.ProbeRight | source/alist.c:191-202 | the masked four-byte hash never contradicts the order of names |
| Names.SignedRight | source/alist.c:195-195 | the unsigned difference of hashes stored in an int has the right sign if and only if it fits |
| Names.MaskedHash | include/alist.h:18-42 | hash and mask together select exactly the characters the name has, up to four |
| NameTable.Table.Find | source/alist.c:166-259 | the position is the first entry with the name as prefix or else where the name would go; the count is how many have it, negative if and only if the name itself is there |
| NameTable.RegionsUnique | source/alist.c:166-259 | position and count are determined by the table and the name |
| NameTable.SidesMonotone | source/alist.c:166-259 | comparisons with a name change sign at most once from left to right, zero on its extensions |
| NameTable.ExactIsFirst | source/alist.c:252-253 | a name that is present is the first of its extensions, so testing the length of that one is enough |
| NameTable.Table.ProbeSearch | source/alist.c:191-211 | the first binary search finds an agreeing hash or the right place |
| NameTable.Table.CompareSearch | source/alist.c:221-242 | the second finds an extension or the right place |
| NameTable.Table.Add | source/alist.c:35-62 | as a map: the name now has the item; an entry of the same name is returned; strict sorting is kept; in the list: replaced or inserted at the place that the search finds |
| NameTable.Table.Pop | source/alist.c:82-94 | exactly the item at the position goes |
| NameTable.Table.Remove | source/alist.c:67-79 | as a map: exactly the name goes, prefixes are not enough |
| NameTable.Table.RemoveFirst | source/alist.c:99-116 | one entry with the prefix goes, or there was none |
| NameTable.Table.RemoveAll | source/alias.c:1320-1340 | repeating that terminates and removes exactly the entries with the prefix |
| NameTable.InsertSorted | source/alist.c:35-62 | inserting where the search says keeps strict sorting and adds one name to the map |
| NameTable.RemoveSorted | source/alist.c:82-94 | removing keeps strict sorting and takes one name from the map |
| NameSlots.MoveItems | source/alist.c:146-164 | every slot after a move, in either direction; only a move up clears what it vacates |
| NameSlots.Insert | source/alist.c:49-60 | making room and storing is inserting into the sequence |
| NameSlots.TakeOut | source/alist.c:82-94 | closing the gap is removing from the sequence |
| NameSlots.StoreAdded | source/alist.c:35-62 | slots that hold the table's entries in order do so after an addition, given room for one more; entries and map as of the table |
| NameSlots.StorePopped | source/alist.c:82-94 | the same for taking one out |
| NameSlots.UpAndDown | source/alist.c:146-164 | a move up and the move down after it restore the entries; the last stays behind past the end |
| AliasCache.Variables.Find | source/alias.c:1061-1127 | returns exactly the table's entry of that name, cached or not; the slots are rotated by the entry's old slot or the last, and stay the most recently found live entries in order |
| AliasCache.Variables.Assign | source/alias.c:868-900 | the variable has the value afterwards, every other is unchanged, an existing entry is kept, the cache slots stay as they are; an empty value deletes |
| AliasCache.Variables.Delete | source/alias.c:1342-1365 | the name is gone from the table and from every slot; the other slots stay |
| AliasCache.Variables.DeleteAll | source/alias.c:1320-1340 | exactly the variables with the prefix are gone, none stays cached; it needs a cache or nothing to delete |
| AliasCache.AssignedOnly | source/alias.c:868-900 | the need is real: after an assignment there is a variable and still no cache |
| AliasCache.Variables.Destroy | source/alias.c:1922-1946 | table and cache are empty |
| AliasCache.FrontKeepsOrder | source/alias.c:1099-1106 | the rotation is a move to front in the order of last use, for a hit and for a miss, gaps included |
| AliasCache.FrontSlots | source/alias.c:1099-1106 | the same slot by slot: those before the one given up move back by one, those behind it stay |
| AliasCache.ForgetKeepsOrder | source/alias.c:1349-1353 | clearing a deleted entry keeps the slots the most recently used ones |
| ScriptArray.Items.FindItem | source/array.c:201-220 | a position holding the text, or where it would go and it is nowhere |
| ScriptArray.Items.InsertIndex | source/array.c:226-242 | the new number is inserted at the position, at 0 if it is the first |
| ScriptArray.Items.MoveIndex | source/array.c:248-267 | one entry moves, the others keep their order |
| ScriptArray.Items.FindIndex | source/array.c:277-294 | the one position of the item, with and without the shortcut, equal texts or not |
| ScriptArray.Items.Replace | source/array.c:653-662 | only the named item changes; the index stays a sorted permutation |
| ScriptArray.Items.Append | source/array.c:663-672 | one item is added; the index stays a sorted permutation |
| ScriptArray.Items.Drop | source/array.c:881-891 | the item's position goes from items and index, higher numbers come down by one |
| ScriptArray.ReplaceSorted | source/array.c:653-662 | moving the entry to where the new text was searched among the old ones keeps the index sorted |
| ScriptArray.DeleteSorted | source/array.c:881-891 | renumbering and removing keeps permutation and sorting |
| ScriptArray.MovePermutation | source/array.c:248-267 | moving an entry keeps the index a permutation |
| ArrayRegistry.Registry.SetItem | source/array.c:631-703 | return code and resulting contents of all arrays are those of SetLaw |
| ArrayRegistry.Registry.DelItem | source/array.c:858-898 | return code and resulting contents of all arrays are those of DeleteLaw |
| ArrayRegistry.SetLaw | source/array.c:631-703 | in every case, by name, item and size: the code from -2 to 2, and position by position the array afterwards; no other array is touched |
| ArrayRegistry.DeleteLaw | source/array.c:858-898 | in every case: the code, and position by position the array afterwards, what was behind the item having come down by one; the only item takes the array with it; no other array is touched |
| ArrayRegistry.Registry.DeleteArray | source/array.c:319-358 | the name and its contents go; every other name keeps its own |
| ArrayRegistry.Registry.Get | source/array.c:300-311 | the array of the name in upper case, if there is one |
| ArrayRegistry.ContentsRemoved | source/array.c:319-358 | closing both gaps keeps every other name paired with its contents |
| ArrayRegistry.AddThenDelete | source/array.c:48-66 | deleting what was just added or created restores everything |
| ArrayRegistry.FillKeepsOrder | source/array.c:73-82 | adding at the end again and again builds exactly that array |
| Keys.ParsedReaches | source/keys.c:826-958 | all keys but the last lead from the starting state to the returned one, every earlier meta binding leads where it did, no other binding than the first new key's is lost; the condition is sufficient and shuts out only first keys that come again and could be linked in the starting state |
| Keys.ParsedReachesExactly | source/keys.c:926-951 | in every case: they lead there if and only if the chain does not come by the place of the last link, or the keys after that lead there from the beginning of the chain |
| Keys.ParsedFree | source/keys.c:769-784 | the last key is unbound in the returned state, unless it comes earlier |
| Keys.ParsedOnlyLinks | source/keys.c:926-951 | parsing a sequence adds nothing but links to meta states, marked as changed and without text |
| Keys.ParsedAgain | source/keys.c:826-958 | parsing the sequence again comes to the same state and changes nothing |
| Keys.EarlierSequencesKept | source/keys.c:410-442 | every sequence that led somewhere still leads there |
| Keys.RepeatedKeyMayMiss | source/keys.c:926-951 | a repeated first key for which the claim fails |
| Keys.RepeatedKeyMayArrive | source/keys.c:926-951 | a repeated first key, linked in the starting state, for which it holds all the same |
| Keys.ChainLinks | source/keys.c:926-945 | the links made backwards lead forwards, key by key, and nothing bound is lost |
| KeyTable.Table.ParseKey | source/keys.c:826-958 | the loops over buffer and table do exactly that |
| KeyTable.Table.FindMetaMap | source/keys.c:769-784 | the state is the highest above 4 in which the key is unbound, the table being unchanged, or a new empty one at the end if it is bound in all of them |
| KeyTable.Table.NewKey | source/keys.c:410-442 | kind 0 leaves the key unbound, any other kind leaves it bound to exactly that kind, mark and text; every other binding of every map is unchanged |
| KeyTable.Table.ResizeMetamap | source/keys.c:267-338 | growing adds empty maps, shrinking drops the rest and every binding that would lead there; the table has the size asked for |
| KeyTable.ResizedInRange | source/keys.c:267-338 | no binding leads out of the table afterwards, all others are kept |
| KeyTable.GrowThenShrink | source/keys.c:267-338 | growing and shrinking back loses nothing |
| GlobMatch.MatchSegment | source/glob.c:412-767 | compiling and matching accepts exactly the names the pattern reads as standing for |
| Glob.Compile | source/glob.c:412-464 | the compiled form is that of the reading, runs of stars collapsed |
| GlobMatch.Match | source/glob.c:708-767 | on compiled patterns, exactly the declarative meaning; terminates on every input |
| GlobLaws.LiteralsLaw | source/glob.c:752-763 | a pattern of ordinary characters accepts exactly the name spelled the same, or, if case does not matter, exactly the names that differ from it in the case of the 26 letters only, said of character codes |
| GlobLaws.OrdinaryLaw | source/glob.c:752-763 | an ordinary or quoted character in front of any pattern |
| GlobLaws.StarLaw | source/glob.c:721-728 | `*` stands for any run of characters |
| GlobLaws.AnyLaw | source/glob.c:729-732 | `?` stands for any one character |
| GlobLaws.SetLaw | source/glob.c:419-445 | a set, or with `!` its complement, stands for one character that its text lists or has in a range; a bracket that comes first closes nothing |
| GlobLaws.OpenLaw | source/glob.c:419-428 | an opening bracket that nothing closes stands for itself |
| Glob.CollapseAccepts | source/glob.c:451-458 | collapsing runs of stars does not change what is accepted |
| Glob.AcceptsConcat | source/glob.c:708-767 | a pattern in two parts accepts exactly what splits into names of the parts |
| Glob.CompileStep | source/glob.c:412-464 | what each element adds to the buffer |
| Braces.ExpandIsWords | source/glob.c:206-332 | what the recursion emits is, behind any lead, the words of csh in order and with repetitions, but that exactly the empty words that are marked come out as a sole pair of braces |
| Braces.ExpandExactly | source/glob.c:206-332 | it is the words exactly if and only if there is a lead or no choice of alternatives leaves an empty pair of braces alone |
| Braces.TwoPairs | source/glob.c:206-221 | an input where it is not: the only word of `{}{}` is empty, and `{}` is handed on; `{,}` gives two empty words |
| Braces.LeavesBracesIsSole | source/glob.c:206-332 | that condition, read off the tree, is that some word is empty and marked |
| Braces.WordsAppend | source/glob.c:206-332 | the words of a concatenation are all pairs, the second changing fastest |
| BraceLaws.GroupLaw | source/glob.c:206-332 | said of characters, for alternatives with nested braces too: the words of a group and the text behind it are every word of an alternative, in their order, with every word of that text |
| BraceLaws.CharLaw | source/glob.c:206-332 | any other character stands in front of every word of what follows it, commas outside braces and quoted braces included |
| BraceLaws.ProductAt | source/glob.c:272-325 | which word stands where: the later choice changes fastest |
| BraceLaws.SolePair | source/glob.c:214-216 | `{}` alone is handed on as it is |
| BraceText.GlobExp1 | source/glob.c:206-221 | what it hands on is the expansion; terminates, each recursion having one opening brace less |
| BraceText.GlobExp2 | source/glob.c:230-332 | one brace: each alternative in turn between what stands before and after |
| BraceText.ExpandBraces | source/glob.c:206-332 | the whole, on every balanced text without brackets: the words with the marked empty ones replaced, hence the words themselves exactly under that condition |
| BraceText.BalancedExactly | source/glob.c:230-270 | the balanced texts without brackets are exactly the texts of trees |
| BraceText.ParseUnparse | source/glob.c:230-332 | a text has one tree only |
| BraceText.SplitPieces | source/glob.c:272-325 | the scan over commas at depth 0 yields the alternatives |
| Memmove.Memmove | source/compat.c:2059-2122 | the destination holds what the source held, everything else is unchanged, for every overlap, alignment and length; words are copied only when aligned and not overlapping |
| Memmove.Forward | source/compat.c:2074-2097 | the forward copy |
| Memmove.Backward | source/compat.c:2098-2119 | the backward copy |
| Memmove.LowBits | source/compat.c:2078-2084 | what the two tests of the low bits mean |
| Memmove.HeadForward | source/compat.c:2078-2090 | after the single bytes both addresses are on word boundaries, or nothing is left; there is at least one exactly if an address is off a boundary, so the loop that tests at its end is right |
| Memmove.HeadBackward | source/compat.c:2104-2114 | the same from the ends |
| HookList.List.AddToList | source/hook.c:1394-1421 | one hook is added under its key, the list stays linked and strictly sorted |
| Hooks.FoldedMeans | source/ircaux.c:699-744 | two nicks count as the same exactly if they are as long and differ only in the case of letters or in the three pairs of brackets after them |
| HookList.List.RemoveFromList | source/hook.c:1424-1441 | exactly the hook of the key goes and is returned |
| HookList.List.AddHook | source/hook.c:295-324 | the key has the new hook, any old one is replaced |
| HookList.List.RemoveLevel | source/hook.c:421-461 | exactly the hooks of the serial number go, or all for 0; the others are kept |
| HookList.List.Collect | source/hook.c:637-722 | collects exactly the first best scorer of every serial number that has one, serial numbers strictly ascending, as many as there are serial numbers scored under; the panic over a descending one cannot happen |
| Hooks.BestExists | source/hook.c:637-722 | a serial number has a selected hook if any of its hooks scores above zero |
| Hooks.OnePerLevel | source/hook.c:637-722 | the selected hooks are as many as the serial numbers that any hook scores under |
| Hooks.OneMore | source/hook.c:697-707 | one more hook of the same number: what is the best so far |
| Hooks.NextLevel | source/hook.c:662-678 | a new number: the best of the last one is collected |
| Hooks.ViewInserted | source/hook.c:1394-1421 | inserting where the walk stops keeps strict sorting and adds one key |
| Hooks.ViewRemoved | source/hook.c:1424-1441 | removing keeps strict sorting and takes one key |

## Left out

- ExprTheorems.MathevalCorrect: starts from lexemes. The scanning of characters into lexemes (white space, `$`, adjacency of words, quotes) is not modelled; the lexer's decisions that depend on its `operand` flag are.
- ExprTheorems.MathevalCorrect: what happens to a tree whose entries do not fit the table or whose operands do not fit the stack is covered by AnyInput only, as bounds.
- ExprImplied.ImpliedLaw: behind a lone `*` the short-circuiting operators, the comma and assignments other than `=` are covered by AnyInput only, as bounds.
- ExprTheorems.SkippedBranch: only if the branch not taken has no `*`; with `*` MathevalCorrect still gives the result, and SkipExactly what the skipped part stores.
- ExprTheorems.AnyInput: messages to the user on malformed input are not part of the result.
- ExprMachine.GetExpanded: floating point, and text from and to numbers, are uninterpreted functions of the host; integers taken through a double lose no precision here.
- Tokens of the table that no lexeme produces (`ExpError`, `??` and the like), `args_flag`, and debugging output of the engine.
- DnsProtocol.InvStep: the lookup itself is an arbitrary step; thread cancellation, `kill_dns`, signals and the clean-up after them are left out, as is what a callback does other than submitting requests.
- NameTable.Table.Find: names are non-empty and of 7-bit characters, tables case-sensitive; `find_fixed_array_item`, the statistics counters and `ci_alist_hash` are left out.
- NameTable.Table.Add: the storage is a sequence. Its slots are modelled apart, in NameSlots, as following the table, given room: without `check_array_size`, whose halving does not keep room once removals come between additions.
- AliasCache.Variables.Find: stubs, the name `::`, local variables, hit statistics and the revocation counter are left out; upper-casing of names is the caller's.
- ScriptArray.Items.FindItem: items are strings without an embedded zero; splitting of arguments and conversion of numbers in the built-in functions are left out, and so are the functions that only read.
- KeyTable.Table.ParseKey: starts after `^X` notation and a leading META description; requires at least five meta maps and that no binding leads out of the table, which `/BIND` with an unchecked META number can break. Untouched meta maps are empty maps.
- GlobMatch.MatchSegment: one path segment; the walking of directories, tilde expansion and sorting are left out. Names and patterns are of single bytes.
- BraceText.ExpandBraces: unbalanced braces are left out (there the source hands on a buffer it has not terminated), and so are brackets inside a brace pattern.
- HookList.List.Collect: the score is an arbitrary function of the hook; expansion of flexible patterns and the running of what was collected are left out. The collection is a growing sequence, where the source has 2048 slots without a test; the sequence's length is given.
- HookList.List.AddHook: numeric lists, which repeat the same code one level down, are left out.
- Memmove.Memmove: addresses do not wrap around.
- Sockets, files, processes, windows, the help pager, and the older expression parser of `source/expr.c`.
