# Proofs about the simulator's protocol and data-structure code

A Dafny 4.11 model of nine parts of the INET-based LoRa simulator, with proofs that verify from this directory with
`dafny verify dfyconfig.toml`.

- **Interval tree** (`IntervalTree*.dfy`). A red-black tree of linked nodes with the sentinels `nil` and `root`, a
  `max_high` augmentation and a hand-made recursion stack for queries. The class `IntervalTrees.IntervalTree` has the
  nodes' fields as maps from node address to field value (`left[n]` is `n->left`) and performs the source's assignments
  one by one. A ghost tree, the *shape*, is what the links spell out; a zipper (`Ctx`) names a position in it. Rotations,
  insertion with its fix-up loop, deletion with splicing, taking over a node's place and its fix-up loop are proved to
  keep the links, key order, colours, black heights and `max_high`, and to add or remove exactly one entry. Queries are
  proved to report exactly the overlapping intervals in preorder.
- **Shortest paths** (`Topology*.dfy`). Dijkstra's algorithm with a sorted list, node weights and enabled flags, and
  breadth-first search, on arrays of distances and out-paths; distances are real numbers or infinity.
- **Hierarchical state machines** (`Macho*.dfy`). The run-to-completion loop, recursive entry and exit, and history
  bubbling. A state is its chain of superstates; every entry, exit and init action is recorded in a trace. User code is
  a parameter: an init action is any function of the state and the whole trace, an event is what its handler does. A
  *run* (`MachoRuns.dfy`) is a sequence of configurations, each step of which performs the pending transition or, if there
  is none, the pending event; the methods are proved to go through the one run that leads from their start to its end.
  `MachoHistory.dfy` proves over whole runs what histories are for.
- **Glob patterns** (`Pattern*.dfy`). The tokenizer and the backtracking matcher, case-sensitive. What patterns are
  documented to accept is stated on *pieces*, literal text and wildcards, and proved of the texts they are spelled as
  (`PatternMeaning.dfy`).
- **DHCP** (`Dhcp*.dfy`). Server and client handlers as classes, proved to do what functions on their states say, and on
  those functions a network of one server and any number of clients whose messages may be lost, duplicated, reordered
  and delivered to anyone (RFC 2131, sections 4.3.1, 4.3.2 and 4.4.5). Every transaction id is new, and timers fire on time.
  What is answered to which message is also stated message by message (`DhcpAnswers.dfy`), and from every state that runs
  reach they can go on to serve a client (`DhcpProgress.dfy`).
- **128-bit integers** (`Int128*.dfy`). Two words of two's complement; the wrap-around of every word is written out.
- **Fragment reassembly** (`Reassembly.dfy`).
- **The LoRa MAC** (`LoRaMac*.dfy`). The window protocol; what the radio reports while its mode is being set, receptions,
  drops and transmission states alike, is given by an arbitrary finite script, and those events are handled re-entrantly.
  The recursive methods are proved to do what a machine with a stack of tasks does one after the other
  (`LoRaMacRuns.Outcome`), so no report is lost or handled out of turn; what reports can do is proved about that machine,
  and so is how the receive windows open and close (`LoRaMacWindows.dfy`).
- **Noise and the static ray-tracing cache** (`Noise.dfy`, `OpalCache.dfy`). The sweep that sums interfering powers, and
  the cache that replays traced powers in static scenes. The tracer is an arbitrary function of transmitter and receiver.

Some properties turned out to hold only under a condition, which is proved to be exact:

- A query starting at `nil->max_high` itself can lose a right child below a node without left child
  (`IntervalTreeQuery.LostRightChild`). On a given tree a query is exact if and only if it starts above it or no node
  without left child has a right child whose key it reaches (`IntervalTreeQuery.ExactIff`); queries are exact on every
  tree if and only if they start above it (`IntervalTreeQuery.ExactAboveNil`).
- The weighted search fails an assertion if and only if a node that reaches the target at finite cost has a bad weight
  (`Topologies.Topology.CalculateWeightedSingleShortestPathsTo`).
- A new client that asks for an address is offered it even if it is on record for another, whose record is lost; the
  comment in the source says otherwise (`DhcpAnswers.NewIsOfferedWhatItAsksFor`). The clients of the network never ask.
- In numerals one letter more than the radix has counts as a digit, so that "1a" is read as twenty
  (`Int128s.LettersReachTooFar`).
- Reading back the decimal text of a 128-bit number gives the number if and only if it is not the least one, which is
  printed as "-0" (`Int128s.PrintedIsReadBack`). `Int128Words.LessIsOrder` says exactly when the comparison operator is
  numeric order.
- Division by a 128-bit number other than zero ends if and only if it is not the least one
  (`Int128s.EndsUnlessLeast`).
- A frame's transmission outlasts its own entry action if and only if none of the reports during that action is idle
  while transmitting is recorded (`LoRaMacs.LoRaMac.HandleUpperPacket`, `LoRaMacRuns.Uppers`).
- The last window timer leads back to idle if and only if the machine is listening by then
  (`LoRaMacWindows.LastTimerCloses`), because receptions can outlast their window. Any state but the wait for the first
  window can be left without a timer (`LoRaMacWindows.LeftWithoutTimers`); reports of dropped packets then lead back to
  idle (`LoRaMacWindows.BackToIdle`).
- A pattern without numeric ranges matches as a substring if and only if some part of the line matches it
  (`PatternSyntax.SubstringIsSomePart`); with one it need not (`PatternSyntax.RangesTakeAllDigits`).
- The noise over time is right if and only if the listening ends after it starts or has no background noise
  (`Noise.ExactIff`): both background changes at one time leave only the first.

The attribute `{:induction false}` stands on lemmas that recurse and on those for which Dafny would otherwise try an
induction of its own.

## Model

| member | source | states |
|---|---|---|
| IntervalTrees.IntervalTree.Query | inet/src/inet/common/IntervalTree.cc:515-562 | a query from above `nil->max_high` returns the stored intervals overlapping [low, high], each once, in preorder, and leaves the stack at height 1; one from `nil->max_high` does so exactly if nothing is hidden from it; any query does what the pruned walk does |
| IntervalTreeQuery.QueryIsComplete | inet/src/inet/common/IntervalTree.cc:503-562 | pruning left subtrees by `max_high` and right subtrees by the marks loses no overlapping interval of any sorted, augmented tree |
| IntervalTreeQuery.RunFinds | inet/src/inet/common/IntervalTree.cc:515-562 | from any state of the loop, on any tree and for any query, the walk with its frames and marks reports what the recursive search of the subtrees left to visit finds |
| IntervalTreeQuery.ExactIff | inet/src/inet/common/IntervalTree.cc:530-556 | on a given balanced, sorted, augmented tree a query is exact if and only if it starts above `nil->max_high` or no node without left child has a right child whose key it reaches |
| IntervalTreeQuery.ExactAboveNil | inet/src/inet/common/IntervalTree.cc:530-556 | queries are exact on all balanced, sorted, augmented trees if and only if they start above `nil->max_high` |
| IntervalTreeQuery.LostRightChild | inet/src/inet/common/IntervalTree.cc:530-560 | a concrete tree on which a query from `nil->max_high` misses a right child |
| IntervalTreeQuery.SkipRight | inet/src/inet/common/IntervalTree.cc:550-557 | a right subtree is skipped only if nothing in it overlaps: the left one reached up to the query and held no hit |
| IntervalTreeQuery.OverlapMeansCommonPoint | inet/src/inet/common/IntervalTree.cc:503-513 | two intervals overlap exactly if they have a point in common |
| IntervalTrees.IntervalTree.Push | inet/src/inet/common/IntervalTree.cc:532-543 | the frame is pushed with the current parent's index and no mark, a full stack is doubled and keeps its contents |
| IntervalTrees.IntervalTree.Insert | inet/src/inet/common/IntervalTree.cc:195-256 | insertion keeps the tree linked, sorted, free of red-red edges, equal in black height and augmented, and puts the one new entry behind all keys up to its own |
| IntervalTrees.IntervalTree.InsertFixup | inet/src/inet/common/IntervalTree.cc:204-255 | the colour loop restores balance without changing the entries or their order |
| IntervalTrees.IntervalTree.RecursiveInsert | inet/src/inet/common/IntervalTree.cc:163-184 | the new node hangs where all keys before it are at most its own and all behind are larger |
| IntervalTrees.IntervalTree.FixupMaxHigh | inet/src/inet/common/IntervalTree.cc:186-192 | every `max_high` on the path to the root is recomputed |
| IntervalTrees.IntervalTree.LeftRotate | inet/src/inet/common/IntervalTree.cc:115-137 | the exact new links and `max_high` values of a left rotation |
| IntervalTrees.IntervalTree.RightRotate | inet/src/inet/common/IntervalTree.cc:139-161 | the exact new links and `max_high` values of a right rotation |
| IntervalTrees.IntervalTree.LeftRotateAt | inet/src/inet/common/IntervalTree.cc:115-137 | at any position of the tree the links after a left rotation spell the rotated shape |
| IntervalTrees.IntervalTree.RightRotateAt | inet/src/inet/common/IntervalTree.cc:139-161 | at any position of the tree the links after a right rotation spell the rotated shape |
| IntervalTrees.IntervalTree.DeleteNode | inet/src/inet/common/IntervalTree.cc:443-500 | deletion keeps all of the tree's invariants, removes exactly the entry of the given node and returns its interval |
| IntervalTrees.IntervalTree.DeleteFixup | inet/src/inet/common/IntervalTree.cc:345-416 | the loop pays back the missing black node and keeps entries and augmentation |
| IntervalTrees.IntervalTree.GetSuccessor | inet/src/inet/common/IntervalTree.cc:272-288 | the node of the next entry in key order, or the root sentinel behind the last one |
| IntervalTrees.IntervalTree.RecursiveSearch | inet/src/inet/common/IntervalTree.cc:425-441 | finds a node storing the interval if and only if there is one |
| IntervalTrees.IntervalTree.DeleteInterval | inet/src/inet/common/IntervalTree.cc:418-423 | removes one node storing the interval, or nothing if there is none |
| IntervalTreeShape.HeightIsLogarithmic | inet/src/inet/common/IntervalTree.cc:195-256 | a tree with these invariants is at most 2 log2(n + 1) high |
| Topologies.Topology.CalculateWeightedSingleShortestPathsTo | inet/src/inet/common/Topology.cc:412-469 | unless the target is null, every node's distance is the least cost of all enabled paths to the target and its out-path chain is such a path; an assertion fails exactly if a node that reaches the target at finite cost has a bad weight |
| Topologies.Topology.CalculateUnweightedSingleShortestPathsTo | inet/src/inet/common/Topology.cc:372-410 | breadth-first search labels every node with a path of fewest hops |
| Topologies.Topology.Relax | inet/src/inet/common/Topology.cc:436-466 | relaxing a link keeps the search's invariant, among it the sorted queue, and fails exactly on a usable link of non-positive weight |
| TopologyGraph.NeverRelaxedAgain | inet/src/inet/common/Topology.cc:450-457 | a node taken off the list is never relaxed again; a relaxed node has a finite distance exactly if it is in the list |
| TopologyGraph.NoCheaperPath | inet/src/inet/common/Topology.cc:412-469 | no path costs less than the distance of its source, intermediate node weights included |
| TopologyGraph.FollowOutPath | inet/src/inet/common/Topology.cc:456-457 | following the out-paths strictly decreases the distance, reaches the target and costs exactly the distance |
| TopologyGraph.InfiniteIffCutOff | inet/src/inet/common/Topology.cc:418-421 | a distance is infinite exactly if no path to the target has finite cost |
| TopologyGraph.UnitIsFewestHops | inet/src/inet/common/Topology.cc:372-410 | the distances of breadth-first search are minimum hop counts |
| TopologyGraph.SearchesAgree | inet/src/inet/common/Topology.cc:372-469 | where all links weigh 1 and all nodes 0 both searches find the same distances |
| Machos.Machine.Transition | inet/src/inet/common/Macho.cc:343-387 | a transition exits, enters, remembers and initialises exactly what its two states demand, in order; it fails exactly where an init action names no proper substate |
| Machos.Machine.Move | inet/src/inet/common/Macho.cc:353-372 | from s to t the active states that are t or not above t are exited innermost first, the missing ones entered outermost first, and the superstates of s remember it |
| Machos.Machine.Exit | inet/src/inet/common/Macho.cc:156-173 | exits up to the innermost superstate that stays |
| Machos.Machine.Entry | inet/src/inet/common/Macho.cc:139-154 | enters down from the innermost superstate that stayed, so that the active states are the goal's chain |
| Machos.Machine.SaveHistory | inet/src/inet/common/Macho.h:276-294 | although nothing is passed on where no superstate has a history, every superstate with one ends up remembering |
| Machos.Machine.SetHistorySuper | inet/src/inet/common/Macho.h:725-737 | each superstate with shallow history holds its substate on the way to the state left, each with deep history holds that state, nothing else changes |
| Machos.Machine.Init | inet/src/inet/common/Macho.cc:175-187 | history is gone on to if asked for and there, else the init action runs; the history is forgotten (over runs: `MachoHistory`) |
| Machos.Machine.Settle | inet/src/inet/common/Macho.cc:345-395 | the pending transition and all that init actions and histories ask for on the way are performed, one step of the run each, until none is pending or an init action named no proper substate; each leads further down |
| Machos.Machine.RattleOn | inet/src/inet/common/Macho.cc:339-403 | pending transitions and events are all performed, in the order of the one run from the old configuration: to nothing pending, or to the init action that named no proper substate |
| Machos.Machine.Start | inet/src/inet/common/Macho.cc:248-256 | from Root, the run that enters the start state is performed; it ends in the start state or below |
| Machos.Machine.Dispatch | inet/src/inet/common/Macho.h:1908-1917 | the event is performed and so is all that it and its successors ask for, as the one run says |
| Machos.Machine.Shutdown | inet/src/inet/common/Macho.cc:268-278 | shutdown always succeeds: exactly the chain of the current state is exited, innermost first, and nothing is active or pending |
| MachoRuns.StepsOnce | inet/src/inet/common/Macho.cc:339-403 | what a machine does next, its remembered histories included, is decided by its configuration and the init actions |
| MachoRuns.RunsOnce | inet/src/inet/common/Macho.cc:339-403 | there is only one run to its end from any configuration |
| MachoRuns.EventsInTurn | inet/src/inet/common/Macho.cc:339-403 | along every run the queued events are handled in turn, each once and only while no transition is pending; a run that ends well has handled all of them |
| MachoHistory.HistoryReturns | inet/src/inet/common/Macho.cc:175-187 | a state left below x by one step of a run, with x then left alone, is gone on to when a later step enters x by its history: the substate on the way to it where the history is shallow, the state itself where it is deep; the init action does not run |
| MachoHistory.ReturnEndsBelow | inet/src/inet/common/Macho.cc:339-403 | after such a return, with no event to handle, the run ends at the remembered state or below |
| MachoHistory.HistoryIsForgotten | inet/src/inet/common/Macho.cc:186 | a state entered, and entered by its history again without having been left from below meanwhile, runs its init action |
| MachoHistory.InitActionRuns | inet/src/inet/common/Macho.cc:181-184 | without a history, or where it is not asked for, the init action runs and what it asks for is pending |
| MachoStates.TransitionExact | inet/src/inet/common/Macho.cc:139-173 | what stays active is what both chains share above the goal; exits and entries are exactly the rest |
| MachoStates.SavedDownward | inet/src/inet/common/Macho.cc:384-387 | histories always lead to proper substates, so a history transition satisfies the assertion on init |
| PatternMatchers.PatternMatcher.MatchesLine | inet/src/inet/common/PatternMatcher.cc:358-382 | the answer is the declarative relation between elements and line, whatever the last-two-characters check does |
| PatternMatchers.PatternMatcher.DoMatch | inet/src/inet/common/PatternMatcher.cc:258-356 | the backtracking matcher terminates and decides the relation |
| PatternMatchers.PatternMatcher.MatchAnySeq | inet/src/inet/common/PatternMatcher.cc:317-333 | both shortcuts for `**` give the answer of the general case |
| PatternMatchers.PatternMatcher.IsInSet | inet/src/inet/common/PatternMatcher.cc:245-256 | a character is in a set exactly if one of its ranges holds it |
| PatternMatchers.PatternMatcher.SetPattern | inet/src/inet/common/PatternMatcher.cc:49-110 | the tokenizer terminates, and its elements are those of the text, with `**` at both ends for substring matches; what they accept is what the text is documented to (`PatternMeaning`) |
| PatternMatchers.PatternMatcher.ParseLiteralString | inet/src/inet/common/PatternMatcher.cc:148-162 | literal text with its quoted characters, up to a wildcard or a bracketed range |
| PatternMatchers.PatternMatcher.ParseSet | inet/src/inet/common/PatternMatcher.cc:112-146 | the ranges of a set up to the closing brace, negated only behind a caret, or failure if there is no brace |
| PatternMatchers.PatternMatcher.ParseNumRange | inet/src/inet/common/PatternMatcher.cc:164-191 | a numeric range with optional bounds; on failure nothing is consumed |
| PatternSyntax.TrailingLiteral | inet/src/inet/common/PatternMatcher.cc:322-324 | `**` and a literal match exactly the lines that end in the literal |
| PatternSyntax.LastLiteral | inet/src/inet/common/PatternMatcher.cc:368-377 | a line that matches a pattern ending in a literal ends in it |
| PatternSyntax.PlainMatchesItself | inet/src/inet/common/PatternMatcher.cc:410-415 | a text for which `containsWildcards` is false becomes a full-string pattern that accepts exactly itself |
| PatternSyntax.QuotedMatchesItself | inet/src/inet/common/PatternMatcher.cc:148-162 | a text with a backslash before every character becomes one literal and accepts exactly the text |
| PatternSyntax.SubstringIsSomePart | inet/src/inet/common/PatternMatcher.cc:98-106 | elements without numeric ranges match as a substring if and only if some part of the line matches them |
| PatternSyntax.RangesTakeAllDigits | inet/src/inet/common/PatternMatcher.cc:308-320 | a numeric range that matches a part of a line and yet does not match as a substring |
| PatternMeaning.ReadsAll | inet/src/inet/common/PatternMatcher.cc:49-96 | literal text and wildcards spelled one after the other are read back as just these elements, whatever follows |
| PatternMeaning.PatternAccepts | inet/src/inet/common/PatternMatcher.h:37-44 | a pattern accepts a line if and only if the line can be cut into parts that its pieces accept in turn, each as documented; a numeric range takes all the digits there are |
| PatternMeaning.SetMatches | inet/src/inet/common/PatternMatcher.cc:112-146 | `{x-y}` accepts exactly the one-character lines from x to y, `{^x-y}` exactly the other one-character lines |
| PatternMeaning.InPairs | inet/src/inet/common/PatternMatcher.cc:245-256 | the character pairs read of a set of characters and ranges hold exactly the characters that are listed or in a range |
| PatternMeaning.WildcardsMatch | inet/src/inet/common/PatternMatcher.cc:56-88 | `?` accepts one character and `*` any text, in dotted mode neither with a dot; `**` accepts any text |
| PatternMeaning.RangeMatches | inet/src/inet/common/PatternMatcher.cc:164-191 | `{n..m}` accepts exactly the digits of the numbers from n to m, a bound left out being none |
| PatternMeaning.BracketsMatch | inet/src/inet/common/PatternMatcher.cc:61-66 | literal text and `[n..m]` accept the text, a bracket, the digits of a number from n to m and a bracket |
| PatternMeaning.UnclosedIsRefused | inet/src/inet/common/PatternMatcher.cc:143-144 | a set that is not closed is refused, whatever comes before it |
| PatternMeaning.DanglingIsRefused | inet/src/inet/common/PatternMatcher.cc:151-156 | a backslash at the end of the text is reported, whatever comes before it |
| Dhcp.DHCPServer.ProcessDHCPMessage | inet/src/inet/applications/dhcp/DHCPServer.cc:152-281 | new table and answer are those of the protocol's server step, of which `DhcpAnswers` says message by message what they are |
| Dhcp.DHCPServer.GetLeaseByMac | inet/src/inet/applications/dhcp/DHCPServer.cc:442-455 | an address leased to the MAC, none exactly if there is none |
| Dhcp.DHCPServer.GetAvailableLease | inet/src/inet/applications/dhcp/DHCPServer.cc:457-494 | the requested or the first free address, whose entry is made if missing |
| Dhcp.DHCPClient.Timer | inet/src/inet/applications/dhcp/DHCPClient.cc:216-268 | new state and message of every timer, or the error it raises (timer by timer: `DhcpAnswers`) |
| Dhcp.DHCPClient.Receive | inet/src/inet/applications/dhcp/DHCPClient.cc:393-498 | new state and message for every reply in every state, or the error it raises (reply by reply: `DhcpAnswers`) |
| Dhcp.DHCPClient.AcceptAck | inet/src/inet/applications/dhcp/DHCPClient.cc:630-637 | an acknowledgement sets the three timers and configures the leased address |
| DhcpAnswers.OfferIsHonoured | inet/src/inet/applications/dhcp/DHCPServer.cc:199-219 | a client that requests, of this server, the address on record for it gets an acknowledgement of that address, with its transaction id and the configured times; only the record's transaction id changes |
| DhcpAnswers.OtherIsRefused | inet/src/inet/applications/dhcp/DHCPServer.cc:203-225 | a client that requests any other address of this server gets a refusal, and the table stays as it is |
| DhcpAnswers.RenewalIsGranted | inet/src/inet/applications/dhcp/DHCPServer.cc:251-267 | renewing or rebinding the address on record is acknowledged, and refused where there is no record |
| DhcpAnswers.RebootIsGranted | inet/src/inet/applications/dhcp/DHCPServer.cc:227-250 | a client that starts again and asks for the address on record gets it; the server keeps silent about an address without record |
| DhcpAnswers.KnownIsOfferedItsOwn | inet/src/inet/applications/dhcp/DHCPServer.cc:188-193 | a client with a record is offered its own address again |
| DhcpAnswers.NewIsOfferedTheFirstFree | inet/src/inet/applications/dhcp/DHCPServer.cc:174-187 | a new client is offered the first pool address without record, which is recorded for it |
| DhcpAnswers.NewIsOfferedWhatItAsksFor | inet/src/inet/applications/dhcp/DHCPServer.cc:457-470 | a new client that asks for an address is offered just that one, whoever has it on record |
| DhcpAnswers.OfferIsAccepted | inet/src/inet/applications/dhcp/DHCPClient.cc:413-424 | the first offer is accepted: the address offered is requested of the server that offered it |
| DhcpAnswers.AckBinds | inet/src/inet/applications/dhcp/DHCPClient.cc:425-493 | in each of the four states that wait for it, a matching acknowledgement ends in Bound with the leased address configured and T1, T2 and the lease timer at the times it names |
| DhcpAnswers.NakRestarts | inet/src/inet/applications/dhcp/DHCPClient.cc:434-489 | a refusal restarts the discovery and gives up an address in use |
| DhcpAnswers.StartDiscovers | inet/src/inet/applications/dhcp/DHCPClient.cc:225-238 | a client that starts without a lease, or waits in vain for an answer, begins a discovery |
| DhcpAnswers.StartReboots | inet/src/inet/applications/dhcp/DHCPClient.cc:220-224 | one that starts with a lease asks any server for its address |
| DhcpAnswers.RenewalAsks | inet/src/inet/applications/dhcp/DHCPClient.cc:239-244 | at T1 the client asks to keep its address, with T2 and the lease timer still running |
| DhcpAnswers.RebindingAsks | inet/src/inet/applications/dhcp/DHCPClient.cc:245-255 | at T2 it asks any server |
| DhcpAnswers.LeaseEnds | inet/src/inet/applications/dhcp/DHCPClient.cc:260-265 | at the end of the lease the address is given up and the discovery starts again |
| DhcpProtocol.TableKept | inet/src/inet/applications/dhcp/DHCPServer.cc:167-269 | entries stay in the pool, one per MAC, and no record is ever lost |
| DhcpProtocol.RefusedOnlyWhenFull | inet/src/inet/applications/dhcp/DHCPServer.cc:170-188 | a new MAC's discovery goes unanswered exactly if the pool is full |
| DhcpProtocol.TimersKept | inet/src/inet/applications/dhcp/DHCPClient.cc:216-268 | the first timer to fire is one the state handles: T2 only while renewing, the lease timer never; the scheduled timers stay those of the state and no error is raised |
| DhcpProtocol.MessageKept | inet/src/inet/applications/dhcp/DHCPClient.cc:393-498 | no reply with times in order leads to an error or to timers the state does not handle |
| DhcpProtocol.AlwaysATimer | inet/src/inet/applications/dhcp/DHCPClient.cc:372-391 | a client always has a pending timer its state handles |
| DhcpNetwork.NextKeeps | inet/src/inet/applications/dhcp/DHCPServer.cc:167-269 | every step of the network keeps the system invariant and all records |
| DhcpNetwork.AddressesAreLeased | inet/src/inet/applications/dhcp/DHCPClient.cc:393-498 | in every run every configured address is the one recorded for the client's MAC, lies in the pool and is held by no other client |
| DhcpNetwork.SameAddressForLife | inet/src/inet/applications/dhcp/DHCPClient.cc:315-318 | in every run a client is configured with the same address whenever it is |
| DhcpNetwork.RunsRaiseNoError | inet/src/inet/applications/dhcp/DHCPClient.cc:254-257 | in every run the wrong-state error of T2 and the invalid-state error of `sendRequest` are unreachable |
| DhcpNetwork.ClientsNeverStall | inet/src/inet/applications/dhcp/DHCPClient.cc:372-391 | in every state of every run every client has a pending timer its state handles |
| DhcpNetwork.LeasedIsInUse | inet/src/inet/applications/dhcp/DHCPClient.cc:315-318 | in every state of every run a client in Bound, Renewing or Rebinding is configured with the leased address |
| DhcpProgress.ServiceIsPossible | inet/src/inet/applications/dhcp/DHCPServer.cc:152-281 | from every state of every run in which there is an address for the client, recorded or free, the run can go on so that the client is bound to the address recorded for it |
| Int128Words.AddedValue | inet/src/inet/common/int128.cc:204-214 | addition is exact modulo 2^128 |
| Int128Words.NegatedValue | inet/src/inet/common/int128.cc:162-168 | negation is exact modulo 2^128 |
| Int128Words.ShiftedLeftValue | inet/src/inet/common/int128.cc:352-380 | a left shift multiplies by a power of two modulo 2^128 |
| Int128Words.ShiftedRightValue | inet/src/inet/common/int128.cc:321-350 | a right shift by any number of bits divides by that power of two, rounding down |
| Int128Words.BitValue | inet/src/inet/common/int128.cc:291-300 | reading any bit, beyond the highest too, gives that binary digit of the value |
| Int128Words.WithBitValue | inet/src/inet/common/int128.cc:302-319 | setting a bit adds its weight modulo 2^128, unless it is set already or there is no such bit |
| Int128Words.LessIsOrder | inet/src/inet/common/int128.cc:382-391 | the comparison is numeric order exactly unless the high words are equal and negative and the low words on different sides of 2^63 |
| Int128s.Div | inet/src/inet/common/int128.cc:239-289 | division terminates with a = q b + r, abs(r) < abs(b), r zero or of a's sign; the least number as dividend gives quotient zero |
| Int128s.EndsUnlessLeast | inet/src/inet/common/int128.cc:239-279 | division by a number other than zero ends if and only if the divisor is not the least number |
| Int128s.DivideMagnitudes | inet/src/inet/common/int128.cc:256-279 | the bit loops divide, no shift of them overflows, and they are left after finitely many of the rounds they are made of |
| Int128s.Align | inet/src/inet/common/int128.cc:259-265 | the first loop stops at the first prefix of the dividend that reaches the divisor |
| Int128s.Int128.AddAssign | inet/src/inet/common/int128.cc:204-214 | `+=` is exact modulo 2^128, also on itself |
| Int128s.Int128.SubAssign | inet/src/inet/common/int128.h:128-131 | `-=` is exact modulo 2^128, also on itself |
| Int128s.Int128.MulAssign | inet/src/inet/common/int128.cc:216-237 | `*=` is exact modulo 2^128, also on itself |
| Int128s.Int128.ShlAssign | inet/src/inet/common/int128.cc:352-380 | `<<=` is exact modulo 2^128 |
| Int128s.Int128.DivAssign | inet/src/inet/common/int128.h:133-138 | `/=` leaves the quotient, also on itself; of the least number it leaves zero |
| Int128s.Int128.ModAssign | inet/src/inet/common/int128.h:140-144 | `%=` leaves the remainder although it is written into the dividend; of the least number it leaves the number |
| Int128s.ToString | inet/src/inet/common/int128.cc:37-62 | the text of the value in any radix from 2 to 37, "-0" for the least number; the buffer never runs out |
| Int128s.Int128.Set | inet/src/inet/common/int128.cc:64-109 | the number a text stands for, modulo 2^128 |
| Int128s.PrintedIsReadBack | inet/src/inet/common/int128.cc:37-109 | reading what is printed of a number in decimal gives the number if and only if it is not the least one |
| Int128s.DigitsSum | inet/src/inet/common/int128.cc:52-56 | the digits printed in any radix from 2 to 37 add up to the number by their places, and the first is no zero |
| Int128s.NumeralsAreRead | inet/src/inet/common/int128.cc:74-108 | hexadecimal, octal and decimal numerals are read as what their digits, in upper or lower case, add up to by their places, with the sign in front |
| Int128s.DigitsAreReadBack | inet/src/inet/common/int128.cc:37-109 | `0x` and the hexadecimal, or `0` and the octal digits of a number are read as the number |
| Int128s.LettersReachTooFar | inet/src/inet/common/int128.cc:96-99 | one letter more than the radix has is taken for a digit |
| Reassembly.ReassemblyBuffer.AddFragment | inet/src/inet/common/ReassemblyBuffer.cc:39-77 | adding a fragment does what the specification's Add does, and tells whether the datagram is complete |
| Reassembly.ReassemblyBuffer.MergeStored | inet/src/inet/common/ReassemblyBuffer.cc:79-116 | the loops with erasure make passes until nothing more is taken in |
| Reassembly.AnyOrder | inet/src/inet/common/ReassemblyBuffer.cc:39-116 | for every partition, order and repetition: the main region is the longest received prefix, stored are just the fragments beyond the gap, and the result is true exactly if all arrived |
| Reassembly.NothingMadeUp | inet/src/inet/common/ReassemblyBuffer.cc:47-116 | for arbitrary fragments every offset of the main region was received |
| LoRaMacs.LoRaMac.HandleWithFsm | inet/src/inet/LoRa/LoRaMac.cc:192-298 | every event, whatever is reported during entry actions, keeps the invariant (no window timer in idle or transmit, a queued frame exactly in transmit, no more received than sent) and does exactly what the stack of tasks does; from where the transition leads, reports change no timer, frame or counter and the state only by steps of the table, but may end a transmission, once; where none come, state and radio are as the transition says |
| LoRaMacs.LoRaMac.Fire | inet/src/inet/LoRa/LoRaMac.cc:197-297 | at most one transition fires, the table's, with its timers, queue and counters |
| LoRaMacs.LoRaMac.Enter | inet/src/inet/common/FSMA.h:101-126 | the entry actions, taken in turn from the state then current, do exactly what the stack of tasks does and keep the invariant, although nested events may move the machine on |
| LoRaMacs.LoRaMac.MediumReports | inet/src/inet/LoRa/LoRaMac.cc:300-323 | a report of the radio, with all that is nested in it in order, does exactly what the stack of tasks does; it changes no timer, frame or counter and the state only by steps of the table, unless it ends a transmission: then the four timers run, the queue is empty and one more is sent |
| LoRaMacs.LoRaMac.FinishCurrentTransmission | inet/src/inet/LoRa/LoRaMac.cc:378-385 | the four timers are scheduled, none of them twice, and the frame leaves the queue |
| LoRaMacs.LoRaMac.HandleUpperPacket | inet/src/inet/LoRa/LoRaMac.cc:163-184 | a packet is accepted exactly when idle, and its frame is then sent once; the machine stays in transmit if and only if no report during the entry action is idle while transmitting is recorded, otherwise the windows have started |
| LoRaMacs.LoRaMac.HandleLowerPacket | inet/src/inet/LoRa/LoRaMac.cc:186-190 | frames count only while receiving; one for this node ends the windows with no timer left, one for another node leads back to listening, from where only reports lead on |
| LoRaMacs.LoRaMac.HandleSelfMessage | inet/src/inet/LoRa/LoRaMac.cc:157-161 | a window timer fires: the table's transition, no other timer is touched, and only reports lead on; the end of the second window always leads from listening to idle, and where no reception is reported each timer opens or closes its window |
| LoRaMacs.LoRaMac.TransmissionStateChanged | inet/src/inet/LoRa/LoRaMac.cc:315-322 | at any depth of nesting, the end of a transmission counts it, empties the queue and starts the windows, and in other states takes the table's transition; then the radio sleeps; any other change is only recorded |
| LoRaMacRuns.OutcomeFollows | inet/src/inet/LoRa/LoRaMac.cc:192-323 | over all runs of the stack of tasks, reports change no timer, frame or counter and the state only by steps of the table, except that they may end a transmission, once |
| LoRaMacRuns.InTurn | inet/src/inet/LoRa/LoRaMac.cc:300-323 | tasks are done in turn: all that one brings about, nested reports included, is over before the next begins |
| LoRaMacRuns.Uppers | inet/src/inet/LoRa/LoRaMac.cc:192-214 | for every script of reports: the frame is sent once, and the transmission goes on if and only if none of the reports delivered cuts it short |
| LoRaMacWindows.WindowsOpenAndClose | inet/src/inet/LoRa/LoRaMac.cc:215-276 | where no reception is reported, the four timers lead through first window, pause and second window to idle with no timer left; the radio receives in the two windows and sleeps elsewhere |
| LoRaMacWindows.PacketIsDone | inet/src/inet/LoRa/LoRaMac.cc:197-276 | where nothing is reported but the transmission itself: a packet from above is sent once, both windows open and close at their times, and the machine is idle again |
| LoRaMacWindows.ReceptionIsAwaited | inet/src/inet/LoRa/LoRaMac.cc:230-233 | a reception reported in a window is waited for |
| LoRaMacWindows.EndOfReceptionSleeps | inet/src/inet/LoRa/LoRaMac.cc:303-310 | when its end is reported, the radio sleeps and the frame is still waited for |
| LoRaMacWindows.WindowReopens | inet/src/inet/LoRa/LoRaMac.cc:237-254 | a dropped packet or a frame for another node opens the window again |
| LoRaMacWindows.DropDeafens | inet/src/inet/LoRa/LoRaMac.cc:311-314 | a packet reported as dropped while none is received only puts the radio to sleep, in an open window too |
| LoRaMacWindows.FrameEndsWindows | inet/src/inet/LoRa/LoRaMac.cc:242-250 | a frame for this node is counted and ends the windows with no timer left |
| LoRaMacWindows.LeftWithoutTimers | inet/src/inet/LoRa/LoRaMac.cc:215-296 | over all histories: a state can be left with no timer running if and only if it is not the wait for the first window |
| LoRaMacWindows.LastTimerCloses | inet/src/inet/LoRa/LoRaMac.cc:265-276 | the last timer leads to idle if and only if the machine is listening by then |
| LoRaMacWindows.ReportsLeadToIdle | inet/src/inet/LoRa/LoRaMac.cc:215-323 | without timers no report leads away from idle, and a dropped packet leads a step nearer from everywhere |
| LoRaMacWindows.BackToIdle | inet/src/inet/LoRa/LoRaMac.cc:215-323 | without timers as many dropped packets as the state is steps away, four at most, bring the machine back to idle, whatever else is reported |
| Noise.ComputeNoise | inet/src/inet/LoRaPhy/LoRaAnalogModel.cc:125-188 | at every time the changes so far sum to the power of the receptions then on plus the background, exactly if the listening ends after it starts or has no noise; all changes cancel; the noise starts with the first reception on the band and ends with the last; overlapping other bands are refused |
| Noise.ExactIff | inet/src/inet/LoRaPhy/LoRaAnalogModel.cc:165-178 | the exact condition on the listening |
| Noise.ChangeSum | inet/src/inet/LoRaPhy/LoRaAnalogModel.cc:150-159 | one change shifts the power from its time on and at no other |
| Noise.OverlapMeansCommonFrequency | inet/src/inet/physicallayer/base/packetlevel/ScalarAnalogModelBase.cc:29-33 | two bands overlap exactly if they have a frequency in common |
| Noise.TotalMeans | inet/src/inet/LoRaPhy/LoRaAnalogModel.cc:139-178 | the power that the changes are to sum to: wherever a reception on the band stands among the others, it adds its power while it is on |
| Noise.QuietOutside | inet/src/inet/LoRaPhy/LoRaAnalogModel.cc:139-162 | no interferer is on before the noise starts or after it ends |
| OpalCache.OpalLoRaRadioMedium.TransmitPacket | inet/src/inet/LoRaPhy/OpalLoRaRadioMedium.cc:400-447 | tracing or replaying makes the right receptions, fills the cache, and raises no error; rays are traced unless the scene is static and the transmitter in the cache |
| OpalCache.OpalLoRaRadioMedium.QueryReception | inet/src/inet/LoRaPhy/LoRaMedium.cc:310-322 | a later query gives the traced power, or zero for receivers not reached, with the cache as without |
| OpalCache.OpalLoRaRadioMedium.OpalComputeReception | inet/src/inet/LoRaPhy/OpalLoRaRadioMedium.cc:562-652 | the mailbox is emptied into the result and a missing cache entry made; another transmitter's or one's own power is an error |
| OpalCache.OpalLoRaRadioMedium.CreateReception | inet/src/inet/LoRaPhy/OpalLoRaRadioMedium.cc:55-75 | a callback makes its reception at once and leaves the mailbox empty |
| OpalCache.OpalLoRaRadioMedium.TransmitInOpal | inet/src/inet/LoRaPhy/OpalLoRaRadioMedium.cc:486-517 | whatever the order of the tracer's callbacks, all receivers reached have their reception and their cache entry |
| OpalCache.OpalLoRaRadioMedium.Replay | inet/src/inet/LoRaPhy/OpalLoRaRadioMedium.cc:412-431 | replaying gives every receiver reached its reception |
| OpalCache.RunActions | inet/src/inet/LoRaPhy/OpalLoRaRadioMedium.cc:400-447 | every sequence of transmissions and queries gives the tracer's powers, static or not; in a static scene the rays of each transmitter are traced once |

## Left out

- Interval tree: nodes are addresses with a map per field instead of heap objects, the address a new node gets is a parameter, running out of memory is not modelled; `getMaximum`, `getPredecessor` and printing are left out.
- Interval tree: an interval's payload pointer; stored intervals have low <= high, as the class promises.
- Topology: building and editing the graph, and the extraction from a network; both searches run on a given graph.
- Topologies.Topology.CalculateWeightedSingleShortestPathsTo: distances are reals, so rounding and not-a-number are not modelled.
- Macho: boxes are only active or not, so persistent boxes are not told apart; snapshots, aliases, deprecated setters and initialisers with parameters are left out, as is the debug check on dispatching during entry actions.
- Machos.Machine.RattleOn: the chain of events that handlers queue is finite, because an endless one never comes back in the source either.
- PatternMatchers.PatternMatcher.MatchesLine: only case-sensitive matching, because the suffix shortcut compares case-sensitively in either mode; `patternPrefixMatches` is left out for the same reason.
- PatternMatchers.PatternMatcher.SetPattern: a backslash at the end of the text, where the source reads past it, is reported as an error; range bounds are unbounded, and characters compare as unsigned.
- PatternMeaning.PatternAccepts: numeric ranges in brackets are not among the pieces, because their brackets belong to the literal text around them; `PatternMeaning.BracketsMatch` states them behind literal text at the end of a pattern.
- DHCP: lifecycle operations, association signals, relay agents, several servers, routes and netmasks; a request from INIT-REBOOT is handled by server and client but no run restarts a client.
- Int128s.Div: the least number as divisor is excluded, because the source's loop does not end on it (`Int128s.EndsUnlessLeast`).
- Int128: conversions from and to floating point and assignment from negative integers; `|` of words without common bits is addition.
- Reassembly: completeness for partially overlapping fragments, which the code discards.
- LoRa MAC: radio mode switching times are zero, and frame contents and addresses are reduced to whether the frame is for this node; reports come only while the radio's mode is being set, or between events.
- LoRaMacs.LoRaMac.Enter: the switch over states is one method for events and one for entry actions instead of one macro-expanded loop body.
- LoRaMacs.LoRaMac.SendDataFrame: a frame whose transmission is cut short is popped before it is copied; the model sends it as it was.
- Noise: powers are reals and the background noise power, a table look-up, is a parameter.
- Opal cache: ray tracing itself, moving and removed radios, and receivers filtered by range.
- Path loss, bit errors, traffic generators, visualisation and network description files.
