# A verified model of the message loop, the schedulers, isoping, logos and the codecs

This project models the stateful core of the repository in Dafny and proves what it
is for: a timing protocol over a lossy network, a cross-thread message loop, a
cooperative scheduler, byte movers, a rate limiter, codecs and an aging cycler.
`dafny verify dfyconfig.toml` checks everything.

Sockets, clocks, pipes, hash functions and the code inside handlers are inputs: an
arbitrary value, an arbitrary non-decreasing time, an uninterpreted function, or an
arbitrary script. Every main result holds for all of them, or states the exact condition
on them.

| files | what they model |
|---|---|
| `Collections.dfy`, `Words.dfy`, `Time.dfy` | shared notions; 32- and 64-bit wrap-around; the clock comparisons of base/time.cc |
| `IsopingSession.dfy`, `IsopingAcks.dfy`, `IsopingLaws.dfy`, `IsopingClock.dfy`, `IsopingMeasures.dfy`, `IsopingHandshake.dfy` | cmds/isoping.cc: the session, two endpoints and a network, accounting laws, clock independence, what the measurements mean, the cookie handshake |
| `MessageQueue.dfy`, `MessageQueueLaws.dfy`, `MessageLoop.dfy`, `MessageLoopTrace.dfy`, `DispatcherList.dfy` | base/messagequeue.cc, base/thread.cc, base/physicalsocketserver.cc |
| `TaskTree.dfy`, `TaskRunner.dfy` | base/task.cc, base/taskparent.cc, base/taskrunner.cc |
| `Bytes.dfy`, `FifoBuffer.dfy`, `Flow.dfy` | base/stream.cc |
| `LogosLines.dfy`, `LogosText.dfy`, `LogosLimits.dfy` | cmds/logos.c |
| `Utf8.dfy`, `StringEncode.dfy`, `HtmlEncode.dfy`, `EncodeSafety.dfy` | base/stringencode.cc |
| `Cycler.dfy` | conman/cycler.py |

Objects that the source updates in place are classes whose methods are proved
against functions on immutable values; the properties are lemmas about those
functions and about whole runs. Protocols whose meaning lies in interleavings
(isoping's network, the message loop) are state machines over atomic steps.

## Where a natural claim is false of the code

Each comes with a concrete counterexample and the exact condition under which it
holds.

- A wakeup can be lost. A Get started inside a handler can take the byte that announced
  the reply to a Send waiting beneath it, and that Send then sleeps with its reply at
  hand (`MessageLoop.NestedGetLosesWakeup`). In every interleaving no Send is forgotten
  if and only if no Get takes a byte that a Send beneath it depends on
  (`MessageLoop.NoneForgottenIffCareful`). Starting no Get above a waiting Send of the
  same thread is enough (`MessageLoop.OutsideSendsIsCareful`), and the rule cannot be
  relaxed: an otherwise idle thread that runs a handler above a waiting Send, whose message
  was not yet taken up, can always go on, with one Get, to forget it
  (`MessageLoop.GetAboveSendCanForget`). A Get inside the handler of another Get does no
  harm.
- TaskRunner does not survive every call. A second Start before the first step lists
  a task twice, and the deletion loop then looks at a deleted one
  (`TaskRunner.SecondStartDangles`). A task created under a finished parent stays
  unfinished below it, and its parent is deleted (`TaskRunner.LateChildDangles`). A call
  keeps the runner's invariant if and only if it is neither of these
  (`TaskRunner.ActKeepsIff`); the laws over runs are stated for lawful calls.
- The client's loop over waiting packets need not end: with a rate of zero it sends for
  ever (`IsopingHandshake.ZeroRateStaysDue`). It ends if and only if the rate of a due
  client that has its cookie is not zero (`IsopingHandshake.SettlesIff`).
- The POSIX dispatch loop does not visit every survivor: a handler that removes its own
  dispatcher makes it skip the next one (`DispatcherList.PosixSkips`). A removal leaves
  everything behind ahead of the loop if and only if the cell removed lies behind too, or
  nothing does (`DispatcherList.PosixRemovalIff`); if no handler removes at or before the
  current index, the loop visits exactly the final list
  (`DispatcherList.PosixVisitsFinal`).
- Delayed messages do not always leave in order of their trigger: the priority queue
  compares raw 32-bit times (base/bruno/messagequeue.h), so a triggered message can be
  held back across the wrap (`MessageQueueLaws.WrapHoldsBack`), and two can be returned
  in the wrong order (`MessageQueueLaws.WrapReorders`). A pass moves every triggered
  message, in order, if and only if none has triggered or all lie in one turn of the
  clock (`MessageQueueLaws.PassIsFairIff`); in a run of such passes Get returns them in
  order (`MessageQueueLaws.DelayedAreReturnedInOrder`).
- An abort does not finish every descendant but one. Everything below the busy
  descendant also stays unfinished (`TaskTree.BusyTaskDefersItsChildren`). A
  descendant is finished exactly if no busy one lies on its way up
  (`TaskTree.AbortFinishes`), and the return of Process finishes the rest
  (`TaskTree.SecondAbortFinishesAll`).
- A cookie just issued is not always honoured: a server that has not yet rotated its
  secret issues cookies of epoch 0, which its handler takes for no cookie at all
  (`IsopingHandshake.FirstCookieIsIgnored`). An echoed cookie at most one rotation old is
  honoured if and only if its epoch is not 0 (`IsopingHandshake.EchoedCookieAdmitsIff`).
- The secret does not rotate at most once a second: the time of the last update is kept
  in 32 bits (cmds/isoping.h:183), so from 2^32 us on every call may rotate
  (`IsopingHandshake.TwoRotationsAtOnce`). A second rotation within a second is possible
  if and only if the first came at or after 2^32 us (`IsopingHandshake.RotatesAgainIff`).
- The cached timeout task is not always the earliest: a cached task that moves its own
  deadline stays cached (`TaskRunner.LateMoverStaysCached`). The cache is right after a change if and only if the changed
  task was not cached, lost its deadline, or still comes first
  (`TaskRunner.UpdateIsRightIff`).
- The fast and slow TimeIsLaterOrEqual are not equal: they differ at a distance of half
  the clock, and nowhere else (`Time.FastRefinesSlow`).

## Model

| member | source | states |
|---|---|---|
| `Time.FastRefinesSlow` | base/time.cc:76-123 | The fast TimeIsLater and TimeDiff equal the slow ones on all inputs; the two TimeIsLaterOrEqual agree if and only if the distance is not 2^31 |
| `Time.LaterMeansLater` | base/time.cc:84-123 | Within a window of 2^31 ms the wrapped comparisons decide the true order of the unwrapped times |
| `IsopingSession.Session.HandleAckPacket` | cmds/isoping.cc:723-920 | The in-place handler refines HandleAck on values: loss count, clock estimate, statistics, own ack ring and scan of the peer's; what those values mean is the subject of IsopingMeasures |
| `IsopingSession.LatenessIsDiff64` | cmds/isoping.cc:779-788 | The lateness used throughout is the 64-bit difference assigned to an int32_t |
| `IsopingSession.Session.HandleAcks` | cmds/isoping.cc:877-919 | The received id is recorded in the ring and the peer's ring is scanned, against ExchangeAcks |
| `IsopingSession.Session.ScanAcks` | cmds/isoping.cc:883-917 | The 64-slot loop equals the recursive scan from first_ack on |
| `IsopingAcks.RecordKeepsRing` | cmds/isoping.cc:877-880 | The ring always holds the last 64 received numbers in order, oldest at next_txack_index |
| `IsopingAcks.ScanRefines` | cmds/isoping.cc:883-917 | The 32-bit scan counts exactly what an unbounded counter over true packet numbers counts, if they lie within 2^31 |
| `IsopingAcks.RunKeepsInv` | cmds/isoping.cc:406-434 | Invariant of every run of two endpoints over a network that drops, reorders and duplicates |
| `IsopingAcks.AckedAtMostOnce` | cmds/isoping.cc:877-917 | In every such run the acks counted by a sender are strictly increasing numbers of packets it sent and the peer received, and the count equals their number |
| `IsopingAcks.DeliverCountsAll` | cmds/isoping.cc:883-917 | A later snapshot of an increasing history leaves no countable ack behind |
| `IsopingAcks.AckedExactlyOnce` | cmds/isoping.cc:877-917 | If order is kept, an ack among the last 64 carried by any delivered packet is counted exactly once from then on |
| `IsopingLaws.LossAccounting` | cmds/isoping.cc:755-776 | Between resets the advance of next_rx_id equals packets accepted plus the growth of num_lost, and the 32-bit counters follow the true ones |
| `IsopingLaws.LostMeansMissing` | cmds/isoping.cc:755-776 | With in-order arrival num_lost grows by exactly the number of packets that never came |
| `IsopingLaws.LossIsReported` | cmds/isoping.cc:406-434 | The next packet carries that number to the peer, modulo 2^32 |
| `IsopingLaws.FirstIdLosesNothing` | cmds/isoping.cc:735-776 | The first packet after a reset is expected and nothing is lost before it |
| `IsopingLaws.AddKeepsStats` | cmds/isoping.cc:836-841 | count * sumsq >= sum * sum survives every sample |
| `IsopingLaws.DeviationAlwaysDefined` | cmds/isoping.cc:376-383 | Over every run both deviations are roots of quotients of non-negative numbers |
| `IsopingLaws.RxDiffBounded` | cmds/isoping.cc:778-790 | After the backslide correction rxdiff is never below -20 |
| `IsopingClock.RttShifts` | cmds/isoping.cc:826-828 | Shifting the remote clock by any constant modulo 2^32 leaves the round trip time unchanged and moves the offset by that constant |
| `IsopingClock.TxDiffShifts` | cmds/isoping.cc:888-895 | The same for the transit times read from acks |
| `IsopingClock.HandleAckShifts` | cmds/isoping.cc:723-920 | One packet: shifted session and shifted packet give the shifted session |
| `IsopingClock.RemoteClockOriginCancels` | cmds/isoping.cc:735-917 | Over every run a peer with another clock origin leads to the same statistics, acks and losses |
| `IsopingMeasures.TxDiffIsTransit` | cmds/isoping.cc:883-895 | With the peer's clock `off` behind ours and packet k sent at start + k * usec, the transit time read from its ack is the true one, if it fits 32 bits |
| `IsopingMeasures.AckCountsTransit` | cmds/isoping.cc:883-917 | A counted ack of a session on schedule adds that true transit time to the statistics |
| `IsopingMeasures.RttIsSum` | cmds/isoping.cc:826-828 | With exact estimates rtt is the sum of the two least one-way delays, and the offset differs from the true one by half their difference, rounded |
| `IsopingMeasures.RttOfTwo` | cmds/isoping.cc:406-434 | Two sessions whose estimates stand for the least delays measure the round trip from each other's packets |
| `IsopingMeasures.RxDiffMeans` | cmds/isoping.cc:779-788 | A packet is judged by its true lateness; one more than 20 us early moves the start back by just that much and counts as punctual |
| `IsopingMeasures.FirstPacketAnchors` | cmds/isoping.cc:735-753 | The first packet sets both start times to its own, less its span, and is punctual by them |
| `IsopingMeasures.ReceiveCountsLatency` | cmds/isoping.cc:826-841 | The receive statistics gain the true lateness plus half the true round trip |
| `IsopingMeasures.StatsOfSamples` | cmds/isoping.cc:836-841 | The accumulators are number, sum, sum of squares, last, least and greatest of the samples |
| `IsopingMeasures.CycleSlides` | cmds/isoping.cc:866-875 | At the end of each cycle after the first the start moves forward by exactly the least lateness of the cycle, if that is positive |
| `IsopingMeasures.FirstCycleStays` | cmds/isoping.cc:750-875 | The first cycle leaves the start where it is |
| `IsopingHandshake.Sessions.ValidateCookie` | cmds/isoping.cc:212-244 | Accepts exactly the packets whose epoch is current or previous and whose cookie is the digest under that epoch's secret |
| `IsopingHandshake.Sessions.HandleServerHandshake` | cmds/isoping.cc:689-721 | The client's one session takes the cookie and is requeued; map and queue keep size one |
| `IsopingHandshake.Sessions.SendWaiting` | cmds/isoping.cc:509-547 | Every packet sent is one that was due in its state, in turn, until none is due; the client's map and queue keep size one |
| `IsopingHandshake.SettlesIff` | cmds/isoping.cc:518-545 | The loop ends after some number of packets if and only if it is not a due client with a cookie and a rate of zero |
| `IsopingHandshake.ZeroRateStaysDue` | cmds/isoping.cc:518-545 | With a rate of zero the client stays due however many packets it sends |
| `IsopingHandshake.PacketsArePaced` | cmds/isoping.cc:406-507 | Once a cookie is known, packet k carries the k-th consecutive id and leaves k periods after the first |
| `IsopingHandshake.RetriesBackOff` | cmds/isoping.cc:462-507 | Unanswered handshake packets repeat one id, each delay doubling up to 2^10 fold |
| `IsopingHandshake.EchoIsFaithful` | cmds/isoping.cc:689-721 | The client's next handshake packet is due at once and carries the server's rate, epoch and cookie unchanged |
| `IsopingHandshake.ReplyTakesSlowerRate` | cmds/isoping.cc:436-460 | The reply proposes the slower of the two rates, under the current epoch, with the digest of that rate and address |
| `IsopingHandshake.BothEndsTakeSlowerRate` | cmds/isoping.cc:649-721 | After the handshake client and server both send at the slower of the rates asked for, the server from 10 ms later on |
| `IsopingHandshake.EstablishedRingIsFresh` | cmds/isoping.cc:613-647 | The ack that establishes a client's session is the only one in its ring |
| `IsopingHandshake.AcksAfterCookie` | cmds/isoping.cc:700-701 | After a further cookie the ack of renumbered packet n is counted if and only if n has caught up with the old next_rxack_id |
| `IsopingHandshake.EpochsDiffer` | cmds/isoping.cc:246-264 | In every server run the two epochs differ once the epoch is nonzero |
| `IsopingHandshake.SessionsAreAdmitted` | cmds/isoping.cc:649-687 | In every server run a session exists only after a cookie from its address was accepted |
| `IsopingHandshake.EvictedIffSilent` | cmds/isoping.cc:509-547 | In every server run a session survives if and only if no transmission to it comes more than a minute after its client was last heard |
| `IsopingHandshake.SecretSurvivesOneRotation` | cmds/isoping.cc:258-264 | After one rotation the secret of step i is the previous secret, after none the current one |
| `IsopingHandshake.EchoedCookieAdmitsIff` | cmds/isoping.cc:649-687 | In every server run the echo of a cookie at most one rotation old is admitted, and the session established, if and only if the cookie's epoch is not 0; otherwise there is no session and one more cookie |
| `IsopingHandshake.FirstCookieIsIgnored` | cmds/isoping.cc:656-665 | A server in epoch 0 whose ValidateCookie would accept its own fresh cookie opens no session for it |
| `IsopingHandshake.RotatesAgainIff` | cmds/isoping.cc:246-264 | Of two ticks within a second, the first of which passed the interval check, the second rotates too if and only if the first came at or after 2^32 us and the epoch moved |
| `IsopingHandshake.TwoRotationsAtOnce` | cmds/isoping.cc:246-256 | Two rotations at one instant |
| `IsopingHandshake.RotationsAreSecondsApart` | cmds/isoping.cc:246-264 | In every server run below 2^32 us any two rotations are more than a second apart |
| `IsopingHandshake.ClientStateByTrace` | cmds/isoping.cc:613-647 | In every client run the handshake state is determined by the trace; ESTABLISHED comes only from an ack after the last cookie |
| `MessageQueue.MessageQueue.CollectTriggered` | base/messagequeue.cc:194-204 | Moves triggered delayed messages into the queue, in heap order |
| `MessageQueue.MessageQueue.Get` | base/messagequeue.cc:167-255 | The peeked message first; otherwise the first message that is no disposal request, posted ones before triggered ones, at the first clock reading that has one, and nothing only if no reading has one |
| `MessageQueue.PassesAnswer` | base/messagequeue.cc:183-255 | The passes of Get give that answer, which is said of the queue they find and not of what they do |
| `MessageQueue.MessageQueue.Peek` | base/messagequeue.cc:155-165 | Get without consumption |
| `MessageQueue.MessageQueue.Clear` | base/messagequeue.cc:322-369 | Peeked, posted and delayed messages that match are removed and handed over |
| `MessageQueueLaws.MovedInOrder` | base/messagequeue.cc:194-204 | Only triggered messages move, sorted by the comparator, none behind one that stays |
| `MessageQueueLaws.RawOrderIsTrueOrder` | base/bruno/messagequeue.h:141-152 | The comparator orders two triggers truly if and only if they lie in the same turn of the 32-bit clock |
| `MessageQueueLaws.WrapHoldsBack` | base/messagequeue.cc:194-204 | A triggered message held back by one due after the wrap |
| `MessageQueueLaws.TriggeredLeaveInOrder` | base/messagequeue.cc:194-204 | Within one turn a pass moves exactly the triggered messages, in (trigger, sequence) order |
| `MessageQueueLaws.PassIsFairIff` | base/messagequeue.cc:194-204 | A pass moves every triggered message, in true order, if and only if none has triggered or all delayed messages lie in one turn of the clock |
| `MessageQueueLaws.DelayedAreReturnedInOrder` | base/messagequeue.cc:167-304 | In every run of such passes Get returns delayed messages in (trigger, posting) order |
| `MessageQueueLaws.WrapReorders` | base/messagequeue.cc:194-225 | A run in which Get returns two triggered messages in the wrong order |
| `MessageQueueLaws.ClearIsExact` | base/messagequeue.cc:322-369 | Clear removes exactly the matches, wherever they are held, and reports each of them |
| `MessageQueueLaws.MessagesAreConserved` | base/messagequeue.cc:155-304 | In every run: accepted = returned + cleared or disposed + still held, message by message |
| `MessageQueueLaws.AcceptedOnce` | base/messagequeue.cc:260-304 | Each posting is accepted at most once, and not before its event |
| `MessageQueueLaws.ReturnedAtMostOnce` | base/messagequeue.cc:167-255 | In every run a message is returned at most once, and not also cleared or still held |
| `MessageQueueLaws.PostsAreFifo` | base/messagequeue.cc:206-225 | In every run, whatever the clock does, immediate posts are returned in the order of posting |
| `MessageQueueLaws.ReturnedInTurn` | base/messagequeue.cc:167-280 | In every run a message in line that is no disposal request and is not cleared is returned by at most one Get more than there are messages ahead of it |
| `MessageQueueLaws.PostJoinsLine` | base/messagequeue.cc:260-280 | A post to a queue that is not stopped joins the end of that line |
| `MessageQueueLaws.DelayedAreNeverEarly` | base/messagequeue.cc:194-225 | In every run no delayed message is returned before its true trigger time, across any number of wraps |
| `MessageLoop.EventDispatcher.RaiseSignal` | base/physicalsocketserver.cc:539-547 | One byte in the pipe after a signal, however often it is raised |
| `MessageLoop.EventDispatcher.OnPreEvent` | base/physicalsocketserver.cc:553-563 | The byte is consumed and the flag reset |
| `MessageLoop.StepKeepsInv` | base/thread.cc:373-484 | Every atomic step of every thread keeps the send invariant, and also the wakeup invariant unless a Get takes a byte that a Send beneath it depends on |
| `MessageLoop.RunKeepsInv` | base/thread.cc:373-484 | The send invariant holds in every state of every interleaving, the wakeup invariant in those of every careful one |
| `MessageLoop.NoLostWakeup` | base/messagequeue.cc:183-280 | In every interleaving fSignaled_ holds exactly when the pipe holds one byte. In every careful one a thread in select, from Get or from Send, with a post, delayed post, quit, inbound send or finished reply since it looked, has a byte in its pipe or one being written; MessageLoopTrace ties those fields to the steps taken |
| `MessageLoopTrace.NoLostWakeupByTrace` | base/messagequeue.cc:183-280 | Read off the trace: in every careful run a thread in select inside Get, to which more was posted than its Gets took, or that was told to quit, or got a delayed message since it looked, has a byte in its pipe or one being written |
| `MessageLoopTrace.QueueByTrace` | base/messagequeue.cc:206-280 | In every run the posts to a thread equal its queue plus the queue checks of its that ended a Get |
| `MessageLoopTrace.StopByTrace` | base/messagequeue.cc:142-145 | In every run a thread is stopped if and only if somebody told it to quit |
| `MessageLoopTrace.DelayedByTrace` | base/messagequeue.cc:282-304 | In every run the delayed flag holds if and only if a delayed post came since the thread last found its queue empty |
| `MessageLoopTrace.CheckTakesIff` | base/messagequeue.cc:206-225 | A queue check ends its Get if and only if more was posted than taken |
| `MessageLoopTrace.MessageByTrace` | base/thread.cc:373-484 | In every run a sent message is handled, cleared and taken up exactly as the steps say |
| `MessageLoopTrace.MessagesAreSends` | base/thread.cc:373-406 | There are as many messages as Sends begun |
| `MessageLoopTrace.SendEndsIff` | base/thread.cc:408-431 | A Send at its test goes on to return if and only if its message is completed |
| `MessageLoopTrace.BytesByStep` | base/physicalsocketserver.cc:539-563 | A signal leaves one byte in the target's pipe, a wakeup none in one's own |
| `MessageLoop.NoneForgottenIffCareful` | base/thread.cc:408-430 | No Send with its reply at hand is left without a wakeup if and only if no Get takes a byte that a Send beneath it depends on |
| `MessageLoop.OutsideSendsIsCareful` | base/thread.cc:408-430 | Starting no Get above a waiting Send of the same thread is enough |
| `MessageLoop.GetAboveSendCanForget` | base/thread.cc:408-430 | From every reachable state in which an otherwise idle thread runs a handler above a waiting Send whose message was not taken up, some continuation with one Get forgets that Send |
| `MessageLoop.NestedGetLosesWakeup` | base/thread.cc:408-430 | A run of two threads in which a Get inside a handler takes the announcement of a reply and the Send beneath it blocks for good |
| `MessageLoop.SleepersAreIdle` | base/physicalsocketserver.cc:1262-1380 | In every careful run, with no signal in progress, a thread asleep on an empty pipe has nothing to do |
| `MessageLoop.SendIsSynchronous` | base/thread.cc:373-431 | Send returns only after its message was handled or cleared; no handler starts twice, none for a cleared message; pending means in the target's list |
| `MessageLoop.DoneStaysDone` | base/thread.cc:433-484 | Over every run a completed message never changes and handler starts are never undone |
| `DispatcherList.PhysicalSocketServer.Add` | base/physicalsocketserver.cc:1204-1213 | Appends; running loops are unaffected |
| `DispatcherList.PhysicalSocketServer.Remove` | base/physicalsocketserver.cc:1215-1229 | Erases and moves down every registered index beyond the position |
| `DispatcherList.PhysicalSocketServer.RunHandler` | base/physicalsocketserver.cc:1530-1602 | Whatever a handler does, nested loops included, amounts to a replay of its additions and removals |
| `DispatcherList.PhysicalSocketServer.Dispatch` | base/physicalsocketserver.cc:1530-1602 | The index-registered loop: everything present at the start and never removed is visited, nothing twice, no later addition, indices in bounds |
| `DispatcherList.PhysicalSocketServer.DispatchPosix` | base/physicalsocketserver.cc:1308-1360 | The loop over a plain index visits PosixVisits and leaves PosixEnd |
| `DispatcherList.PosixVisitsFinal` | base/physicalsocketserver.cc:1308-1360 | If no handler removes at or before the current index, the plain loop visits exactly the final list, in order |
| `DispatcherList.PosixVisitsSurvivors` | base/physicalsocketserver.cc:1308-1360 | Then every dispatcher present at the start and never removed is visited |
| `DispatcherList.PosixRemovalIff` | base/physicalsocketserver.cc:1308-1360 | One removal leaves everything behind the current cell still to be visited if and only if the removed cell is behind too, or nothing is |
| `DispatcherList.PosixSkips` | base/physicalsocketserver.cc:1308-1360 | A handler that removes its own dispatcher makes the loop skip the next one |
| `DispatcherList.RemoveKeeps` | base/physicalsocketserver.cc:1215-1229 | A removal anywhere shifts the window of a running loop with the list |
| `DispatcherList.ApplyMeans` | base/physicalsocketserver.cc:1204-1229 | After an addition the dispatcher is listed behind the others, after a removal it is not, and nothing else comes, goes or changes place |
| `DispatcherList.ReplayKeeps` | base/physicalsocketserver.cc:1204-1229 | Any sequence of additions and removals keeps the window of every outer loop |
| `TaskRunner.TaskRunner.AbortTask` | base/task.cc:153-181 | The recursive abort equals a description given for all tasks at once; it ends because child ids exceed parent ids |
| `TaskRunner.TaskRunner.AbortAllChildren` | base/taskparent.cc:84-99 | Walking a copy of the child set while the set shrinks aborts exactly the reachable idle descendants |
| `TaskRunner.TaskRunner.StopTask` | base/taskparent.cc:101-110 | Children aborted, then removed from the parent, with child_error_ set on a failed state |
| `TaskTree.AbortOneMore` | base/taskparent.cc:84-99 | Aborting one more child extends the set of fallen descendants by exactly that child's |
| `TaskTree.AbortFinishes` | base/task.cc:153-181 | After an abort a descendant is done if and only if it was done or no busy task lies on its way up |
| `TaskTree.BusyTaskDefersItsChildren` | base/task.cc:153-181 | A tree on which an abort leaves two unfinished descendants |
| `TaskTree.BusyIsTold` | base/task.cc:153-181 | The one busy descendant is left unfinished with aborted_ set |
| `TaskTree.SecondAbortFinishesAll` | base/task.cc:115-122 | When the Process of that descendant returns, every descendant is done |
| `TaskTree.StopKeepsTree` | base/taskparent.cc:101-110 | Stopping keeps the tree invariant: agreeing links, one stop each, unfinished under finished only if busy and told |
| `TaskTree.BelowDoneIsDone` | base/taskparent.cc:84-110 | With nobody inside Process everything below a finished one is finished |
| `TaskRunner.TaskRunner.RecalcNextTimeout` | base/taskrunner.cc:203-228 | The loop computes Earliest |
| `TaskRunner.EarliestIsMinimal` | base/taskrunner.cc:203-228 | Right after recalculation the cached deadline is minimal among unfinished, not excluded tasks, and set if any has one |
| `TaskRunner.LateMoverStaysCached` | base/taskrunner.cc:182-186 | A cached task that moves its deadline behind another's stays cached |
| `TaskRunner.UpdateIsRightIff` | base/taskrunner.cc:169-201 | After a task's deadline changed, the cached task is the earliest if and only if the changed one was not cached, lost its deadline, or still comes first |
| `TaskRunner.TaskRunner.Perform` | base/task.cc:153-295 | Creation, start, abort, wake, error and timeout calls, lawful or not, against Act and against CallMeans, which says of the new records what each call is for; the invariant survives a call if and only if it is lawful |
| `TaskRunner.ActMeans` | base/task.cc:183-197 | Wake and Error unblock an unfinished task, leave a finished one and everybody else as they were, and Error marks it; a new child is listed, runnable and fresh; a deadline is the seconds from now in 100 ns while the state allows one, and the runner watches one no later |
| `TaskRunner.ReturnIsMeant` | base/task.cc:111-151 | After Process an aborted task is finished, a blocked one waits with its state and deadline, a final state finishes it, any other is taken on, leaves it runnable and renews its deadline; nobody else is woken or put to sleep |
| `TaskRunner.StepMeans` | base/task.cc:86-151 | A step leaves a finished task alone, fails one on which Error was called, and otherwise means what its return means |
| `TaskRunner.FailureIsReported` | base/task.cc:101-115 | A task on which Error was called fails at its next step, and its parent is told |
| `TaskRunner.EndIsReported` | base/taskparent.cc:101-110 | When Process returns a final state the parent loses the child and records exactly whether it failed |
| `TaskRunner.TaskRunner.StepTask` | base/task.cc:86-151 | One step against Step: done, pending error, and every outcome of Process; says whether all calls made inside were lawful |
| `TaskRunner.ActKeeps` | base/taskrunner.cc:56-64 | Every lawful call keeps the runner's invariant, whether or not some task is busy, and deletes nothing |
| `TaskRunner.ActKeepsIff` | base/task.cc:76-84 | A call on an object that exists keeps the invariant if and only if it gives no child to a finished parent and is no second Start before the first step |
| `TaskRunner.SecondStartDangles` | base/taskrunner.cc:97-117 | A run with a second Start after which the deletion loop looks at a deleted task |
| `TaskRunner.LateChildDangles` | base/taskparent.cc:37-44 | A run with a child given to an aborted parent: unfinished below a finished task, and its parent is deleted |
| `TaskRunner.StepKeeps` | base/task.cc:86-151 | Every step, with any script of lawful calls inside Process, keeps the invariant and deletes nothing |
| `TaskRunner.SweepKeeps` | base/taskrunner.cc:97-127 | Deletion with nobody busy leaves no dangling parent, child or cached timeout task |
| `TaskRunner.SweepRemovesExactly` | base/taskrunner.cc:97-117 | Deletion takes away the records and list entries of finished tasks of the list, and leaves every other record alone |
| `TaskRunner.TaskRunner.DeleteDone` | base/taskrunner.cc:97-127 | The two deletion passes remove exactly the finished tasks and recalculate if the cached one went |
| `TaskRunner.TaskRunner.InternalRunTasks` | base/taskrunner.cc:70-136 | Reentry changes nothing. Otherwise the run is a trace of steps of tasks that were not blocked, followed by the deletion; when it settles every remaining task is blocked and not done, and each that could run at the start has taken a step or is gone; it is cut short only by an unlawful call or the end of the script |
| `TaskRunner.RunnableIsStepped` | base/taskrunner.cc:85-96 | In every settled run a task that could run at some point, from the start, woken or in a new state, took a step then or later, or was finished |
| `TaskRunner.BlockedSleeps` | base/taskrunner.cc:85-96 | In every run a blocked task takes no step as long as nobody calls Wake or Error on it |
| `TaskRunner.TaskRunner.PollTasks` | base/taskrunner.cc:138-153 | If the deadline watched has come its task is woken and nothing else changes; otherwise nothing does |
| `TaskRunner.DueIsStepped` | base/taskrunner.cc:138-153 | A task polled when its deadline has come takes a step in the run that follows, or is finished |
| `TaskRunner.DueIsFound` | base/taskrunner.cc:138-153 | With the earliest task cached, a poll finds one that is due whenever there is one |
| `TaskRunner.TaskRunner.Shutdown` | base/taskrunner.cc:50-54 | After the destructor no task is scheduled and none is cached for a timeout |
| `TaskRunner.RunKeepsInv` | base/taskrunner.cc:70-136 | The invariant holds at every stable point of every run of lawful calls |
| `TaskRunner.FinishedForGood` | base/task.cc:86-181 | In every lawful run a finished task and all below it are done, blocked, stopped once and in no child set |
| `TaskRunner.NothingDangles` | base/taskrunner.cc:169-228 | In every lawful run next_timeout_task_ is null or still in tasks_, and an unfinished task's parent exists, is unfinished and lists it |
| `FifoBuffer.FifoBuffer.SetCapacity` | base/stream.cc:756-773 | Succeeds exactly if the contents fit, and keeps them |
| `FifoBuffer.FifoBuffer.ReadOffset` | base/stream.cc:896-916 | The slice of the contents at the offset, across the wrap, or Block or Eos |
| `FifoBuffer.FifoBuffer.WriteOffset` | base/stream.cc:918-943 | Fills spare room at the offset across the wrap and leaves the contents alone |
| `FifoBuffer.FifoBuffer.Read` | base/stream.cc:791-813 | Takes a prefix of the contents; SE_WRITE exactly when the buffer was full and something was taken |
| `FifoBuffer.FifoBuffer.Write` | base/stream.cc:815-836 | Appends as much as fits; SE_READ exactly when the buffer was empty and something was added |
| `FifoBuffer.FifoBuffer.GetReadData` | base/stream.cc:843-848 | A contiguous prefix of the contents, empty only if they are |
| `FifoBuffer.FifoBuffer.ConsumeReadData` | base/stream.cc:850-859 | Drops exactly the given number of bytes |
| `FifoBuffer.FifoBuffer.GetWriteBuffer` | base/stream.cc:861-878 | Contiguous spare room right behind the contents, which it keeps; on a full buffer, the readable bytes up to the end of the array |
| `FifoBuffer.FifoBuffer.ConsumeWriteBuffer` | base/stream.cc:880-888 | Turns spare room into contents |
| `FifoBuffer.FifoBuffer.ZeroCopyAppend` | base/stream.cc:861-888 | Bytes stored in the room given are appended |
| `FifoBuffer.TwoPartCopy` | base/stream.cc:918-943 | The two-part copy is one overwrite of the rotated ring |
| `FifoBuffer.TwoPartRead` | base/stream.cc:896-916 | The two-part read is one slice of the rotated ring |
| `FifoBuffer.FillThenCommit` | base/stream.cc:880-943 | WriteOffset at 0 followed by ConsumeWriteBuffer is an append |
| `FifoBuffer.FillOutOfOrder` | base/stream.cc:918-943 | Pieces filled in any order are appended together |
| `FifoBuffer.FirstInFirstOut` | base/stream.cc:741-943 | Over every run of operations, what came out followed by what is inside is what went in |
| `Flow.WriteAll` | base/stream.cc:66-80 | The sink received exactly the first `written` bytes; Success exactly if all; anything else is the refusal of the last Write; a sink that takes something at each call gets all |
| `Flow.ReadAll` | base/stream.cc:82-96 | The buffer holds exactly what the source gave up; Success exactly if full; anything else is the refusal of the last Read |
| `Flow.Round` | base/stream.cc:1127-1162 | One pass of the outer loop conserves bytes; after a refusal by the source nothing of it is written |
| `Flow.Flow` | base/stream.cc:1112-1168 | On every exit sink bytes followed by the residual equal the old residual followed by source bytes. Success if and only if the source ended and the sink took everything; any other result is the refusal of the source before the buffer was full or of the sink with bytes left. Streams that let the data through get all of it delivered |
| `Flow.Rounds` | base/stream.cc:1126-1163 | The loop of Flow, with the positions of what is left undelivered |
| `Flow.Pump` | base/stream.cc:1112-1168 | Repeated calls deliver a prefix of the source in order, and all of it once done; on streams that let the data through the first call is enough |
| `LogosLines.ReadLoop` | cmds/logos.c:580-631 | For every way of cutting the stream into reads, interruptions included, the flushed pieces and warnings are the same rendering |
| `LogosLines.FeedRenders` | cmds/logos.c:580-631 | A byte-at-a-time machine produces that rendering |
| `LogosLines.NothingLost` | cmds/logos.c:580-631 | The stream can be read back from the flushed pieces |
| `LogosLines.WarningsAreExact` | cmds/logos.c:580-631 | For every stream the pieces have at most 768 bytes and no newline, and a warning stands exactly behind the end of each line that was cut |
| `LogosText.FixBuf` | cmds/logos.c:413-437 | The expanded buffer holds Fixed(buf), within 8 bytes for each input byte |
| `LogosText.Flush` | cmds/logos.c:440-459 | Both ways through flush hand on Fixed(buf), without NULs |
| `LogosText.FixedIsPrintable` | cmds/logos.c:413-437 | Only printable bytes remain, at most eight for each input byte |
| `LogosText.FixedLeavesPrintable` | cmds/logos.c:440-459 | Printable text is unchanged, which justifies the shortcut |
| `LogosText.FixedIdempotent` | cmds/logos.c:413-437 | Fixing twice changes nothing more |
| `LogosText.FixMeans` | cmds/logos.c:413-437 | One more byte: a tab pads to the next multiple of eight with at least one space, a carriage return adds nothing, another control character a backslash, an x and the two digits that spell it |
| `LogosLimits.RateLimiter.MaybeFillBuckets` | cmds/logos.c:259-296 | Refill by elapsed time, each bucket cut to its size, against Filled |
| `LogosLimits.RateLimiter.AllBucketsHaveRoom` | cmds/logos.c:298-335 | Every bucket charged or counting a refusal, notices and back-off, against AfterCharge |
| `LogosLimits.RateLimiter.FlushRateLimited` | cmds/logos.c:339-361 | Written exactly if unlimited, or every mandatory bucket has at least that many bytes after the fill |
| `LogosLimits.RateIsLimited` | cmds/logos.c:257-361 | From any refill, in every run, ordinary bytes stay within max_bytes/2 + fill_rate*elapsed/1000 of each mandatory bucket, and its level in [0, max_bytes] |
| `LogosLimits.RateIsLimitedFromRefill` | cmds/logos.c:259-361 | The same bound for a run that starts with a refill asked for, counted from its first message |
| `LogosLimits.LimitsInUse` | cmds/logos.c:257-361 | With the buckets the program sets up, at most three quarters of a burst in five minutes and one and a half days' bytes in a day |
| `LogosLimits.FillMeans` | cmds/logos.c:259-296 | A bucket is set to half on request, gains elapsed * rate / 1000 up to its size after a second or the back-off, and is left alone before |
| `LogosLimits.PauseAdmits` | cmds/logos.c:259-361 | In every run a message that fits the mandatory buckets is written after a pause of two minutes in which each earns its bytes, whatever was dropped before |
| `LogosLimits.OversizeIsDropped` | cmds/logos.c:298-361 | A message larger than a mandatory bucket is never written |
| `LogosLimits.BackoffDoubles` | cmds/logos.c:298-335 | When dropping begins the back-off doubles, up to two minutes |
| `LogosLimits.BackoffStays` | cmds/logos.c:298-335 | While dropping goes on it stays |
| `LogosLimits.ChargeMeans` | cmds/logos.c:298-335 | In every run a bucket with room pays, the first refusal of a series empties it, later ones leave it; skipping holds exactly after a refusal |
| `LogosLimits.TwoBucketsDecide` | cmds/logos.c:298-361 | Of the three buckets set up, the first two decide and the third only counts |
| `LogosLimits.LevelsStayBounded` | cmds/logos.c:259-335 | In every run every bucket, mandatory or not, stays in [0, max_bytes] |
| `LogosLimits.SkippedCountsRefusals` | cmds/logos.c:298-335 | The skip counter is the number of refusals in a row |
| `LogosLimits.EndNoticeIsExact` | cmds/logos.c:298-335 | An end notice of a bucket appears with a count if and only if it has room again after exactly that many refusals in a row |
| `LogosLimits.StartNoticeIsExact` | cmds/logos.c:298-335 | A start notice appears exactly at the first refusal of a series, with the bucket's rate |
| `Utf8.DecodeEncode` | base/stringencode.cc:234-293 | utf8_decode inverts utf8_encode up to 0x1FFFFF, whatever follows |
| `Utf8.EncodeDecode` | base/stringencode.cc:234-293 | A shortest-form sequence is the encoding of its value |
| `Utf8.EncodeIsUtf8` | base/stringencode.cc:266-293 | The encoding has the layout of section 3 of RFC 3629, carried on to 0x1FFFFF |
| `Utf8.NumberIsPositional` | base/stringencode.cc:417-430 | Digits in any base, up to a character that is none, read as their positional value |
| `Utf8.NumberReadsDecimal` | base/stringencode.cc:386-445 | Decimal digits written for a value read back as that value |
| `StringEncode.Escape` | base/stringencode.cc:63-83 | Full code of the longest prefix that fits, with NUL |
| `StringEncode.EncodeHexEscape` | base/stringencode.cc:104-127 | The same for the hex escape |
| `StringEncode.UrlEncode` | base/stringencode.cc:180-204 | The same for section 2.1 of RFC 3986 with plus signs |
| `StringEncode.XmlEncode` | base/stringencode.cc:353-384 | The same for XML entities |
| `StringEncode.HexEncode` | base/stringencode.cc:454-473 | The same for plain hex |
| `StringEncode.Decode` | base/stringencode.cc:85-102 | The decoding of the source, cut to the room |
| `StringEncode.XmlDecode` | base/stringencode.cc:386-445 | The decoding of the source, entities and character references included |
| `StringEncode.CodeIsDecoded` | base/stringencode.cc:129-151 | A code at the front is recognised for what it is, whatever follows |
| `StringEncode.RoundTrip` | base/stringencode.cc:63-151 | All five codecs: every byte string comes back from its code |
| `StringEncode.LongestFitIsMaximal` | base/stringencode.cc:63-83 | No longer prefix would have fitted |
| `StringEncode.EmittedDecodes` | base/stringencode.cc:180-228 | What an encoder emitted, truncated or not, decodes to the prefix it encodes |
| `EncodeSafety.UrlOutputIsSafe` | base/stringencode.cc:165-204 | For every source the output of url_encode holds no reserved character but percent signs, each with two hexadecimal digits behind it |
| `EncodeSafety.UrlEscapesOnlyReserved` | base/stringencode.cc:165-204 | A byte stands for itself if and only if it is not reserved |
| `EncodeSafety.XmlOutputIsSafe` | base/stringencode.cc:353-384 | For every source the output of xml_encode holds no angle bracket or quote, and an ampersand only where one of the five entities begins |
| `EncodeSafety.XmlNames` | base/stringencode.cc:353-384 | Each of the five characters becomes the entity that names it, every other byte stands for itself |
| `EncodeSafety.EscapeOutputIsSafe` | base/stringencode.cc:63-83 | In the output of escape an illegal byte or a NUL stands only behind the escape character |
| `EncodeSafety.HexEscapeOutputIsSafe` | base/stringencode.cc:104-127 | In the output of encode an illegal byte or a NUL is left only as a digit of an escape, and an escape character that is no digit has its two digits |
| `EncodeSafety.UnescapeReads` | base/stringencode.cc:85-102 | Any byte behind the escape character stands for itself, and so does an escape character at the end |
| `EncodeSafety.UrlDecodeReads` | base/stringencode.cc:206-232 | A plus is a space; what is neither plus nor percent sign stands for itself |
| `EncodeSafety.UrlDecodeReadsPair` | base/stringencode.cc:206-232 | Two digits of either case behind a percent sign give the byte they write |
| `EncodeSafety.UrlDecodeKeepsPercent` | base/stringencode.cc:206-232 | A percent sign without two digits stands for itself |
| `EncodeSafety.HexReferenceReads` | base/stringencode.cc:417-438 | A reference in hexadecimal decodes to the UTF-8 of its positional value |
| `EncodeSafety.HexDecodeStops` | base/stringencode.cc:475-500 | hex_decode stops at the first pair that is none |
| `StringEncode.Split` | base/stringencode.cc:571-584 | The one scan shared by split and tokenize |
| `StringEncode.SplitRoundTrip` | base/stringencode.cc:514-584 | Joining the fields gives the source back, and no field holds the delimiter |
| `EncodeSafety.TokensAreFields` | base/stringencode.cc:571-584 | The tokens are the fields that are not empty, each once and in their order |
| `HtmlEncode.HtmlEncode` | base/stringencode.cc:295-345 | The full code of the first m units, and one more would not fit |
| `HtmlEncode.UnitsPartition` | base/stringencode.cc:295-345 | The units partition the source |
| `HtmlEncode.HtmlRoundTrip` | base/stringencode.cc:295-351 | For shortest-form UTF-8 (section 3 of RFC 3629) any emitted prefix of units decodes to its source |
| `EncodeSafety.HtmlOutputIsSafe` | base/stringencode.cc:295-345 | For every source, wherever the buffer cuts it, the output is ASCII without angle brackets and quotes |
| `Cycler.AgingPriorityCycler.Insert` | conman/cycler.py:47-52 | New priority, age kept |
| `Cycler.AgingPriorityCycler.Remove` | conman/cycler.py:54-56 | The item and nothing else goes |
| `Cycler.AgingPriorityCycler.FindNext` | conman/cycler.py:72-90 | An item of greatest aged priority, or none, and its rebirth when cycling |
| `Cycler.AgingPriorityCycler.Update` | conman/cycler.py:92-107 | Membership replaced, against Updated |
| `Cycler.UpdatedIsListed` | conman/cycler.py:92-107 | Exactly the listed items remain, and those already present keep their age |
| `Cycler.UpdatedPriority` | conman/cycler.py:92-107 | An item has the priority of its last listing |
| `Cycler.PickLeads` | conman/cycler.py:72-90 | The item returned leads in priority times time in queue: of equal priority none is older, of equal age none has a higher priority |
| `Cycler.NothingIffNoneRipe` | conman/cycler.py:72-90 | With positive priorities nothing is returned if and only if nothing is ripe |
| `Cycler.NoRepeatWithinCycle` | conman/cycler.py:72-90 | In every run no item comes twice within the cycle length |
| `Cycler.OvertakingGap` | conman/cycler.py:72-90 | What it takes for y to come twice while x waits: y out-ages x from its rebirth on |
| `Cycler.NoOvertaking` | conman/cycler.py:72-90 | Between two returns of y every x of at least equal priority born no later than the first is returned |

## Left out

- Sockets, select, signals, printing, log text and the other programs: foreign calls, or behaviour settled by one branch.
- isoping: 64-bit overflow of the accumulators, int overflow of rxdiff + rtt/2, the byte order of txtime in the handshake reply, and printed fields. tx.data is a union, and an ack received in HANDSHAKE_REQUESTED would overwrite handshake words; the model keeps both parts.
- IsopingAcks.AckedExactlyOnce: the two-party runs start with both sides established; a further cookie, which renumbers one side, is treated for one ack at a time (AcksAfterCookie).
- isoping: a one-to-one correspondence of session_map and next_sends on a server, which cmds/isoping.cc:157-159 and cmds/isoping.cc:659 do not keep; the size-one invariant is proved for the client.
- IsopingHandshake.Sessions.SendWaiting: requires that the loop ends (SettlesIff gives the condition); on a server, where many sessions share the queue, the loop is one event for each transmission, which may evict.
- IsopingHandshake.Sessions.HandleNewClientHandshake: the sorting of next_sends by time is not modelled, only its contents.
- MessageLoop.StepKeepsInv: Send, ReceiveSends and Get are atomic steps rather than class methods, because what matters is their interleaving. A step is at most one critical section or one unlocked access, and a section is cut where that allows more interleavings. A failed write to the pipe, a select error inside Send, and I/O events inside Wait are left out.
- MessageLoop.SendIsSynchronous: a Send to the caller's own thread, which calls the handler directly, and the refusal of Send after Quit are left out.
- MessageLoopTrace.StopByTrace: Restart, which clears fStop_, is an event of MessageQueueLaws but no step of the loop.
- DispatcherList.PhysicalSocketServer.DispatchPosix: its handlers add and remove; a Wait nested inside one is not covered.
- TaskRunner.TaskRunner.Perform: a call on an object that was deleted or never made is no call in the model.
- TaskRunner.TaskRunner.InternalRunTasks: a run is given by a finite script of Process outcomes, and ends without promise at the first unlawful call; that an endless Process sequence keeps the loop running is not modelled. Error() raised inside a task's own Process that then returns blocked may never be acted on.
- TaskRunner.UpdateIsRightIff: is about one change of a deadline; over whole runs the cached task may also be one that was aborted and not yet deleted, so no claim of minimality is made there.
- TaskRunner.TaskRunner.PollTasks: WakeTasks is taken to run the tasks later, as for every other caller of it; an implementation that runs them at once inside the loop is not covered.
- OnTimeoutChange notifications and virtual overrides of Stop.
- FifoBuffer.FifoBuffer.GetWriteBuffer: capacity zero is excluded, where the source divides by zero.
- FifoBuffer.FifoBuffer.ConsumeReadData: capacity zero is excluded, where the source divides by zero.
- MemoryStream and the other streams of base/stream.cc.
- LogosLimits.RateIsLimited: covers limited mode without the signals that switch or refill, and a clock that never reads 0.
- StringEncode.Decode: one method for the four byte decoders, which differ only in the recognition of one code; letters past f in hex digits follow the code.
- StringEncode.XmlDecode: requires room for the whole output; what happens in tight buffers is not modelled, nor are blanks, signs and 0x accepted by strtoul.
- StringEncode.UrlEncode: the size estimate returned for a NULL buffer is not modelled.
- StringEncode.Split: tokenize with quoting marks is not modelled.
- HtmlEncode.HtmlRoundTrip: malformed and overlong UTF-8 does not come back and is excluded.
- Cycler.AgingPriorityCycler.FindNext: real arithmetic in place of floating point; ties may be broken either way.
