# Verified models of the event loop's data structures, the framed packet stream, and the SOCKS proxy

This project models eight components of the repository and proves what each promises: the intrusive red-black
and splay trees, the thread pool with its completion handshake, the pointer-based binary heap, the framed packet
stream with its ring buffer, the IPv4 and IPv6 text conversion, the circular lists and the handle walk, the SOCKS5
parser and relay session, and the stat poller. `dafny verify dfyconfig.toml` checks all of it.

Code that changes things in place is modelled in place: nodes are objects whose links are rewritten, buffers are
arrays, and every method is proved against a specification function or relation whose own properties are proved as
lemmas. Code shared by threads is a system of atomic steps, and the theorems are about all of its runs.

| component | files |
|---|---|
| red-black tree | `RbShape`, `RbBalance`, `RbLinks`, `RbOrder`, `RbFixup`, `RbTree` |
| splay tree | `SplayShape`, `Splay` |
| thread pool, async handles | `ThreadPool`, `ThreadPoolInv`, `ThreadPoolPlaces`, `ThreadPoolWakeups`, `ThreadPoolLocks`, `ThreadPoolRuns`, `ThreadPoolProgress`, `ThreadPoolOrder`, `ThreadPoolCallbacks`, `Async` |
| binary heap | `HeapPath`, `HeapShape`, `MinHeap` |
| packet stream | `NetPacket`, `FrameScan`, `FrameMeaning`, `PacketSync`, `RingBuffer`, `Pipeline`, `PipelineStalls` |
| address text | `Inet4`, `Inet6`, `Inet6Parse`, `Inet6Forms`, `InetText` |
| lists, handle walk | `Queue`, `Walk`, `WalkResult` |
| SOCKS5 | `S5State`, `S5Messages`, `S5Parser`, `SocksRuns`, `SocksSetup`, `SocksSession` |
| stat poller | `FsPollSpec`, `FsPollRuns`, `FsPoll` |

## How to read the models

- A linked structure has a ghost copy of its links as one value (`heap`), which every assignment to a field keeps up
  to date; what the links look like is then a statement about values, and a loop keeps a position in a ghost tree.
- Mirror-image branches (left and right in the trees, next and previous, minimum and maximum, the two rotations) are
  written once, with the side as a parameter. The two splay loops are written once, with what they look for as a
  parameter.
- Tree and heap elements carry an integer key that stands for their place in the order the caller's comparison
  function defines.
- The thread pool's steps are critical sections or atomic operations. `uv_cancel` comes from the loop thread of its
  work, for a work whose callback has not run yet, and every submission uses its own request.
- In the packet stream the callback of the decoder is the sequence of frames a call returns, the check bytes are 16
  opaque bytes, and `uv_write` succeeds. Which frames a stream holds is said twice: by the reference scan, and by
  `FrameMeaning.Reading`, which speaks only of encodings that stand in the stream. The decoder's end-to-end theorem assumes a tail byte below 128, as
  `FrameScan.DeliveredIffLowTail` shows it must.
- Strings are the characters before the terminator.
- The stat poller and the SOCKS session are each a value with a function that applies a callback to it, and the
  methods of the classes are proved to do what that function says. What holds of all runs is proved of the function.
- In the SOCKS session the callbacks that the event loop still owes are part of that value. The server's rules, the
  outcome of a connect and the local address are parameters. Idle timers expire only while relaying, and closing a stream reports its
  unfinished write as cancelled before the close callback.

## Where the code does not do what it promises

- The comments of `net_base.h` promise network byte order. The bytes written are those of the converted number, which
  is the host's own order: `NetPacket.RoundTrip32` gives the exact condition for a number to arrive unchanged.
- `packet_sync.h:143` compares a `char` with an `unsigned char`: with a tail byte of 128 or more no frame is ever
  delivered (`FrameScan.HighTailDeliversNothing`).
- `TCPClient::Send` wakes the loop before its first write and after its last one only. A packet longer than the ring
  can therefore wait forever for room: `PipelineStalls.RestDeliversIffFits`.
- A counted field of length zero swallows the byte behind it in `s5_parse`: `S5Messages.ReadGreeting`,
  `S5Messages.AuthRecovered` and `S5Messages.RequestRecovered` say exactly when a message is read as it was meant.
- When `uv_tcp_connect` fails at once after a host lookup, `do_kill` waits for one callback more than there will be,
  and the session is never freed: `SocksRuns.LeaksExactly` and `SocksRuns.LeakIsForGood`.
- Three tests never succeed: the case of seven zero words in the IPv4 test of `inet_ntop6`, the test for the root
  behind the unlinking in `heap_remove`, and the second error test of `do_proxy`.

## Model

| member | source | states |
|---|---|---|
| `RbTree.Head.Insert` | libuv-1.x1/include/tree.h:599-626 | Adds exactly the new node at its place in the order, or returns the member that compares equal and leaves every link as it was; in both cases links, search order, colours and black heights are in order afterwards |
| `RbTree.Head.InsertColor` | libuv-1.x1/include/tree.h:408-449 | The loop after an insertion ends, keeps the nodes and their order, and repairs the one red node under a red parent |
| `RbTree.Head.Remove` | libuv-1.x1/include/tree.h:531-596 | Takes out exactly the given member, the two-child case with its successor included, and leaves a well-linked red-black search tree |
| `RbTree.Head.RemoveColor` | libuv-1.x1/include/tree.h:452-528 | The loop after a removal ends, keeps the nodes and their order, and makes up for the one black node a path is short of |
| `RbTree.Head.RemoveBlackSibling` | libuv-1.x1/include/tree.h:467-492 | With a black sibling a pass either moves the shortage up by one level or ends the repair with one or two rotations |
| `RbTree.Head.Rotate` | libuv-1.x1/include/tree.h:342-384 | Either rotation writes exactly the links of a rotation, the parent or root link included |
| `RbTree.Head.Find` | libuv-1.x1/include/tree.h:630-645 | The member with the key, or null exactly when there is none |
| `RbTree.Head.NFind` | libuv-1.x1/include/tree.h:648-666 | The least member not below the key, or null exactly when there is none |
| `RbTree.Head.Step` | libuv-1.x1/include/tree.h:669-709 | The next or the previous member in order, or null at either end |
| `RbTree.Head.MinMax` | libuv-1.x1/include/tree.h:712-724 | The first or the last member, null for an empty tree |
| `RbTree.Head.ForEach` | libuv-1.x1/include/tree.h:738-756 | The loop visits every member once, in ascending or in descending order, and then ends |
| `RbTree.HeightOfValid` | libuv-1.x1/include/tree.h:53-61 | A tree of n nodes has a height of at most 2 lg(n + 1), as 2^height <= (n + 1)^2 |
| `RbBalance.HeightBound` | libuv-1.x1/include/tree.h:53-61 | The same for every red-black shape, from equal black heights and the absence of red pairs |
| `RbOrder.SortedUnique` | libuv-1.x1/include/tree.h:599-626 | The order of the members is fixed by which they are: what insertion and removal say about the sequence is all there is to say |
| `RbOrder.RemovedUndoesInserted` | libuv-1.x1/include/tree.h:531-626 | Removing what was just inserted gives the old members back, in the old order |
| `RbOrder.RemovedMembers` | libuv-1.x1/include/tree.h:531-596 | A removal takes exactly one node from the members |
| `RbLinks.Rotated` | libuv-1.x1/include/tree.h:342-384 | A rotation anywhere in a tree has the rotated tree as its result, with all parent and child links in agreement |
| `RbLinks.Spliced` | libuv-1.x1/include/tree.h:536-589 | Bypassing a node with at most one child leaves the links of the tree without that node |
| `RbLinks.TookPlace` | libuv-1.x1/include/tree.h:547-577 | The successor put in the place of the removed node has its links, its colour, and its neighbours pointing to it |
| `RbFixup.FlippedPending` | libuv-1.x1/include/tree.h:416-421 | A red uncle: recolouring moves the violation two levels up and creates no other |
| `RbFixup.StraightenedPending` | libuv-1.x1/include/tree.h:427-445 | A black uncle: the rotation removes the violation |
| `RbFixup.SunkLack` | libuv-1.x1/include/tree.h:467-471 | A black sibling with black children: recolouring moves the shortage one level up |
| `RbFixup.SwungLacking` | libuv-1.x1/include/tree.h:475-483 | A black sibling with only its near child red: the rotation at the sibling keeps the shortage where it is and makes the far child red |
| `RbFixup.Settled` | libuv-1.x1/include/tree.h:484-490 | A black sibling with a red far child: the rotation at the parent ends the shortage for good |
| `Splay.Head.Splay` | libuv-1.x1/include/tree.h:210-242 | The top-down loop and the assembly keep all members in order and end with a root that has every member below the target on its left and every one above it on its right: the match itself or a neighbour of the place |
| `Splay.Head.Insert` | libuv-1.x1/include/tree.h:165-186 | Adds exactly the new node, or returns the member with an equal key (the node itself, if it is one), which stays the only one |
| `Splay.Head.Remove` | libuv-1.x1/include/tree.h:189-207 | Takes out exactly the member with the key of the argument, which is what is returned; null exactly when there is none |
| `Splay.Head.Find` | libuv-1.x1/include/tree.h:129-137 | The member with the key, or null exactly when there is none; the members keep their order |
| `Splay.Head.Next` | libuv-1.x1/include/tree.h:140-151 | The least member above the given one, or null when there is none |
| `Splay.Head.MinMax` | libuv-1.x1/include/tree.h:247-290 | The first or the last member is brought to the root |
| `SplayShape.RotateWork` | libuv-1.x1/include/tree.h:88-98 | In the middle of the loop, a rotation at the root keeps the order of all nodes, those of the two chains included |
| `SplayShape.HangWork` | libuv-1.x1/include/tree.h:100-110 | Hanging the root from the end of a chain keeps the order of all nodes, and the links in agreement |
| `SplayShape.AssembleWork` | libuv-1.x1/include/tree.h:112-117 | The assembly, also with one or both chains empty and hence sharing the dummy node, gives one tree with the same order |
| `Splay.StopSplits` | libuv-1.x1/include/tree.h:216-240 | Wherever the loop stops, the root divides the members at the target |
| `ThreadPoolRuns.StepKeepsInv` | libuv-1.x1/src/threadpool.c:64-113 | Every step of workers, submitters, loop threads and cancels keeps the invariant on queues, mutexes, function pointers and places |
| `ThreadPoolRuns.KeepsTracked` | libuv-1.x1/src/threadpool.c:64-238 | Every step keeps each work in exactly the one queue or hand it belongs to, and its history in order |
| `ThreadPoolWakeups.KeepsWakeups` | libuv-1.x1/src/threadpool.c:61-138 | Every step keeps the idle count right and some worker awake while anything is queued |
| `ThreadPoolLocks.KeepsLocked` | libuv-1.x1/src/threadpool.c:92-104 | Every step keeps the mutexes held by at most one thread each, in one order |
| `ThreadPoolProgress.EveryRunIsSafe` | libuv-1.x1/src/threadpool.c:180-238 | In every run a done callback runs at most once, with UV_ECANCELED exactly when the cancel returned 0; then work() never ran, and otherwise it ran exactly once by then |
| `ThreadPoolProgress.CancelledIsNeverCalled` | libuv-1.x1/src/threadpool.c:56-89 | No run lets a worker call the function that marks a cancelled work |
| `ThreadPoolProgress.NoLostWakeup` | libuv-1.x1/src/threadpool.c:70-138 | In every run, while something is queued and not all workers have exited, some worker needs no further signal; workers exit only with the exit message in front |
| `ThreadPoolProgress.InternalRunsAreBounded` | libuv-1.x1/src/threadpool.c:64-238 | However they are scheduled, the threads take boundedly many steps of their own |
| `ThreadPoolProgress.RestIsComplete` | libuv-1.x1/src/threadpool.c:64-238 | When no thread can move, the queue is empty and every work finished, or all workers have exited through the exit message |
| `ThreadPoolProgress.EveryWorkCompletes` | libuv-1.x1/src/threadpool.c:64-238 | From every reachable state the threads left to themselves come to rest, and then, unless the exit message has been posted, every work has been completed exactly once; if it has, all workers have exited, and only queued works are left |
| `ThreadPoolOrder.SubmittedBeforeExitCompletes` | libuv-1.x1/src/threadpool.c:107-138 | A shutdown at any point of any run: at rest all workers have exited, every work submitted before the exit message has been completed exactly once, and one without completion was submitted after it |
| `ThreadPoolOrder.TakenInOrder` | libuv-1.x1/src/threadpool.c:64-113 | In every run workers take the works in the order of their submission, but for those cancelled, and none that was submitted after the exit message; at rest without a shutdown they have taken all |
| `ThreadPoolOrder.QueueOrder` | libuv-1.x1/src/threadpool.c:64-113 | From any state: what has been taken and what is queued is all that was queued and has been handed in since, in its order, without the cancelled |
| `ThreadPoolOrder.CancelSucceedsExactly` | libuv-1.x1/src/threadpool.c:189-214 | In every run a cancel returns 0 exactly when no worker has taken the work before, and otherwise changes nothing of any work |
| `ThreadPoolCallbacks.CalledInOrder` | libuv-1.x1/src/threadpool.c:91-95 | In every run the completion callbacks of a loop run in the order in which its works were handed back to it, by a worker or a cancel, and at rest all have run |
| `Async.EverySendIsSeen` | libuv-1.x1/src/unix/async.c:60-100 | Once no sends begin any more the system rests after boundedly many steps, and then every send ever called has been followed by a callback of its handle that started after it |
| `Async.CallbacksNeedSends` | libuv-1.x1/src/unix/async.c:60-100 | In every run a handle has had no more callbacks than sends to it have been called |
| `Async.StepKeepsInv` | libuv-1.x1/src/unix/async.c:60-100 | A pending flag means that the descriptor is readable, is about to be, or the handle is still to be visited in this pass; every step keeps it so |
| `HeapPath.PathTo` | libuv-1.x1/src/heap-inl.h:124-127 | The bits of a position, low end first, lead from the root to that position; they fit into an unsigned int whenever the position does |
| `MinHeap.MinHeap.Insert` | libuv-1.x1/src/heap-inl.h:106-148 | Adds exactly the new node and keeps the tree complete, its links in agreement and its order |
| `MinHeap.MinHeap.Remove` | libuv-1.x1/src/heap-inl.h:150-237 | Takes out exactly the given member, wherever it is, and keeps the tree complete, its links in agreement and its order; an empty heap stays as it is |
| `MinHeap.MinHeap.Dequeue` | libuv-1.x1/src/heap-inl.h:239-241 | Takes out a least member |
| `MinHeap.MinHeap.DequeueAll` | libuv-1.x1/src/heap-inl.h:239-241 | Dequeuing until the heap is empty yields every member once, in ascending order |
| `MinHeap.MinHeap.Min` | libuv-1.x1/src/heap-inl.h:67-69 | A least member, or null exactly when there is none |
| `MinHeap.MinHeap.Swap` | libuv-1.x1/src/heap-inl.h:72-104 | The pointer surgery exchanges the positions of the two nodes and nothing else |
| `MinHeap.MinHeap.Walk` | libuv-1.x1/src/heap-inl.h:122-137 | Following the path ends at the link that leads to the position |
| `HeapShape.SwapShape` | libuv-1.x1/src/heap-inl.h:72-104 | With a node and its child exchanged, every link of every node is what the new positions ask for |
| `HeapShape.AppendShape` | libuv-1.x1/src/heap-inl.h:113-141 | A node linked at the first free position makes a complete tree with one node more |
| `HeapShape.UnlinkShape` | libuv-1.x1/src/heap-inl.h:172-192 | Clearing the link to the last position leaves a complete tree with one node less |
| `HeapShape.ReplaceShape` | libuv-1.x1/src/heap-inl.h:202-219 | The unlinked node takes the place of the one to be deleted, with all links of and to it |
| `MinHeap.UpStep` | libuv-1.x1/src/heap-inl.h:143-147 | One step up leaves only the new position possibly out of order with the one above |
| `MinHeap.DownStep` | libuv-1.x1/src/heap-inl.h:221-231 | One step down, to the lesser child, leaves only the new position possibly out of order |
| `MinHeap.FirstIsLeast` | libuv-1.x1/src/heap-inl.h:34-38 | In an ordered heap the root is not above any member |
| `NetPacket.RoundTrip32` | reference/include/net_base.h:89-105 | A 32-bit number survives the trip exactly when both ends have the same byte order or its four bytes read the same both ways |
| `NetPacket.HeaderRoundTrip` | reference/include/net_base.h:152-195 | A header written and read on hosts of one byte order comes back unchanged |
| `NetPacket.HeaderLayout` | reference/include/net_base.h:152-172 | Each field of the header is at its offset, the numbers in the byte order of the host |
| `NetPacket.HeaderWritten` | reference/include/net_base.h:175-195 | Every 34 bytes are the encoding of the header that is read from them |
| `PacketSync.PacketData` | reference/include/packet_sync.h:239-258 | The encoder puts head byte, header, data and tail byte one behind the other, and clears the check bytes when there is no data |
| `FrameScan.ScanInPieces` | reference/include/packet_sync.h:69-202 | Of the reference scan: scanning a stream in two pieces finds the same frames |
| `FrameScan.ScanRest` | reference/include/packet_sync.h:69-202 | What the scan leaves over holds no frame and is left over again |
| `FrameScan.ScanWire` | reference/include/packet_sync.h:239-258 | The encoded bytes of any packets, one behind the other, scan to exactly those packets with nothing left |
| `FrameScan.FramesMean` | reference/include/packet_sync.h:239-258 | Each packet is delivered with its data and its header, the check bytes cleared when there is no data |
| `FrameMeaning.ScanReads` | reference/include/packet_sync.h:69-202 | For tail bytes below 128, in any stream: the frames found have both marker bytes in their headers and as much data as these say, their encodings stand in the stream one behind the other without overlap, between them and up to the position of the waiting no encoding starts, nor the beginning of one that more bytes could complete, and what waits is such a beginning |
| `FrameMeaning.OneReading` | reference/include/packet_sync.h:69-202 | That determines the frames, their positions and the position of the waiting |
| `FrameScan.DeliveredIffLowTail` | reference/include/packet_sync.h:143 | Encoded packets come out of the decoder exactly when the tail byte is below 128, since a signed is compared with an unsigned character |
| `PacketSync.PacketSync.Recv` | reference/include/packet_sync.h:69-202 | For any bytes in any state: the frames handed out are those whose encodings stand in the pending and the new bytes (none for a tail byte of 128 or more), what is kept scans on the same way, all buffer accesses are in bounds, and the loop ends |
| `PacketSync.PacketSync.Pass` | reference/include/packet_sync.h:71-201 | One pass hands out what the scan finds next, and either uses up pending bytes, or takes in new ones, or waits |
| `PacketSync.PacketSync.StepBack` | reference/include/packet_sync.h:143-164 | After a wrong tail byte exactly the head byte is given up, whether the data came through the read buffer or directly |
| `PacketSync.RecvAll` | reference/include/packet_sync.h:69-202 | However the bytes of a connection are cut into calls, the frames are those whose encodings stand in all of them, in order and without overlap, no position that starts one being passed over; none for a tail byte of 128 or more |
| `RingBuffer.RingBuffer.Write` | reference/include/pod_circularbuffer.h:68-139 | Appends exactly the first min(count, free) items, through every case of wraparound |
| `RingBuffer.RingBuffer.Read` | reference/include/pod_circularbuffer.h:144-206 | Removes exactly min(count, size) items from the front |
| `RingBuffer.RingBuffer.Size` | reference/include/pod_circularbuffer.h:42-52 | The size is the number of items held |
| `RingBuffer.RingBuffer.Flags` | reference/include/pod_circularbuffer.h:27-52 | The two flags say exactly whether the buffer is empty or full |
| `RingBuffer.RingBuffer.Clear` | reference/include/pod_circularbuffer.h:32-37 | The buffer holds nothing afterwards |
| `Pipeline.StepKeepsInv` | reference/tcpclient.cpp:301-323 | Every step of Send, of the loop thread and of the network keeps all bytes exactly once and in order between caller and peer, and no write request is recycled while it is in use |
| `Pipeline.EveryRunDelivers` | reference/tcpclient.cpp:461-497 | In every run the packets delivered are a prefix of those sent, and all of them once Send has returned for all and nothing is under way |
| `PipelineStalls.RestDeliversIffFits` | reference/tcpclient.cpp:301-323 | The sending side always comes to rest with everything delivered exactly when no packet is longer than the ring: a longer one can fill it with nobody left to drain it |
| `PipelineStalls.InternalRunsAreBounded` | reference/tcpclient.cpp:461-497 | Rest is always reached |
| `PipelineStalls.RestIsRest` | reference/tcpclient.cpp:301-323 | Rest is exactly the state in which neither side can take a step by itself |
| `Inet4.AcceptsExactly` | libuv-1.x1/src/inet.c:186-222 | A string is accepted with a result exactly when it is what is printed for that result |
| `Inet4.DecMeans` | libuv-1.x1/src/inet.c:54-60 | An octet is written in decimal digits without a zero in front, digit by digit by remainders |
| `Inet4.Pton4` | libuv-1.x1/src/inet.c:186-222 | The loop computes what the grammar of octets says |
| `Inet4.Ntop4` | libuv-1.x1/src/inet.c:53-66 | The four octets in decimal, or ENOSPC exactly when that does not fit with its terminator |
| `Inet6.FindRun` | libuv-1.x1/src/inet.c:88-115 | The loop finds the leftmost of the longest runs of two or more zero words, or that there is none |
| `Inet6.BestUnique` | libuv-1.x1/src/inet.c:88-115 | There is only one such run |
| `Inet6.PrintedIsText` | libuv-1.x1/src/inet.c:120-147 | The printing loop writes the words before and after the run with two colons between them, and the last four bytes in IPv4 form where they embed one |
| `Inet6.TextLength` | libuv-1.x1/src/inet.c:76-147 | The text and its terminator fit into 46 bytes for every address |
| `Inet6.Ntop6` | libuv-1.x1/src/inet.c:69-154 | The text form around the leftmost longest run, or ENOSPC exactly when it does not fit; on the 16 bytes: the text is `::ffff:` and the IPv4 text of the last four when ten zero bytes and two of 255 come first, `::` and that text when twelve zero bytes and then not two more come first, and holds no dot in all other cases |
| `Inet6.TailOf` | libuv-1.x1/src/inet.c:128-136 | Exactly those addresses are printed with an IPv4 tail |
| `Inet6.HexMeans` | libuv-1.x1/src/inet.c:139 | A group is written in lower-case hexadecimal digits without a zero in front, digit by digit by remainders |
| `Inet6Parse.RoundTrip` | libuv-1.x1/src/inet.c:69-309 | What is printed for any 16 bytes is parsed as those 16 bytes |
| `Inet6Parse.ReadsBack` | libuv-1.x1/src/inet.c:225-309 | So is the text around any run of zero words, not only the longest |
| `Inet6Forms.AcceptsExactly` | libuv-1.x1/src/inet.c:225-309 | A text is read as an address exactly when it is a form of that address (RFC 4291, section 2.2): groups of one to four hexadecimal digits in either case, two colons at most once for one or more zero groups, an IPv4 address at the end or none; every other text is refused |
| `Inet6Forms.Accepted` | libuv-1.x1/src/inet.c:225-309 | The form that an accepted text has |
| `InetText.Pton6` | libuv-1.x1/src/inet.c:225-309 | The loop over the text with its buffer computes what the reference parser says |
| `InetText.Shift` | libuv-1.x1/src/inet.c:291-303 | The shift by hand moves the bytes behind the colons to the end and leaves zeros, without overwriting what is still to be moved |
| `InetText.InetNtop` | libuv-1.x1/src/inet.c:40-50 | The choice by address family, with the text of the form that the 16 bytes ask for; any other family is refused |
| `InetText.InetPton` | libuv-1.x1/src/inet.c:157-182 | A null source or destination is refused; else the choice by address family, with the zone after a percent sign cut off |
| `InetText.ZoneIsCut` | libuv-1.x1/src/inet.c:167-178 | An address with a zone is read as the text before the percent sign, unless that is longer than any address |
| `InetText.PrintedReadsBack` | libuv-1.x1/src/inet.c:40-182 | What is printed for an IPv6 address holds no zone and is read as that address by the public call |
| `Queue.InsertTail` | libuv-1.x1/src/queue.h:92-99 | Appends the element |
| `Queue.InsertHead` | libuv-1.x1/src/queue.h:83-90 | Prepends the element |
| `Queue.Remove` | libuv-1.x1/src/queue.h:101-106 | Deletes the element from wherever it is |
| `Queue.Add` | libuv-1.x1/src/queue.h:52-59 | Concatenates two lists, an empty second one included |
| `Queue.Split` | libuv-1.x1/src/queue.h:61-70 | Cuts a list in two at an element |
| `Queue.Move` | libuv-1.x1/src/queue.h:72-81 | Moves all elements to another head |
| `Walk.Walk` | libuv-1.x1/src/uv-common.c:347-363 | The walk ends, leaves a well-formed list, and calls back for exactly the handles of the list specification, although the callbacks add and remove handles; what is left in the list is that of the specification, too |
| `Walk.VisitsInOrder` | libuv-1.x1/src/uv-common.c:347-363 | What is visited: handles that were there at the start and are not internal, each once, in order |
| `Walk.VisitsUnlessRemoved` | libuv-1.x1/src/uv-common.c:347-363 | Of those exactly the ones that no earlier callback has removed |
| `WalkResult.WhatIsLeft` | libuv-1.x1/src/uv-common.c:347-363 | A handle, internal or not, is in the list afterwards exactly when the last performed action about it adds it, or there is none and it was there at the start |
| `WalkResult.OrderIsKept` | libuv-1.x1/src/uv-common.c:354-358 | The handles that no callback removes keep their order |
| `WalkResult.NothingDone` | libuv-1.x1/src/uv-common.c:347-363 | If the callbacks do nothing, the list is what it was |
| `WalkResult.AddedGoes` | libuv-1.x1/src/uv-common.c:354-362 | A handle that a callback adds and none removes again is behind the handles that have been put back by then and ahead of those put back later |
| `S5Parser.S5.Parse` | libuv-1.x1/samples/socks5-proxy/s5.c:53-239 | The byte loop fills the context exactly as the specification says, with every index in range, and what is left of the input is what has not been used up |
| `S5Parser.S5.SelectAuth` | libuv-1.x1/samples/socks5-proxy/s5.c:245-261 | Goes on with the chosen method, or refuses and changes nothing |
| `S5State.SplitAnywhere` | libuv-1.x1/samples/socks5-proxy/s5.c:53-239 | The input may be cut anywhere |
| `S5Messages.PiecesDoNotMatter` | libuv-1.x1/samples/socks5-proxy/s5.c:53-239 | However the input is cut, fields, event and number of bytes used up are the same |
| `S5Messages.ReadGreeting` | libuv-1.x1/samples/socks5-proxy/s5.c:68-102 | A greeting (RFC 1928, section 3) ends with the question for a method, after exactly its bytes, exactly when it offers a method |
| `S5Messages.BitsMean` | libuv-1.x1/samples/socks5-proxy/s5.c:84-96 | The method bits say which of the three known methods are offered |
| `S5Messages.AuthRecovered` | libuv-1.x1/samples/socks5-proxy/s5.c:104-146 | User name and password (RFC 1929, section 2) are recovered exactly when neither is empty |
| `S5Messages.RequestRecovered` | libuv-1.x1/samples/socks5-proxy/s5.c:148-224 | A request (RFC 1928, section 4) is recovered with command, address and port exactly when its address is not empty and the command is not BIND |
| `S5Messages.RefusesVersion` | libuv-1.x1/samples/socks5-proxy/s5.c:68-108 | A greeting is refused exactly when its first byte is not 5, and user name and password exactly when that is not 1 |
| `S5Messages.RefusesRequest` | libuv-1.x1/samples/socks5-proxy/s5.c:148-190 | A request is refused exactly when its version is not 5, its command neither 1 nor 3, or its address type none of 1, 3 and 4, for what is wrong first |
| `FsPollRuns.EveryRunReportsChanges` | libuv-1.x1/src/fs-poll.c:172-219 | In every run of starts, stops and callbacks, what the user has been told of a poll is, report by report, the observations made before it was stopped without their repetitions (errors by code, stats by statbuf_eq), a success in front left out; no context is freed twice |
| `FsPollRuns.StoppedForGood` | libuv-1.x1/src/fs-poll.c:104-125 | From the moment a poll is stopped it stays stopped, the user is told nothing more of it, and its context is freed once, exactly when the last callback it is owed has come; after that it is not touched |
| `FsPollRuns.RestFreesAll` | libuv-1.x1/src/fs-poll.c:172-224 | A context has been freed exactly when its poll is stopped, no stat is under way for it and its timer is not being closed |
| `FsPollRuns.RearmedOnGrid` | libuv-1.x1/src/fs-poll.c:211-216 | After a stat a poll that goes on has its timer armed for a delay between 1 and the interval, at a multiple of the interval from the start time; a stopped one has it closed |
| `FsPollRuns.EveryRunKeepsInterval` | libuv-1.x1/src/fs-poll.c:77-78 | In every run a poll has the interval and the start time with which it was started, 1 for an interval of 0, and after each stat its timer is armed within that interval and on its grid |
| `FsPollRuns.StepKeepsInv` | libuv-1.x1/src/fs-poll.c:56-224 | Every step keeps each context in exactly one phase, with its history in order, whatever the user's callback does |
| `FsPoll.Handle.PollCb` | libuv-1.x1/src/fs-poll.c:172-219 | Does exactly what the poller's step says, to this context and to all others: compares and reports, remembers, and rearms the timer or closes it |
| `FsPoll.Handle.Start` | libuv-1.x1/src/fs-poll.c:56-101 | Starts a new context with its interval (at least 1), its start time and a stat under way, or changes nothing when active or when setting up fails |
| `FsPoll.Handle.Stop` | libuv-1.x1/src/fs-poll.c:104-125 | Stops the handle; the timer is closed exactly if it was running, and a stat under way is left to its callback |
| `FsPoll.Handle.TimerCb` | libuv-1.x1/src/fs-poll.c:159-169 | A timer only ever fires for a handle that is still polling with that context; the next stat is under way, and nothing else has changed |
| `FsPoll.Handle.TimerCloseCb` | libuv-1.x1/src/fs-poll.c:222-224 | Frees this context and changes nothing else |
| `FsPollSpec.ReportsWithoutRepetition` | libuv-1.x1/src/fs-poll.c:172-201 | Of any observations: the reports are those without repetitions, with a success in front passed over in silence, and each compares with the last success before it, reported or passed over |
| `FsPollSpec.DistinctIsDistinct` | libuv-1.x1/src/fs-poll.c:186-201 | What is left has no two neighbours alike, and ends with the last observation |
| `FsPollSpec.NewsTest` | libuv-1.x1/src/fs-poll.c:186-201 | The comparison with the remembered state is the test whether the observation is news |
| `FsPollSpec.StatEqMeans` | libuv-1.x1/src/fs-poll.c:227-242 | Two stats compare equal exactly when they agree in all but access time, link count, the device a special file stands for (st_rdev) and block figures |
| `FsPollSpec.OnTheGrid` | libuv-1.x1/src/fs-poll.c:211-213 | The delay is between 1 and the interval and ends on the grid of the start time |
| `SocksRuns.EveryRunRelays` | libuv-1.x1/samples/socks5-proxy/client.c:485-576 | In every run, what has been written to one side is a prefix of all that has been read from the other since the relay began; while relaying it is all of it but for the one write under way, and a buffer is never read into while it is written |
| `SocksRuns.FourClosesToDead` | libuv-1.x1/samples/socks5-proxy/client.c:520-544 | In every run, once the teardown has begun exactly four close callbacks lead to the dead session, in any order and among cancelled writes; no callback is left then, and the session cannot rest before |
| `SocksRuns.LeaksExactly` | libuv-1.x1/samples/socks5-proxy/client.c:401-427 | A teardown waits for a callback that does not come exactly when the connect after a host lookup fails at once |
| `SocksRuns.LeakIsForGood` | libuv-1.x1/samples/socks5-proxy/client.c:520-544 | Then no run gets the session to be dead |
| `SocksRuns.LookupLeads` | libuv-1.x1/samples/socks5-proxy/client.c:362-427 | A lookup leads to the reply that the host is unreachable, to the reply that the rules forbid the connection, to a connect, or to the teardown that does not end |
| `SocksSetup.GreetingLeads` | libuv-1.x1/samples/socks5-proxy/client.c:202-256 | Whatever bytes the client sends first, in whatever pieces: until the greeting is complete more is read; another version or bytes behind it end the session; the reply is 5, 0 and the request is read next exactly when no authentication is offered and allowed, and else 5, 255 before the end |
| `SocksSetup.GreetingAnswered` | libuv-1.x1/samples/socks5-proxy/client.c:244-255 | The same for a greeting in one piece, by the methods it lists |
| `SocksSetup.RequestLeads` | libuv-1.x1/samples/socks5-proxy/client.c:281-360 | Whatever bytes the client sends next, in whatever pieces: until the request is complete more is read; a wrong byte, bytes behind it, BIND and UDP end the session; a host name is looked up; to an address it connects, if the rules allow it, and else replies 5, 2 and so on before the end; address and port are those of the bytes |
| `SocksSetup.LookupAnswered` | libuv-1.x1/samples/socks5-proxy/client.c:362-427 | The same replies, in bytes, after a lookup |
| `SocksSetup.ConnectLeads` | libuv-1.x1/samples/socks5-proxy/client.c:429-483 | After a connect the reply is success, the address type and the local address and port, or else connection refused before the end, in bytes |
| `SocksSetup.WrittenLeads` | libuv-1.x1/samples/socks5-proxy/client.c:264-505 | A written reply leads to the request, to both directions of the relay, or to the end; one that cannot be written leads to the end |
| `SocksSetup.FailureEnds` | libuv-1.x1/samples/socks5-proxy/client.c:216-576 | Every read or write error, and an idle timer while relaying, leads to the teardown with four handles closing |
| `SocksRuns.StepKeepsInv` | libuv-1.x1/samples/socks5-proxy/client.c:150-200 | Every callback that the event loop owes leaves a session in order: what is owed to it is what its state waits for |
| `SocksRuns.TeardownStep` | libuv-1.x1/samples/socks5-proxy/client.c:520-544 | In a teardown only close callbacks, which are counted, and cancelled writes can come, and at its end nothing |
| `SocksSession.Session.DoNext` | libuv-1.x1/samples/socks5-proxy/client.c:150-200 | From every state that a callback can leave, the step taken is allowed, its assertions hold, and it does exactly what the session's step says (for the setting up see `SocksSetup`, for the relay `SocksRuns.EveryRunRelays`) |
| `SocksSession.Cycle` | libuv-1.x1/samples/socks5-proxy/client.c:546-576 | One direction of the relay: what has been read is written, and what has been written makes room to read |
| `SocksSession.Session.ReadDone` | libuv-1.x1/samples/socks5-proxy/client.c:663-676 | A completed read does exactly what the session's step says: before the relay what `SocksSetup.GreetingLeads` and `SocksSetup.RequestLeads` say of the bytes; while relaying, the data joins what has been read and goes out to the other side |
| `SocksSession.Session.WriteDone` | libuv-1.x1/samples/socks5-proxy/client.c:707-719 | A completed write does exactly what the session's step says: while relaying, the bytes in the buffer join what has left, and the other side is read again; a cancelled one touches nothing else |
| `SocksSession.Session.CloseDone` | libuv-1.x1/samples/socks5-proxy/client.c:732-737 | Each close callback is counted and changes nothing else |
| `SocksSession.Session.LookupDone` | libuv-1.x1/samples/socks5-proxy/client.c:610-631 | A completed lookup does exactly what the session's step says |

## Left out

- Allocation failure, `abort()` paths, logging, and the commented-out MD5 check.
- Sockets, descriptors, DNS and threads as objects of the operating system; they appear as steps or parameters.
- The wrappers `uvpp/` and `libuv_cpp/`, `tcpserver.cpp`, and the connecting and reconnecting of `tcpclient.cpp`.
- `Int64ToChar` and `CharToInt64`, which the framing does not use.
- Weak-memory effects: mutex sections and compare-and-swap are single, sequentially consistent steps.
- The integer width of the packet decoder and of the ring: sizes are unbounded, so a data length of INT_MAX, whose
  buffer size would wrap around, is not modelled as such.
- The amortised cost of the splay tree; its operations are proved correct and terminating.
- Idle timers of the SOCKS session outside the relay, and `do_handshake_auth`, which is not implemented.
- `uv_fs_poll_getpath`, and the path of a poll, which the model does not use.
- Submitting a work again before its callback has run, and cancelling from another thread than that of the loop.
- Pipeline.EveryRunDelivers: one thread calls Send, the connection stays up, and the client is not being closed.
- MinHeap.MinHeap.DequeueAll: a loop that the source's timers run over several calls is one method here.
