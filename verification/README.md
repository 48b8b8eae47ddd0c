# Eternal Terminal: verified models

Five parts of Eternal Terminal, each modelled as the code has it and proved in Dafny.
`dafny verify dfyconfig.toml` checks them all.

**The reconnectable channel** (`Wire`, `Crypto`, `Socket`, `BackedWriter`, `BackedReader`, `ReadTheorems`,
`Connection`, `Channel`, `ChannelProof`, `ChannelTheorems`, `ChannelProgress`). The classes `CryptoHandler`,
`BackedWriter`, `BackedReader` and `Connection` are proved against functions on their state.
`Channel` puts two ends together with any number of sockets, each a byte stream and a message
queue per direction. A step is a write, a read, a close, one message of a recovery, or giving a
recovery up; sockets deliver any number of bytes at a time, a write may stop after any byte, and a
recovery may complete on one end only. `ReadTheorems` and `ChannelProgress` say when a read hands out
a packet and when it gives the socket up, by what the calls on the socket return alone. While an end recovers it neither reads nor writes, as the
locks of `Connection::recover` ensure. History fields record the packets each writer accepted and
each reader handed out. The theorems speak of every finite run from a new client's connection.

**The panes of HTM** (`Forest`, `ForestProof`, `HtmMaps`, `HtmState`, `HtmSteps`, `Multiplexer`,
`HtmTheorems`). `MultiplexerState` keeps tabs, splits and panes in maps linked by parent ids and
child lists. Its invariant says the maps are exactly a forest: one ordered tree per tab. The class
methods follow the loops of the source and are proved to split and close in that forest.

**Port forwarding** (`Forwarding`, `ForwardingProof`, `ForwardingDestinations`, `ForwardingTheorems`,
`ForwardingReuse`, `ForwardingWrites`, `ForwardSockets`, `PortForward`, `ForwardingPolls`, `PortForwardHandler`).
`Forwarding` joins a source end and a destination end by two queues; the handler classes are proved
against the same functions on their state, and a round of polling by them and a packet they handle are
runs of the joined model. History fields record the bytes read and handed over since a socket id was
last drawn. The theorems speak of runs whose draws are of free socket ids, which is exactly when a draw
does no harm (`DrawIsHarmlessIff`). One direction of forwarding is modelled: requests and responses, and
the `sourcetodestination` flag on data, keep the two directions of one handler pair apart.

**Host lines of ssh_config** (`HostMatch`). A pattern means a way to cut the string into one piece
per pattern character; the matcher, the pattern list and the token loop are methods proved against it.

**Scrollback and tunnels** (`Sequences`, `Strings`, `Scrollback`, `Tunnel`). `std::getline` splitting,
`std::to_string` and `std::stoi`, the scrollback buffer of a pane, and the tunnel argument written
from LocalForward lines and parsed again.

## Where a promise does not hold

Each of these is proved, with the exact condition where there is one.

- A frame length survives its signed 32-bit header if and only if it is below 2^31 (`LengthRoundTrip`).
- The matcher's comment promises the usual wildcards; it means them on every string if and only if
  the pattern does not end in two stars (`ExactIff`). What it accepts it always accepts rightly (`Sound`).
- A pattern list promises 1 for a positive match; an over-long subpattern makes the list count for
  nothing from there on, and positive matches before it as well (`MatchPatternList`; the list `h,xx...x`
  on host h in `OverlongCancelsAMatch`).
- A Host line asks whether any of its tokens wants the host. All orders of the tokens agree if and only if
  none is empty or none wants the host, since an empty token ends the line (`TokenOrderDoesNotMatterIff`;
  `h ""` and `"" h` in `EmptyTokenHidesTheRest`).
- Closing a live pane is fatal if and only if its split has two children and the other one is a split
  (`FaultsWhenSiblingIsLoneSplit`), although the user did nothing wrong: two splits lead there
  (`CloseBesideASplit`).
- A pane id used again after a close is accepted, and closing the new pane is then ignored (`ClosePane`;
  a run in `CloseAReusedPane`).
- Splitting a pane that does not exist is meant to be fatal. It is, if and only if it is not the new pane
  itself or no tab has the empty id (`NewSplit`); otherwise no forest stands behind the maps any more, and the
  pane of that tab is found nowhere (`SplitOfItself`). The server reads ids of 36 characters, so no client
  gets there.
- Closing a pane keeps the total of the shares if and only if the removed share was the average
  (`CloseKeepsTotalIff`, `ClosingMayLoseSpace`).
- Forwarding ignores the result of `writeAllOrReturn`: what reaches a socket stays a prefix, whatever
  the bytes, if and only if nothing is written after a write that stopped short (`PrefixIffNoGap`; over all
  runs of the two ends, against what was read from the partner, `InOrderInEveryRunIff`). `SecondByteLost` is a
  run in which a socket gets the first and the third byte.
- Random socket ids only avoid those open at the destination end. In a reachable state a draw keeps every
  stream right, however the run goes on, if and only if the id is not live at the source end, not announced
  on the way there, and has no event on the way to the destination end (`DrawIsHarmlessIff`); otherwise
  bytes of one connection can be handed to another (`ReusedIdsMixConnections`).
- A response with a socket id that is in use is not refused: the fd it had stays open and is forgotten
  (`AddSocket`), and the routes stay right if and only if no other handler has that id (`AddSourceSocketId`).
- The scrollback keeps the lines of the output if and only if no read before the last ended in a newline;
  each such read loses one line (`LinesSurviveIff`, `LinesLost`). A line that outgrows the buffer is dropped
  while it is still growing, and its rest is kept as a line of its own (`KeptOfKeptIff`). Over any reads the
  buffer is what fits of the lines of the output if and only if it is full before the lines the reads make
  differ from them (`BufferIsOfTheWholeIff`).
- LocalForward pairs come back from the tunnel argument if and only if no port is negative (`RoundTripIff`).
- With a tunnel option before them they do, and the option with them, if and only if moreover the option does
  not end in a comma and is not a lone ssh-style argument (`OptionSurvivesIff`); such an argument is read as
  another forward (`MisreadOption`).
- The tunnel parser checks its ranges, and reads past the end of a vector or overflows an int all the same, if
  and only if the option is empty, which its callers exclude, or not a lone ssh-style argument and with an
  argument, behind ones that parse, of two ranges where one has no second end or both are 0-2147483647
  (`UndefinedIff`; `5-:6-` in `OpenRangesReachBeyond`).
- The header of `ForwardDestinationHandler` says `close` marks the handler inactive; the code only closes
  the fd, and the caller forgets the handler. The model follows the code.
- When no socket id is left, `createDestination` leaves the fd it connected open: the open
  fds are those of the handlers if and only if that never happened (`DestinationFdsAreConserved`).

## Model

| member | source | states |
|---|---|---|
| Wire.ParseSerialize | src/base/Packet.hpp:29-33 | A packet parsed from its serialization is the packet. |
| Wire.BigEndianRoundTrip | src/base/BackedWriter.cpp:49-57 | The big-endian header spells the number modulo its width. |
| Wire.LengthRoundTrip | src/base/BackedReader.cpp:107-115 | The reader's signed length is the writer's if and only if it is below 2^31. |
| Wire.FrameLayout | src/base/BackedWriter.cpp:49-57 | On the wire a packet is its length in four bytes, the most significant first, then whether it is encrypted, its type and its payload. |
| Wire.PartialIsOneFrame | src/base/BackedReader.cpp:42-69 | A partial message cut from a stream of frames names the first packet's length and lies in that packet's frame alone. |
| Crypto.CryptoHandler.constructor | src/base/CryptoHandler.cpp:10-21 | The nonce starts as zeros with the direction in its top byte. |
| Crypto.CryptoHandler.IncrementNonce | src/base/CryptoHandler.cpp:47-56 | The carry loop yields the incremented nonce. |
| Crypto.IncrementAddsOne | src/base/CryptoHandler.cpp:47-56 | Incrementing adds one to the little-endian number, modulo 256 to the number of bytes. |
| Crypto.DirectionByteKept | src/base/CryptoHandler.cpp:19-20 | Below 256^23 messages the direction byte never changes. |
| Crypto.NoncesDistinct | src/base/CryptoHandler.cpp:19-56 | Two nonces counted from two starts are equal if and only if the direction bytes and the counts are. |
| Crypto.CryptoHandler.Encrypt | src/base/CryptoHandler.cpp:25-33 | Message k is sealed with the k-th nonce. |
| Crypto.CryptoHandler.Decrypt | src/base/CryptoHandler.cpp:35-45 | A message is opened with the next nonce, which is used up even if opening fails. |
| BackedWriters.TrimmedIsMaximal | src/base/BackedWriter.cpp:37-40 | Trimming drops a packet only if keeping it would exceed 64 MiB. |
| BackedWriters.StoredBytes | src/base/BackedWriter.cpp:20-46 | The backup is accounted byte for byte: at most 64 MiB after a connected write, growing by the encrypted length while disconnected. |
| BackedWriters.WrittenInv | src/base/BackedWriter.cpp:16-84 | Every write keeps: packets sealed in order, the backup is their newest ones, only excess was dropped, bytes are accounted. |
| BackedWriters.RecoverExact | src/base/BackedWriter.cpp:86-112 | On a dead socket recovery yields exactly the packets after the k-th, oldest first, if and only if the backup reaches back to k; its two failures are told apart exactly. |
| BackedWriters.RecoverSucceedsWithinLimit | src/base/BackedWriter.cpp:31-40 | Recovery from k succeeds whenever the packets after k total at most 64 MiB. |
| BackedWriters.DisconnectedWriteDropsNothing | src/base/BackedWriter.cpp:35-46 | A write while disconnected takes away nothing a recovery could have had before. |
| BackedWriters.BackedWriter.Write | src/base/BackedWriter.cpp:16-84 | The new state, the bytes on the socket and the result are those of the specification, for any short writes and failures. |
| BackedWriters.BackedWriter.Store | src/base/BackedWriter.cpp:27-46 | Encrypts, backs up, counts and trims as specified. |
| BackedWriters.BackedWriter.SendAll | src/base/BackedWriter.cpp:48-83 | The frame goes out up to the first failure, and success means all of it. |
| Sockets.BytesWrittenIs | src/base/BackedWriter.cpp:58-83 | What goes out is the sum of what the calls before the first failure take, or everything if that is less. |
| BackedWriters.BackedWriter.Recover | src/base/BackedWriter.cpp:86-112 | The loop over the backup returns the specified packets or failure. |
| BackedWriters.BackedWriter.Revive | src/base/BackedWriter.cpp:114-117 | The new socket is taken up and the disconnect count starts over. |
| BackedWriters.BackedWriter.InvalidateSocket | src/base/BackedWriter.hpp:87-90 | Only the fd changes. |
| BackedWriters.BackedWriter.HasBufferCapacity | src/base/BackedWriter.hpp:67-71 | True exactly when attached or the count fits the disconnect buffer, which is when a packet of that length would be accepted. |
| BackedReaders.ReadMessageIsOneFrame | src/base/BackedReader.cpp:42-95 | However the stream is cut, framing keeps every byte, never faults, never reads into the next frame, and completes with exactly the next packet. |
| ReadTheorems.ReadMessageIff | src/base/BackedReader.cpp:42-95 | Within a frame, framing fails if and only if a call that it makes returns an error or no bytes; it completes if and only if its calls let through what the frame lacks; otherwise it keeps exactly what they brought. |
| BackedReaders.DecryptedIsWritten | src/base/BackedReader.cpp:117-129 | Packet k opened with nonce k is what was written. |
| BackedReaders.ReadSocketFollowsFrames | src/base/BackedReader.cpp:42-95 | A socket read that continues the peer's frames hands out the peer's next packet or leaves the reader where it stood. |
| BackedReaders.ReadLocalFollowsLog | src/base/BackedReader.cpp:33-40 | The local buffer hands out the peer's next packet. |
| BackedReaders.RevivalKeepsInv | src/base/BackedReader.cpp:98-105 | A revival with the packets from where the reader stands keeps it in step, with an undrained local buffer too. |
| BackedReaders.BackedReader.Read | src/base/BackedReader.cpp:25-96 | State, socket and result are those of `ReadOne`, for any short reads and failures; `ReadOneIff` says what those are. |
| ReadTheorems.ReadOneIff | src/base/BackedReader.cpp:25-96 | On a stream of the peer's frames a read is an error if and only if a call that it makes returns an error or no bytes, hands out the peer's next packet if and only if its calls let through what the frame lacks, and otherwise stands further on in that frame. |
| ReadTheorems.ReadsHandOut | src/base/BackedReader.cpp:25-96 | However short the reads, if none fails and the frame has been sent, at most as many of them as bytes are missing hand out the packet. |
| BackedReaders.BackedReader.Deliver | src/base/BackedReader.cpp:33-40 | A packet is handed out if and only if the bytes are those of an encrypted packet whose payload opens under the next nonce; it has their header and the opened payload. Everything else is fatal. |
| BackedReaders.BackedReader.Revive | src/base/BackedReader.cpp:98-105 | Partial message dropped, entries appended, sequence number advanced by their count. |
| Connections.Connection.CloseSocket | src/base/Connection.cpp:84-103 | Reader, writer and connection let go of the socket together; closing twice changes nothing. |
| Connections.Connection.Shutdown | src/base/Connection.cpp:152-157 | The flag is set and the socket closed. |
| Connections.Connection.Write | src/base/Connection.cpp:191-235 | A packet is refused only by a full disconnect buffer; a failed send closes the socket and is hidden. |
| Connections.WriteClosesIff | src/base/Connection.cpp:191-235 | A write on an open end puts on the socket what the calls before the first failure take of the frame, and closes the end if and only if that is not all of it. |
| Connections.Connection.Read | src/base/Connection.cpp:159-189 | A socket error closes the socket and reads as no packet; a closed connection reads nothing and stays as it is. |
| ReadTheorems.ReadClosesIff | src/base/Connection.cpp:159-189 | A read closes the end if and only if a call that it makes returns an error or no bytes. |
| Connections.Connection.ReadPacket | src/base/Connection.cpp:42-52 | Nothing is read once shutting down. |
| Connections.Connection.WritePacket | src/base/Connection.cpp:54-82 | Over its attempts, with recoveries and a shutdown between them: the packet is accepted, once, at the first attempt at which it fits, if and only if it fits at one with no shutdown before; the state and the bytes sent are then those of that write after those recoveries. |
| Connections.Connection.Recover | src/base/Connection.cpp:105-150 | It reconnects if and only if the connection is closed, all four messages go through and the backup reaches back to the peer's claim; it is fatal if and only if the peer claims more than was written. Reader and writer change only in the first case, and then as specified; the messages sent are the specified ones. |
| Connections.Connection.RecoverClient | src/base/ServerClientConnection.cpp:27-35 | The server drops its old socket and then recovers. |
| Connections.Connection.PollReconnect | src/base/ClientConnection.cpp:91-159 | A closed client goes round until the first round that an unknown key, a shutdown or a recovery that is not aborted decides, and is left as that round leaves it; if none does, all rounds are made and nothing changes. A connected or stopped client makes none. |
| Connections.VerifyPasskey | src/base/ServerClientConnection.cpp:37-49 | The constant-time loop accepts exactly the equal key. |
| ChannelProof.WriteKeeps | src/base/Connection.cpp:191-235 | A write on one end keeps the invariant of the two ends. |
| ChannelProof.ReadKeeps | src/base/Connection.cpp:159-189 | So does a read of any part of a frame. |
| ChannelProof.BeginKeeps | src/base/Connection.cpp:111-120 | So does sending the sequence header. |
| ChannelProof.HeaderIsHonest | src/base/Connection.cpp:123-124 | A header that arrives never claims more packets than its receiver has written. |
| ChannelProof.AnswerKeeps | src/base/Connection.cpp:126-136 | So does answering it with the catch-up. |
| ChannelProof.CatchupIsExact | src/base/Connection.cpp:138-146 | A catch-up that arrives continues exactly where its receiver stands. |
| ChannelProof.FinishKeeps | src/base/Connection.cpp:138-149 | So does taking up the new socket, also when the peer has given up. |
| ChannelProof.AbortKeeps | src/base/Connection.cpp:150-150 | So does giving a recovery up at any point. |
| ChannelTheorems.RunInv | src/base/Connection.cpp:105-150 | The invariant holds after every run. |
| ChannelTheorems.ExactlyOnceInOrder | src/base/Connection.cpp:105-150 | In every reachable state the packets handed out, followed by the local buffer, are the first `sequenceNumber` packets the peer accepted: no gap, duplicate or reorder. |
| ChannelTheorems.NeverFatal | src/base/BackedWriter.cpp:92-95 | "Client is ahead of server", "Decrypt failed" and a malformed frame are unreachable. |
| ChannelTheorems.NoncesInStep | src/base/BackedReader.cpp:33-40 | A reader's nonce count is always its sequence number less its local buffer, a writer's the number of packets accepted. |
| ChannelTheorems.NoNonceTwice | src/base/Headers.hpp:171-173 | In every run the nonces that sealed the packets of both directions under the one key are pairwise distinct. |
| ChannelTheorems.HistoryOnlyGrows | src/base/Connection.cpp:105-150 | No step takes back a packet handed out or accepted. |
| ChannelTheorems.LiveLinkLosesNothing | src/base/Connection.cpp:138-149 | While both ends are on one socket, the partial message and the unread bytes are exactly the frames not yet received. |
| ChannelProgress.ReadStepIff | src/base/Connection.cpp:159-189 | In every reachable state, a read of a connected end with an empty local buffer closes it if and only if a call on the socket returns an error or no bytes, and hands out the next packet its peer accepted if and only if the calls let through what its frame lacks. |
| ChannelProgress.LocalReadHandsOut | src/base/BackedReader.cpp:33-40 | In every reachable state a connected end with a local buffer hands out the next packet, whatever its socket does. |
| ChannelProgress.WrittenIsHandedOut | src/base/Connection.cpp:159-235 | When both ends are on one socket and all before has been read, a packet written is handed out by the peer's next read, if the socket lets its bytes through. |
| ChannelTheorems.RecoveryResendsTheMissing | src/base/Connection.cpp:126-146 | A recovery that completes adds exactly the packets missing up to some point, all of them if the peer still stands in the handshake. |
| ChannelTheorems.RecoverIsItsMoves | src/base/Connection.cpp:105-150 | However a call of recover turns out, the moves of the two-ended model that it stands for leave the same end, have sent the same messages, and are fatal if and only if it is. |
| ChannelTheorems.UndisturbedHandshakeCatchesUp | src/base/Connection.cpp:105-150 | An undisturbed handshake brings both ends fully up to date if the backups reach back far enough. |
| ForestProof.SplitLeaves | src/htm/MultiplexerState.cpp:125-171 | Splitting adds one leaf and keeps the order of the others. |
| ForestProof.SplitJoins | src/htm/MultiplexerState.cpp:125-171 | After a split, source and pane are children of one split of the asked orientation, the pane its last. |
| ForestProof.SplitShape | src/htm/MultiplexerState.cpp:125-171 | Splitting keeps two children or more and alternating orientations. |
| ForestProof.CloseLeaves | src/htm/MultiplexerState.cpp:231-271 | Closing removes exactly that leaf and keeps the order of the others. |
| ForestProof.CloseShape | src/htm/MultiplexerState.cpp:231-271 | A close that is not fatal keeps two children or more and alternating orientations. |
| ForestProof.CloseUndoesSplit | src/htm/MultiplexerState.cpp:114-271 | Closing the new pane gives the tree from before the split. |
| HtmState.NewTabOrders | src/htm/MultiplexerState.cpp:100-101 | A new tab extends the bijection of tab orders onto 0..n-1. |
| HtmState.CloseTabOrders | src/htm/MultiplexerState.cpp:212-219 | The shift restores it when a tab goes. |
| HtmState.ShiftKeepsOrder | src/htm/MultiplexerState.cpp:214-219 | The shift keeps the tabs that stay in the same order. |
| HtmState.NewTabKeeps | src/htm/MultiplexerState.cpp:96-112 | A new tab keeps the maps a forest, whatever its two ids, as long as neither is in use. |
| HtmSteps.AppendKeeps | src/htm/MultiplexerState.cpp:125-139 | Continuing a split is splitting in the forest. |
| HtmSteps.NestKeeps | src/htm/MultiplexerState.cpp:141-192 | Opening a split, in a split or in a tab, is splitting in the forest. |
| HtmSteps.CloseTabKeeps | src/htm/MultiplexerState.cpp:209-229 | Closing a lone pane removes its tree, and the tab found by its child is the tab found through the parent id. |
| HtmSteps.ShrinkKeeps | src/htm/MultiplexerState.cpp:231-250 | Closing one of three children or more is closing in the forest. |
| HtmSteps.CollapseKeeps | src/htm/MultiplexerState.cpp:251-271 | Closing one of two, so that the other takes the split's place, is closing in the forest. |
| HtmSteps.PaneIsListed | src/htm/MultiplexerState.cpp:9-36 | A pane's parent id names the tab or split that has it as child. |
| HtmSteps.SplitIsListed | src/htm/MultiplexerState.cpp:20-49 | So does a split's. |
| HtmSteps.SplitIsWellFormed | src/htm/MultiplexerState.cpp:20-36 | Every split has two children or more, as many sizes, and lies across the split above it. |
| Multiplexer.MultiplexerState.constructor | src/htm/MultiplexerState.cpp:50-68 | One tab of one pane. |
| Multiplexer.MultiplexerState.FatalIfFound | src/htm/MultiplexerState.cpp:349-359 | Fatal exactly for an id in use. |
| Multiplexer.MultiplexerState.NewTab | src/htm/MultiplexerState.cpp:96-112 | Adds a one-leaf tree numbered last; fatal exactly when an id is in use. |
| Multiplexer.MultiplexerState.NewSplit | src/htm/MultiplexerState.cpp:114-193 | Splits the source's leaf in the forest, halving the shares of a split that goes on and no other; the tabs keep their orders; fatal exactly when the pane id is in use, or the source is no pane and not the new one while a tab's id is empty; that case leaves no forest. |
| Multiplexer.MultiplexerState.ContinueSplit | src/htm/MultiplexerState.cpp:127-139 | The new pane becomes the split's last child with half of the space. |
| Multiplexer.MultiplexerState.OpenSplit | src/htm/MultiplexerState.cpp:149-160 | Source and pane share a new split equally. |
| Multiplexer.MultiplexerState.ReplaceChild | src/htm/MultiplexerState.cpp:163-170 | The first occurrence in a child list is replaced; fatal when there is none. |
| Multiplexer.MultiplexerState.EraseChild | src/htm/MultiplexerState.cpp:233-243 | A child and its share leave a split together; fatal when it is not there. |
| Multiplexer.MultiplexerState.NormalizeSizes | src/htm/MultiplexerState.cpp:244-250 | The remaining shares are scaled by the old over the new count. |
| Multiplexer.MultiplexerState.ShiftOrders | src/htm/MultiplexerState.cpp:214-219 | Every higher order drops by one. |
| Multiplexer.MultiplexerState.EraseTabOf | src/htm/MultiplexerState.cpp:221-228 | Erases a tab whose child is the pane; fatal when there is none. |
| Multiplexer.MultiplexerState.Collapse | src/htm/MultiplexerState.cpp:251-270 | The remaining pane takes its split's place; fatal exactly when it is no pane. |
| Multiplexer.MultiplexerState.ClosePane | src/htm/MultiplexerState.cpp:195-272 | Ignored exactly for a closed pane; fatal exactly for an unknown one or a lone sibling split; otherwise closes the leaf in the forest, rescales the shares of its split and no other, and keeps the tabs that stay in the same order, with the same numbers if none goes. |
| Multiplexer.FaultsWhenSiblingIsLoneSplit | src/htm/MultiplexerState.cpp:251-253 | On every well-formed state closing a live pane is fatal if and only if its split has two children and the other is a split. |
| Multiplexer.OneMoreKeepsWhole | src/htm/MultiplexerState.cpp:130-134 | Continuing a split keeps shares that sum to one, and only those. |
| Multiplexer.CloseKeepsTotalIff | src/htm/MultiplexerState.cpp:244-250 | Closing keeps the total of the shares if and only if the removed share was the average. |
| Multiplexer.ClosingMayLoseSpace | src/htm/MultiplexerState.cpp:244-250 | Two splits and a close leave three quarters. |
| HtmTheorems.SplitAddsOnePane | src/htm/MultiplexerState.cpp:114-193 | Over all tabs: one pane more, the last child of a split that holds the source, the others in order. |
| HtmTheorems.CloseRemovesOnePane | src/htm/MultiplexerState.cpp:195-272 | Over all tabs: one pane less, its tab gone if it was the last, the others in order. |
| HtmTheorems.SplitThenCloseRestores | src/htm/MultiplexerState.cpp:114-272 | Closing the pane a split added is never fatal and restores the forest. |
| HtmTheorems.EveryPaneInOneTab | src/htm/MultiplexerState.cpp:9-49 | The panes of the map are the leaves of the trees, each in exactly one tab. |
| HtmTheorems.CloseBesideASplit | src/htm/MultiplexerState.cpp:251-253 | From a new state two splits and a close are fatal. |
| HtmTheorems.CloseAReusedPane | src/htm/MultiplexerState.cpp:195-198 | A pane split off, closed and split off again under its id is not closed the second time and stays in the maps. |
| HtmTheorems.SplitOfItself | src/htm/MultiplexerState.cpp:114-192 | A new tab with the empty id and a split of a new pane from itself are accepted; no tab then has the tab's pane as child, though it is its parent. |
| ForwardingProof.AcceptsKeeps | src/terminal/forwarding/PortForwardHandler.cpp:14-23 | Accepting a connection keeps the two ends in agreement. |
| ForwardingProof.ReadsSourceKeeps | src/terminal/forwarding/ForwardSourceHandler.cpp:31-72 | So does reading a source socket, to its end or not. |
| ForwardingProof.ReadsDestinationKeeps | src/terminal/forwarding/ForwardDestinationHandler.cpp:15-54 | So does reading a destination socket. |
| ForwardingProof.DestinationRequestKeeps | src/terminal/forwarding/PortForwardHandler.cpp:98-143 | So does answering a request, whatever comes of it, if the id drawn is free. |
| ForwardingProof.DestinationDataKeeps | src/terminal/forwarding/PortForwardHandler.cpp:148-169 | So does data for a destination socket, open or closed. |
| ForwardingProof.ResponseFindsItsFd | src/terminal/forwarding/PortForwardHandler.cpp:216-239 | A response always finds its fd waiting: the two "already dead" errors are unreachable. |
| ForwardingProof.SourceErrorKeeps | src/terminal/forwarding/PortForwardHandler.cpp:199-202 | So does a response with an error. |
| ForwardingProof.SourceMapsKeeps | src/terminal/forwarding/PortForwardHandler.cpp:203-207 | So does mapping a socket id. |
| ForwardingProof.SourceDataKeeps | src/terminal/forwarding/PortForwardHandler.cpp:170-181 | So does data for a source socket, open or closed. |
| ForwardingTheorems.OneRequestPerWaitingFd | src/terminal/forwarding/PortForwardHandler.cpp:12-34 | In every state reached by draws of free ids an unassigned fd has exactly one request or response in flight, any other fd none. |
| ForwardingTheorems.NoDataBeforeMapping | src/terminal/forwarding/PortForwardHandler.cpp:170-207 | No destination data arrives before its socket id is mapped. |
| ForwardingTheorems.BytesArePrefixes | src/terminal/forwarding/PortForwardHandler.cpp:145-239 | What a socket is handed is a prefix of what its partner was read; while it is open the rest is in flight; the partner is the fd that asked. |
| ForwardingTheorems.EndComesLast | src/terminal/forwarding/PortForwardHandler.cpp:157-176 | When an end arrives for an open socket, everything read before it has been handed over. |
| ForwardingTheorems.FdsAreConserved | src/terminal/forwarding/ForwardSourceHandler.cpp:17-130 | The open source fds are the disjoint union of the waiting and the mapped ones, the map is injective, live ids are routed to their handler. |
| ForwardingTheorems.NothingIsClosedTwice | src/terminal/forwarding/ForwardSourceHandler.cpp:62-130 | Whatever a step closes, at either end, is open before it and not after. |
| ForwardingDestinations.DestinationFdsAreConserved | src/terminal/forwarding/PortForwardHandler.cpp:119-141 | After any run the open destination fds are the disjoint union of the handlers', one each, and those leaked; they are the handlers' alone if and only if every request that connected found a free id. |
| ForwardingPolls.SourcePollIsARun | src/terminal/forwarding/ForwardSourceHandler.cpp:34-71 | A poll of a source socket, whatever it has ready, is a run of the two-ended model with the same data and the same sockets left. |
| ForwardingPolls.DestinationPollIsARun | src/terminal/forwarding/ForwardDestinationHandler.cpp:15-54 | So is a poll of a destination socket. |
| ForwardingPolls.SourceUpdateIsARun | src/terminal/forwarding/PortForwardHandler.cpp:14-23 | So is a round over all source handlers, with what they accept: same sockets, same requests, same data for each id. |
| ForwardingPolls.DestinationUpdateIsARun | src/terminal/forwarding/PortForwardHandler.cpp:25-33 | So is a round over the destination handlers, up to the one that ended. |
| ForwardingReuse.DrawIsHarmlessIff | src/terminal/forwarding/PortForwardHandler.cpp:124-140 | In every reachable state a draw keeps the streams right in all runs that go on with draws of free ids, if and only if the id drawn is free. |
| ForwardingReuse.DrawBreaks | src/terminal/forwarding/PortForwardHandler.cpp:124-140 | From a draw of an id that is not free, a run without another draw hands over bytes not read from the partner or an end before its bytes. |
| ForwardingReuse.ReusedIdsMixConnections | src/terminal/forwarding/PortForwardHandler.cpp:124-140 | A run from the start that draws an id again and hands a byte read from connection 1 to the socket of connection 2. |
| ForwardSockets.SocketHandler.WriteAllOrReturn | src/base/SocketHandler.cpp:44-72 | The loop puts exactly the accepted prefix on the socket. |
| ForwardSockets.AcceptedIs | src/base/SocketHandler.cpp:44-72 | That prefix is as long as all the calls before the first that fails or writes nothing can take together, or everything. |
| ForwardSockets.PrefixIffNoGap | src/terminal/forwarding/ForwardSourceHandler.cpp:116-119 | What reaches a socket is a prefix of what is handed to it whatever the bytes, if and only if nothing is written after a short write. |
| ForwardingWrites.ArrivesAsPrefix | src/terminal/forwarding/ForwardSourceHandler.cpp:110-120 | In every run, while nothing is written to a socket after a short write, what reaches it is a prefix of what was read from its partner, at both ends. |
| ForwardingWrites.InOrderInEveryRunIff | src/terminal/forwarding/ForwardDestinationHandler.cpp:10-13 | Writes of given lengths and counts leave such a prefix in every run if and only if nothing is written after a short write. |
| ForwardingWrites.GapsHappen | src/base/SocketHandler.cpp:44-72 | For any counts with a write after a short one there is a run that makes them and leaves no prefix. |
| ForwardingWrites.SecondByteLost | src/base/SocketHandler.cpp:44-72 | A run in which three bytes are read and the socket gets the first and the third. |
| ForwardSockets.EndsWhenPolled | src/terminal/forwarding/ForwardSourceHandler.cpp:38-67 | A poll reports an end if and only if it meets one before it must wait. |
| ForwardSockets.PolledIs | src/terminal/forwarding/ForwardSourceHandler.cpp:38-67 | A poll reports the bytes of all reads up to the first that brings none, in order, and then the end or error that stopped it; what is behind that read stays for the next poll. |
| ForwardSockets.Poll | src/terminal/forwarding/ForwardSourceHandler.cpp:38-67 | Everything readable goes out in order under the socket's id and is no longer there to be read, an ended socket is closed, and no other socket is touched. |
| PortForward.ForwardSourceHandler.Listen | src/terminal/forwarding/ForwardSourceHandler.cpp:17-29 | The first offer that is an fd not open waits for a socket id; -1 means there is none. |
| PortForward.ForwardSourceHandler.Update | src/terminal/forwarding/ForwardSourceHandler.cpp:31-72 | Every socket's data goes out, once; exactly the ended ones are closed and dropped. |
| PortForward.ForwardSourceHandler.CloseUnassignedFd | src/terminal/forwarding/ForwardSourceHandler.cpp:78-85 | A waiting fd is closed and forgotten. |
| PortForward.ForwardSourceHandler.AddSocket | src/terminal/forwarding/ForwardSourceHandler.cpp:87-96 | A waiting fd moves to the socket map; the only fd let go of is one that had the same id, and it stays open. |
| PortForward.ForwardSourceHandler.SendDataOnSocket | src/terminal/forwarding/ForwardSourceHandler.cpp:110-120 | Data goes to the mapped fd, or nowhere. |
| PortForward.ForwardSourceHandler.CloseSocket | src/terminal/forwarding/ForwardSourceHandler.cpp:122-130 | A mapped fd is closed and forgotten; a second close does nothing. |
| PortForward.ForwardDestinationHandler.Update | src/terminal/forwarding/ForwardDestinationHandler.cpp:15-54 | The socket's data goes out; on its end the fd is closed and marked. |
| PortForward.ForwardDestinationHandler.Close | src/terminal/forwarding/ForwardDestinationHandler.cpp:8-8 | The fd is closed; the handler does not notice. |
| PortForward.ForwardDestinationHandler.WriteData | src/terminal/forwarding/ForwardDestinationHandler.cpp:10-13 | Data goes to the fd as far as it accepts it. |
| PortForwardHandlers.PortForwardHandler.CreateSource | src/terminal/forwarding/PortForwardHandler.cpp:70-90 | One more source handler, holding nothing. |
| PortForwardHandlers.PortForwardHandler.CloseSourceFd | src/terminal/forwarding/PortForwardHandler.cpp:216-226 | The handler waiting for the fd closes it and lets go of it; nothing else is closed. |
| PortForwardHandlers.PortForwardHandler.AddSourceSocketId | src/terminal/forwarding/PortForwardHandler.cpp:228-239 | The handler waiting for the fd maps it, and the id is routed there; the routes stay right if and only if no other handler has that id. |
| PortForwardHandlers.PortForwardHandler.CloseSourceSocketId | src/terminal/forwarding/PortForwardHandler.cpp:241-249 | Socket and route go together, and exactly the fd of a live socket is closed. |
| PortForwardHandlers.MappingIs | src/terminal/forwarding/PortForwardHandler.cpp:228-239 | A response with a socket id makes it live on the waiting fd, which waits no more; no other fd waits and no other id lives differently; without a waiting fd nothing changes. |
| PortForwardHandlers.RefusalIs | src/terminal/forwarding/PortForwardHandler.cpp:216-226 | A response with an error ends the waiting of its fd, and that is all. |
| PortForwardHandlers.EndIs | src/terminal/forwarding/PortForwardHandler.cpp:241-249 | The end of a connection makes its socket id live no more, and that is all. |
| PortForwardHandlers.PortForwardHandler.SendDataToSourceOnSocket | src/terminal/forwarding/PortForwardHandler.cpp:263-272 | Data reaches the live socket of that id, and no other. |
| PortForwardHandlers.PortForwardHandler.Connect | src/terminal/forwarding/PortForwardHandler.cpp:100-118 | For a port the fd of the IPv6 address if that can be used, else that of the IPv4 one; for a name its own; -1 if and only if none can be used. |
| PortForwardHandlers.PortForwardHandler.DrawSocketId | src/terminal/forwarding/PortForwardHandler.cpp:124-133 | The first of a hundred thousand draws that no destination has; none if and only if all are taken. |
| PortForwardHandlers.DrawnIsFirst | src/terminal/forwarding/PortForwardHandler.cpp:124-133 | What the draws are proved against is the first of them that is not taken, or none if and only if all are. |
| PortForwardHandlers.PortForwardHandler.CreateDestination | src/terminal/forwarding/PortForwardHandler.cpp:98-143 | The response is an error if and only if no address of its kind can be used or all of a hundred thousand draws are taken; otherwise it names the first free draw, for the first address that can be used. The fd stays open in either case. |
| PortForwardHandlers.PortForwardHandler.UpdateSources | src/terminal/forwarding/PortForwardHandler.cpp:14-23 | Every handler is polled once and then accepts the first of its offers that can be used; one request each; exactly the fds that ended are closed. |
| PortForwardHandlers.PortForwardHandler.UpdateDestinations | src/terminal/forwarding/PortForwardHandler.cpp:25-33 | Destinations are polled once each until one ends, which is dropped and closed; the others wait, unread. |
| PortForwardHandlers.PortForwardHandler.Update | src/terminal/forwarding/PortForwardHandler.cpp:12-34 | Both together: requests, data, open fds, what is left to read and state after one round, which is a run of the two-ended model at each end. |
| PortForwardHandlers.PortForwardHandler.HandlePacket | src/terminal/forwarding/PortForwardHandler.cpp:145-214 | Each kind of packet changes exactly the end it is for, as the step of the two-ended model does; only data is written, only the fds of an end or a refusal are closed, and only a request is answered. |
| HostMatch.MatchesIsACut | src/terminal/ParseConfigFile.hpp:297-301 | The recursive meaning of a pattern is a cut of the string into one fitting piece per pattern character. |
| HostMatch.MatchPattern | src/terminal/ParseConfigFile.hpp:301-365 | The matcher terminates and decides the pattern with its trailing stars read as one character or more. |
| HostMatch.Sound | src/terminal/ParseConfigFile.hpp:301-365 | What the matcher accepts, the pattern means. |
| HostMatch.ExactIff | src/terminal/ParseConfigFile.hpp:308-346 | Matcher and meaning agree on all strings if and only if the pattern does not end in two stars. |
| HostMatch.SubsAreWhatIsWritten | src/terminal/ParseConfigFile.hpp:381-411 | Subpatterns are what the list is written from, up to a comma at its end, negated if and only if written with a leading "!". |
| HostMatch.ReadSub | src/terminal/ParseConfigFile.hpp:394-398 | Copies in lower case to the comma, the end, or a full buffer. |
| HostMatch.LowerIff | src/terminal/ParseConfigFile.hpp:278-295 | Two strings are the same in lower case if and only if they differ in the case of letters only. |
| HostMatch.MatchPatternList | src/terminal/ParseConfigFile.hpp:373-428 | -1 if and only if a negated subpattern before any over-long one matches; 1 if and only if none does, a positive one matches and none is over-long; else 0. |
| HostMatch.VerdictOnOrdinaryList | src/terminal/ParseConfigFile.hpp:367-372 | For subpatterns that fit and do not end in two stars, the verdict is the documented one. |
| HostMatch.PlainSubHitsIff | src/terminal/ParseConfigFile.hpp:381-420 | A subpattern without wildcards matches a host in lower case if and only if it is that host up to case. |
| HostMatch.OverlongCancelsAMatch | src/terminal/ParseConfigFile.hpp:400-403 | A list with a match and then 1023 characters has the verdict 0, as if nothing matched. |
| HostMatch.HostLine | src/terminal/ParseConfigFile.hpp:1359-1377 | Parsing is on if and only if some token asks for the host and none refuses it; tokens after an empty one are not read. |
| HostMatch.CaseDoesNotMatter | src/terminal/ParseConfigFile.hpp:1359-1377 | A Host line decides alike for hosts and tokens that differ in upper and lower case only. |
| HostMatch.TokenOrderDoesNotMatterIff | src/terminal/ParseConfigFile.hpp:1359-1377 | All orders of the tokens decide alike about a host if and only if no token is empty or none asks for the host. |
| HostMatch.EmptyTokenHidesTheRest | src/terminal/ParseConfigFile.hpp:1364-1365 | `h ""` selects the host h and `"" h` does not. |
| Strings.SplitString | src/base/Headers.hpp:295-309 | The getline loop yields the pieces; a delimiter at the end starts none. |
| Strings.SplitJoin | src/base/Headers.hpp:295-309 | Strings joined by a delimiter split into their pieces, and the empty piece that a delimiter at the end of the first hid. |
| Strings.StoiOfToString | src/terminal/TerminalClientMain.cpp:424-425 | Reading a printed int gives it back. |
| Strings.StoiReads | src/base/TunnelUtils.cpp:42-59 | A space or a plus sign before a number and whatever follows it are not read; a minus sign negates. |
| Scrollback.TerminalHandler.Store | src/htm/TerminalHandler.cpp:79-105 | After every poll: at most 1024 lines and 131072 characters, the length is the sum of the lines, the text is the end of all output without newlines, and the lines are those of all reads so far, each appended and trimmed. |
| Scrollback.TerminalHandler.Trim | src/htm/TerminalHandler.cpp:93-105 | Both loops together keep what fits. |
| Scrollback.KeptIsLongest | src/htm/TerminalHandler.cpp:93-105 | A number of newest lines fits both limits if and only if at least that many are kept. |
| Scrollback.LinesLost | src/htm/TerminalHandler.cpp:79-92 | Over any reads, each one before the last that ends in a newline loses one line of the whole output. |
| Scrollback.LinesSurviveIff | src/htm/TerminalHandler.cpp:79-92 | Over any reads the lines appended are those of the whole output if and only if no read before the last ends in a newline. |
| Scrollback.KeptOfKeptIff | src/htm/TerminalHandler.cpp:93-105 | An earlier trim shows after the next read if and only if it dropped a line still growing and the read fits. |
| Scrollback.TrimmingCanWait | src/htm/TerminalHandler.cpp:79-105 | Over any reads, trimming after each is trimming once at the end the lines they make, where a line that has outgrown the buffer is not continued by the next read. |
| Scrollback.BufferIsOfTheWholeIff | src/htm/TerminalHandler.cpp:79-105 | Over any reads the buffer is the longest fitting end of the lines of the whole output if and only if, going back from the end, it is full before those differ from the lines the reads make. |
| Scrollback.FittingOutputIff | src/htm/TerminalHandler.cpp:79-105 | While the whole output fits, the buffer is its lines if and only if no read before the last ended in a newline. |
| Scrollback.BufferIsOfTheWhole | src/htm/TerminalHandler.cpp:79-105 | The lines the reads make are those of the whole output if a newline ends exactly the reads after which a line has outgrown the buffer. |
| Tunnel.PrintForwards | src/terminal/TerminalClientMain.cpp:420-433 | The loop appends the entries with commas to the option. |
| Tunnel.ProcessEtStyleTunnelArg | src/base/TunnelUtils.cpp:7-87 | Each branch adds its requests to those before, or fails as specified. |
| Tunnel.WhatAPairAsksFor | src/base/TunnelUtils.cpp:7-78 | What `a:b` asks for, written out: port to port, port to socket path, socket path to port, path to path, and a name of an environment variable to a path. |
| Tunnel.ProcessRanges | src/base/TunnelUtils.cpp:42-66 | The range loop adds one pair per step. |
| Tunnel.ParseSshTunnelArg | src/base/TunnelUtils.cpp:92-115 | The character loop yields the parts. |
| Tunnel.WhatAnSshArgumentAsksFor | src/base/TunnelUtils.cpp:143-157 | What `bind:port:host:hostport` asks for, written out. |
| Tunnel.SshRoundTrip | src/base/TunnelUtils.cpp:89-115 | Parts written with brackets around colons are read back. |
| Tunnel.ParseRangesToRequests | src/base/TunnelUtils.cpp:128-159 | The parser is the specified one on every input. |
| Tunnel.RoundTripIff | src/base/TunnelUtils.cpp:128-142 | Printed LocalForward pairs parse to the same pairs in the same order, on localhost, if and only if no port is negative; otherwise parsing fails. |
| Tunnel.OptionSurvivesIff | src/terminal/TerminalClientMain.cpp:420-433 | A tunnel option that parses and the LocalForward pairs behind it are read one after the other if and only if no port is negative, the option does not end in a comma and is not a lone ssh-style argument; an option that is refused stays refused, unless it was one. |
| Tunnel.MisreadOption | src/base/TunnelUtils.cpp:128-159 | `127.0.0.1:8080:h:9090` alone forwards to h, and with a pair behind it forwards port 127 to port 8080. |
| Tunnel.UndefinedIff | src/base/TunnelUtils.cpp:42-59 | The parser leaves what C++ defines if and only if the option is empty, or not a lone ssh-style argument and with an argument, behind ones that parse, of two ranges of which one has no second end or both are 0-2147483647. |
| Tunnel.OpenRangesReachBeyond | src/base/TunnelUtils.cpp:44-46 | The option `5-:6-` does. |
| Tunnel.RangesPairUp | src/base/TunnelUtils.cpp:42-66 | Two ranges of equal length stand for their ports pair by pair; of different length they are refused. |

## Left out

- Channel: sequence numbers and packet lengths stay below 2^31, the width of the fields that carry them; a write beyond that is no step of the model.
- Channel: runs start at a new client's connection; a first connection answered as a returning client, where the client starts afresh and the server recovers, is outside it.
- Channel: the 128 MiB limit on a protobuf message, timeouts and errno classes are among the failures that may happen at any point.
- Crypto: the cipher is any pair of functions of nonce and message that opens what it sealed with the same nonce and adds 16 bytes; forgery is not modelled.
- Sockets: a socket's behaviour is a finite list of outcomes, and fails after them.
- BackedWriters.BackedWriter.Write: packets are handed over unencrypted; the source ends the process on others.
- Connections.Connection.WritePacket: looks at finitely many attempts and gives up after them; the source's loop has no bound.
- Connections: threads run one locked section at a time; the race between closing a socket and a read or write on it, which the source handles as an error, is not modelled below that.
- Connections: no bound on the backup over repeated reconnects without a connected write, and no way out of "too far behind": the source gives neither.
- ServerConnection: accepting clients and keeping their keys; the model offers fresh sockets to both ends instead.
- Multiplexer.MultiplexerState.NewSplit: the random split id is unused and not empty, and differs from the pane id.
- Multiplexer: shares are real numbers; JSON, the terminals behind the panes and resizing.
- Forwarding: accept and connect yield fds that are not open; the invariant and its theorems are for runs whose draws are of free socket ids.
- PortForwardHandlers.PortForwardHandler.Update: the data of one round is compared with the run's for each socket id; the order between ids follows a hash map and is not modelled.
- PortForwardHandlers.PortForwardHandler.CreateSource: named pipes, their temporary files and environment variables; the exceptions of an endpoint that cannot be listened on.
- PortForwardHandlers: data of the two directions is returned in two sequences; their order relative to each other is not modelled.
- HostMatch: cutting the line into tokens, and all other keywords of ssh_config.
- Scrollback: reading the pseudo-terminal; what is modelled is what a poll does with the characters it has read.
- Tunnel: the text of error messages; what happens after reading past the end of a vector or an int overflow, which C++ leaves undefined; that it comes to that is an error of its own (`UndefinedIff`).
- Terminal and server loops, host string parsing, telemetry, logging and daemons.
