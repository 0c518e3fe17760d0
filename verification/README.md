# A verified model of procs

procs supervises processes: a daemon runs them and streams their state and logs to one terminal client, and the
client mirrors that stream, renders the logs and lets the user move through them. This project models the parts of it
where something has to hold over whole runs or over every text, and proves that it does.

**From the daemon to its client.** `Runtime.dfy` is the store of live project states and `RuntimeLaws.dfy` says what
a history of events leaves in it. `Ipc.dfy` has the envelopes, `LogRings.dfy` the log rings of all projects,
`ClientConn.dfy` the two queues of a connection and `ClientConnLaws.dfy` what comes out of them, `Server.dfy` the source
goroutine, `Client.dfy` the mirror. `Replication.dfy` puts them together as a transition system. Its steps are an
event, the end of the events, a new client taking over, a disconnect, a close at any time, a toast from another
goroutine, the writer taking an envelope, a write that succeeds or fails, and a client read; they interleave in any
order. A turn of the source goroutine is one step, except that an overflowing control queue is closed in a step of its
own, as the code unlocks before it closes. The steps use the functions that the class methods are proved to compute.
`ReplicationSteps.dfy` and `ReplicationInvariant.dfy` prove what every step keeps, `ReplicationEnds.dfy` what becomes
of a connection that is closed or overflows, and `ReplicationLaws.dfy` what follows for every reachable state: the
mirror with what is still under way equals the daemon's store, the handoff from snapshot to stream is exactly once, at
most one connection is open, log loss is confined to lines with a full queue of newer ones behind them, and a ring
heals once enough newer lines have come. `ReplicationHistory.dfy` tells what a client shows from the events alone.

**The log byte pipeline.** `LineBuffer.dfy` splits chunks into lines and refines a byte-at-a-time automaton;
`LineBufferLaws.dfy` says when chunking makes no difference and `LineBufferUtf8.dfy` why forced splits never cut a
character. `RingBuffer.dfy` is the circular buffer with its bulk path, `Rotator.dfy` the rename chain of the log files.

**Rendering.** `Wrap.dfy` wraps styled lines, for any terminal that the two SGR resets bring back to its clean style
and that changes its style on SGR sequences only; `RowMap.dfy` relates visual rows, log lines and mouse columns;
`Highlight.dfy` inserts match highlights over text with escape sequences, `HighlightStyles.dfy` says what a terminal
shows of them and that clicks still hit the right byte, `HighlightColours.dfy` which colours and attributes of the line
they leave alone; `Sql.dfy` and `SqlLaws.dfy` are the SQL formatter, and `SqlCuts.dfy` says where it breaks and what it
indents without following its scan. A line is a sequence of visible bytes and escape sequences, or a byte string with
the ranges of its escape sequences, as the code sees it after its regular expression.

**Moving in a log.** `Motions.dfy` has the word motions `w`, `b`, `e` and their counts, `TextObjects.dfy` the bracket
and word objects, `Words.dfy` the byte classes behind both.

**Small machines.** `Framing.dfy` is the length-prefixed frame reader, `KeyDetach.dfy` the Esc Esc handshake,
`RestartPolicy.dfy` the restart policy; each has laws over whole runs.

Code that updates its state in place is a class whose methods are proved against functions, or a method with a loop;
the laws are lemmas about those functions. `Bytes.dfy`, `Options.dfy` and `Seqs.dfy` hold shared definitions.

Where the code does not do what one would expect, the model follows the code and says exactly when it does:

- A chunk boundary between CR and LF loses the line in front of it, if that line is not empty
  (`LineBufferLaws.ChunkIndependence`, `LineBufferLaws.SplitCrLfLosesLine`). The comment on `Feed` does not mention it.
- A line limit below 4 bytes cuts characters (`LineBufferUtf8.SmallLimitCutsCharacter`).
- `w` from an empty line or from behind the end of a line skips the first word of the next line
  (`Motions.ForwardIsExact`, `Motions.ForwardSkipsWord`); `b` from further than just behind the end of a line
  skips that line's words (`Motions.BackwardIsExact`, `Motions.BackwardSkipsLine`). A cursor is left that far
  out when `SetLines` replaces the line under it by a shorter one, as nothing clamps it until the next motion is done.
- A read into a buffer of 4 GiB or more can run past a frame, because the length is truncated to 32 bits before it is
  compared (`Framing.UnderflowGuard`, `Framing.HugeBufferCrossesFrames`).
- Control events are called lossless in client_conn.go, yet one that meets a full queue is dropped. An open connection
  has everything that was due if and only if that has not happened to it (`ReplicationLaws.ExactlyOnce`); such a gap
  can be reached (`ReplicationEnds.GapReached`), and the source goroutine does nothing before it has closed the
  connection.
- doc.go says that the final events are drained to the client at shutdown, while sourceLoop closes the client at once,
  and with it the socket under the write in progress. From a close on the writer takes nothing more
  (`ReplicationEnds.ClosedFrozen`). Everything due is sure to leave the daemon if and only if, when the events end, no
  control event is queued or in the writer's hand (`ReplicationEnds.EndDelivers`); then a client that reads what was
  written shows the final states (`ReplicationEnds.EndMirrors`). One run loses its last event in the queue and one in
  the writer's hand (`ReplicationEnds.EndLosesEvent`, `ReplicationEnds.EndLosesHand`).
- The comment on the highlight codes promises that the line's own colours are preserved. Highlights that are not of the
  current line do preserve them, as those of the current line preserve reverse video
  (`HighlightColours.OthersSurvive`). But the end of a highlight also ends the line's own reverse video, or on the
  current line its own colours: every style outside the matches is kept if and only if, without highlights, reverse
  video is off behind every match, or on the current line the colours behind every match are the default ones
  (`HighlightColours.OutsideKept`). `HighlightColours.OwnReverseEnds` and `HighlightColours.OwnColourEnds` are lines
  that lose something, and a line that never uses what its highlights end loses nothing
  (`HighlightColours.UnusedIsKept`).

Two of these inputs are reachable through the interface of a function only. The callers of `NewLineBuffer`
(internal/state/registry.go:57, internal/process/child.go:171) ask for the default limit of 64 KiB, and the only reader
of a `framedReader` is a gob decoder, whose buffers are far below 4 GiB.

## Model

| member | source | states |
|---|---|---|
| ReplicationLaws.Mirrors | internal/daemon/doc.go:8-16 | in every reachable state, while a connection is open and missed no control event, its client's store carried on with all that is written, held by the writer and queued equals the daemon's store in state and PID of every project |
| ReplicationLaws.DrainedAgrees | internal/daemon/doc.go:13-16 | so a client with nothing left to read shows exactly the daemon's states, and none can stay wrong |
| ReplicationHistory.ClientTellsHistory | internal/daemon/doc.go:8-16 | a client with nothing left to read shows every project in the state of its last start or state change, with the PID of its last start or 0 after an exit, over all events ever; start time, exits and restart attempts are those of the events since it connected |
| ReplicationLaws.ExactlyOnce | internal/daemon/server.go:107-184 | the snapshot is that of the first base events, what is taken and queued starts with it and continues with the later control events once and in order; while a connection is open these are all of them if and only if none found the queue full, and then it is about to be closed; the first envelope a client reads is the snapshot |
| ReplicationLaws.OnlyOneOpen | internal/daemon/server.go:148-159 | at most one registered connection is open, and it is the source goroutine's client |
| ReplicationLaws.LateUnregister | internal/daemon/server.go:155-159 | the late unregister of a displaced connection changes nothing at all, so it never evicts its successor |
| ReplicationLaws.LogLoss | internal/daemon/client_conn.go:57-61 | the log queue is the newest part of the lines forwarded since the snapshot, what was taken is the rest in order without the lost ones, and each lost line has at least 4096 newer ones behind it |
| ReplicationLaws.LossHeals | internal/client/client.go:131-169 | once nothing is queued or under way, the client's ring of a project known at the snapshot is the daemon's ring, if every lost line has a ring full of newer lines of the project behind it |
| ReplicationLaws.OneProjectAlwaysHeals | internal/daemon/client_conn.go:13-15 | with one project logging into rings of at most 4096 lines a drained client always has the daemon's ring |
| ReplicationLaws.SnapshotAgrees | internal/client/client.go:131-138 | a fresh client that applies a snapshot, whatever its order, agrees with the daemon's store in state and PID |
| ReplicationLaws.DueAgrees | internal/client/client.go:143-181 | after the snapshot and the control events since, a client agrees with the store that saw all events, log lines included |
| ReplicationLaws.ControlDecides | internal/client/client.go:117-181 | log lines and toasts that interleave do not affect the project states a client arrives at |
| ReplicationLaws.SnapshotLines | internal/daemon/server.go:211-222 | a snapshot carries the whole ring of each project in the store and no line of any other |
| ReplicationLaws.ServerRing | internal/daemon/server.go:169-175 | a broadcast ring holds the newest n lines its project logged over the whole history |
| ReplicationLaws.ClientRing | internal/client/client.go:131-169 | a client's ring holds the newest n lines pushed by the snapshots and log events it has read |
| ReplicationLaws.Heals | internal/daemon/client_conn.go:57-61 | leaving out lines that all have n newer lines of the project behind them does not change the newest n |
| ReplicationEnds.ClosedFrozen | internal/daemon/client_conn.go:83-91 | from a close on, over every further run, the queues of a connection never change and its writer takes nothing more |
| ReplicationEnds.CloseTakes | internal/daemon/client_conn.go:83-91 | of a connection closed while open and without a gap, the writer has taken all that was due if and only if no control event was queued |
| ReplicationEnds.CloseDelivers | internal/daemon/client_conn.go:94-143 | of such a connection, all that was due leaves the daemon in every continuation, or in every one in which the writer is done, if and only if no control event was queued or in the writer's hand |
| ReplicationEnds.EndTakes | internal/daemon/server.go:138-146 | when the events end, the writer of an open client has taken the snapshot and all control events since, the final ones included, if and only if none was queued |
| ReplicationEnds.EndDelivers | internal/daemon/doc.go:19-21 | they leave the daemon in every continuation, or in every one in which the writer is done, if and only if none was queued or in the writer's hand |
| ReplicationEnds.EndMirrors | internal/daemon/doc.go:19-21 | then a client that has read all that was written shows the state and PID of every project as the daemon has them at the end |
| ReplicationEnds.EndLosesEvent | internal/daemon/server.go:138-146 | a run after which the daemon knows a project that its last client will never hear of, whatever happens |
| ReplicationEnds.EndLosesHand | internal/daemon/client_conn.go:102-106 | so does a run without a queued control event, in which the write in progress fails as the socket is closed |
| ReplicationEnds.GapReached | internal/daemon/client_conn.go:63-69 | a run after which an open connection has missed a control event |
| ReplicationInvariant.EndStep | internal/daemon/server.go:138-146 | the end of the events keeps the invariant |
| ReplicationInvariant.Reached | internal/daemon/server.go:134-162 | every state reached by any interleaving of steps from the start keeps the invariant of the whole system |
| ReplicationInvariant.ArriveStep | internal/daemon/server.go:166-184 | a turn of the source for an event keeps it, with the client open, closed or full |
| ReplicationInvariant.RegisterStep | internal/daemon/server.go:148-154 | taking over from another client keeps it |
| ReplicationInvariant.UnregisterStep | internal/daemon/server.go:155-159 | a disconnect at any time, of the client or of a displaced connection, keeps it |
| ReplicationInvariant.TakeStep | internal/daemon/client_conn.go:82-107 | the writer taking the next envelope, control first, keeps it |
| ReplicationInvariant.ToastStep | internal/daemon/server.go:257-275 | a toast from another goroutine, queued or dropped, keeps it |
| ReplicationSteps.FedCtl | internal/daemon/client_conn.go:51-74 | an arriving event extends what is sent and what was due alike, or marks the connection as to be closed |
| ReplicationSteps.FedLog | internal/daemon/client_conn.go:57-61 | queueing a line, with the oldest dropped when the queue is full, keeps the queue the newest part and the lost lines far behind |
| ReplicationSteps.TookCtl | internal/daemon/client_conn.go:93-99 | because control goes first, the writer moves envelopes on without changing the order sent |
| Replication.TurnIsForward | internal/daemon/server.go:164-184 | a source turn of the transition system changes the queues as Server.ApplyAndForward does |
| Servers.Server.ApplyAndForward | internal/daemon/server.go:166-184 | the store, the rings, the file of live child PIDs and the client's queues after one event, with the client staying the client |
| Servers.Server.PersistChildren | internal/daemon/server.go:224-236 | exactly the projects with a live process and their PIDs, in the order of the ids |
| ReplicationHistory.ChildrenTellHistory | internal/daemon/server.go:224-236 | a project without a process before is in the file exactly if it was started with a PID and has not exited since, and with that PID |
| Servers.Server.Register | internal/daemon/server.go:148-154 | the old client is closed and the new one's only queued envelope is the snapshot of the stores |
| Servers.Server.Unregister | internal/daemon/server.go:155-159 | the connection is closed, and the client is given up only if it is that connection |
| Servers.Server.BuildSnapshot | internal/daemon/server.go:211-222 | every project of the store exactly once, in the order of the ids, with its state, PID and ring |
| ClientConns.ClientConn.Enqueue | internal/daemon/client_conn.go:51-74 | a closed connection takes nothing, a full log queue loses its oldest line, a full control queue closes the connection |
| ClientConns.ClientConn.Take | internal/daemon/client_conn.go:83-100 | control first, each queue in order; nothing when closed or empty |
| ClientConns.ClientConn.Close | internal/daemon/client_conn.go:133-143 | closing is idempotent and leaves the queues as they are |
| ClientConnLaws.EnqueuedAll | internal/daemon/client_conn.go:51-74 | a new connection is closed by its offers if and only if more than 65536 of them are control envelopes; else it holds all of those, toasts included, and the newest 4096 log lines, in order |
| ClientConnLaws.LateWriter | internal/daemon/client_conn.go:80-110 | so a writer that comes late takes every control envelope in order, and then those log lines |
| Clients.Client.ApplySnapshot | internal/client/client.go:131-138 | sets state and PID of every project in turn and pushes its lines to its ring |
| Clients.Client.ApplyEvent | internal/client/client.go:143-189 | the mirror after one event; toasts go to a channel of 64 that drops when full |
| Runtimes.RuntimeStore.Apply | internal/state/runtime.go:111-142 | the store after one event, unknown projects created idle |
| Runtimes.RuntimeStore.Set | internal/state/runtime.go:73-87 | state and PID replaced, the rest of the entry kept |
| Runtimes.RuntimeStore.Seed | internal/state/runtime.go:51-67 | the store with the given ids seeded |
| Runtimes.RuntimeStore.Snapshot | internal/state/runtime.go:145-154 | every entry exactly once, sorted by id |
| Runtimes.LessIsTotal | internal/state/runtime.go:152 | the order sorted by is total, so the sorted copy is unique |
| Runtimes.SeededKeepsKeyed | internal/state/runtime.go:51-67 | seeding files every entry under its own id, as the snapshot relies on |
| Runtimes.LessByFirstDifference | internal/state/runtime.go:152 | ids are ordered by the first byte in which they differ, a prefix first |
| RuntimeLaws.HistoryDecides | internal/state/runtime.go:111-131 | after any history a project has the PID of its last start, 0 if an exit came after it, and the state of its last start or state change; start time, exit and restart attempts are those last told, what no event of the project set is as before, and exactly the projects named by such events have become known |
| Runtimes.ApplyKeepsAgreement | internal/state/runtime.go:111-142 | stores that agree in state and PID still agree after any event, so nothing else of an entry is needed to mirror it |
| Runtimes.SeedIsIdle | internal/state/runtime.go:51-67 | seeding adds exactly the missing ids, as idle, and leaves known entries unchanged |
| RingBuffers.RingBuffer.PushLocked | internal/log/ringbuffer.go:50-59 | the contents are the newest cap of the old ones and the new item; the 64-bit generation advances by one |
| RingBuffers.RingBuffer.PushMany | internal/log/ringbuffer.go:29-48 | bulk path and item path leave the newest cap items and the same generation |
| RingBuffers.RingBuffer.Snapshot | internal/log/ringbuffer.go:74-83 | the contents, oldest first, in a fresh array |
| RingBuffers.RingBuffer.Tail | internal/log/ringbuffer.go:85-97 | the newest n of the contents, or all of them |
| RingBuffers.RingBuffer.Clear | internal/log/ringbuffer.go:99-112 | no contents, and a new generation |
| RingBuffers.RunIsLastN | internal/log/ringbuffer.go:7-59 | over any sequence of operations the buffer holds the last cap items pushed since the last Clear |
| RingBuffers.PushManyIsRepeatedPush | internal/log/ringbuffer.go:29-48 | a bulk push equals pushing one at a time, in contents and in generation |
| RingBuffers.SameGenerationSameContents | internal/log/ringbuffer.go:67-72 | equal generations mean unchanged contents, as long as fewer than 2^64 changes lie between |
| LineBuffers.LineBuffer.Feed | internal/log/linebuffer.go:55-97 | the chunked loop emits and retains what the byte-at-a-time automaton does, and the tail is free of CR and LF and within the limit |
| LineBuffers.LineBuffer.Flush | internal/log/linebuffer.go:100-107 | the retained text as a partial line, if any, and an empty buffer |
| LineBuffers.SafeSplitOffset | internal/log/linebuffer.go:35-51 | walks back over at most three continuation bytes, and never to the floor |
| LineBuffers.RunTail | internal/log/linebuffer.go:65-97 | neither lines nor tail ever contain CR or LF or exceed the limit, and no forced split is empty |
| LineBufferLaws.ChunkIndependence | internal/log/linebuffer.go:55-97 | any chunking keeps the same tail, and gives the same lines if and only if no cut between CR and LF has text in front of it; a lost line is replaced by an empty one |
| LineBufferLaws.SplitCrLfLosesLine | internal/log/linebuffer.go:69-79 | "a" CR, then LF, gives an empty line where "a" CR LF gives "a" |
| LineBufferUtf8.LinesAreUtf8 | internal/log/linebuffer.go:33-51 | for a limit of at least 4 and any chunking of valid UTF-8 every line and the flush are valid UTF-8 within the limit, and no forced split is empty |
| LineBufferUtf8.SmallLimitCutsCharacter | internal/log/linebuffer.go:47-49 | every limit from 1 to 3 cuts a four-byte character |
| LineBufferUtf8.AddChar | internal/log/linebuffer.go:87-92 | a character is collected whole, and the split falls in front of it when it does not fit |
| LineBufferUtf8.LinesRejoin | internal/log/linebuffer.go:65-107 | without bare CR and without a cut that loses a line, the lines rejoin to the stream with CRLF as LF |
| Rotators.Rotator.Write | internal/log/rotator.go:61-80 | what one write does to the managed files; files beyond the numbering stay untouched |
| Rotators.Rotator.RotateLocked | internal/log/rotator.go:93-123 | every number moves up by one, the last is dropped, the log is empty again; no rename finds its target taken, gaps included |
| Rotators.WriteAllKeepsNewest | internal/log/rotator.go:61-123 | a run of writes leaves exactly the newest files of an unlimited history, in their numbering |
| Rotators.HistoryIsConserved | internal/log/rotator.go:61-123 | opening loses nothing, and after a run of writes the surviving files read oldest to newest are all bytes ever written less whole files, the oldest ones |
| Rotators.WriteLiesInOneFile | internal/log/rotator.go:69-74 | every write lies whole in one file, at its place in the history |
| Framing.Encoder.Write | internal/ipc/codec.go:42-64 | header and payload, or an error and nothing written for a payload above the cap |
| Framing.FramedReader.Read | internal/ipc/codec.go:100-121 | one read: header when one is due, errors, and at most the rest of the frame, with 32-bit arithmetic |
| Framing.ReadDelivers | internal/ipc/codec.go:100-121 | each read delivers the next payload bytes of the stream or its final error, for every buffer size and short read; a frame above the cap is refused right behind its header |
| Framing.CapIsExact | internal/ipc/codec.go:100-113 | where a header is due, a read is refused as too large if and only if the big-endian number in the next four bytes is above the cap, and as empty if and only if it is 0; both deliver nothing and take only the header; a connection that ends inside the header is an error |
| Framing.UnderflowGuard | internal/ipc/codec.go:115-119 | the count of remaining bytes never underflows if and only if the buffer length does not truncate to less than it |
| Framing.FramesCarryPayloads | internal/ipc/codec.go:42-64 | framed payloads carry exactly their concatenation, then the end of the stream |
| Framing.RoundTrip | internal/ipc/codec.go:42-121 | reading framed payloads with any buffers below 4 GiB and any short reads delivers them in order, and ends only after all of them, whatever the schedule |
| Framing.RoundTripEnds | internal/ipc/codec.go:42-121 | with room in every buffer and progress in every read, more reads than there are bytes deliver all payloads and end with the end of the stream |
| Framing.ReadAllProgresses | internal/ipc/codec.go:100-121 | such reads without an error deliver at least one byte each |
| Framing.OversizeIsRefused | internal/ipc/codec.go:110-112 | behind framed payloads, a header above the cap with anything after it: no reads deliver more than the payloads, an error is that refusal and comes after all of them, and enough reads end with it |
| Framing.HugeBufferCrossesFrames | internal/ipc/codec.go:115-117 | a buffer of 4 GiB reads into the header of the next frame |
| Wrap.WrapLine | internal/tui/panes/logpanel_wrap.go:14-99 | fast path and general loop both give the rows of the general walk |
| Wrap.VisibleColumns | internal/tui/panes/logpanel_wrap.go:103-118 | the bytes of a line less those of its escapes are its visible bytes |
| Wrap.TracksAll | internal/tui/panes/logpanel_wrap.go:120-135 | the instructions that the wrapping tracks are exactly the sequences from `[` to `m`, and its resets exactly `[m` and `[0m` |
| Wrap.WrapKeepsMeaning | internal/tui/panes/logpanel_wrap.go:5-9 | for every terminal that both resets bring back to the clean style and that no sequence but an SGR one restyles, the rows shown one after the other, each from the clean style, show the same bytes and escapes in the same styles as the line |
| Wrap.WrapDoesNotBleed | internal/tui/panes/logpanel_wrap.go:54-58 | each row of a wrapped line leaves the terminal in the clean style |
| Wrap.WrapFills | internal/tui/panes/logpanel_wrap.go:5-12 | a wrapped line has at least two rows, all but the last exactly as wide as asked, the last no wider, holding its text in order |
| Wrap.FastIsGeneral | internal/tui/panes/logpanel_wrap.go:18-33 | for lines without escapes, cutting by byte offset gives what the general loop gives |
| Wrap.WrappedByte | internal/tui/panes/logpanel_wrap.go:69-93 | byte x of row k is byte k times the width plus x of the line |
| RowMap.LogPanel.PaintRows | internal/tui/panes/logpanel.go:563-617 | the stored map and first marks are those of the expanded rows; without lines the old map stays |
| RowMap.MapIsBlocks | internal/tui/panes/logpanel.go:569-588 | the map starts at line 0, ends at the last line and goes up by one exactly at the rows marked first |
| RowMap.BlockHolds | internal/tui/panes/logpanel.go:579-588 | the rows of a line are its pieces, one contiguous block, only the first marked first |
| RowMap.LogPanel.ContentWidth | internal/tui/panes/logpanel.go:564-567 | the width of the panel without its gutter, at least one column |
| RowMap.LogPanel.ColForRenderedRow | internal/tui/panes/logpanel_mouse.go:203-235 | the clamped column, counting the rows of the same line in front; 0 for rows or lines that do not exist |
| RowMap.ClampIsNearest | internal/tui/panes/logpanel_mouse.go:228-233 | the clamped column is the nearest one of the text |
| RowMap.ClickHitsByte | internal/tui/panes/logpanel_mouse.go:199-235 | with wrap on or off, visible byte x of a row is the byte of the raw line that the answered column names |
| RowMap.EveryByteIsShown | internal/tui/panes/logpanel.go:579-588 | every byte of a raw line is under some column of some row of it |
| Highlight.HighlightLine | internal/tui/panes/logpanel.go:702-755 | only highlights of the kind asked for are inserted, around the ranges the matches map to, all are closed, and a visible byte is highlighted if and only if it lies in a match; the drift branch is never taken |
| Highlight.MapStrippedToRendered | internal/tui/panes/logpanel.go:647-677 | the positions of the visible bytes and the end; the drift fallback is never taken |
| Highlight.Walk | internal/tui/panes/logpanel.go:653-665 | one walk fills the map without outrunning it |
| Highlight.OffsetsAreMap | internal/tui/panes/logpanel.go:643-646 | the map rises strictly, points at the right byte for every stripped position, and ends at the end |
| Highlight.PositionsAreVisible | internal/tui/panes/logpanel.go:653-664 | a position is in the map if and only if it lies in no escape sequence |
| Highlight.RangesAreMatches | internal/tui/panes/logpanel.go:742-752 | a visible byte is between the mapped ends of a match exactly when its stripped position is in the match |
| HighlightStyles.LineText | internal/log/ansi.go:16-21 | the visible tokens of a line are its stripped text |
| HighlightStyles.RangesInOrder | internal/tui/panes/logpanel.go:742-752 | the ranges that matches map to are in order, and no highlight starts or ends inside an escape sequence |
| HighlightStyles.HighlightLineText | internal/tui/panes/logpanel.go:702-755 | the line with the highlight sequences in it shows exactly the stripped text |
| HighlightStyles.ClickThroughHighlights | internal/tui/panes/logpanel.go:541-617 | through highlights and wrapping, a visible byte is the raw byte that the answered column names |
| HighlightStyles.OutsideStyles | internal/tui/panes/logpanel.go:742-754 | for any terminal, the styles outside the matches can be judged match by match, each in the style that the line without highlights has in front of it |
| HighlightStyles.FrontIsPrefix | internal/tui/panes/logpanel.go:742-754 | what these styles are read from is the start of the highlighted line itself |
| HighlightStyles.PlainTextIsTransparent | internal/tui/panes/logpanel.go:51-61 | text without escapes always keeps its style, where the end of a highlight undoes its start |
| HighlightColours.OutsideKept | internal/tui/panes/logpanel.go:51-61 | where the five codes do what their numbers say, everything outside the matches keeps its style if and only if the line's own reverse video is off behind every match, or on the current line its own colours are the default ones there |
| HighlightColours.OthersSurvive | internal/tui/panes/logpanel.go:51-54 | on every line, everywhere outside the matches, highlights keep the line's own colours, those of the current line its reverse video, and both all other attributes |
| HighlightColours.UnusedIsKept | internal/tui/panes/logpanel.go:51-54 | a line with no reverse video, or as the current line with no colours, keeps every style outside its matches |
| HighlightColours.MatchShows | internal/tui/panes/logpanel.go:742-749 | inside a match, up to its first escape sequence, text is shown in reverse video, or on the current line in black on yellow |
| HighlightColours.MatchEnds | internal/tui/panes/logpanel.go:742-752 | behind a match the style is the line's own, less reverse video or less both colours |
| HighlightColours.OwnReverseEnds | internal/tui/panes/logpanel.go:57-58 | "ab" in reverse video with a match on "a" loses the reverse video of "b" |
| HighlightColours.OwnColourEnds | internal/tui/panes/logpanel.go:59-60 | red "ab" with the current match on "a" loses the red of "b" |
| Sql.FormatSQL | internal/tui/panes/logpanel_sql.go:142-238 | the loop over bytes, with its builder and its leftover blanks, gives the rows from cut to cut |
| Sql.MatchKeyword | internal/tui/panes/logpanel_sql.go:254-281 | the first listed keyword at a position, in any case, with no word byte behind it |
| Sql.NextCutIsFirst | internal/tui/panes/logpanel_sql.go:165-228 | the scan stops exactly at the first keyword at a word boundary outside quotes and parentheses, doubled quotes included |
| Sql.TrimIsUnique | internal/tui/panes/logpanel_sql.go:146-151 | a trimmed chunk is the span between its first and last byte that is not blank |
| SqlLaws.FormatLaysOut | internal/tui/panes/logpanel_sql.go:142-238 | the rows are the text in order with only blanks between, each ends at the next cut, and all but possibly the first start with the keyword of a cut, indented as the keyword asks; a blank text gives one empty row |
| SqlLaws.FormatTwice | internal/tui/panes/logpanel_sql.go:140-238 | formatting any row of any output gives back that one row |
| SqlLaws.KeywordLocal | internal/tui/panes/logpanel_sql.go:264-281 | a row has a keyword where the text had one that fits, and none where the text had none |
| SqlCuts.FormatBreaks | internal/tui/panes/logpanel_sql.go:142-281 | a row starts at every break of the text, or the break lies in the keyword of a row, and no row but the first starts elsewhere; two spaces stand in front of exactly the rows that start at a break with no top keyword there |
| SqlCuts.CutIsBreak | internal/tui/panes/logpanel_sql.go:211-281 | the formatter cuts exactly where the text so far ends outside quotes and parentheses, no word byte is in front, and a listed keyword stands in some letter case with no word byte behind it |
| SqlCuts.OutsideIsMode | internal/tui/panes/logpanel_sql.go:165-208 | the scan is outside quotes and parentheses exactly if the text so far is made of whole quoted pieces and other bytes, and of those no part up to the end opens more parentheses than it closes |
| SqlCuts.KeywordStands | internal/tui/panes/logpanel_sql.go:254-281 | a keyword is found exactly where one of either list stands, and is a top one exactly where one of the first list stands |
| Motions.WordForwardOnce | internal/tui/panes/logpanel_motion_ranges.go:162-200 | `w` lands on the next word start from where it departs |
| Motions.WordBackwardOnce | internal/tui/panes/logpanel_motion_ranges.go:212-252 | `b` lands on the previous word start within its reach |
| Motions.WordEndForwardOnce | internal/tui/panes/logpanel_motion_ranges.go:264-297 | `e` lands on the next word end |
| Motions.NextStartIsLeast | internal/tui/panes/logpanel_motion_ranges.go:158-161 | that start is the least one after the cursor, else the end of the buffer |
| Motions.PrevStartIsGreatest | internal/tui/panes/logpanel_motion_ranges.go:211-252 | that start is the greatest one before the cursor, else the start of the buffer |
| Motions.NextEndIsLeast | internal/tui/panes/logpanel_motion_ranges.go:263-297 | that end is the least one after the cursor, else the last byte of the buffer |
| Motions.ForwardIsExact | internal/tui/panes/logpanel_motion_ranges.go:167-182 | `w` meets the specification if and only if the cursor is inside its line, or on the last line, or the next line does not start with a word |
| Motions.ForwardSkipsWord | internal/tui/panes/logpanel_motion_ranges.go:167-174 | from an empty line in front of "ab cd" `w` lands on "cd" |
| Motions.BackwardIsExact | internal/tui/panes/logpanel_motion_ranges.go:226-240 | `b` meets the specification if and only if the cursor is not beyond the end of its line, or the line holds nothing to find |
| Motions.BackwardSkipsLine | internal/tui/panes/logpanel_motion_ranges.go:226-240 | from column 7 of "ab cd" `b` lands on the start of the buffer, not on "cd" |
| Motions.WORDIsNonBlankRun | internal/tui/panes/logpanel_motion.go:76-89 | with the class of the capital motions words are the runs of bytes that are not blank |
| Motions.WordForwardN | internal/tui/panes/logpanel_motion_ranges.go:150-156 | n times `w` |
| Motions.WordBackwardN | internal/tui/panes/logpanel_motion_ranges.go:203-209 | n times `b` |
| Motions.WordEndForwardN | internal/tui/panes/logpanel_motion_ranges.go:255-261 | n times `e` |
| Motions.BackUndoesForward | internal/tui/panes/logpanel_motion_ranges.go:162-252 | `b` undoes `w` from a word start to a word start |
| Motions.BackUndoesForwardN | internal/tui/panes/logpanel_motion_ranges.go:150-252 | so do n of them, whatever n |
| TextObjects.CollectPairs | internal/tui/panes/logpanel_textobjects.go:134-152 | the stack scan collects exactly the pairs with a balanced interior |
| TextObjects.PairsNest | internal/tui/panes/logpanel_textobjects.go:130-152 | any two such pairs are disjoint or nested |
| TextObjects.TobjBracket | internal/tui/panes/logpanel_textobjects.go:132-169 | the pair inside every pair that encloses the column, with or without its brackets, or nothing when none does |
| TextObjects.TobjWordLike | internal/tui/panes/logpanel_textobjects.go:42-91 | the whole run of one class at the clamped column; around it the blanks behind, else those in front, or for blanks the next word |
| Words.ClassOf | internal/tui/panes/logpanel_motion.go:81-89 | class 0 is exactly space and tab, class 1 the other bytes of the class, class 2 the rest |
| Words.WordClass | internal/tui/panes/logpanel_motion.go:63-89 | for the small motions class 1 is exactly the ASCII digits, letters and the underscore |
| KeyDetach.KeyDetector.Feed | internal/tui/attach/session.go:266-297 | one key: what is swallowed, flushed or taken as the second Esc |
| KeyDetach.KeyDetector.FlushIfExpired | internal/tui/attach/session.go:302-312 | one tick: the held Esc is given back exactly when the timeout has passed |
| KeyDetach.SessionLaw | internal/tui/routing.go:120-147 | over any run with ordered times the session has detached if and only if two neighbouring keys were Esc at most the timeout apart, and until then what was sent plus the held Esc is what was received, in order |
| KeyDetach.TickSettles | internal/tui/attach/session.go:299-312 | in any run that ends with a tick and has not detached, the last Esc is held if it was the last key and at most the timeout ago, and otherwise everything received has been sent |
| KeyDetach.PressSettles | internal/tui/attach/session.go:266-297 | behind a key that does not detach an Esc is held, and behind any other key everything received has been sent |
| KeyDetach.DetachSwallowsHandshake | internal/tui/attach/session.go:282-286 | at the detaching key exactly the two Escs of the handshake are not sent |
| RestartPolicy.Policy.OnExit | internal/process/restart.go:54-92 | one exit: the counter, the action and the delay |
| RestartPolicy.Policy.ManualRestart | internal/process/restart.go:95-101 | an immediate restart with the counter reset |
| RestartPolicy.CounterIsRestartsSinceReset | internal/process/restart.go:35-101 | over any run the counter is the number of automatic restarts since the last reset |
| RestartPolicy.AnswerLaw | internal/process/restart.go:54-92 | give-up if and only if an on-failure crash comes after that many restarts, restart if and only if before; the delay is the entry of the schedule with that number, its last entry beyond the end, and none without a schedule |
| RestartPolicy.RestartsAreBounded | internal/process/restart.go:35-101 | automatic restarts never exceed MaxAttempts times one more than the resets |

## Left out

- ReplicationLaws.Mirrors: for runs without reload and without the status command, which read or change the runtime store outside the source goroutine (internal/daemon/server.go:278-330).
- ReplicationLaws.LossHeals: compares bytes, partial flag and timestamp; the cached rendering of a line is left empty on the client.
- Servers.Server.ApplyAndForward: the file of child PIDs is its list of records, and writing it succeeds; the cached rendering of a line is left out; ring capacities are fixed, as they change only by a reload.
- Runtimes.RuntimeStore.Apply: the time of the last restart, which is read from the clock, and the waking of subscribers are left out.
- Clients.Client.ApplyEvent: reload results and daemon errors, which only go to the notification channel, are left out.
- LineBuffers.LineBuffer.Feed: the timestamps of lines are left out.
- LineBuffers.LineBuffer.Flush: the timestamp of the line is left out.
- Rotators.Rotator.Write: every file operation succeeds; short writes and failed renames are left out.
- Rotators.Rotator.RotateLocked: failing removals and renames are left out.
- RingBuffers.RingBuffer.Tail: a negative count, on which ringbuffer.go panics, is left out.
- Framing.Encoder.Write: the gob encoding of an envelope is an opaque payload, and writes to the connection succeed.
- Framing.FramedReader.Read: errors of the connection other than its end are left out.
- KeyDetach.SessionLaw: a paste, which bypasses the detector, and write errors to the child are left out.
- RowMap.LogPanel.PaintRows: the gutter text in front of a row and the selection, cursor and severity overlays are left out; ClickHitsByte takes any decoration that keeps the text, and highlights are shown to.
- Highlight.HighlightLine: where escape sequences and matches lie comes from regular expressions and is an input.
- The order of calls on a mutex: the ring buffer, the rotator, the policy and the queues are modelled with one call at a time.
- The child processes and their manager, whose goroutines depend on timing, and events lost because a child's channel is full.
- `ge`, `gE`, `H`, `M`, `L`, find motions, quote objects, and the JSON and ORM-prefix handling around the SQL formatter: simpler relatives of what is modelled, or regular expressions.
- Terminals, PTYs, signals, sockets, peer credentials, config loading, overlays, side bar and status bar.
