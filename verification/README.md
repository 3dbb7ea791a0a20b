# Mcaster1DNAS: verified core

A Dafny model of the state machines at the core of the Mcaster1DNAS streaming server, with
proofs of what they keep. `dafny verify dfyconfig.toml` checks all of it. The modules follow
the C files:

| modules | source | what they are |
|---|---|---|
| `IntrusiveList`, `Workers`, `WorkerPicking`, `WorkerTurns`, `WorkerRuns`, `WorkerScheduler`, `WorkerFast`, `WorkerPasses`, `WorkerLate`, `WorkerWakeups` | src/client.c | the worker scheduler: fast, normal and pending lists, the cursor, hand-over between workers, passes, the timed wait, and the pipe that ends it |
| `IcyStream`, `IcyWriter`, `IcyReader`, `IcyText`, `IcyLink` | src/format_mp3.c | inline metadata: what a stream means, interleaving it, demultiplexing it in place, printing and parsing a block, and both ends together |
| `Glob`, `FnMatch`, `GlobLaws`, `Mounts` | src/fnmatch_loop.c, src/cfgfile.c | the pattern language of section 2.13 of POSIX.1-2017 XCU, the backtracking matcher, and the mount lookup |
| `AuthPool` | src/auth.c | the request queue and its lazily started handlers |
| `FhCache`, `FhServer` | src/fserve.c | the file-handle cache |
| `Vectors`, `Chunked` | src/connection.c, src/format_mp3.c | resumable gathered output and chunked framing (section 7.1 of RFC 9112) |
| `Amf`, `FlvMeta`, `Flv`, `FlvOutput` | src/flv.c | AMF0 metadata (sections 2.2, 2.3, 2.4, 2.10 and 2.11 of the AMF0 specification) and FLV tags (Annex E of the Adobe FLV specification, version 10.1) |
| `OggHeaders`, `OggClient` | src/format_ogg.c | the header chain (section 4 of RFC 3533) and Ogg listeners |
| `Bytes`, `Wrappers` | | byte strings and an option type |

Most modules have two layers. One says what is meant, on values: what every step does to the
whole state, what a byte stream stands for, which strings a pattern denotes. The other is the
code in its own form, classes and loops over fields, arrays and linked nodes, each method
proved equal to the first layer. The properties are then lemmas about the first layer, or
about objects that satisfy their invariant.

Concurrency is modelled as steps: a section under a lock, or a stretch that only the owning
thread runs, is one event, and a run is any sequence of enabled events. `client_t **` and the
like are a datatype: the head of a named list, or the link field of a node.

What comes from outside is a parameter: what the socket took and whether the peer was found
gone, what the frame parser left unfinished, whether memory or a thread could be had, what a
file lookup found, the clock. Clock readings are taken not to decrease.

## Where the code does less than one might expect

Each of these comes with its exact condition and with an input at which it happens.

- `source_listeners_wakeup` sets the `schedule_ms` of listeners on other workers to 0 and
  wakes nobody (src/source.c:942-965); so do src/slave.c:697 and src/stats.c:211. A worker
  that has passed such a client in its pass sleeps as if it had not been touched:
  `WorkerTurns.NoOversleep`, and the run `WorkerLate.SleepsWhileDue`.
- `validate_mpeg` drops the unfinished bytes when there are more than 20000 of them and some
  complete frame before them (src/format_mp3.c:872-875): `IcyReader.Input.ReadAll`, and the
  read `IcyReader.UnfinishedIsDropped`.
- `open_fh` makes a node for an empty name without opening a file, and leaves its handle at
  zero; deleting the node closes that descriptor. `FhCache.StepKeepsHandles` says that this
  is the only step that breaks the ownership of file handles; `FhCache.OpenFileIsClosed` is a
  run in which the file of another node is closed.
- `connection_bufs_send` leaves a buffer of the vector cut when the peer is found gone and
  the send resumes inside that buffer; the connection is then marked in error:
  `Vectors.ConnBufs.Send`, and the sends of `Vectors.VectorIsLeftCut`.
- A title is not recovered from its block if it, or an artist shown with it, contains the
  terminator `';`: `IcyText.TitleRecovered`, and the title of `IcyText.TitleIsCut`.
- A metadata block without a complete field makes `parse_icy_metadata` forget the other fields
  that were collected, but does not set `update_metadata` (src/format_mp3.c:312-368): what
  listeners get goes on showing them. `IcyReader.BlockChanges`, and the block of NULs of
  `IcyReader.ExtraStays`.
- `flv_mpX_hdr` refuses a frame for which the wrapper of 1024 bytes has no room
  (src/flv.c:88-89), the parser goes on behind it (src/mpeg.c:302-306, 928-943), and
  `write_flv_buf_to_client` then counts the block as sent (src/flv.c:380-385): the frames
  beyond the 62nd to 64th of a block are lost. `FlvOutput.Fitting`, and the block of
  `FlvOutput.FrameIsLost`.
- `send_ogg_headers` leaves the start of a chain on the wire when a listener moves while the
  chain is being sent; what follows begins with a whole chain or with a page whose chain was
  sent before: `OggClient.Listener.Move`, and the listeners of `OggClient.HalfChainIsSent` and
  `OggClient.HalfChainIsLeft`.
- A private copy of an Ogg page (src/refbuf.c:106-118) has a chain of headers of its own,
  without the first page. A listener that moves in the middle of a page
  (src/source.c:1440-1450) is sent that chain before the rest of the page, if it has any
  pages: `OggClient.Listener.MoveWithCopy`, and the listener of `OggClient.PageIsCut`.
- A listener whose block is dropped while it is paused (src/source.c:1574-1578) keeps its
  place in the metadata block or chunk that it was being sent, and goes on at that place in
  the next one: `IcyWriter.Listener.Move`, `Chunked.Listener.Move`, and the listeners of
  `IcyWriter.GoesOutOfStep` and `Chunked.ChunkIsMixed`.

## Model

| member | source | states |
|---|---|---|
| IntrusiveList.ChainConcat | src/client.c:609-615 | splicing one list onto another through its tail address gives exactly the nodes of both, in order, ending in NULL at the new tail address |
| IntrusiveList.ChainMove | src/client.c:761-793 | moving the node at a cursor from one list to the end of another keeps both well formed, whether or not it was the last, and touches no third list |
| IntrusiveList.ChainClose | src/client.c:735-748 | unlinking through a saved successor restores the list without the node that left, even if that node has been relinked elsewhere meanwhile |
| Workers.OneOwner | src/client.c:484-491 | a client resident on one worker carries that worker and is resident on no other |
| Workers.NextStep | src/client.c:751-799 | stepping over a client, with or without a change of list, keeps the whole invariant and every worker's residents |
| WorkerPicking.ScanKeeps | src/client.c:839-864 | the search loop keeps the invariant, loses nobody, and ends with the pass over or with the client at the cursor started; it ends by the measure (switch to the normal list left, clients left to visit) |
| WorkerPicking.PickKeeps | src/client.c:802-866 | the same for the whole of picking, including the max_run cut-off and the clock recheck |
| WorkerPicking.PickCounts | src/client.c:804-862 | a picked client is at most the 1000th of its pass, and max_run and time_recheck were positive before they were decremented |
| WorkerTurns.KeptStep | src/client.c:891-910 | after processing, the client and all others are where they were and the cursor can step on |
| WorkerTurns.LeftStep | src/client.c:895-901 | a client that left or was handed over is resident nowhere, whatever is written to its link, and every other client is where it was |
| WorkerTurns.UnlinkedStep | src/client.c:735-748 | removing the client through the saved nxc repairs list, tail and count and changes no residence |
| WorkerTurns.ResumedStep | src/client.c:665-697 | the end of a wait, with or without adopting the pending list, keeps the invariant and all residents |
| WorkerTurns.TurnedStep | src/client.c:630-665 | the way into a wait keeps the invariant and all residents |
| WorkerTurns.NoOversleep | src/client.c:633-665 | a worker that blocks has an empty fast list, and its timeout is at most the time until any resident normal client is due, or 1 ms, exactly if no other thread has set the schedule_ms of a client to 0 since the cursor passed it, or the timeout is 1 ms anyway |
| WorkerTurns.DueBeforeWakeup | src/client.c:751-799 | from the end of a pass over the normal list until the wait is over, the clients due before the wake-up time are exactly those that another thread made due after the cursor had passed them |
| WorkerFast.NextLands | src/client.c:751-799 | a client that is stepped over is on the fast list afterwards if it is due within 2 ms and was rescheduled like that fewer than four times in a row, and otherwise on the normal list with its count at 0 and the wake-up time not after its own; nobody else changes lists |
| WorkerFast.KeptLands | src/client.c:751-799 | the same for a client that was run and stays, from the time it is given |
| WorkerFast.RunCounts | src/client.c:757-766 | over every run no client is rescheduled on a fast list more than four times in a row |
| WorkerFast.FastStays | src/client.c:630-799 | no step of any thread takes a client off a fast list but the end of its own turn |
| WorkerFast.NeverSleepsOverDue | src/client.c:630-665 | over every interleaving no worker is in its timed wait between keeping a client that is due within 2 ms, with a count below four, and running it again |
| WorkerPasses.PickClock | src/client.c:802-866 | the clock is read every 50 clients; a pass takes from the normal list what is due less than 2 ms after its start, and stamps it with the time; and the wake-up time is 30 seconds after the start or when some client is due |
| WorkerPasses.CutPassHurries | src/client.c:806-813 | a pass that was cut short is followed by the shortest wait there is |
| WorkerPasses.TurnsTo | src/client.c:630-664 | after a pass over the fast list alone the next one begins at once; after the normal list the fast list comes next, and the normal one again in the same pass if some client is due within 5 ms; if nobody is on it, the worker blocks |
| WorkerPasses.WaitsFor | src/client.c:637-643 | for until the wake-up time, but at least 1 ms and at most a minute |
| WorkerPasses.WakesTo | src/client.c:665-697 | a worker that was woken goes on with what was pending on its fast list, one that was not without it; each pass has 1000 clients at most and begins with a reading of the clock |
| WorkerRuns.MadeDueStep | src/source.c:942-965 | a write of schedule_ms by another thread, to any client at any moment, keeps the invariant of every worker and moves nobody |
| WorkerLate.SleepsWhileDue | src/source.c:942-965 | a run from the start of the server in which a worker goes to sleep for 20 seconds although a client of its own is due |
| WorkerWakeups.AfterKeeps | src/client.c:494-540 | every step of workers and of those who wake them keeps: a worker with a client pending has a byte in its pipe, or a deliverer that is about to write one |
| WorkerWakeups.MovesKeep | src/client.c:494-697 | the same over every run |
| WorkerWakeups.NobodyPending | src/client.c:563-603 | it holds of a server without clients |
| WorkerWakeups.PipeBytes | src/client.c:665-686 | a delivery owes one byte, which its thread writes unless the pipe is full, and a wake-up reads up to 150 |
| WorkerWakeups.PendingUntilWoken | src/client.c:665-686 | a pending client stays pending until its worker is woken, and is then on its fast list |
| WorkerWakeups.StaysPending | src/client.c:665-686 | over every run in which its worker is not woken a client stays pending and announced |
| WorkerWakeups.NotStranded | src/client.c:655-686 | a worker in its timed wait with clients pending can be woken or is about to be, and once the deliverers have written its wait can only end by adopting all of them, in order |
| WorkerRuns.DeliveredStep | src/client.c:484-506 | a client that is outside becomes resident on exactly the destination; nobody else moves |
| WorkerRuns.StepKeeps | src/client.c:869-931 | every step of every thread, writes of schedule_ms by other threads included, keeps the invariant, and says for each client exactly whether it stays, arrives, moves or goes |
| WorkerRuns.StepOutside | src/client.c:869-931 | a step leaves a client on no worker exactly if it takes it away, or it was on none and is not delivered |
| WorkerRuns.RunKeeps | src/client.c:484-931 | in every interleaving of any length all lists keep shape, counts and cursor, and no client is lost unless taken |
| WorkerRuns.OnePlace | src/client.c:484-931 | a client on a worker is at exactly one position of exactly one list |
| WorkerRuns.HandOffLands | src/client.c:494-506 | after a hand-over the client is on the destination only, even while the source list still runs through it |
| WorkerPicking.PickStart | src/client.c:806-829 | the clock recheck, the cut-off and the resynchronising of sched_ms lead to a state from which the search may start |
| WorkerRuns.ScanTakesFirstDue | src/client.c:839-864 | the search takes the first client that is due on the normal list |
| WorkerScheduler.Scheduler.constructor | src/client.c:563-603 | a server with no clients satisfies the invariant |
| WorkerScheduler.Scheduler.AddClient | src/client.c:484-491 | the pointer operations of the pending append are the abstract delivery |
| WorkerScheduler.Scheduler.MakeDue | src/source.c:951-959 | one turn of source_listeners_wakeup: the time is set under the lock of the worker, which is not woken |
| WorkerScheduler.Scheduler.ChangeWorker | src/client.c:494-506 | the hand-over of a client that is being run, as departure then delivery |
| WorkerScheduler.Scheduler.NextClient | src/client.c:751-799 | the in-place relinking equals the abstract step, and the next client is returned |
| WorkerScheduler.Scheduler.Search | src/client.c:839-864 | the loop equals the abstract search; no resident of another worker is ever met, so the abort is never taken |
| WorkerScheduler.Scheduler.PickClient | src/client.c:802-866 | the whole of picking equals its abstract form |
| WorkerScheduler.Scheduler.RemovedClient | src/client.c:735-748 | count, tail and link writes equal the abstract unlinking |
| WorkerScheduler.Scheduler.AddPendingClients | src/client.c:605-625 | the splice of the pending list onto the fast list |
| WorkerScheduler.Scheduler.Resume | src/client.c:665-697 | what follows the timed wait equals its abstract form |
| WorkerScheduler.Scheduler.WaitOrTurn | src/client.c:630-665 | what precedes the timed wait equals its abstract form |
| WorkerScheduler.Scheduler.KeepClient | src/client.c:893-910 | a client that stays is rescheduled and stepped over: onto the fast list exactly if it is due within 2 ms and its count is below four, else onto the normal list with its count at 0 |
| IcyStream.FeedConcat | src/format_mp3.c:1003-1064 | demultiplexing does not depend on how the input is cut into reads |
| IcyStream.FeedFrames | src/format_mp3.c:1003-1064 | whole intervals with their blocks give back exactly the audio and, in order, the blocks that say something |
| IcyStream.FeedStream | src/format_mp3.c:1003-1064 | the same when the stream stops anywhere within an interval or a block |
| IcyStream.HandBackReread | src/format_mp3.c:917-942 | handing back any suffix of the audio and reading it again changes nothing, also when a block lies inside it and the position goes below zero |
| IcyWriter.WireReads | src/format_mp3.c:567-704 | whatever each send accepted, demultiplexing what a listener was sent gives exactly the queue bytes consumed and the blocks sent, plus the block in progress |
| IcyWriter.Listener.SendIcyMetadata | src/format_mp3.c:567-635 | what goes out is the metadata that applies here, to the byte, or one NUL if it is what was sent last and nothing was begun; a short write leaves exactly the first bytes of it sent, and is resumed after them; what was sent stays as the queue says; a block that was begun with more bytes than there are marks the connection |
| IcyWriter.Listener.DueBlockIs | src/format_mp3.c:576-601 | what is due is the rest, after what was sent, of the metadata that applies here, or one NUL |
| IcyWriter.ShowsQueue | src/format_mp3.c:567-635 | a listener that never moved was sent a first part of the queue as audio, and as blocks exactly the metadata that applies at the ends of the intervals, an empty title where there is none, with repeats left out |
| IcyWriter.Listener.Serve | src/source.c:1159-1172 | that is so after every run of calls, whatever the network does |
| IcyWriter.SentMore | src/format_mp3.c:612-625 | a block completed keeps it so |
| IcyWriter.Listener.Move | src/source.c:1574-1578 | a listener that is given another block anywhere stays in step exactly if no metadata block was begun, or the next one has the same length, and goes on with the same text exactly if the next one begins with what was sent |
| IcyWriter.Listener.MoveWithCopy | src/format_mp3.c:136-145 | a listener that moves with a private copy of its block is as much in step as before |
| IcyWriter.InStepReads | src/format_mp3.c:567-635 | what in step means to a reader: after the rest of the due metadata it is at the start of an interval with exactly the audio consumed; otherwise it is not |
| IcyWriter.GoesOutOfStep | src/source.c:1574-1578 | a listener that is out of step after one byte of a metadata block and a move |
| IcyWriter.Listener.WriteBuf | src/format_mp3.c:641-704 | what was sent stays as the queue says, and, in step, one call keeps the wire a sequence of whole intervals and blocks plus a part of the next, and advances by exactly what the network takes |
| IcyWriter.Listener.NextBlock | src/source.c:1162-1172 | going to the next queue block changes nothing of what was consumed, and leaves what was sent as the queue says |
| IcyWriter.SendGathered | src/format_mp3.c:604-610 | metadata and audio go out in one vector, and what is taken is a prefix of both |
| IcyReader.Source.FilterMeta | src/format_mp3.c:983-1064 | in place, the buffer is left with exactly the audio of the input, the position advances modulo 2^32, and complete blocks are parsed; no block collected here is refused |
| IcyReader.Source.TakeMetadata | src/format_mp3.c:1028-1063 | one turn at a block: a part is kept for the next read, a complete block is taken out |
| IcyReader.Source.CopyAndParse | src/format_mp3.c:1047-1060 | what is parsed is the block with its last byte NUL |
| IcyReader.Input.ValidateMpeg | src/format_mp3.c:863-946 | complete frames are delivered; an unfinished one is kept for after the block or read again; more than 20000 bytes of it are dropped |
| IcyReader.Input.Read | src/format_mp3.c:790-829 | one read is as on values: the frame finder is given what it kept, what was handed back and the new audio, complete frames are delivered and the rest is kept in its place or dropped; all audio is conserved exactly if no more than 20000 bytes were left unfinished; and what is known changes by exactly the metadata blocks that the input completes |
| IcyReader.Input.KeptIsAudio | src/format_mp3.c:917-942 | what is kept for the next read is all audio |
| IcyReader.Input.ReadAll | src/format_mp3.c:790-829 | over any number of reads, with learned metadata made current in between: what is delivered and kept is a function of the start, the input and the frame finder, and what is known and current one of the start and the input; while the source runs, all audio received is delivered or kept exactly if none of the reads so determined leaves more than 20000 bytes unfinished |
| IcyReader.ReadsKeep | src/format_mp3.c:863-946 | that condition, on values, for every sequence of reads; audio that is missing stays missing |
| IcyReader.Input.UpdateMetadata | src/format_mp3.c:803-804 | between reads what was learned becomes the current block, and nothing else changes |
| IcyReader.UnfinishedIsDropped | src/format_mp3.c:872-875 | from the start, reading any 20002 bytes of which the frame finder leaves 20001: one is delivered, nothing is kept, and the source runs on |
| IcyLink.Transported | src/format_mp3.c:567-704 | end to end, for any short writes and fragments, and for any frame boundaries under which ReadAll loses nothing: the reader has a prefix of exactly the audio the writer consumed and of the blocks it sent, and all of them once it has all bytes |
| IcyLink.QueueTransported | src/format_mp3.c:567-704 | and if the writer never moved, that is a prefix of the audio of its queue, and of the metadata that applies at the ends of its intervals, repeats left out |
| IcyReader.Mp3State.ParseIcyMetadata | src/format_mp3.c:294-370 | a block equal to the current one or of a length other than announced changes nothing; otherwise the fields are learned; there is something to make current afterwards exactly if there was before, or the block is new, accepted and begins with a complete field |
| IcyText.CompleteField | src/format_mp3.c:312-344 | a text begins with a complete field exactly if there is a terminator after the name of the field |
| IcyReader.BlockChanges | src/format_mp3.c:294-370 | a block that is the current one, or has not the length that it says, changes nothing; any other sets the fields it has and leaves out the others that were collected, and is to be made current exactly if its first field is complete |
| IcyReader.ExtraStays | src/format_mp3.c:366-369 | a block of NULs after one with other fields, which listeners go on being sent |
| IcyReader.AfterBlocksIs | src/format_mp3.c:294-370 | blocks never change what is current, and leave something to make current exactly if there was before or one of them taught something new |
| IcyReader.Input.ReadNext | src/format_mp3.c:790-829 | after a read that has enough, what had been learned before it is the current block, if the text fits |
| IcyReader.LearnedIsCurrent | src/format_mp3.c:363-804 | over any reads: what one of them brings that is new is current after the next that has enough, with all else that was learned up to there |
| IcyReader.Relayed | src/format_mp3.c:294-538 | a server that is given a printed block while another is current comes to send exactly that block, if it has no URL of its own to add |
| IcyText.MetadataSetup | src/format_mp3.c:425-538 | a block is made exactly if the text fits 255*16, and it is the rendered text, whole, NUL-padded |
| IcyText.RenderedFits | src/format_mp3.c:425-453 | the computed length always leaves room for a NUL, so nothing is cut off and the length byte is 1..255 |
| IcyText.BlockIsWellFormed | src/format_mp3.c:453-463 | the block is 16*b+1 bytes and ends in NUL, so that forcing its last byte to NUL loses nothing |
| IcyText.RenderedIs | src/format_mp3.c:490-533 | the text is StreamTitle with the artist before the title, then StreamUrl with the link if there is one, then the other fields |
| IcyText.BlockShows | src/format_mp3.c:453-533 | a block is its length byte, that text, and NULs |
| IcyText.BlockIsShort | src/format_mp3.c:425-453 | the block has the fewest units of 16 bytes that the text, a NUL and an artist that is not shown need |
| IcyText.ShownHasNoEnd | src/format_mp3.c:490-503 | what is shown as the title has no terminator exactly if neither the title, nor an artist shown with it, has one |
| IcyText.RoundTrip | src/format_mp3.c:294-370 | for artist, title and URL without the terminator, printing then parsing gives the shown title, no artist, the URL and the other fields, whatever the receiver knew before |
| IcyText.TitleRecovered | src/format_mp3.c:316-332 | the title is recovered exactly if neither it, nor an artist shown with it, contains the terminator |
| IcyText.TitleIsCut | src/format_mp3.c:316-332 | the title a';b comes back as a, and its rest as another field |
| IcyText.ParsedHaveNoEnd | src/format_mp3.c:312-366 | no title or URL learned from any block contains the terminator |
| Glob.LanguageIsMatches | src/fnmatch_loop.c:44-972 | dividing the string into one piece per element, and matching element by element, give the same language |
| GlobLaws.QuestionMark | src/fnmatch_loop.c:72-80 | a question mark takes one character, whatever it is |
| GlobLaws.Asterisk | src/fnmatch_loop.c:82-199 | an asterisk takes any number |
| GlobLaws.Character | src/fnmatch_loop.c:90-95 | a quoted character, or one that is not special, takes itself |
| GlobLaws.RangeOfCharacters | src/fnmatch_loop.c:201-928 | a range in brackets takes its ends and what is between; after ! or, unless POSIXLY_CORRECT, ^ all the others |
| GlobLaws.ListOfCharacters | src/fnmatch_loop.c:201-928 | a list in brackets takes its characters; a closing bracket that comes first, or a minus sign that comes last, is one of them |
| GlobLaws.NotAPattern | src/fnmatch_loop.c:201-928 | a bracket that is not closed, and a backslash at the end, match nothing |
| FnMatch.Fnmatch | src/fnmatch_loop.c:28-972 | 0 exactly for strings in the language of the pattern; a malformed pattern matches nothing; it terminates on every input |
| FnMatch.Fct | src/fnmatch_loop.c:44-972 | the same from any position of pattern and string |
| FnMatch.FctStar | src/fnmatch_loop.c:82-199 | after stars and question marks, 0 exactly if some end of the string matches; the first-character test and the bound before the end lose no match |
| FnMatch.MatchBracket | src/fnmatch_loop.c:201-928 | a bracket takes the character exactly if the pattern may, and the pattern goes on after the bracket |
| FnMatch.ScanItems | src/fnmatch_loop.c:227-853 | the match scan finds whether some item has the character, and the same closing bracket as the grammar |
| FnMatch.ScanItem | src/fnmatch_loop.c:228-848 | one item: a character, a quoted one, or a range of which the end may be quoted |
| FnMatch.SkipRest | src/fnmatch_loop.c:857-925 | the skip after a match ends at the same closing bracket |
| FnMatch.EndStar | src/fnmatch_loop.c:97-129 | a star after a star changes nothing |
| FnMatch.EndQuestion | src/fnmatch_loop.c:109-128 | a question mark after a star takes the next character |
| Mounts.Config.AddMount | src/cfgfile.c:1687-1699 | a template is spliced in so that the list stays ordered by priority, latest first among equals; other names go to the tree |
| Mounts.Config.FindMount | src/cfgfile.c:2077-2109 | an exact name if there is one; otherwise the matching template of least priority, the earliest configured among equals, or none if none matches |
| Mounts.Config.FindTemplate | src/cfgfile.c:2093-2105 | the loop that stops at a worse priority still finds the preferred one |
| Mounts.PriorityIs | src/cfgfile.c:1611-1661 | a priority that is given is kept, and comes before a negative one |
| Mounts.NameIsPlain | src/cfgfile.c:1687-1699 | a name that is kept in the tree denotes as a pattern only itself, exactly if it has no backslash |
| Mounts.OrderedInsert | src/cfgfile.c:1689-1696 | inserting before the first of at least the priority keeps the order |
| AuthPool.StepKeeps | src/auth.c:139-228 | each locked section keeps queue shape and count, the reference count as owner plus running handlers, a handler running while anything is queued, order, and one place per request |
| AuthPool.RunKeeps | src/auth.c:139-411 | the same over every run |
| AuthPool.RunIsFifo | src/auth.c:151-183 | over every run requests leave the queue in the order of arrival and are never undone |
| AuthPool.ExactlyOnePlace | src/auth.c:151-183 | a request ever made is in exactly one of queue, process, done and rejected |
| AuthPool.PoolBound | src/auth.c:158-182 | at most handlers + 1 references; while owned, the limit test holds exactly when no handler is idle |
| AuthPool.EnqueueStarts | src/auth.c:158-182 | a request that comes while a handler is idle starts the first of those, so that one more runs, or is refused if no thread can be had; while all run it is queued |
| AuthPool.RunStarts | src/auth.c:158-182 | over every run without a failed start or a stop, as many handlers run as ran before and requests came, up to all there are |
| AuthPool.FailedStart | src/auth.c:169-178 | a failed thread start rejects the request and leaves everything else, links included, as it was |
| AuthPool.QueueRestored | src/auth.c:170-178 | undoing an append through the old tail gives the old list |
| AuthPool.NothingAfterFree | src/auth.c:198-228 | after the one free nothing is queued or runs, and no step is possible |
| AuthPool.StepDrains | src/auth.c:378-407 | once the owner has let go every step makes a measure smaller |
| AuthPool.Drains | src/auth.c:363-411 | from then on a run has at most that many steps, and ends exactly at the single free, with all accepted requests done |
| AuthPool.InitialOk | src/auth.c:842-859 | the pool starts in order, with the configured number of handlers up to 100, or 3 |
| AuthPool.Auth.QueueAuthClient | src/auth.c:150-183 | the in-place enqueue, thread start and undo equal the abstract step; the request is queued unless a start failed, and one more handler runs if one was idle |
| AuthPool.Auth.RunThread | src/auth.c:378-407 | one turn of a handler equals taking a request or stopping |
| AuthPool.Auth.ProcessRequest | src/auth.c:389-398 | outside the lock the request is processed and freed |
| AuthPool.Auth.AuthRelease | src/auth.c:198-207 | the count goes down, and the free happens at zero |
| FhCache.StepKeeps | src/fserve.c:302-1523 | every locked section keeps counts equal to client sets (one more for no_file), cached keys distinct, and uncached nodes detached, temporary or about to be freed |
| FhCache.RunKeeps | src/fserve.c:302-1523 | the same over every interleaving; what is freed is never seen again |
| FhCache.FreedUnused | src/fserve.c:230-258 | a node is freed only at count 0, unlocked, outside the cache, with no client pointing to it, and once |
| FhCache.HeldIsLive | src/fserve.c:920-930 | a node that is locked, or that a client points to, is neither freed nor about to be |
| FhCache.LastClientFrees | src/fserve.c:302-332 | a detached node goes exactly when its last client leaves |
| FhCache.StepKeepsHandles | src/fserve.c:230-258 | a step keeps every open file and format with exactly one node, exactly if it does not make a node without a name |
| FhCache.RunKeepsHandles | src/fserve.c:230-1523 | over every run without such nodes each open file and format has one owner |
| FhCache.UnnamedClosesAnother | src/fserve.c:387-480 | a node without a name keeps the zero handle of calloc, and there is a run in which it expires at once and closes a file that another node has there |
| FhCache.OpenFileIsClosed | src/fserve.c:387-480 | such a run from the start of the cache |
| FhCache.OverriddenHandles | src/fserve.c:1076-1103 | the clients of the node stay on it, detached, without a file, and to be sent to the destination; name, file and format pass to a copy without clients that never expires; each file still has one owner |
| FhCache.OverrideReaches | src/fserve.c:734-735 | over every run after an override a client that was on the node is on it until it leaves, and finds the destination there |
| FhCache.FoundIsLocked | src/fserve.c:383-396 | a node that is found is locked: nobody else finds, scans, overrides or leaves it until it is let go |
| FhCache.TemporaryServesOne | src/fserve.c:979-986 | the node for one response is made locked and outside the cache, and goes with its one client |
| FhCache.LeftExpires | src/fserve.c:302-332 | a name whose last client leaves expires exactly 120 seconds later, a fallback not because of that |
| FhCache.OpenedExpires | src/fserve.c:455-495 | a new node that nobody is attached to expires at once, a fallback never |
| FhCache.QueriedExpires | src/fserve.c:1392-1408 | asking for the number of clients keeps an unused name for 20 seconds |
| FhCache.RunKeepsCached | src/fserve.c:1465-1523 | over every run a cached name stays until it is due, whatever is scanned |
| FhCache.CompareIsOrder | src/fserve.c:211-227 | the comparison is a total order, zero only for the same name and flags |
| FhCache.InitialOk | src/fserve.c:143-148 | the cache starts in order with no_file in it |
| FhServer.FhNode.AddClient | src/fserve.c:362-376 | in place: the client is added and counted, unless there is no client set |
| FhServer.FhNode.RemoveClient | src/fserve.c:302-332 | in place: count, client set, expiry, and whether the node is to be freed |
| FhServer.SoughtIs | src/fserve.c:335-359 | a name after "fallback-" is sought among the fallbacks, one after "file-", or any other, as it is |
| FhServer.FileCache.FindFh | src/fserve.c:335-359 | the cached node of the name, without its prefix, and flags, if any |
| FhServer.FileCache.OpenFh | src/fserve.c:383-496 | the cached node locked, or a new one, or none with nothing changed, and exactly when |
| FhServer.FileCache.SetOverride | src/fserve.c:1064-1111 | the node found is replaced by its copy if it has clients |
| FhServer.FileCache.FserveScan | src/fserve.c:1465-1523 | what has expired, and nothing else, goes from the cache and is freed; a time of 0 makes all expire |
| FhServer.FileCache.DeleteFh | src/fserve.c:230-258 | file and format are closed and the node is gone |
| FhServer.FileCache.RemoveFromFh | src/fserve.c:302-332 | the node operation is the abstract step |
| FhServer.FileCache.Attach | src/fserve.c:1032-1034 | attaching under the lock is the abstract step |
| Vectors.ConnBufs.Append | src/connection.c:592-616 | the buffer joins the vector, which grows when full |
| Vectors.ConnBufs.LocateStart | src/connection.c:619-645 | the buffer that holds the byte at the offset, cut to begin there; -1 exactly at the end |
| Vectors.ConnBufs.Send | src/connection.c:648-687 | what the network takes of what is left after the offset is returned and put on the wire, and the vector is left as it was exactly unless the peer is found gone inside a buffer, which marks the connection |
| Vectors.ConnBufs.SendAll | src/connection.c:648-687 | for every sequence of short sends, each resumed at what was taken so far: the wire has grown by exactly that much of the vector, which is the sum of what the calls took; it is whole exactly if that is the total; and the vector is left as it was exactly unless a call found the peer gone inside a buffer |
| Vectors.EachTookIs | src/connection.c:667-680 | over TLS: buffers are taken whole up to some buffer, and of that one what its write takes |
| Vectors.PlainTakes | src/connection.c:661-665 | on a plain socket: as many bytes as are asked for and there are, and none if the peer is gone |
| Vectors.TlsTakes | src/connection.c:667-680 | over TLS: a call that gets nothing out says so, and the connection fails with a write that is refused for good |
| Vectors.OneBuffer | src/connection.c:540-564 | a single buffer goes out, or fails, as a vector of one |
| Vectors.RunCompletes | src/connection.c:648-687 | if every call takes something, as many calls as there are bytes send everything |
| Vectors.CutAtJoined | src/connection.c:619-645 | what is left of a vector after an offset is the rest of its bytes |
| Vectors.VectorIsLeftCut | src/connection.c:661-662 | a vector of two bytes that is left with one, and with its old total |
| Vectors.SendEach | src/connection.c:667-680 | buffer after buffer over TLS, the same holds |
| Chunked.HexRead | src/connection.c:690-695 | a chunk size that was printed is read back |
| Chunked.DecodeChunks | src/format_mp3.c:656-686 | a sequence of chunks and a part of one decode to the payloads and that part |
| Chunked.StreamDecodes | src/format_mp3.c:656-697 | after any short writes the wire decodes to exactly the bytes consumed, followed by the first chunk_pos bytes of the current chunk |
| Chunked.Listener.WriteBuf | src/format_mp3.c:641-704 | one call puts on the wire exactly what the network takes of the current chunk, which is rebuilt the same each time, and moves on exactly when it is whole |
| Chunked.Listener.Move | src/source.c:1574-1578 | a listener that is given another block anywhere goes on in order exactly if the new chunk begins with what was sent of the old one, and exactly then a reader gets the data of the new chunk |
| Chunked.FramedDecodes | src/format_mp3.c:656-686 | what that means to a reader: once the rest of the new chunk is sent too, the wire decodes to the bytes consumed and the data of the new chunk exactly if the listener goes on in order |
| Chunked.MixedDecodes | src/format_mp3.c:656-686 | the start of one chunk and the rest of another decode to the data of the other exactly if together they are the other |
| Chunked.ChunkIsMixed | src/source.c:1574-1578 | a listener that cannot go on in order after one byte of a chunk and a move |
| Chunked.SendChunk | src/connection.c:690-705 | header, data and end of line go out as one chunk from where the last call stopped |
| Amf.RoundTrip | src/flv.c:423-552 | reading the finished buffer by the AMF0 rules gives the entries in order, and the array count is their number |
| Amf.ReadBody | src/flv.c:440-452 | properties end at the end marker and nowhere before |
| FlvMeta.Metadata.AppendString | src/flv.c:528-552 | the entry is added, or refused with the buffer untouched, and exactly when |
| FlvMeta.Metadata.AppendNumber | src/flv.c:505-525 | the same for a number |
| FlvMeta.Metadata.AppendBool | src/flv.c:485-502 | the same for a boolean |
| FlvMeta.Metadata.Increase | src/flv.c:455-482 | growth in 4096-byte steps keeps what is there and room for the end marker; refused exactly above 16000 or without memory; count and lengths fit 16 bits |
| FlvMeta.Metadata.AppendEndMarker | src/flv.c:440-452 | there is always room, and what results can be read back |
| FlvMeta.Metadata.constructor | src/flv.c:423-437 | an empty array under the name onMetaData |
| FlvMeta.WriteBE64 | src/flv.c:396-412 | a number comes out most significant byte first on either kind of machine |
| Flv.BodyParses | src/flv.c:84-123 | a body of any tags below 2^24 bytes parses back: every DataSize and PreviousTagSize is right |
| Flv.HeadFields | src/flv.c:51-78 | DataSize and PreviousTagSize are right exactly below 2^24, the timestamp exactly below 2^32 |
| FlvOutput.FlvHdr | src/flv.c:51-78 | the bytes written in place are the tag head |
| FlvOutput.FlvClient.MpxHdr | src/flv.c:84-123 | a frame, after metadata built before if it is new, continues the body; refused exactly if the wrapper is full |
| FlvOutput.FlvClient.WriteMetadata | src/flv.c:295-317 | the metadata tag continues the body |
| FlvOutput.FlvClient.Pack | src/flv.c:355-377 | a block gives the file header if nothing was sent, new metadata, and in order exactly as many frames as the wrapper has room for, with their timestamps |
| FlvOutput.TagOfFrame | src/flv.c:84-123 | each frame has its own tag, in order, with the time at which the frame before it ends, and the parameters of the first frame before its bytes |
| FlvOutput.FirstDecides | src/flv.c:102-113 | the first frame sets the parameters for good: MP3, 16 bits, 11025, 22050 or (whatever it is) 44100 Hz, mono or stereo |
| FlvOutput.LaterTags | src/flv.c:84-123 | later blocks go on with these, and new metadata goes before the first tag of a block |
| FlvOutput.BlocksFollow | src/flv.c:84-123 | blocks that follow one another without new metadata give the tags of their frames as one |
| FlvOutput.Fitting | src/flv.c:88-89 | all frames of a block are packed exactly if there are none, or 16 bytes for each, 9 for the file header if it is due and 15 for new metadata fit 1024 |
| FlvOutput.FrameIsLost | src/flv.c:380-385 | of any first block of 64 frames exactly the first 63 are put into the stream, whatever the network does |
| FlvOutput.FlvClient.SendFlvBuffer | src/flv.c:209-228 | the wire is at every time a prefix of the file; the vector is done with exactly when all of it is out, and the wire is all of the file then |
| FlvOutput.FlvClient.WriteFlvBuf | src/flv.c:327-393 | a whole call: a block that is begun puts its header, metadata and exactly the frames that fit into the stream, and the wire is a prefix of the stream, all of it once the block is done |
| FlvOutput.SentParses | src/flv.c:84-123 | what a client was sent at the end of a block is the file header and a body that gives back every tag |
| OggHeaders.OggState.AddBlockHeader | src/format_ogg.c:92-111 | the chain is the pages that begin a stream in order of arrival, then the others in theirs, however they come |
| OggHeaders.OrderKept | src/format_ogg.c:92-111 | of two pages the first to come is first in the chain, unless only the other begins a stream |
| OggHeaders.ArrivalsKept | src/format_ogg.c:92-111 | no header page is lost |
| OggHeaders.ChainInsert | src/format_ogg.c:94-103 | a page spliced in at bos_end goes after the first pages and before the others |
| OggHeaders.OggState.FreeHeaders | src/format_ogg.c:160-168 | the chain is empty again |
| OggClient.Listener.WireIsStream | src/format_ogg.c:564-656 | at the end of a block the wire is, block by block, the whole chain if it is not the last one sent, then the page |
| OggClient.StreamAt | src/format_ogg.c:564-656 | in what is to be sent each block comes after the pages of its own chain, in order, unless it has none or the block before it has the same |
| OggClient.Listener.SendOggHeaders | src/format_ogg.c:564-617 | header pages continue where the last call stopped, count as sent exactly when all are, and a willing network gets them all or eleven pieces in a call, which is over after 10000 bytes; the connection fails only with a send that does |
| OggClient.Listener.WriteBuf | src/format_ogg.c:623-656 | no data goes out before its headers, and after them exactly what the network takes |
| OggClient.Listener.Move | src/auth.c:457 | what was sent up to a move is the stream of whole blocks and what was begun of the current one, which ends in a part of a chain exactly if that chain was being sent, after its first byte and before its last; what follows starts over with whole chains |
| OggClient.Listener.PartWithinChain | src/format_ogg.c:564-617 | nothing, or whole headers and some data, was sent of the current block exactly unless the listener is within a chain |
| OggClient.HalfChainIsSent | src/format_ogg.c:564-617 | a listener within its chain, with one byte of a page of headers of two on the wire |
| OggClient.HalfChainIsLeft | src/format_ogg.c:564-617 | that listener after it moves: the byte stays before what follows |
| OggClient.Listener.MoveWithCopy | src/source.c:1444-1450 | a listener that moves in the middle of a page finishes a private copy from where it is; before the rest of the page it is sent all pages of headers but the first, and nothing comes between exactly if there is at most one page of headers |
| OggClient.PageIsCut | src/refbuf.c:106-118 | a page of two bytes with a page of headers in its middle |
| OggClient.Listener.SendPage | src/format_ogg.c:582-607 | a page of headers goes out in pieces of at most 8192 bytes |

## Left out

- Worker shutdown: workers stay running. `worker_relocate_clients`, starting and stopping workers and the choice of the least busy worker are not modelled.
- A write of `schedule_ms` is between two steps. Those made under the lock of the worker cannot fall within the search, which holds it; the ones made without it (src/admin.c:677, src/slave.c:697, src/stats.c:211) may fall between the test of a client and the step past it, which is not modelled.
- `worker->count + 200` is stored modulo 2^16, as the field is 16 bits wide; counts of clients are otherwise unbounded.
- `sent_bytes`, `queue_pos` and `counter`, a limit on the bytes of a connection (`CONN_FLG_DISCON`), bandwidth throttling and the rescheduling delays of listeners are not modelled; where a branch depends on bytes having been sent, that is kept.
- Buffers in a vector are snapshots of their bytes: that a buffer must not be written to or freed while a vector refers to it is not expressed.
- The branch of `validate_mpeg` for an expanded block, and frame parsing itself: `mpeg_complete_frames` is any function that leaves an unfinished suffix.
- Failed allocations are modelled for the connection vector, the AMF buffer, handler threads and opened files, and nowhere else.
- In `WorkerWakeups` the pipe holds any number of bytes, or is full when a writer says so; creating it anew after an error, and a wait that fails, are a wait that ends without being woken. A worker adopts clients in its timed wait alone, and that it gets there is not stated.
- Titles that an administrator sets with `mp3_set_tag`: what a source knows is learned from its blocks alone.
- The character conversion, statistics, FLV and iceblock parts of `metadata_setup`, and the test that earlier metadata was queued.
- FnMatch.Fnmatch: bracket classes, equivalence classes and collating symbols are excluded by its requirement: a pattern with an unquoted `[` before `:`, `=` or `.` inside a bracket is outside the model; so are flags other than 0, wide characters and bytes above 127.
- XML and YAML reading of mount settings; two exact entries of the same name, for which the lookup returns either; references to mounts.
- Authenticator back ends: what processing a request does, and how its client is answered.
- Server shutdown of the file cache, file reading and throttled sending, limits on listeners and duplicate logins (a refused client is an unlock without attaching), and statistics. Names of allocated nodes are never reused in the model.
- FLV for AAC, the repacking of a block whose buffer has changed, and metadata built on the fly with a wrapper that grows.
- FlvMeta.Metadata.constructor: asks for a buffer below 2^16 bytes, so that 16-bit lengths cannot truncate; the program asks for 400 and 470.
- Vectors.ConnBufs.Append: buffers above 0xFFFFFF bytes, for which the program aborts, are excluded by its requirement.
- FhServer.FileCache.FserveScan: is stated for a scan that finds no cached node locked; the program waits at a node that is, so this is the scan from the moment at which it is not.
- IcyLink.Transported: asks that the reader has lost nothing; ReadAll says exactly when that is so.
- Chunked.Listener.WriteBuf: asks that the chunk to go on with is in order. What a reader makes of one that is not, once it is sent, is `FramedDecodes`; the abort when the new chunk is shorter than what was sent is not modelled.
- IcyText.RoundTrip: is stated for names and URLs without the terminator and other fields that are whole; for the title alone TitleRecovered gives the exact condition.
- Iceblock output, EBML, range requests, fallback arithmetic and vorbis granule rebuilding.
