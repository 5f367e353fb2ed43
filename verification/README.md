# A verified model of the player's algorithms and protocols

This project models the parts of a terminal music player (a C program derived from cmus) that
carry its invariants, and proves what they promise for every input, every run or every reachable
state. `dafny verify dfyconfig.toml` checks all of it.

| module | what it is |
|---|---|
| `RbShape`, `RbTree` | the parent-pointer red-black tree: nodes are heap objects; a tree with a hole (`Ctx`) and a subtree describe the shape around a node while fix-up loops rewrite it |
| `Shuffle` | moving a node directly behind another in the shuffle tree |
| `Common` | optional values, comparisons, bytes |
| `Tracks`, `SortedRuns`, `TrackList` | the sorted track list: a list with a tree over the first track of each run of equals |
| `Lists`, `MergeSort` | circular doubly linked lists on the heap, and the bottom-up merge sort that relinks their nodes |
| `FifoMutex` | the first-in-first-out mutex with waiters on the threads' stacks, as a transition system |
| `JobProtocol`, `JobRuns` | worker queue, result queue and deferred playlist deletion, as a transition system; what becomes of the jobs over whole runs |
| `Buffer`, `BufferRuns` | the chunk ring; the two threads on it as a transition system whose steps are single calls |
| `Player`, `Scaler` | the producer/consumer state machine with its commands, software volume |
| `Glob`, `GlobPatterns`, `ExprParser`, `Filters` | wildcard patterns, the filter expression parser, named filters |
| `Words`, `LiveExprs`, `Commands`, `Library` | plain-text matching, live filters that are expressions, the split of command lines, and the incrementally filtered library view |
| `Formats`, `FormatScan`, `FormatGrammar`, `FormatSpelling` | format strings: validator and printer; the texts that the scanner for conditionals passes over; the grammar of formats with the meaning of each part; how a meaning is spelled |
| `Cache`, `CacheFile` | the binary track cache; which files it takes |
| `Paths` | path normalization in place |
| `Window` | cursor and viewport |

The environment (what `ip_open`, `ip_read`, `op_open`, `op_write` and the like return, the order in
which threads run, spurious wake-ups) is arbitrary: it appears as nondeterministic choice or as a
parameter. Case folding, the hash function and the comparison of tracks are arbitrary functions;
a comparison is assumed to be a total preorder where order matters.

## Where the code does not do what one might expect

Each of these is kept as it is in the code, with the exact condition under which the property holds.

- Live filter (app/lib.c:719-730): if the old text has no word, it hides every track, and a longer
  text that contains it only deletes further rows. `Library.Lib.SetLiveFilter` states that the view
  is right if and only if the old text has a word, or the delete-only path is not taken, or no track
  passes the new filters. A typed command never delivers such a text, since the argument starts
  behind the blanks (app/command_mode.c:2869-2887, `Library.LiveFilterCommand`). The resume file can:
  it is unescaped after the split (app/options.c:1748), so its line `live-filter \ ` means a blank,
  and `Library.ResumedBlankLosesTracks` is the run that goes wrong.
- Live filters that are expressions (app/expr.c:848-873): `expr_is_harmless` looks at the type of the
  right operand of "and" only, and takes a negation for harmless. `~lx!~aa` followed by `~lx!~aab`
  lets more tracks pass, but nothing is added back (`Library.NegatedTermLosesTracks`). The view is right
  exactly where a harmless expression that contains the text before it narrows it:
  `Library.TypeLive` and `Library.Perform` on the one side, `Library.HarmlessLosesTracks` on the other.
- Named filters (app/filters.c:86-99): the visited flags are not cleared when a filter has been
  expanded, so a filter that is used twice is reported as a recursion. `Filters.AcceptedExactly`
  gives the exact condition, `Filters.SharedFilterRejected` an example. A comparison of two keys is
  never accepted as a filter (`Filters.NoKeyComparison`).
- Rebuilding a sorted list (app/track.c:248, app/track.c:284-297): the node of a track whose run
  disappears is erased but not cleared. `TrackList.SortedTracks.Rebuild` states, on the list before
  the call, exactly when all nodes outside the tree are cleared afterwards: no track that ended a run
  under the old comparison has a track in front of it that is equal under the new one.
  `TrackList.RebuildLeavesStaleNode` is a run of two tracks that leaves one.
- Rebuilding an empty list (app/track.c:296): the splice links the caller's head to the local list head
  of the function, which is gone when it returns. The list is right again if and only if it had a
  track (`TrackList.SortedTracks.Rebuild`); `TrackList.RebuildBreaksEmptyList` is the run. The callers,
  app/editable.c:137 and app/editable.c:435, return before that for at most one track
  (`TrackList.SortedTracks.Sort`).
- Prebuffering (app/player.c:564-612): for local files the limit of 250 ms can exceed a small buffer;
  the loop then asks the decoder for 0 bytes, which trips the BUG_ON of app/input.c:656.
  `Player.PrebufferFits` gives the sizes, `Player.PrebufferOverruns` the run; `Player.Session` shows
  that no other file ends a run this way.
- Switching software volume off and on again (app/player.c:1380-1388) scales samples a second time
  unless the consumer has passed the samples that were scaled before it was switched off:
  `Scaler.Consumer.SetScaling` states exactly that, `Scaler.ScaledTwice` is a run in which the device
  gets a frame scaled twice.
- Cache entries with a single string pass the validity test (app/cache.c:82-105); decoding one
  computes -1 pairs and leaves the entry (`Cache.SingleString`). `Cache.DecodingStaysInside`: from three
  strings on, and only then, decoding stays inside.
- Path normalization (app/path.c:31-95) of a relative path: the first component is never looked at, and
  ".." behind it leaves its first character, to which what follows is joined
  (`Paths.UpSpoilsRelative`, `Paths.SpoiledName`). Absolute paths, the only ones it is called with, are
  not affected (`Paths.UpTakesBack`, `Paths.RootStays`).
- Seeking (app/player.c:1258-1263): the test for steps shorter than half a second never fires
  (`Player.SeekInside`).
- Conditionals in formats (app/format_print.c:320-370): the scanner that looks for the parts of a
  conditional does not know the percent sign of a width. `%5%{t}` is a format, but in a branch the
  brace of the name ends the conditional (`FormatSpelling.PercentInside`). `FormatGrammar.FormatIsGrammar`
  says exactly which texts are formats, by what may stand in a branch (`FormatScan.SkipCondFinds`).
- The end of a format (app/format_print.c:615-676): a field whose letter is missing there takes the
  character behind the format, which in a branch of a conditional is its `?` or `}`
  (`FormatGrammar.CutMeaning`, a part of the grammar).

## Model

| member | source | states |
|---|---|---|
| `RbTree.RotateLeft` | app/rbtree.c:3-24 | rewrites the links around a node so that the subtree is rotated left and everything around it is as before |
| `RbTree.RotatedLeftShape` | app/rbtree.c:3-24 | a left rotation keeps the nodes and the in-order sequence |
| `RbTree.RotateRight` | app/rbtree.c:26-47 | the mirror image of the left rotation on the heap |
| `RbTree.RotatedRightShape` | app/rbtree.c:26-47 | a right rotation keeps the nodes and the in-order sequence |
| `RbTree.InsertColor` | app/rbtree.c:49-112 | after linking a red leaf, the fix-up loop restores every red-black condition and all links, and the in-order sequence is the old one with the new node at its place |
| `RbTree.InsertStepLeft` | app/rbtree.c:54-82 | one round of the loop on the left side: the pending red-red pair moves up two levels or is resolved, sequence and nodes unchanged |
| `RbTree.EraseColor` | app/rbtree.c:114-192 | a tree one black node short at some place becomes a valid red-black tree with the same sequence and nodes |
| `RbTree.EraseStepLeft` | app/rbtree.c:119-155 | one round of the erase loop on the left side, for all four sibling cases: the shortage moves up, or turns into a case that ends the loop |
| `RbTree.Erase` | app/rbtree.c:194-262 | erasing any node of a valid tree gives a valid tree whose in-order sequence lacks exactly that node |
| `RbTree.EraseInner` | app/rbtree.c:202-244 | a node with two children is replaced by its in-order successor |
| `RbTree.First` | app/rbtree.c:264-274 | the first node in order, or null for an empty tree |
| `RbTree.Next` | app/rbtree.c:288-314 | the in-order successor, null behind the last node and for a cleared node |
| `RbTree.Replace` | app/rbtree.c:340-361 | the new node stands where the victim stood; shape, colours and every other position are unchanged |
| `RbTree.InsertLeaf` | app/rbtree.h:59-66 | linking at a free slot and fixing up puts the node between what precedes and what follows the slot |
| `Shuffle.ShuffleInsert` | app/track.c:57-75 | `next` ends up directly behind `previous` in order (first if there is none), all other nodes keep their order, the tree stays valid |
| `TrackList.SortedTracks.Search` | app/track.c:187-212 | the descent finds an equal track in the tree, or the slot between the smaller and the larger ones |
| `TrackList.SortedTracks.Add` | app/track.c:187-233 | the linked list stays well formed and sorted, the tree holds exactly the first track of each run, the new track is behind its equals for tiebreak >= 0 and in front otherwise; a track that leaves the tree is cleared |
| `TrackList.SortedTracks.AddCleared` | app/track.c:187-233 | on a list whose tracks outside the tree are cleared, that stays so |
| `TrackList.HoldsIsRing` | app/list.h:30-42 | tracks linked to each other at every position form a circular list that is well formed and closed at the head |
| `TrackList.SortedTracks.Remove` | app/track.c:235-251 | removing any track unlinks it and keeps the linked list well formed and sorted and the tree on the first track of each run; the next equal track takes over |
| `TrackList.SortedTracks.MoveAll` | app/track.c:290-294 | the loop with both cursors of list_for_each_safe: every track is unlinked from one list and linked into the other, in both trees and linked lists |
| `TrackList.SortedTracks.Rebuild` | app/track.c:284-297 | the order is the old one inserted track by track under the new comparison, with the tree to it; the linked list is right if and only if it had a track; all nodes outside the tree are cleared if and only if no track that ended a run of the old list has an equal one in front of it |
| `TrackList.RebuildBreaksEmptyList` | app/track.c:296 | for a list without tracks the head is linked to a list head that is gone |
| `TrackList.SortedTracks.Sort` | app/editable.c:135-147 | with the test for at most one track in front the list is always right |
| `TrackList.RebuildLeavesStaleNode` | app/track.c:284-297 | any two tracks in two runs that the new comparison makes one: afterwards a track outside the tree has a node that is not cleared |
| `TrackList.FirstAfterSort` | app/track.c:284-297 | a track starts a run of the new list if and only if no track in front of it in the old list is equal to it |
| `TrackList.StableSort` | app/track.c:284-297 | that insertion is the stable sort: sorted, a permutation, equal tracks in their old order |
| `Lists.ListDel` | app/list.h:114-119 | the list is well formed without the node: neighbours linked both ways, closed at the head; the node itself is unlinked |
| `Lists.ListAddTail` | app/list.h:90-93 | the list is well formed with the node at its end |
| `Lists.ListAdd` | app/list.h:77-80 | the list is well formed with the node behind the given one |
| `Lists.SpliceOver` | app/track.c:296 | a head put between the ends of another list takes its nodes over if there are any, and holds the other head otherwise |
| `MergeSort.MergeLoop` | app/mergesort.c:32-51 | with both cursors at their runs, moves node after node between the two linked lists until the sorted one has the merge of the two runs appended and the other one holds the rest, both well formed |
| `MergeSort.OnePass` | app/mergesort.c:19-54 | one pass empties the unsorted list and leaves the merges of neighbouring runs of K nodes in the other, both well formed; there was one merge if and only if the list has at most 2K nodes |
| `MergeSort.Splice` | app/mergesort.c:55-61 | the sorted nodes form a well-formed list at the head of the caller, also if that is the head they are at |
| `MergeSort.ListMergeSort` | app/mergesort.c:4-65 | the list at the head of the caller is well formed and is a sorted, stable permutation of what it held, for every comparison that is a total preorder; no link leads outside of it |
| `MergeSort.StableSortUnique` | app/mergesort.c:4-65 | there is only one such list |
| `FifoMutex.RunInv` | app/locking.c:52-87 | the invariant over queue, links, owner and hand-over holds in every state of every run |
| `FifoMutex.RunGoesOn` | app/locking.c:52-95 | a run goes on with any step that a thread can take |
| `FifoMutex.Fifo` | app/locking.c:52-80 | threads acquire in exactly the order of their exchange on `tail`, one at a time |
| `FifoMutex.AlwaysAlive` | app/locking.c:52-87 | a store into or a signal to another thread's waiter happens only while that thread is inside `fifo_mutex_lock` |
| `FifoMutex.Progress` | app/locking.c:60-87 | no lost wake-up: while somebody is queued, the owner or the first in the queue can take a step that is no spurious wake-up |
| `FifoMutex.StepFalls` | app/locking.c:52-87 | a measure that falls with every step but arrivals and spurious wake-ups |
| `FifoMutex.StepsOf` | app/locking.c:52-95 | every run is one of steps of certain threads, so that the bound below is one for all runs |
| `FifoMutex.WorkBound` | app/locking.c:52-87 | between two states of a run at most ten steps for each thread and each arrival and two for each spurious wake-up |
| `FifoMutex.Drained` | app/locking.c:52-87 | when no such step is left, everybody who came has had the lock and given it up |
| `FifoMutex.YieldIffQueued` | app/locking.c:89-95 | the owner gives the lock up if and only if somebody is queued |
| `FifoMutex.YielderGoesBehind` | app/locking.c:89-95 | who gives the lock up gets it back only after everybody queued at that time |
| `JobProtocol.RunConserved` | app/worker.c:44-170 | in every state of every run the jobs queued, running and freed are together exactly those scheduled |
| `JobProtocol.RunInv` | app/worker.c:44-170 | the invariant behind the removal and result guarantees |
| `JobRuns.RunGoesOn` | app/worker.c:44-170 | a run goes on with any step that can be taken |
| `JobProtocol.FreedOnce` | app/worker.c:44-170 | each scheduled job is queued, running or freed, exactly one of them and once; none runs twice |
| `JobProtocol.AllFreedAtExit` | app/job.c:88-95 | when the removal of every kind has returned, the jobs freed are exactly those scheduled |
| `JobProtocol.RemovedOnReturn` | app/worker.c:142-170 | when the removal returns, no queued or running job matches |
| `JobRuns.OthersStay` | app/worker.c:142-170 | when the removal returns, the queue is what it was at the beginning without the jobs the removal is for, in the same order, but for jobs at its front that have begun to run in the meantime |
| `JobRuns.FreedUnrun` | app/worker.c:142-170 | a job that is freed without having run was in the queue during a removal that was for it, said of its kind and playlist |
| `JobRuns.MatchesMeant` | app/pl.c:370-383 | a removal is for the add jobs of the playlist that is deleted, or for the jobs with one of the areas or actions asked for |
| `JobRuns.WaitsOnlyForMeant` | app/worker.c:159-168 | the running job is cancelled and waited for only if the removal is for it |
| `JobRuns.RunOrder` | app/worker.c:44-128 | jobs run in the order in which they were scheduled |
| `JobRuns.RunReported` | app/job.c:555-605 | a playlist is reported as deleted if and only if its delete job has been freed, and additions to a playlist only by jobs for it that have run |
| `JobRuns.RunDeletions` | app/pl.c:370-443 | a playlist taken off the list has exactly one delete job, or gets it when the removal of its add jobs returns |
| `JobRuns.NeverStuck` | app/worker.c:44-170 | while there is a job or a removal going on, a step can be taken that brings the end closer |
| `JobProtocol.NoAddAfterDelete` | app/pl.c:370-443 | no add result for a playlist is handled after the result that deletes it; jobs are added for the visible, the marked or a new playlist, and the invariant keeps the first two listed |
| `Buffer.Ring.Reset` | app/buffer.c:135-148 | empties the ring and both histories |
| `Buffer.Ring.ReadSpace` | app/buffer.c:54-68 | the bytes offered are the next ones of the stream, none exactly if no chunk is filled |
| `Buffer.Ring.WriteSpace` | app/buffer.c:78-92 | no space exactly if all chunks are filled, otherwise at least 1024 bytes in a chunk the reader does not use |
| `Buffer.Ring.Fill` | app/buffer.c:114-133 | appends the bytes written to the stream, marks the chunk filled exactly in the two cases, touches no other chunk |
| `Buffer.Ring.Consume` | app/buffer.c:94-111 | takes exactly the next bytes off the stream, frees a used-up chunk, touches no other chunk |
| `Buffer.Ring.FilledChunks` | app/buffer.c:150-191 | the number of filled chunks, which are the cyclic interval from read to write index |
| `Buffer.CyclicFirst` | app/buffer.c:94-111 | the bytes of k chunks from the read index are those of the first and of the k - 1 behind it |
| `Buffer.Filling` | app/buffer.c:114-133 | the ring's invariant, including that consumed bytes followed by held bytes are the bytes filled, survives a fill |
| `Buffer.ConsumingAll` | app/buffer.c:94-111 | the same for consuming a chunk to its end |
| `Buffer.ConsumingSome` | app/buffer.c:94-111 | the same for consuming part of a chunk |
| `BufferRuns.FillStep` | app/buffer.c:114-133 | whatever the consumer did since the producer asked for space: the bytes it wrote are appended, and the region the consumer has in hand stays as it is |
| `BufferRuns.ConsumeStep` | app/buffer.c:94-111 | whatever the producer did since the consumer got its region: it takes the bytes it was given, and the region the producer has in hand stays free |
| `BufferRuns.RunInv` | app/buffer.c:54-148 | the ring invariant and both regions in hand, in every state of every run of single calls |
| `BufferRuns.RunGoesOn` | app/buffer.c:54-148 | a run goes on with any call that can be made |
| `BufferRuns.AnyInterleaving` | app/buffer.c:54-148 | for any interleaving no check fires, the bytes consumed are a prefix of the bytes filled, the bytes in hand come next, the threads never have the same chunk in hand |
| `BufferRuns.AnyAnswer` | app/buffer.c:54-148 | in every state each thread can make its next call, with any part of the region filled or taken |
| `Player.Player.ProducerPlay` | app/player.c:626-668 | from every status, with any outcome of opening and seeking: producing or unloaded, and input, file and buffer agree with the status |
| `Player.Player.ProducerStop` | app/player.c:670-677 | the input is closed and no byte stays in the buffer |
| `Player.Player.ConsumerPlay` | app/player.c:715-733 | the device is opened only when closed; playing afterwards unless it could not be opened; what a playing device holds is dropped, a paused one goes on with it |
| `Player.Player.ChangeFormat` | app/player.c:765-792 | the device is opened again if and only if the format is another one; playing with the format of the new file, or both sides stopped; exactly what is dropped |
| `Player.Player.HandleEof` | app/player.c:794-847 | all that the decoder has delivered has been played; whether the player stops, begins the file anew, plays exactly the next file or leaves it waiting, for each of the options; nothing the device holds is dropped, unless the next file cannot be opened, and with the same format it goes on without a break |
| `Player.Player.Prebuffer` | app/player.c:564-612 | reads only into free space, whatever the decoder delivers, until the buffer has as much as the limit asks for, the file ends or the rounds are over; the program ends only with a full buffer below the limit of the file |
| `Player.PrebufferFits` | app/player.c:564-580 | the limit exceeds a buffer of the given number of seconds exactly from a certain data rate on |
| `Player.PrebufferOverruns` | app/player.c:582-612 | with a limit above the buffer size and a decoder that always delivers, the loop reaches a full buffer below its limit |
| `Player.Player.Stop` | app/player.c:1080-1087 | both sides stopped; what the device holds is dropped |
| `Player.Player.Play` | app/player.c:1089-1112 | a remote stream that is being read is left alone; otherwise both sides play unless there is nothing to play or something could not be opened, and what a playing device holds is dropped; a player that was stopped fills its buffer first |
| `Player.Player.Pause` | app/player.c:1114-1141 | toggles with the bytes in the buffer and the device untouched, stops a remote stream, starts a stopped player as `Play` does |
| `Player.Player.SetFile` | app/player.c:1149-1173 | a stopped player stays stopped, another one plays the new file unless something could not be opened; the device holds no bytes of the old one |
| `Player.Player.PlayFile` | app/player.c:1175-1207 | plays the new file unless it or the device could not be opened; the device holds no bytes of the old one |
| `Player.SeekInside` | app/player.c:1237-1277 | a seek ends inside the file at the distance asked for; an absolute one goes to the position asked for, but no further than five seconds in front of the end; a jump to the next track exactly for a step forward past the end; refused exactly for a negative absolute position or an unknown duration |
| `Player.Player.Seek` | app/player.c:1214-1299 | a running or paused player keeps its status, a stopped one is started; carried out exactly if there is something to play, the position can be sought and the plugin does not fail; one that is carried out goes to that position with an empty buffer and device, any other leaves both alone |
| `Player.Player.SetOutput` | app/player.c:1304-1352 | both statuses as before exactly if the device could be opened again, both sides stopped otherwise; what a paused device holds is dropped |
| `Player.Player.SetBufferChunks` | app/player.c:1354-1365 | stops and starts over with an empty ring of the new size |
| `Player.Player.ProducerStep` | app/player.c:946-1007 | one call of the producer thread (space, read or fill), at any point of the consumer: space is asked for exactly while producing and not at the end of the file, what was read is filled in; keeps the invariant and the bytes the consumer has in hand |
| `Player.Player.LockProducer` | app/player.c:892-893 | the producer leaves its critical section before the consumer goes on, with no region in hand |
| `Player.Player.WriteOut` | app/player.c:915-937 | op_write with any number of producer steps meanwhile: the device is offered exactly the next bytes that there is room for, and exactly as many as it took are consumed; an error opens the device again |
| `Player.Player.Recheck` | app/player.c:880-913 | with the producer locked out: the end of the file is handled exactly if it has been seen and there are no bytes |
| `Player.Player.EverythingPlayed` | app/player.c:893-899 | at that point the device has taken everything that the decoder has delivered, unless it delivered bytes behind the end |
| `Player.Player.ConsumerRound` | app/player.c:880-938 | one round of the inner loop, with any number of producer steps between its calls: bytes that are there are offered exactly once, the room left is counted down by what the device took |
| `Player.Player.ConsumerTurn` | app/player.c:849-944 | the whole critical section, with any device errors: the device gets no more than it has room for, and nothing while not playing |
| `Player.Session` | app/player.c:616-1365 | in every run of commands, single producer steps and consumer turns: what the device took since the last reset of the buffer is what the decoder delivered since then, as far as it has come; consumer playing implies producer producing, paused if and only if held, input open exactly while producing or held, device open exactly unless stopped and paused exactly while the consumer is, no byte outlives its file; so opens and closes alternate and the BUG_ON checks hold, but for that of ip_read on a file whose prebuffer limit exceeds the buffer |
| `Scaler.Rounds` | app/player.c:171-216 | for all three widths and factors up to 65536 the product is rounded to the nearest unit, a half away from zero, never larger in magnitude, never clamped |
| `Scaler.Clamps` | app/player.c:171-216 | whatever the factor, the result is the nearest unit, or the end of the range of samples where that is outside |
| `Scaler.Monotone` | app/player.c:171-216 | larger samples do not become smaller ones |
| `Scaler.MonotoneVolume` | app/player.c:171-216 | a larger factor does not give a smaller magnitude |
| `Scaler.NoOverflow` | app/player.c:171-185 | the 16-bit scaler stays within 32 bits for all samples if and only if the factor is below 65536 |
| `Scaler.NoOverflow64` | app/player.c:187-216 | the wider scalers stay within 64 bits |
| `Scaler.FullVolume` | app/player.c:227-246 | leaving a channel alone at factor 65536 is what the formula would give |
| `Scaler.ScaleInPlace` | app/player.c:227-283 | exactly the samples of the range are scaled, each channel with its own factor |
| `Scaler.Consumer.ScaleSamples` | app/player.c:285-332 | only samples not yet scaled are scaled; the scaling position never falls behind the consumer |
| `Scaler.Consumer.WriteOut` | app/player.c:919-937 | whatever part the device takes, each sample it gets while scaling is on was scaled exactly once |
| `Scaler.Consumer.SetScaling` | app/player.c:1380-1388 | switching on keeps that guarantee if and only if the read position has reached the place up to which samples were scaled before it was last switched off |
| `Scaler.PlayScaled` | app/player.c:919-937 | in every run with scaling on, with chunks arriving, volume changes and partial writes, all the device got was scaled exactly once |
| `Scaler.ScaledTwice` | app/player.c:1380-1388 | on, a partial write, off, on, a write: the device gets a sample scaled twice |
| `Glob.TakeText` | app/glob.c:103-143 | the text up to the next wildcard, with escapes resolved |
| `Glob.Scan` | app/glob.c:90-150 | the list built before simplifying stands for the pattern |
| `Glob.BlockSame` | app/glob.c:26-88 | question marks and stars in any order match what the question marks followed by one star match |
| `Glob.Simplify` | app/glob.c:26-88 | the same texts match, and every star is followed by text or the end |
| `Glob.Compile` | app/glob.c:90-151 | a compiled pattern matches exactly what the escaped pattern means |
| `Glob.DoMatch` | app/glob.c:167-222 | terminates and decides the declarative meaning |
| `Glob.GlobMatch` | app/glob.c:224-227 | compiling and matching decides the meaning of the original pattern |
| `GlobPatterns.MatchesIsCut` | app/glob.c:167-222 | a text matches if and only if it can be cut into pieces, one for each wildcard or character |
| `GlobPatterns.Backslash` | app/glob.c:103-143 | a backslash takes any character behind it literally, and stands for itself at the end |
| `GlobPatterns.SpelledReads` | app/glob.c:90-150 | every list of wildcards and characters can be written as a pattern that is read as that list |
| `ExprParser.ParseItem` | app/expr.c:222-318 | one operand, as the specification function reads it |
| `ExprParser.ParseItems` | app/expr.c:348-391 | the loop over operands and operators, as the specification function reads it |
| `ExprParser.ParseComplete` | app/expr.c:320-391 | `add` never trips its BUG_ON and every tree returned is complete |
| `ExprParser.ParserIsGrammar` | app/expr.c:222-391 | accepts exactly the sentences of the grammar; a chain of "and" and "or" operators is the left fold with equal precedence |
| `ExprParser.RoundTrip` | app/expr.c:222-391 | parsing the fully parenthesised tokens of any tree gives the tree |
| `Filters.ExpansionMeaning` | app/expr.c:764-824 | for every filter table, cyclic ones included, a successful expansion has only typed built-in leaves and the value of the original with names replaced by definitions |
| `Filters.AcceptedExactly` | app/expr.c:764-824 | accepted if and only if all leaves are in order and unfolding meets no filter twice |
| `Filters.FilterList.GetFilter` | app/filters.c:86-99 | hands out each filter once and records a recursion otherwise |
| `Filters.FilterList.Check` | app/expr.c:764-824 | the version with flags agrees with the expansion function, including flags and error |
| `Filters.FilterList.Parse` | app/filters.c:402-430 | both results for a check that starts with all flags cleared |
| `Filters.SharedFilterRejected` | app/filters.c:86-99 | a harmless filter used twice is rejected as a recursion |
| `Filters.NoKeyComparison` | app/expr.c:787-797 | an expression with a comparison of two keys is never accepted |
| `Words.GetWords` | app/misc.c:27-59 | exactly the maximal runs without blanks |
| `Words.TrackMatches` | app/track_info.c:162-200 | matches if and only if the text has a word and every word occurs in a tag or the file name |
| `Words.Narrows` | app/lib.c:719-730 | a text that contains a text with words matches no track that the shorter one does not |
| `Library.Lib.HashInsert` | app/lib.c:98-121 | inserts unless the file name is present, one entry for each name |
| `Library.Lib.HashRemove` | app/lib.c:123-142 | finds and removes the entry of a stored track |
| `Library.Lib.AddTrack` | app/lib.c:155-169 | the view stays exactly the stored tracks that pass; duplicates and excluded files are refused |
| `Library.Lib.Remove` | app/lib.c:769-780 | removes a visible track from view and table, nothing else |
| `Library.Lib.DoFilter` | app/lib.c:619-644 | clearing and re-adding is always right; deleting only is right if and only if no passing track was missing |
| `Library.Lib.SetFilter` | app/lib.c:654-662 | the view is exactly the stored tracks that pass the new filter |
| `Library.Lib.SetLiveFilter` | app/lib.c:719-767 | for plain texts and expressions: where the view is cleared it is right, said of the shape of the tree; where it is not, it has exactly the tracks it had that pass now, and is right if and only if no passing track was missing; between plain texts, if and only if the old text had a word, or had to be cleared, or nothing passes |
| `Library.TypeCleared` | app/lib.c:719-767 | from any live filter to an expression that is an "or", a negation, a comparison with `<`, `<=` or `=` or of two keys, or an "and" with such a comparison on the right: the view is right in every library |
| `LiveExprs.HarmlessExactly` | app/expr.c:848-873 | which expressions those are, and that no others clear the view |
| `LiveExprs.ExprIsShort` | app/expr.c:704-714 | a live filter is an expression if and only if its first character other than blanks, "!" and "(" is "~" |
| `Library.TypeLive` | app/lib.c:732-767 | with the argument of a command: the text has a word, and the view stays right provided that an expression which counts as harmless narrows the one before |
| `Library.LiveFilterCommand` | app/command_mode.c:546-549 | the same for any line, with the argument that the split of the line gives |
| `LiveExprs.FurtherTerm` | app/expr.c:848-873 | a further term behind an expression does narrow it |
| `LiveExprs.ExcludingNarrows` | app/expr.c:848-873 | an expression that ends in a negated term is always harmless to the code, and narrows the one with another pattern there exactly if that pattern implies its own on the tracks that pass the other terms |
| `Library.TypeHarmless` | app/lib.c:719-767 | from one live expression to any other that contains its text only tracks that do not pass are taken out, and the view is right if and only if no track that passes now had been taken out |
| `LiveExprs.EveryLibrary` | app/lib.c:719-730 | it is so in every library if and only if the new expression narrows the old one |
| `Library.HarmlessLosesTracks` | app/lib.c:719-767 | for any two expressions, the second harmless, containing the text of the first and not narrower: a library that loses a track |
| `Library.NegatedTermLosesTracks` | app/expr.c:848-873 | one more letter typed in a negated term leaves a passing track hidden |
| `Library.Perform` | app/lib.c:98-780 | after every sequence of adds, removals, filters and live filters delivered by commands the table and the filters are what the operations make of them and the view is what filtering the table afresh gives, provided that the harmless expressions in the sequence narrow those before |
| `Library.ResumedBlankLosesTracks` | app/options.c:1746-1748 | a resume file that sets the live filter to a blank, and a longer text typed afterwards, leave a matching track hidden |
| `Commands.ParseCommand` | app/command_mode.c:2855-2889 | splits a line into its first word and the rest behind the blanks, which starts with a non-blank; fails only for blank lines and comments |
| `Commands.OneSplit` | app/command_mode.c:2855-2889 | there is only one such split |
| `Commands.EscapeRoundTrip` | app/misc.c:77-132 | unescaping what was escaped gives it back |
| `Commands.EscapedOnOneLine` | app/misc.c:77-107 | what is escaped has no line end, and other text is left alone |
| `Commands.Unescape` | app/misc.c:109-132 | the loop computes the unescaped text |
| `Formats.SkipCondExpr` | app/format_print.c:320-370 | the loops compute what the scanning function says |
| `FormatScan.SkipCondFinds` | app/format_print.c:320-370 | the first `?` or `}` that belongs to no field, escape or pair of braces, nested ones to any depth included, by a grammar of the texts that are passed over |
| `Formats.ReadCondition` | app/format_print.c:372-389 | the positions of then, else and end, strictly ordered and inside the text |
| `Formats.ValidSub` | app/format_print.c:615-676 | accepts exactly the texts that are read, whose language `FormatGrammar.FormatIsGrammar` gives |
| `Formats.ValidIf` | app/format_print.c:593-613 | the same for a conditional |
| `Formats.FormatValid` | app/format_print.c:678-681 | the same for a whole format |
| `FormatGrammar.FormatIsGrammar` | app/format_print.c:593-681 | a text is accepted with a given meaning if and only if it is made of parts (characters, escapes, fields by letter or name with alignment, width and percent sign, conditionals) whose meanings in a row are that |
| `FormatGrammar.DocComplete` | app/format_print.c:320-513 | what is made of parts in order is read as what the parts mean, in a branch of a conditional as well |
| `FormatGrammar.DocSound` | app/format_print.c:593-681 | what is read is made of parts in order |
| `FormatGrammar.PrefixReads` | app/format_print.c:428-468 | alignment, dot, zero, width and percent sign of a field are read as what they say |
| `FormatSpelling.TameScans` | app/format_print.c:320-370 | parts without a percent sign behind a width may stand in a branch of a conditional, however deeply they are nested |
| `FormatSpelling.SpellingReads` | app/format_print.c:593-681 | every list of contents that can be written is spelled as a text that is read back as that list |
| `FormatSpelling.PercentInside` | app/format_print.c:320-370 | a field with a width in percent is accepted on its own and not in a branch |
| `Formats.ParseSub` | app/format_print.c:414-513 | on an accepted text no BUG_ON is reached and the fields printed are those the text means, for any option values and conditions |
| `Formats.ParseIf` | app/format_print.c:393-412 | the same for a conditional; the result of evaluating its condition is never negative |
| `Formats.EvalCondIsEval` | app/format_print.c:226-245 | on a complete expression the evaluation gives its truth value |
| `Formats.CondEvaluates` | app/format_print.c:313-318 | whatever the tokens, a condition that parses is complete and evaluates to its truth value |
| `Formats.BranchPrinted` | app/format_print.c:393-412 | a conditional prints its first branch exactly if its condition is true |
| `Formats.FormatPrint` | app/format_print.c:515-526 | validating and then printing |
| `Cache.GetPutSigned` | app/cache.c:39-55 | numbers that fit their field read back |
| `Cache.FieldRange` | app/cache.c:39-55 | the numbers that fit are all those of fields of 32 and 64 bits |
| `Cache.EntryThere` | app/cache.c:82-151 | an entry is accepted and read back wherever it stands in the file |
| `Cache.Output.WriteTrack` | app/cache.c:302-355 | appends padding and one entry to the output, flushed or not |
| `Cache.Close` | app/cache.c:357-387 | the file is the header and the entries, every one but the last padded to 8 bytes |
| `Cache.CheckEntry` | app/cache.c:82-105 | decides what `CacheFile.EntryExactly` says of the bytes |
| `Cache.EntryToInfo` | app/cache.c:107-151 | the fields, strings and pairs of an entry |
| `Cache.DecodingStaysInside` | app/cache.c:82-151 | decoding an accepted entry reads and writes inside it if and only if it has at least three strings |
| `Cache.SingleString` | app/cache.c:82-151 | an entry with any file name as its only string is accepted, and decoding leaves it |
| `Cache.Read` | app/cache.c:193-241 | all entries in order, or a corrupt file |
| `CacheFile.EntryExactly` | app/cache.c:82-105 | an entry is accepted exactly if its size is inside the file and behind its fields stand an odd number of strings, each closed by a NUL, and nothing else |
| `CacheFile.ReadExactly` | app/cache.c:193-241 | a file is accepted exactly if it begins with the header and is entries from there on, each at the next multiple of eight bytes; it gives a track for each of them |
| `Cache.RoundTrip` | app/cache.c:193-241 | reading what was written gives every track back in order, an empty codec or profile as absent |
| `Cache.SameImage` | app/cache.c:302-355 | nothing else is lost: the tracks read back give the same file |
| `Paths.PathStrip` | app/path.c:31-95 | on every string, terminates, stays inside it, and leaves the path whose components are those resolved one by one, from the root or from the first component |
| `Paths.UpTakesBack` | app/path.c:53-80 | ".." takes back the directory in front of it |
| `Paths.RootStays` | app/path.c:53-80 | the root of an absolute path stays |
| `Paths.UpSpoilsRelative` | app/path.c:53-80 | ".." behind the first component of a relative path leaves its first character |
| `Paths.SpoiledName` | app/path.c:53-80 | so a name behind it begins with that character |
| `Paths.Idempotent` | app/path.c:31-95 | normalizing twice is normalizing once |
| `Paths.RelativeTo` | app/path.c:97-117 | a relative path is resolved from where the directory leads |
| `Paths.PathAbsolute` | app/path.c:97-117 | the absolute, normalized path |
| `Window.Window.Up` | app/window.c:80-131 | the cursor goes up the given number of rows or to the first; the window stays exactly if the rows that scroll_offset asks for above the cursor are shown, and otherwise goes up until exactly these are |
| `Window.Window.Down` | app/window.c:133-182 | the same downwards |
| `Window.Window.Changed` | app/window.c:188-246 | the window moves no further than it takes to show the cursor and to leave no empty line while rows above are hidden; its top exactly |
| `Window.Window.SetNrRows` | app/window.c:71-78 | keeps the cursor, visible; the top exactly |
| `Window.Window.SetSel` | app/window.c:328-404 | the cursor is on the row, visible, with margins; the top exactly |
| `Window.Window.GotoTop` | app/window.c:406-418 | first row |
| `Window.Window.GotoBottom` | app/window.c:420-442 | last row, on the last line if the list is long enough |
| `Window.Window.PageUp` | app/window.c:444-478 | top and cursor move together, by a page or half a page or to the start |
| `Window.Window.PageDown` | app/window.c:500-538 | top and cursor move together, at most until the last row is shown |
| `Window.Window.ScrollDown` | app/window.c:541-553 | the top moves by one row, the cursor only if it would leave the window |
| `Window.Window.ScrollUp` | app/window.c:555-568 | the top moves up by one row, the cursor by at most one |

## Left out

- Window rows that cannot be selected, `window_row_vanishes`, and `window_page_top`, `window_page_middle` and `window_page_bottom`.
- `rb_prev` and `rb_last`, which are mirror images; the colour and parent packed into one word are two fields.
- `editable.c`: counters and moving of marked tracks; `shuffle_list_reshuffle`, `rand_list_rebuild`, which ends with the same splice, and the random key order.
- `track_info_cmp` itself: the comparison is any total preorder.
- The characters-to-tokens step of the expression parser, the expansion of short expressions and `expr_eval` on real tags; leaves evaluate to any value.
- Library.NegatedTermLosesTracks: that the two texts parse to these trees is a condition on the parser, since the expansion of short keys is not modelled.
- The order of tracks inside the library view and the tree view of artists and albums; the view is a list without order guarantees here.
- The worker's type masks are one area bit and one action bit for each job; `worker_has_job_by_cb` and the content of results other than which playlist they add to or delete.
- `worker_start` and `worker_exit`: the worker is running all the time.
- Player shutdown, replay gain arithmetic, metadata and error messages; factors above 65536 in the loops over samples.
- Scaler.Consumer.WriteOut: positions count samples, so sizes are frame aligned by construction, and byte order is the machine's own.
- The consumer of `Scaler` counts what the device takes from a given stream of samples; that the bytes it is offered are that stream is what `BufferRuns` and `Player` prove.
- Player.Player.Seek: seconds are real numbers, and the position in force before the call is a parameter; the jump to the next track happens outside.
- Scaler.ScaleInPlace: the three loops for the two, left and right channels are one loop that skips a channel at full volume.
- Player.Player.EverythingPlayed: a decoder that delivers bytes behind the end of its file is left out; the producer does not ask it to, but the prebuffer loop can.
- Player.Session: the unlocked read of the input's remote flag in `player_pause` is an arbitrary value.
- Player.Player.Prebuffer: any number of rounds instead of an unbounded loop, since a decoder may answer "again" forever.
- The C memory model: atomics are sequentially consistent, allocation does not fail, bytes behind a terminator read as 0.
- Characters of more than one byte in patterns and formats, locale-dependent comparison and folding.
- Cache.Close: one machine layout (little-endian, 64-bit longs) and files below 4 GB, with string lengths taken as unbounded integers; the lookup table in memory and renaming the file.
- FormatGrammar.FormatIsGrammar: texts without a NUL, as C strings are.
- Formats.FormatPrint: how a field is padded and clipped; how the text of a condition is split into tokens and what its leaves evaluate to are given functions.
- Sockets, curses, key tables, plugins and process control.
