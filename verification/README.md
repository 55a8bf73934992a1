# Verified models of the native runtimes

Dafny models of the stateful native code of the mods, with proofs of what that code is for. One module stands for one component; a component whose source updates objects in place is a specification on values, on which the theorems are proved, and a class whose methods are proved equal to it.

- **Realms binary transport** (`Bits`, `BinaryWire`, `BinaryChannel`, `BinarySending`, `BinaryLink`, `BinaryProcess`, `BinaryCalls`, `BinaryRegistrations`, `BinaryTransport`, `ConnectReply`): messages cut into frames of at most 1024 bytes, two queued lanes and a synchronous control path, token-bucket flushing, reassembly under global budgets. `BinaryLink` runs sender, network and receiver as steps: reliable frames arrive in order, datagrams may be lost, repeated or reordered, and the frame capacity may change at every flush. `BinaryProcess` has all channels and the process-wide counters, and `BinaryRegistrations` runs its entry points in any order. `BinarySending` and `BinaryCalls` say what a flush and each entry point do, in terms of messages, limits and engine answers.
- **Shader IR canonicaliser** (`ShaderIr`, `ShaderRenaming`, `ShaderSoundness`, `ShaderSuccess`, `ShaderReflection`): numbering of locals, globals and metadata by first use, types and attribute groups written out, and the metadata worklist. Renaming invariance, soundness and the exact condition for success are proved for both canonical texts.
- **Audio cache** (`AudioCache`, `AudioCacheSafety`, `AudioCacheUse`, `AudioCacheObject`, `PcmDecode`): the byte budget, leases, eviction, background builds and first-play captures, PCM and raw entries alike. Each critical section is one step; running jobs, held leases and buffers waiting to be freed are part of the state, so a run is any interleaving of the build workers with the player, whose one goroutine makes every lease and capture and frees what it gives up before it goes on.
- **Streaming decode and filter** (`StreamDecode`): packets, frames, filter graph, resampler and the remainder carried between reads.
- **Voice** (`VoiceRing`, `VoiceQueue`): the lock-free ring under every interleaving of its loads, copies and publications, and the packet queue whose speaker removals must survive.
- **Log capture** (`LogRing`, `LogLines`, `LogHub`): the wrapping ring of records, the line splitter, and the bounded history with its followers.
- **Relay** (`RelayTable`): the peer table with endpoint rebinding.

`Common` holds small shared facts.

## Where the code differs from what one would expect

- Allocated audio memory can exceed the budget for a moment: aborting a capture and a commit that is not admitted return the reservation before they free the buffer. `AudioCacheSafety.MemoryCovered` has the exact condition, `TwiceTheBudget` bounds it by twice the budget in every reachable state, and `OverBudget` reaches that.
- Compacting the voice queue can turn a batch that decodes into one that exceeds the speaker limit, and the other way round. `VoiceQueue.CompactionPreservesWhen` is the exact condition, `CompactionMatters` an example of each at the limit of 24, and `RoomyBatch` a condition that the caller can see beforehand.
- With a budget that is not a multiple of the frame size, a build that leaves no room for another whole frame fails, because a read of zero frames is an error (native/darktide-simple-audio-runtime/internal/ffmpeg/decoder.c:363); so does one that would be too large, which is then tried again later. `PcmDecode.UnevenBudget` has the exact condition and `UnevenBuild` an input.
- A type whose body names a local would carry that local's number from one function to the next; `ShaderSoundness.ClosedTypesMatter` has two modules that the canonical text then confuses. Disassembled modules have no such type.
- The connect reply's test for room wraps around for packets of 13 to 36 bytes; its one caller has 69 (`ConnectReply.BuildConnectReply`).
- Popping a log record that is longer than the caller's buffer loses its length prefix and with it the ring's framing (native/dt-cli/runtime/log_capture_windows.c:229-234). The one caller has a 64 KiB buffer, for which this cannot happen.

## How the models read

- Time is a parameter. Clocks do not run backwards between flushes; the channels of one process are updated with one reading.
- The engine's bit reader is least significant bit first, and reads after a failed one return 0 and stay failed. Registration serials stop when the 32-bit counter reaches 0, so none is reused.
- Token buckets are real numbers. Memory exhaustion is a failure answer where the code handles it, and otherwise left out.
- Shader text starts from tokens: identifiers, and everything else verbatim. A sorted list is the multiset that it sorts, and numbers are numbers rather than digits. A line begins a function when its first token begins with `define `. Target lines carry no names, so their order does not depend on renaming.
- In `StreamDecode` a packet says which frames the codec will make of it, and a frame says what the filter and the resampler will make of it. Calls may fail, and the codec may break its rules, unless `reliable`; `stalls` lets the filter answer EAGAIN although it has output.
- In `VoiceRing` indices count elements since the start. A load of the other thread's index returns the current value or an older one, never older than the last one seen.
- In `PcmDecode` a decoder is abstract, and `Reliable` when it keeps the promise of `StreamDecode.Decoder.Read` without stalls; a build or playback is `calm` when the cache stays open and every reservation, allocation and submission is granted.
- In `LogLines` the mark of a cut line is given by its character codes.

## Model

| member | source | states |
|---|---|---|
| `Bits.AppendBits` | native/darktide-realms/src/realms_protocol.cpp:10-25 | The bits of the buffer become the old bits with the value's low bits or-ed in at the offset; it fails, changing nothing, exactly when the field is wider than 64 bits or does not fit. |
| `Bits.FieldsRoundTrip` | native/darktide-realms/src/realms_protocol.cpp:10-25 | Any list of fields appended to a zeroed range reads back least significant bit first as each value modulo 2 to its width; bits before the range stay. |
| `ConnectReply.BuildConnectReply` | native/darktide-realms/src/realms_protocol.cpp:27-76 | Building succeeds exactly when there are 62 bytes and an account id, and then every header, size and payload field reads back and the account bytes are in place; the unsigned test for room wraps around, and so lets a copy past the packet through, exactly for packets of 13 to 36 bytes. |
| `BinaryWire.FrameRoundTrip` | native/darktide-realms/src/realms_binary.cpp:274-287 | Parsing an encoded frame after the engine has taken six kind bits gives back the same frame, or a header failure exactly when the header test or the host's sender check fails. |
| `BinaryWire.BitReader.ReadPeer` | native/darktide-realms/src/realms_binary.cpp:133-136 | Two 32-bit reads make the 64-bit field at that position. |
| `BinaryWire.BitReader.ReadFrame` | native/darktide-realms/src/realms_binary.cpp:150-183 | The reading loop, with its early exits, equals the declarative parser on every bit string, truncated ones included. |
| `BinaryWire.BitReader.ReadPayload` | native/darktide-realms/src/realms_binary.cpp:171-183 | Reading words and then bytes gives the payload bytes in order, and fails exactly when the bits run out. |
| `BinaryChannel.ExpireKeepsAccounts` | native/darktide-realms/src/realms_binary.cpp:354-366 | Dropping expired datagrams keeps the channel's byte and message counts equal to its queues. |
| `BinaryChannel.FlushLoopKeeps` | native/darktide-realms/src/realms_binary.cpp:361-413 | For any engine answers a flush loop ends, keeps the counts, spends exactly the bytes it sends, alternates the lanes, and sends no datagram at or past its deadline nor a frame above capacity. |
| `BinaryChannel.FlushKeeps` | native/darktide-realms/src/realms_binary.cpp:339-416 | A whole flush keeps the channel's accounts, and bytes sent plus tokens left are covered by tokens before and elapsed time. |
| `BinaryChannel.RunKeeps` | native/darktide-realms/src/realms_binary.cpp:339-416 | The same over any run of queued sends and flushes with varying capacity: accounts, alternation while both lanes wait, deadlines, and payment for every byte. |
| `BinaryChannel.RateLimit` | native/darktide-realms/src/realms_binary.cpp:339-416 | From a flush at t0 to t1 no run sends more than 4096 + 65.536 * (t1 - t0) bytes. |
| `BinaryChannel.ControlLeavesReserve` | native/darktide-realms/src/realms_binary.cpp:296-337 | An admitted control message, frame overheads included, leaves the engine's reserve free, and an accepted one is cut into exactly the computed number of frames. |
| `BinaryChannel.ReceiverRefines` | native/darktide-realms/src/realms_binary.cpp:184-226 | Accepting a reliable frame is the ideal parser with budgets: it fails exactly when the parser rejects the frame or a budget is exhausted, and otherwise has the same progress and message. |
| `BinaryChannel.ParseAppend` | native/darktide-realms/src/realms_binary.cpp:150-226 | The ideal parser works piece by piece, so every prefix of a good stream is good. |
| `BinaryChannel.TurnParses` | native/darktide-realms/src/realms_binary.cpp:274-294 | Each bulk frame sent advances the queue exactly as the ideal parser reads it. |
| `BinaryChannel.EnqueueKeeps` | native/darktide-realms/src/realms_binary.cpp:523-560 | Queueing a message, within its limits, keeps the channel's accounts. |
| `BinarySending.ExpireIs` | native/darktide-realms/src/realms_binary.cpp:354-366 | Exactly the datagrams at the front that are past their deadline leave, and they are counted. |
| `BinarySending.TurnSendsWhen` | native/darktide-realms/src/realms_binary.cpp:361-413 | With m the message whose turn it is (a live datagram if bulk went last or nothing else waits, else the front of bulk) and p its packet, a frame goes out if and only if there are p tokens, 8192 + 2p bytes of engine window, the engine takes it, and a datagram fits whole and finds min(8192, capacity / 2) + 2p bytes in the unreliable queue. It is the next piece of m. Otherwise the turn waits exactly when tokens or room are short, and else fails the channel. |
| `BinarySending.FlushEnds` | native/darktide-realms/src/realms_binary.cpp:339-416 | A flush of a healthy channel fails exactly for a message that has been arriving for more than 30 seconds, a lost peer, a frame limit of no use, or a front that must not wait and cannot go. Bytes sent and tokens left are exactly the replenished tokens. If it ends well with messages queued, the engine's last answer leaves their front without tokens or room. |
| `BinarySending.OnlyTokensLimit` | native/darktide-realms/src/realms_binary.cpp:339-416 | With an engine that has room and datagrams that fit, a flush never fails and leaves only what there are no tokens for. |
| `BinarySending.FragmentsAre` | native/darktide-realms/src/realms_binary.cpp:328-334 | The frames of a control message carry its header and offsets, and their payloads make up its bytes in order. |
| `BinarySending.ControlGoesOut` | native/darktide-realms/src/realms_binary.cpp:296-337 | A control message is admitted if and only if the connection and peer are there and the engine's queue has room, by count and by position, for its bytes, 65 for each frame and 8192 more; it is accepted if and only if the engine also takes every frame, and its frames then carry exactly its payload. |
| `BinaryLink.StepKeeps` | native/darktide-realms/src/realms_binary.cpp:150-416 | Each step of sender, network and receiver keeps the link invariant: the frames in flight parse to what was accepted, and the receiver is where the parser is. |
| `BinaryLink.EndToEnd` | native/darktide-realms/src/realms_binary.cpp:150-226 | For every interleaving of sends, flushes, control sends, loss, duplication and reordering of datagrams, and deliveries: bulk and control messages delivered are prefixes of those accepted, with the sender, recipient, kind and payload that the caller passed, each delivered datagram was sent, and no inconsistency failure is reachable. |
| `BinaryLink.DrainedMeansDelivered` | native/darktide-realms/src/realms_binary.cpp:339-416 | Once the bulk queue is empty and every reliable frame is taken, everything accepted has been delivered. |
| `BinaryLink.NextFrameAccepted` | native/darktide-realms/src/realms_binary.cpp:184-226 | In any reachable state the next reliable frame is refused if and only if a budget is exhausted or a host sees a foreign sender. |
| `BinaryProcess.CallbackKeeps` | native/darktide-realms/src/realms_binary.cpp:228-250 | A receive callback, failing or not, keeps all process accounts: queued and received bytes and messages are the sums they stand for, and the work flag is sound. |
| `BinaryProcess.AttachKeeps` | native/darktide-realms/src/realms_binary.cpp:420-471 | Attaching keeps the process accounts. |
| `BinaryProcess.DetachKeeps` | native/darktide-realms/src/realms_binary.cpp:252-272 | Detaching removes exactly the channel's share of every counter. |
| `BinaryProcess.SendKeeps` | native/darktide-realms/src/realms_binary.cpp:491-565 | Sending on either queue or the control path keeps the process accounts. |
| `BinaryProcess.UpdateKeeps` | native/darktide-realms/src/realms_binary.cpp:567-602 | Updating every channel, in id order, keeps the accounts, and the work flag is false only if no message is queued, no assembly is active and nothing has failed. |
| `BinaryProcess.PollKeeps` | native/darktide-realms/src/realms_binary.cpp:604-644 | Polling keeps the accounts; the receive flag says whether messages are unread. |
| `BinaryProcess.PollTakesOldest` | native/darktide-realms/src/realms_binary.cpp:604-644 | A read takes the oldest unread message of its lane, or of the asked control channel, and leaves every other channel's order alone. |
| `BinaryProcess.TakeFrameAppends` | native/darktide-realms/src/realms_binary.cpp:138-226 | A completed message is appended to its own channel's unread messages and to no other. |
| `BinaryProcess.ControlReserve` | native/darktide-realms/src/realms_binary.cpp:138-148 | A control frame is received as if there were no budgets while control holds at most 4 MiB, with the message it starts, and each channel at most 16 unread control messages, with this one, whatever other traffic holds. |
| `BinaryCalls.SendIs` | native/darktide-realms/src/realms_binary.cpp:491-565 | A send is refused exactly for improper arguments, a missing or failed channel, or want of room (8 MiB and 1024 messages a channel, 64 MiB in all). A queued one adds to the end of its lane the message asked for, numbered after the last, due at now + lifetime, and changes nothing else; a control one does what `ControlGoesOut` says. |
| `BinaryCalls.CallbackIs` | native/darktide-realms/src/realms_binary.cpp:138-250 | A callback answers 1 if its registration is gone and 2 if the channel has failed or fails. Else it takes a reliable frame if and only if that is a step of the ideal parser with 64 MiB and 4096 messages of room for control, 60 MiB and 3728 for the rest, and a datagram if and only if there is that room; what is completed joins the end of its lane, and an unfinished message is stamped with the time. |
| `BinaryCalls.AttachIs` | native/darktide-realms/src/realms_binary.cpp:420-471 | Attaching succeeds if and only if the id is attached to that peer and role already, or there are fewer than 23 channels, a serial, the connection and the engine's registration; a new channel starts empty with 4096 tokens. |
| `BinaryCalls.DetachIs` | native/darktide-realms/src/realms_binary.cpp:252-272 | Detaching removes the channel and its unread messages and keeps every other channel's in order. |
| `BinaryCalls.UpdateIs` | native/darktide-realms/src/realms_binary.cpp:567-602 | While there is work and the connection is good, every channel is flushed in id order up to the first that has failed or fails, which is reported; the work flag says whether anything is queued or arriving. |
| `BinaryCalls.PollIs` | native/darktide-realms/src/realms_binary.cpp:604-644 | A poll returns the oldest bulk message, or the oldest control message of the asked channel, if and only if there is one, its number is the asked one, and the buffer holds it; the other answers are exact too. |
| `BinaryRegistrations.RunKeeps` | native/darktide-realms/src/realms_binary.cpp:150-644 | After any run of attaching, detaching, sending, updating, callbacks and polls, failing or not, every counter, reserve, flag and serial of the process is right, and a serial once retired stays retired. |
| `BinaryRegistrations.SerialsNeverRepeat` | native/darktide-realms/src/realms_binary.cpp:420-471 | Two registrations at any two points of a run have different serials. |
| `BinaryRegistrations.StaleCallbackIgnored` | native/darktide-realms/src/realms_binary.cpp:228-250 | A callback for a registration that was detached at any earlier point of a run is answered by 1 and changes nothing, whatever was attached since. |
| `BinaryTransport.Transport.ReceiveFragment` | native/darktide-realms/src/realms_binary.cpp:198-225 | The two-step code (charge at the first fragment, then append) equals the one-step specification. |
| `BinaryTransport.Transport.ReceiveCallback` | native/darktide-realms/src/realms_binary.cpp:150-250 | The callback on the object equals the specification and keeps the accounts valid. |
| `BinaryTransport.Transport.AttachBinaryChannel` | native/darktide-realms/src/realms_binary.cpp:420-471 | Equals the specification; a failed registration leaves the channels as they were. |
| `BinaryTransport.Transport.DetachBinaryChannel` | native/darktide-realms/src/realms_binary.cpp:473-489 | Equals the specification, or changes nothing while the connection check fails. |
| `BinaryTransport.Transport.SendBinary` | native/darktide-realms/src/realms_binary.cpp:491-565 | Equals the specification for every lane and refusal: an accepted message joins its lane with the caller's sender, recipient, kind and payload, its deadline and the next number, or goes out whole. |
| `BinaryTransport.Transport.FlushChannel` | native/darktide-realms/src/realms_binary.cpp:339-416 | The in-place flush equals the specification's, and so sends, waits and fails exactly when `FlushEnds` says. |
| `BinaryTransport.Transport.UpdateBinary` | native/darktide-realms/src/realms_binary.cpp:567-602 | The update loop equals the specification over all channels in id order. |
| `BinaryTransport.Transport.PollBinary` | native/darktide-realms/src/realms_binary.cpp:604-644 | Equals the specification, including the answer for a buffer that is too small or absent. |
| `ShaderIr.RewriteKeepsNodes` | native/darktide-good-old-outlines/src/shader_ir.cpp:232-257 | Rewriting any tokens keeps metadata numbers equal to first-use positions and only extends the worklist; type recursion ends because open types never repeat. |
| `ShaderIr.WorklistBound` | native/darktide-good-old-outlines/src/shader_ir.cpp:266-287 | The worklist never holds more distinct known nodes than the module has, which is why its growing loop ends. |
| `ShaderIr.CanonicalText.WriteTokens` | native/darktide-good-old-outlines/src/shader_ir.cpp:232-257 | The token loop over the object's tables equals the specification, text and state. |
| `ShaderIr.CanonicalText.Rename` | native/darktide-good-old-outlines/src/shader_ir.cpp:316-356 | Equals the specification for every kind of name. |
| `ShaderIr.CanonicalText.Layout` | native/darktide-good-old-outlines/src/shader_ir.cpp:301-314 | Equals the specification: cached, recursive (invalid) or expanded once. |
| `ShaderIr.CanonicalText.FinishText` | native/darktide-good-old-outlines/src/shader_ir.cpp:266-287 | The worklist loop, which its own output extends, ends and equals the specification. |
| `ShaderIr.CanonicalShaderIr` | native/darktide-good-old-outlines/src/shader_ir.cpp:371-403 | Both canonical texts, or failure, as specified. |
| `ShaderRenaming.InjectiveExtends` | native/darktide-good-old-outlines/src/shader_ir.cpp:316-356 | Any injective choice of new names extends to a renaming of all names, so renamings lose no generality. |
| `ShaderRenaming.RewriteRenamed` | native/darktide-good-old-outlines/src/shader_ir.cpp:232-257 | Matching states and renamed tokens give matching states and the same output. |
| `ShaderRenaming.LayoutRenamed` | native/darktide-good-old-outlines/src/shader_ir.cpp:301-314 | The same for the layout of a named type, recursion and caching included. |
| `ShaderRenaming.RenamedMarkRoots` | native/darktide-good-old-outlines/src/shader_ir.cpp:198-225 | Reflection names are found, or not, at the renamed nodes. |
| `ShaderRenaming.RenamedFinish` | native/darktide-good-old-outlines/src/shader_ir.cpp:266-287 | The reached metadata prints the same lines. |
| `ShaderRenaming.RenamedCode` | native/darktide-good-old-outlines/src/shader_ir.cpp:383-387 | Function bodies print the same although each function has its own renaming of locals. |
| `ShaderRenaming.CanonicalInvariant` | native/darktide-good-old-outlines/src/shader_ir.cpp:371-403 | A consistent injective renaming of locals (per function), globals other than intrinsics, metadata numbers, type names and attribute groups changes neither text and neither makes nor cures a failure. |
| `ShaderSuccess.TextWritten` | native/darktide-good-old-outlines/src/shader_ir.cpp:232-257 | From a state that has not failed, a text is written without a failure if and only if its attribute groups are well formed and its types end; the worklist and the globals in use then grow by exactly what it mentions. |
| `ShaderSuccess.FinishWhen` | native/darktide-good-old-outlines/src/shader_ir.cpp:266-287 | The metadata is finished without a failure if and only if every node that a chain of mentions leads to exists, has its reflected name as a string, and is writable. |
| `ShaderSuccess.PropertiesSucceed` | native/darktide-good-old-outlines/src/shader_ir.cpp:375-382 | So the properties text exists exactly when the targets and roots are writable and every node reached from them is good. |
| `ShaderSuccess.InstructionsSucceed` | native/darktide-good-old-outlines/src/shader_ir.cpp:383-398 | The same for the code and the declarations kept: those of globals that the code, or a declaration kept before, uses. |
| `ShaderReflection.MarkRootsIs` | native/darktide-good-old-outlines/src/shader_ir.cpp:198-225 | Finding the reflection names fails exactly when a root, tuple or group is not a list; it finds exactly the entry points and the resources of every group. |
| `ShaderReflection.CanonicalSucceeds` | native/darktide-good-old-outlines/src/shader_ir.cpp:371-403 | A module has canonical texts if and only if its reflection roots resolve and both texts succeed, all said of its tokens and tables. |
| `ShaderReflection.ReflectionNamesDoNotMatter` | native/darktide-good-old-outlines/src/shader_ir.cpp:266-287 | Modules that differ only in reflection names have the same canonical texts, or neither has any. |
| `ShaderReflection.RootTextsAre` | native/darktide-good-old-outlines/src/shader_ir.cpp:92-97 | The properties text has one line for each root named `dx.`, but for source, debug and reflection data, in order. |
| `ShaderReflection.BodyWordsAre` | native/darktide-good-old-outlines/src/shader_ir.cpp:266-287 | A node's text has every name and string of its body, in order. |
| `ShaderReflection.IntrinsicsStay` | native/darktide-good-old-outlines/src/shader_ir.cpp:333-337 | Exactly the globals that begin with `dx.op.` or `llvm.` keep their names. |
| `ShaderSoundness.RewriteShows` | native/darktide-good-old-outlines/src/shader_ir.cpp:232-257 | A valid output line spells the text with its types written out, under the names numbered so far; cached layouts stay right as numbering grows. |
| `ShaderSoundness.FinishShows` | native/darktide-good-old-outlines/src/shader_ir.cpp:266-287 | On success line k of the metadata is the body of the k-th reached node, for every reached node. |
| `ShaderSoundness.CodeShows` | native/darktide-good-old-outlines/src/shader_ir.cpp:383-387 | The code lines spell the functions' text, each function under its own locals. |
| `ShaderSoundness.MeansOnce` | native/darktide-good-old-outlines/src/shader_ir.cpp:301-314 | A text has one meaning, however deep its types are expanded. |
| `ShaderSoundness.PropertiesSound` | native/darktide-good-old-outlines/src/shader_ir.cpp:375-382 | For all modules, equal properties texts come from modules whose targets, roots and reached metadata mean the same under one bijection on each kind of name. |
| `ShaderSoundness.BeginningShows` | native/darktide-good-old-outlines/src/shader_ir.cpp:383-387 | The canonical form of a line begins with `define ` exactly when the line does, so equal texts divide into the same functions. |
| `ShaderSoundness.InstructionsSound` | native/darktide-good-old-outlines/src/shader_ir.cpp:383-398 | Equal instructions texts come from code and reached metadata that mean the same, and kept declarations that do so one by one in some order, under one bijection on globals, one on metadata and one per function on locals: no two different uses of names are merged. It asks that type bodies name only types. |
| `ShaderSoundness.ClosedTypesMatter` | native/darktide-good-old-outlines/src/shader_ir.cpp:301-314 | With a type whose body names a local, a layout keeps that local's number into the next function, and two modules with equal instructions texts are related by no renaming of locals. |
| `AudioCache.StepKeeps` | native/darktide-simple-audio-runtime/internal/player/cache_budget.go:104-192 | Every critical section keeps the invariant: counters are the sums they stand for and fit the budget, one producer per key, usage records present, owners and reference counts exact. |
| `AudioCache.RunKeeps` | native/darktide-simple-audio-runtime/internal/player/cache_budget.go:104-192 | So it holds in every state that any interleaving reaches. |
| `AudioCache.BuildHasUsage` | native/darktide-simple-audio-runtime/internal/player/pcm_cache.go:108-121 | A running build's key has a usage record, so the unguarded use of it cannot fail. |
| `AudioCache.PruneKeeps` | native/darktide-simple-audio-runtime/internal/player/audio_cache.go:154-173 | Pruning keeps the record of every cached, building and capturing key. |
| `AudioCache.ScheduleKeeps` | native/darktide-simple-audio-runtime/internal/player/pcm_cache.go:71-97 | Scheduling a build keeps cached, building and capturing keys disjoint. |
| `AudioCache.BeginCaptureKeeps` | native/darktide-simple-audio-runtime/internal/player/pcm_capture.go:36-53 | Beginning a capture keeps them disjoint. |
| `AudioCache.CommitKeeps` | native/darktide-simple-audio-runtime/internal/player/pcm_cache.go:131-143 | A commit moves the buffer's bytes from reserved to resident, or leaves the buffer to be freed. |
| `AudioCache.DetachKeeps` | native/darktide-simple-audio-runtime/internal/player/cache_budget.go:15-31 | Eviction moves an unreferenced entry's bytes from resident to reclaiming. |
| `AudioCache.AbortCaptureKeeps` | native/darktide-simple-audio-runtime/internal/player/pcm_capture.go:135-160 | Aborting a capture returns its reservation and keeps the invariant. |
| `AudioCache.CloseKeeps` | native/darktide-simple-audio-runtime/internal/player/audio_cache.go:183-212 | Closing keeps the invariant: leased buffers stay for their leases, the others are given up. |
| `AudioCacheSafety.MemoryIs` | native/darktide-simple-audio-runtime/internal/player/cache_budget.go:154-156 | Allocated memory is exactly resident + reserved + reclaiming, less the reservations that producers do not use and the victim already freed, plus the buffers given up and not yet freed and those leased past close. |
| `AudioCacheSafety.MemoryCovered` | native/darktide-simple-audio-runtime/internal/player/cache_budget.go:154-156 | So the counters cover allocated memory if and only if that slack makes up for the uncharged buffers, and it is within the budget if and only if slack and free budget together do. |
| `AudioCacheSafety.MemoryBounded` | native/darktide-simple-audio-runtime/internal/player/cache_budget.go:104-152 | Before close, allocated memory is within the budget whenever no given-up buffer waits to be freed. |
| `AudioCacheSafety.TwiceTheBudget` | native/darktide-simple-audio-runtime/internal/player/pcm_capture.go:93-160 | In every state that any run reaches, closing included, allocated memory is at most twice the budget: before close at most one given-up buffer is waiting, because the one player goroutine frees it before it does anything else. |
| `AudioCacheSafety.OverBudget` | native/darktide-simple-audio-runtime/internal/player/pcm_capture.go:135-160 | That bound is reached: a capture that holds the whole budget is aborted, and a build worker reserves and allocates the whole budget before the capture's buffer is freed. |
| `AudioCacheSafety.LeaseSafe` | native/darktide-simple-audio-runtime/internal/player/cache_budget.go:61-102 | A leased buffer is not freed, and nobody is about to free it. |
| `AudioCacheSafety.LeasedStays` | native/darktide-simple-audio-runtime/internal/player/cache_budget.go:61-102 | No step but its release ends a lease, and the buffer stays allocated at the same size. |
| `AudioCacheSafety.FreedOnce` | native/darktide-simple-audio-runtime/internal/player/cache_budget.go:168-177 | No step frees a buffer twice or forgets that it was freed. |
| `AudioCacheSafety.NothingLeaks` | native/darktide-simple-audio-runtime/internal/player/audio_cache.go:183-212 | After close, once producers, leases and pending frees are done, every buffer that existed was freed exactly once. |
| `AudioCacheSafety.EvictionIsLeastRecent` | native/darktide-simple-audio-runtime/internal/player/cache_budget.go:15-59 | Any step before close that removes an entry is a reservation that does not fit, and the entry is unreferenced, not hot, and the least recently used such entry of both kinds. |
| `AudioCacheUse.EvictsLeastRecentlyUsed` | native/darktide-simple-audio-runtime/internal/player/cache_budget.go:15-59 | Over any run, with the time of each key's last lease or commit read off the steps, the evicted key's is the earliest of all cached keys that no lease holds and that were not played twice with the last play within five minutes. |
| `AudioCacheUse.ObserveIs` | native/darktide-simple-audio-runtime/internal/player/pcm_cache.go:26-61 | A play of a cached key leases its buffer and stamps it, and no other; it counts as one more play, or the first after five minutes; other records stay unless they are stale and pruning is due. |
| `AudioCacheUse.ReacquireIs` | native/darktide-simple-audio-runtime/internal/player/pcm_cache.go:42-61 | A repetition leases and stamps in the same way, and is the key's last play but not another. |
| `AudioCacheUse.ScheduleIs` | native/darktide-simple-audio-runtime/internal/player/pcm_cache.go:71-97 | A build starts if and only if the cache is open, nobody caches, builds or captures the key, it is not put off, it has two plays, real or granted, and the queue has room. |
| `AudioCacheUse.BeginCaptureIs` | native/darktide-simple-audio-runtime/internal/player/pcm_capture.go:36-53 | A capture starts if and only if the cache is open, nobody caches, builds or captures the key, and it is not put off. |
| `AudioCacheUse.SecondPlayBuilds` | native/darktide-simple-audio-runtime/internal/player/pcm_cache.go:71-97 | A second play within five minutes starts a build of such a key. |
| `AudioCacheUse.CommitIs` | native/darktide-simple-audio-runtime/internal/player/pcm_cache.go:131-143 | An asset is admitted if and only if the cache is open and lacks its key; it is then that key's entry, stamped, and resident bytes grow by its own. Otherwise its buffer is given up. Either way the job is over and its reservation back. |
| `AudioCacheUse.FailBuildIs` | native/darktide-simple-audio-runtime/internal/player/pcm_cache.go:108-121 | A failed build marks its key too large, or puts it off five minutes for a failure other than closing or budget. |
| `AudioCacheUse.AbortIs` | native/darktide-simple-audio-runtime/internal/player/pcm_capture.go:135-160 | An aborted capture marks its key in the same way by its reason, ends, and gives up its buffer. |
| `AudioCacheUse.AllocateIs` | native/darktide-simple-audio-runtime/internal/player/pcm_cache.go:376-394 | Making, growing and shrinking leave the job a buffer of exactly that size and no other changed. |
| `AudioCacheObject.SharedCache.PruneUsage` | native/darktide-simple-audio-runtime/internal/player/audio_cache.go:154-173 | The loop removes exactly the stale records. |
| `AudioCacheObject.SharedCache.AcquireOrObserve` | native/darktide-simple-audio-runtime/internal/player/pcm_cache.go:26-40 | Prune, count the play, and lease and stamp the entry if cached, as specified. |
| `AudioCacheObject.SharedCache.ReleaseLease` | native/darktide-simple-audio-runtime/internal/player/cache_budget.go:61-81 | Equals the specification; it answers whether the caller must free. |
| `AudioCacheObject.SharedCache.ScheduleBuild` | native/darktide-simple-audio-runtime/internal/player/pcm_cache.go:71-97 | Equals the specification, including a full queue. |
| `AudioCacheObject.SharedCache.StartCapture` | native/darktide-simple-audio-runtime/internal/player/pcm_capture.go:36-53 | Equals the specification. |
| `AudioCacheObject.SharedCache.TryToReserve` | native/darktide-simple-audio-runtime/internal/player/cache_budget.go:104-115 | Reserves exactly when open and within budget. |
| `AudioCacheObject.SharedCache.FindOldest` | native/darktide-simple-audio-runtime/internal/player/cache_budget.go:33-59 | The search returns a least recently used evictable entry of its kind, or none exactly when there is none. |
| `AudioCacheObject.SharedCache.FindVictim` | native/darktide-simple-audio-runtime/internal/player/cache_budget.go:15-31 | The older of the two kinds, the raw entry on a tie; none exactly when nothing may be evicted. |
| `AudioCacheObject.SharedCache.ReserveWithEviction` | native/darktide-simple-audio-runtime/internal/player/cache_budget.go:117-152 | Only evictable entries go, each freed and accounted for; it reserves, or stops because the cache closes or nothing may be evicted. |
| `AudioCacheObject.SharedCache.CommitAsset` | native/darktide-simple-audio-runtime/internal/player/pcm_cache.go:131-143 | Equals the specification; admitted exactly when open and the key is not cached. |
| `AudioCacheObject.SharedCache.FinishFailedBuild` | native/darktide-simple-audio-runtime/internal/player/pcm_cache.go:108-121 | Equals the specification: too-large and retry marks by failure kind. |
| `AudioCacheObject.SharedCache.Abort` | native/darktide-simple-audio-runtime/internal/player/pcm_capture.go:135-160 | Equals the specification. |
| `AudioCacheObject.SharedCache.DropEntries` | native/darktide-simple-audio-runtime/internal/player/audio_cache.go:192-209 | The closing loop uncaches every entry and returns exactly the unreferenced ones to free. |
| `PcmDecode.DiscardFrames` | native/darktide-simple-audio-runtime/internal/player/pcm_cache.go:217-251 | Success leaves the stream after exactly the asked frames. |
| `PcmDecode.SeekStart` | native/darktide-simple-audio-runtime/internal/player/file_playback.go:217-249 | The same, for playback; undisturbed, it succeeds exactly when the file has that many frames. |
| `PcmDecode.SelectionIs` | native/darktide-simple-audio-runtime/internal/player/pcm_cache.go:217-263 | Frame i of the selection is frame start + i of the file, for every i within the file and the limit. |
| `PcmDecode.RangeIs` | native/darktide-simple-audio-runtime/internal/player/pcm_cache.go:217-263 | The start and the limit are the whole numbers at or next below pos * rate and duration * rate; a negative duration is no limit. |
| `PcmDecode.InitialCapacityIs` | native/darktide-simple-audio-runtime/internal/player/pcm_cache.go:265-294 | A build first reserves what it expects to need, a block more when that is a guess and fits, but at least a block and never more than the budget. |
| `PcmDecode.BuildBuffer.Grow` | native/darktide-simple-audio-runtime/internal/player/pcm_cache.go:376-394 | Capacity and reservation grow together or not at all. |
| `PcmDecode.DecodeBuffer` | native/darktide-simple-audio-runtime/internal/player/pcm_cache.go:296-355 | A success holds exactly the stream up to the limit within its reservation; too large is reported only if it is. With a decoder that fills its reads and nothing refused, it succeeds exactly when the frames are some and fewer than the whole frames of the budget, or as many with no bytes over or the asked duration ending there; and reports too large exactly when they are more and no bytes are over. |
| `PcmDecode.WholeBudget` | native/darktide-simple-audio-runtime/internal/player/pcm_cache.go:296-374 | For a budget of whole frames that outcome means: built exactly when there is something and it fits, too large exactly when it does not. |
| `PcmDecode.UnevenBudget` | native/darktide-simple-audio-runtime/internal/player/pcm_cache.go:313-335 | For any other budget nothing is ever too large, and of what fits exactly one size is not built: that which leaves no room for another frame, unless the asked duration ends there. |
| `PcmDecode.UnevenBuild` | native/darktide-simple-audio-runtime/internal/player/pcm_cache.go:313-335 | Two stereo frames of 8 bytes fail to build within 10 bytes and are built within 8. |
| `PcmDecode.BuildAsset` | native/darktide-simple-audio-runtime/internal/player/pcm_cache.go:145-207 | Whatever a build commits is the file's frames from floor(pos * rate), at most floor(duration * rate) of them; undisturbed, it commits them, finds them too large or fails exactly as for `DecodeBuffer`. |
| `PcmDecode.PcmCapture.Append` | native/darktide-simple-audio-runtime/internal/player/pcm_capture.go:55-91 | Frames are appended within a capacity doubled no further than needed, or nothing changes; undisturbed, exactly when they fit the budget. |
| `PcmDecode.PlayOnce` | native/darktide-simple-audio-runtime/internal/player/file_playback.go:365-453 | One repetition plays exactly the range, and a capture that survives it holds what was played; undisturbed, it ends well, and the capture commits exactly when there is something and it fits. |
| `PcmDecode.FirstPlay` | native/darktide-simple-audio-runtime/internal/player/file_playback.go:365-453 | What a first play plays, and what it commits, are both that same selection of the file; undisturbed, it fails exactly without a rate, before the position is reached, or for an empty duration. |
| `PcmDecode.MemoryDecoder.Read` | native/darktide-simple-audio-runtime/internal/player/pcm_memory_decoder.go:23-39 | Returns the next frames, as many as asked or left, and finishes exactly at the end. |
| `PcmDecode.Repeat` | native/darktide-simple-audio-runtime/internal/player/file_playback.go:304-351 | A repetition read from the cache plays what decoding the file again plays, whichever producer committed, and undisturbed does not fail. |
| `StreamDecode.FilterGraph.CopyPending` | native/darktide-simple-audio-runtime/internal/ffmpeg/filter.c:21-49 | The remainder's front moves to the output, nothing lost or repeated; with room left it is empty. |
| `StreamDecode.FilterGraph.StorePending` | native/darktide-simple-audio-runtime/internal/ffmpeg/filter.c:51-68 | A remainder is only ever stored when the previous one is gone. |
| `StreamDecode.FilterGraph.CopyFrame` | native/darktide-simple-audio-runtime/internal/ffmpeg/filter.c:70-103 | A frame is split between output and remainder without loss. |
| `StreamDecode.FilterGraph.Drain` | native/darktide-simple-audio-runtime/internal/ffmpeg/filter.c:105-136 | Output plus what is left stay the same sequence; it stops early only for want of filter output. |
| `StreamDecode.FilterGraph.Flush` | native/darktide-simple-audio-runtime/internal/ffmpeg/filter.c:138-150 | The filter's tail is added once; finished means everything has been read. |
| `StreamDecode.Decoder.ReadPacket` | native/darktide-simple-audio-runtime/internal/ffmpeg/decoder.c:337-358 | Packets of other streams are skipped and change nothing. |
| `StreamDecode.Decoder.NextFrame` | native/darktide-simple-audio-runtime/internal/ffmpeg/decoder.c:282-360 | Every decoded frame once and in order, then the end; its no-progress errors are in the code and need a codec that breaks FFmpeg's send and receive rules. |
| `StreamDecode.Decoder.GiveInput` | native/darktide-simple-audio-runtime/internal/ffmpeg/decoder.c:308-358 | One turn of input: the pending packet, the end or the next packet is given, no frame is lost or reordered, and there is less to give. |
| `StreamDecode.Decoder.PushFiltered` | native/darktide-simple-audio-runtime/internal/ffmpeg/decoder.c:204-216 | A pushed frame's filter output joins the stream in order. |
| `StreamDecode.Decoder.PushResampled` | native/darktide-simple-audio-runtime/internal/ffmpeg/decoder.c:218-254 | The same through the resampler, which keeps what did not fit. |
| `StreamDecode.Decoder.FlushResampler` | native/darktide-simple-audio-runtime/internal/ffmpeg/decoder.c:256-280 | Flushing returns the resampler's rest; done exactly when less than asked came out. |
| `StreamDecode.Decoder.Read` | native/darktide-simple-audio-runtime/internal/ffmpeg/decoder.c:362-429 | A read returns the next samples of the stream, at most as many as asked; without filter stalls exactly that many or all that is left, and says done exactly when it returned fewer. |
| `StreamDecode.RawFilterDecoder.Read` | native/darktide-simple-audio-runtime/internal/ffmpeg/raw_cache.c:181-232 | The same for filtering a cached recording. |
| `StreamDecode.ReadMany` | native/darktide-simple-audio-runtime/internal/ffmpeg/decoder.c:362-429 | Any sequence of read sizes gives the stream's front of the total size asked: how it was cut does not matter, and done means nothing is left. |
| `StreamDecode.ReadManyCached` | native/darktide-simple-audio-runtime/internal/ffmpeg/raw_cache.c:181-232 | The same for a cached recording. |
| `VoiceRing.Ring.Push` | native/darktide-realms/src/realms_voice.cpp:51-59 | As many elements as fit join the contents in order. |
| `VoiceRing.Ring.Pop` | native/darktide-realms/src/realms_voice.cpp:60-70 | The oldest elements leave in order. |
| `VoiceRing.StepDefined` | native/darktide-realms/src/realms_voice.cpp:51-70 | With stale loads of the other thread's index, the unsigned subtractions never wrap and no index leaves its array. |
| `VoiceRing.StepKeeps` | native/darktide-realms/src/realms_voice.cpp:51-70 | Every load, single copy and publication of either thread keeps the ring invariant. |
| `VoiceRing.NeverTheSameSlot` | native/darktide-realms/src/realms_voice.cpp:51-70 | While both threads copy they touch different slots. |
| `VoiceRing.Fifo` | native/darktide-realms/src/realms_voice.cpp:41-75 | Under every interleaving what has been popped is a prefix of what has been pushed, and read <= write <= read + capacity. |
| `VoiceRing.PushIs` | native/darktide-realms/src/realms_voice.cpp:51-59 | Whatever the other thread does meanwhile, a push publishes the first elements of its source in order, as many as fit the room that it saw. |
| `VoiceRing.PopIs` | native/darktide-realms/src/realms_voice.cpp:60-70 | A pop takes the oldest elements, as many as asked of those that it saw, and hands them over unless it discards them. |
| `VoiceQueue.PacketQueue.Add` | native/darktide-realms/src/realms_voice.cpp:396-413 | The erasing and searching loops equal the specification; dropped packets are counted. |
| `VoiceQueue.EnqueueBounded` | native/darktide-realms/src/realms_voice.cpp:396-413 | At most 64 audio packets and one removal per speaker are queued, nothing of that speaker before it. |
| `VoiceQueue.EnqueueIs` | native/darktide-realms/src/realms_voice.cpp:396-413 | A removal takes the place of all that its speaker has queued. Audio joins the end while fewer than 64 packets are queued; then it displaces the oldest audio, and is dropped only if there is none. |
| `VoiceQueue.AudioKeepsTheNewest` | native/darktide-realms/src/realms_voice.cpp:396-413 | Without removals the queue holds the newest 64 packets. |
| `VoiceQueue.EnqueueRecords` | native/darktide-realms/src/realms_voice.cpp:396-413 | One enqueue keeps the queue the compacted history; a full queue loses one audio packet of it and never a removal. |
| `VoiceQueue.QueueRecords` | native/darktide-realms/src/realms_voice.cpp:396-413 | After any run of enqueues since the last batch the queue is the compaction of those packets less some audio packets, as many as were counted as dropped; every removal is there. |
| `VoiceQueue.RemovalSurvives` | native/darktide-realms/src/realms_voice.cpp:396-413 | A removal disappears only for a later removal of the same speaker. |
| `VoiceQueue.FailsWhen` | native/darktide-realms/src/realms_voice.cpp:415-433 | Decoding a batch exceeds the speaker limit if and only if somebody joins when, were there no limit, that many others would be present. |
| `VoiceQueue.DecodeIs` | native/darktide-realms/src/realms_voice.cpp:415-454 | A batch that decodes leaves each speaker the packets that it had, unless it was removed, and then its own in time since its last removal, in the order they came. |
| `VoiceQueue.CompactedFailsWhen` | native/darktide-realms/src/realms_voice.cpp:396-433 | Decoding the compacted batch exceeds it if and only if somebody who stays joins when that many are present, counting those still to be removed only if they were there at the start. |
| `VoiceQueue.CompactionPreservesWhen` | native/darktide-realms/src/realms_voice.cpp:396-454 | For every batch, the two runs fail alike if and only if both of these hold or neither does, and where neither fails they end with the same speakers and states. |
| `VoiceQueue.RoomyBatch` | native/darktide-realms/src/realms_voice.cpp:396-454 | If those present and those heard in the batch are within the limit together, neither run fails and both end alike. |
| `VoiceQueue.CompactionFails` | native/darktide-realms/src/realms_voice.cpp:396-433 | In any full room, a speaker who leaves, another who joins and the first leaving again decode, and compacted exceed the limit. |
| `VoiceQueue.CompactionSpares` | native/darktide-realms/src/realms_voice.cpp:396-433 | In any full room, a speaker who joins and leaves exceeds the limit, and compacted does not. |
| `VoiceQueue.CompactionMatters` | native/darktide-realms/src/realms_voice.cpp:396-433 | Both happen in a room of 24, the limit that the runtime uses. |
| `VoiceQueue.NewcomersOnly` | native/darktide-realms/src/realms_voice.cpp:396-433 | If nobody who was there at the start leaves, a compacted batch exceeds the limit only if the full batch does. |
| `VoiceQueue.BatchDecodes` | native/darktide-realms/src/realms_voice.cpp:396-487 | With room for everybody, what the worker decodes after any run of enqueues is the packets one by one less the dropped ones. |
| `LogRing.CaptureQueue.CopyIn` | native/dt-cli/runtime/log_capture_windows.c:42-53 | The two copies append the bytes to the contents across the wrap. |
| `LogRing.CaptureQueue.CopyOut` | native/dt-cli/runtime/log_capture_windows.c:55-66 | The two copies take the oldest bytes. |
| `LogRing.CaptureQueue.CaptureBytes` | native/dt-cli/runtime/log_capture_windows.c:68-105 | A write is queued as whole records of 1 to 65536 bytes or entirely counted as dropped; it is queued whenever the lock is free and it fits. |
| `LogRing.CaptureQueue.Pop` | native/dt-cli/runtime/log_capture_windows.c:209-240 | Records come out whole and in order; -1 exactly for a record longer than the buffer, so never with 64 KiB, and it takes the record's length prefix and nothing else. |
| `LogLines.Splitter.Consume` | native/dt-cli/runtime/logs.go:212-239 | After any chunk the emitted lines are those of the whole stream so far: cut and marked beyond 64 KiB, otherwise without one trailing carriage return. |
| `LogLines.SplitChunks` | native/dt-cli/runtime/logs.go:184-239 | The lines depend only on the bytes, not on how they were cut. |
| `LogLines.RenderedIs` | native/dt-cli/runtime/logs.go:212-239 | A line is its body less one carriage return; beyond 64 KiB it is the first 64 KiB and the mark. |
| `LogLines.BodiesAreTheStream` | native/dt-cli/runtime/logs.go:212-239 | The reference splitting loses nothing but newlines. |
| `LogHub.Hub.Append` | native/dt-cli/runtime/logs.go:51-69 | The history is the newest lines, numbered without gaps, within both limits; the new line stays and nothing is evicted that the limits would allow. |
| `LogHub.Hub.Snapshot` | native/dt-cli/runtime/logs.go:87-98 | The last lines asked for, and the next sequence. |
| `LogHub.Hub.After` | native/dt-cli/runtime/logs.go:100-119 | Exactly the kept lines from the cursor on. |
| `LogHub.Follower.Poll` | native/dt-cli/runtime/logs.go:281-311 | Lines written and gaps reported cover every sequence from the start exactly once and in order, and the follower has caught up. |
| `LogHub.AppendWhileFollowed` | native/dt-cli/runtime/logs.go:51-69 | Appending, with its evictions, keeps every follower's account true. |
| `RelayTable.StepKeeps` | native/darktide-realms/src/realms_relay.cpp:187-329 | Packets, commands, reaping and socket errors keep peers, sockets and endpoints distinct, and live sockets exactly those of occupied slots. |
| `RelayTable.RunKeeps` | native/darktide-realms/src/realms_relay.cpp:356-424 | So they are in every reachable table. |
| `RelayTable.ReceiveIs` | native/darktide-realms/src/realms_relay.cpp:246-329 | The exact outcome of a packet: it goes to the peer at its endpoint unless its header names another peer connectionlessly; from an unknown endpoint to the peer or connection that it names, who has moved there; else, if it is connectionless and a socket was made, to a new peer in a free slot. It is rejected if and only if it would need a slot and all are taken. |
| `RelayTable.ForwardsToTheRightPeer` | native/darktide-realms/src/realms_relay.cpp:255-329 | A forwarded packet goes to the peer at its endpoint that its header names; an occupied slot keeps its peer, socket, age and adoption, and no other slot changes. |
| `RelayTable.OthersChangeNothing` | native/darktide-realms/src/realms_relay.cpp:255-329 | A packet that is not forwarded changes nothing. |
| `RelayTable.RejectedWhenFull` | native/darktide-realms/src/realms_relay.cpp:246-253 | A peer is turned away only when all slots are taken. |
| `RelayTable.ReapIsExact` | native/darktide-realms/src/realms_relay.cpp:215-222 | The timer clears exactly the idle unadopted peers. |
| `RelayTable.ObeyIsExact` | native/darktide-realms/src/realms_relay.cpp:194-213 | A command reaches the peer it names and no other slot. |
| `RelayTable.AdoptedStep` | native/darktide-realms/src/realms_relay.cpp:187-329 | A step clears an adopted peer's slot if and only if it is that peer's release or an error of its game socket; otherwise the peer keeps its slot and socket. |
| `RelayTable.AdoptedStays` | native/darktide-realms/src/realms_relay.cpp:356-424 | So through any run without such a step the peer keeps its slot and game socket. |
| `RelayTable.Relay.ReapUnadopted` | native/darktide-realms/src/realms_relay.cpp:215-222 | The in-place loop equals the specification. |
| `RelayTable.Relay.ReceivePacket` | native/darktide-realms/src/realms_relay.cpp:255-329 | The in-place code equals the specification, outcome included, and so does exactly what `ReceiveIs` says. |
| `RelayTable.Relay.ProcessCommand` | native/darktide-realms/src/realms_relay.cpp:194-213 | Equals the specification. |

## Left out

- Engine locators, instruction decoding, hooks, patches, Win32, D3D12, WASAPI, Opus, WebRTC and FFmpeg internals: calls into code that cannot be seen are parameters or abstract answers.
- Parsing shader text into a module (native/darktide-good-old-outlines/src/shader_ir.cpp:11-173): character scanning, with no state beyond the tables it fills.
- Reflection names under a key that is not a node number: the code also stores a name for an inline list or plain field, under a key that no node has.
- ShaderSoundness.InstructionsSound: asks that type bodies begin with text and name only types, as a disassembler prints them; `ClosedTypesMatter` shows why.
- VoiceQueue.CompactionPreservesWhen: one clock reading decides which packets of the batch have expired.
- VoiceRing.StepKeeps: does not model 64-bit index wrap-around, which takes 2^64 elements.
- BinaryLink.EndToEnd: one direction of one connection; the other direction and other channels are independent but for the budgets, which appear as answers. Detaching the sender and attaching it anew while the receiver is assembling a message is not a step.
- AudioCacheObject.SharedCache.ReserveWithEviction: its loop is run by itself; what other threads do between its critical sections is in the runs of AudioCache.
- PcmDecode.PlayOnce: the voice queue and buffer reclaiming are not modelled; a failed submission ends the playback.
- Transient copies made by reallocation are not counted as allocated memory.
- The outgoing voice packets, capture streams and mixing (native/darktide-realms/src/realms_voice.cpp:335-394, 456-469): numeric processing around the same ring.
- Forwarding packets from the game to the public socket, and the route decoder: the first changes no state, the second is engine code.
- Statistics, error strings and log messages.
- Asset server, registry, command line, pipes, locale, font and clipboard code: plumbing.
