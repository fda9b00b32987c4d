# Model of the ma zscheme client

`zscheme` is a client for an actor network. This project models the parts of it that keep state or
transform data, and proves what each promises:

* **The avatar** (`Avatar.dfy`, `AvatarSpec.dfy` and the proofs `AvatarProofs.dfy`, `AvatarEffects.dfy`,
  `AvatarExact.dfy`, `AvatarNames.dfy`, `AvatarCommands.dfy`, `AvatarProgress.dfy`). The zscheme
  library of an avatar keeps six globals: the held item, the cached ctx of the equipped inventory, the
  persisted inventory pointer, the pending equip, the pending drops and the pending actions. Commands and
  asynchronous `:parent` events change them while they make actor calls, any of which may raise, and a
  raise undoes nothing. `Avatars.Avatar` is that object; `AvatarSpec` says in which world and with which
  outcome each of its methods ends. The actors at the other end are an arbitrary function from the trace
  of requests so far and the next request to an answer or a failure, so every theorem covers every reply
  and every failure at every point. A world also carries the trace of requests.
* **The wire** (`Cbor.dfy`, `CborGrammar.dfy`, `Frames.dfy`). The Emacs client's own CBOR encoder and decoder (a subset of
  RFC 8949), the 32-bit length prefix, the incremental filter that reassembles frames from chunks, the
  newest-first response queue, and the Rust reader and writer of the same frames.
* **The daemon and its client** (`Daemon.dfy`, `DaemonServer.dfy`, `DaemonProofs.dfy`, `Client.dfy`).
  Connections interleave at the await points of the daemon over one evaluator lock, one display sink and
  one session environment, each with a lazily made environment of its own. The evaluator is a parameter.
* **Actor calls** (`Replies.dfy`, `Values.dfy`). Matching replies to calls by message id, and the value
  conversion between Scheme and CBOR.
* **Names, text, the room** (`Resolver.dfy`, `Stdlib.dfy`, `Prose.dfy`, `RoomCache.dfy`). Resolving a typed
  name to an actor, the list and string library this rests on, the trigger prose parser, and the cached
  room snapshot.

Code the source writes as recursion is a function here; code that updates state is a class or a method
with loops, proved to end where a specification function ends, and the promises are proved about those
functions.

## The main results

1. *Slots.* Over every run of commands and events, with any request failing anywhere: the held actor is
   never the equipped inventory; the cached ctx and the inventory pointer name the same actor; and a
   pending equip means no inventory is equipped (`AvatarProofs.RunKeepsInv`).
2. *Conservation.* Over every run, events included, a carried actor that is let go of was relocated to a room
   that had accepted it, or was lost at one of three named events (`AvatarProofs.RunAccounts`). Commands only
   ever do the first, on normal and error exits alike (`StepIsSafe`, `CommandRunConserves`), and for events the
   three cases are exact (`EventLossExact`). The exact cases in which one is gained are in
   `AvatarEffects.EventGainExact`; over every run, whatever comes to be carried was sent `child` and answered it
   (`AvatarEffects.CarriedWasAcknowledged`).
3. *Equip.* A booking survives everything that is not an end to it, and is then honoured
   (`AvatarProofs.EquipIsHonoured`); the third clause of the slot invariant is needed for it
   (`BookingBesideInventoryLosesTheContainer`).
4. *Commands.* Every command, on the words typed: when it returns it has asked the right actor about the right
   actor (`AvatarCommands.StepAchieves`), and with nothing refused it returns if and only if its words name what
   it needs (`AvatarProgress.StepReturns`). Relocation, the slot moves, the handshake and the pools of names are
   each pinned down by requests, replies and slots (`AvatarExact`, `AvatarNames`).
5. *CBOR.* The decoder reads exactly a grammar stated apart from it (`CborGrammar.DecodeExact`). Decoding undoes
   encoding anywhere in any bytes, exactly when the integers fit 64 bits and modulo 2^64 otherwise; encodings
   are prefix-free; what was decoded never re-encodes longer.
6. *Frames.* How a byte stream is cut into chunks never changes the error or the messages before it, and shows at
   all exactly when a body is refused, a whole frame follows it, and a later chunk resumes the loop
   (`Frames.ChunkingExact`, `EveryCutExact`, with a witness in `RefusedBodyShowsTheCut`). Values encoded, framed
   and cut anywhere come out as they went in; the two readers agree on every stream.
7. *Refinement.* Through any interleaving of any number of connections a client reads exactly what a
   sequential evaluator would have shown and returned for each of its sources, in order and once, at the
   position its turn has in the order (`Client.ClientSeesSequentialEvaluator`). The one exception is in the code:
   `Reset` does not take the lock, so after one lands inside a running shared eval, that eval and the shared
   evals up to the next reset outside one are not vouched for. Shared evals before and after, and all isolated
   ones, are.
8. *Replies.* Over every interleaving, a registered call is completed by the first reply drained after it
   registered, once, and by nothing else (`Replies.EveryRunCorrelates`).
9. *Exactness* of the resolver, of the prose parser, of the value conversion and of split and join.

Two places where the code and its comments differ: `read_frame` is documented to return nothing on a clean
end of stream, and returns nothing also when the stream ends inside the length prefix (`Frames.ReadersAgree`
says exactly when, `Frames.PartialPrefixEndsCleanly` gives one such stream); and the branch of the prose
parser for nested forms is never taken, because a span ends at its first `)` (`Prose.SpansNeverNest`).

## Model

| member | source | states |
|---|---|---|
| AvatarProofs.RunKeepsInv | lib/avatar.zscheme:569-608 | over every run of commands and `:parent` events, with any request failing at any point, the held actor is never the inventory, the cached ctx and the pointer agree, and a pending equip means no inventory is equipped |
| AvatarProofs.StepIsSafe | lib/avatar.zscheme:632-659 | every single step keeps that invariant however it ends; a command step relocates to the room every actor it lets go of, puts no actor in a slot, and only `drop` and `equip` ever relocate the inventory |
| AvatarProofs.RunAccounts | lib/avatar.zscheme:571-659 | over every run, events and moves between rooms included, an actor carried before and not after was accepted by a room's `drop` and sent `set-parent` to it during the run, or was lost at an event that confirms its move, overwrites a full hand or books an address that is no DID, in the world that event arrived in |
| AvatarProofs.CommandRunConserves | lib/avatar.zscheme:644-659 | over any run of commands, every actor carried before and not after was accepted by the room's `drop` and then sent `set-parent` to it, during the run |
| AvatarProofs.RelocateFacts | lib/avatar.zscheme:640-648 | a relocation that returns true, or that forgets a slot, was accepted by the room first; a raise leaves the slots; no other actor is sent `set-parent` |
| AvatarProofs.DropHeldFacts | lib/avatar.zscheme:650-659 | making room never relocates the equipped inventory, and on success the held actor has been relocated |
| AvatarProofs.SwapToHandFacts | lib/avatar.zscheme:802-807 | the tail shared by `unequip` and `equip`: raised, it changes at most the hand; done, the container is in the hand and nowhere else, itself never relocated |
| AvatarProofs.DropTargetFacts | lib/avatar.zscheme:882-887 | an explicit drop changes no slot, or forgets exactly the slots that name its target, or clears the inventory pointer that names it |
| AvatarProofs.TakeSafe | lib/avatar.zscheme:661-688 | `take`, on every exit, is conservative, keeps the invariant and spares the inventory |
| AvatarProofs.TakeFromSafe | lib/avatar.zscheme:846-855 | so is `take-from`, which also leaves a booking as it was |
| AvatarProofs.FindSafe | lib/avatar.zscheme:825-844 | so is `find` |
| AvatarProofs.ForgeSafe | lib/avatar.zscheme:511-532 | so is `forge`, which leaves a booking as it was |
| AvatarProofs.UnequipSafe | lib/avatar.zscheme:778-807 | so is `unequip`: when it returns the container is in the hand, and on no exit is it relocated |
| AvatarProofs.KeepSafe | lib/avatar.zscheme:747-776 | so is `keep`: no slot changes on any exit, only the remembered actions |
| AvatarProofs.PutSafe | lib/avatar.zscheme:945-973 | so is `put` |
| AvatarProofs.DropSafe | lib/avatar.zscheme:904-941 | `drop` in all its forms is conservative and keeps the invariant and any booking |
| AvatarProofs.EquipSafe | lib/avatar.zscheme:690-711 | `equip` in both its forms is conservative and keeps the invariant |
| AvatarProofs.EquipProposeFacts | lib/avatar.zscheme:719-745 | an `equip` that returns leaves its container booked with no inventory equipped (or was a no-op); one that raises leaves no booking, or had not yet touched the slots |
| AvatarProofs.HandleParentKeepsInv | lib/avatar.zscheme:571-608 | every `:parent` event, acknowledged or not, keeps the invariant |
| AvatarProofs.BookingNeverLosesTheContainer | lib/avatar.zscheme:576-584 | a booked container's own proposal makes exactly the `child` call; refused, no slot changes; accepted, the container is the inventory and not the held item, and no other actor leaves the hand |
| AvatarProofs.EventLossExact | lib/avatar.zscheme:571-608 | exactly when an event makes a carried actor uncarried without relocating it: the old parent's confirmation, an unsolicited proposal over a full hand, or a booking of an address that is no DID |
| AvatarProofs.BookingBesideInventoryLosesTheContainer | lib/avatar.zscheme:809-818 | without the third clause of the invariant a booking can leave its container in neither slot, unrelocated: a concrete world, event and environment |
| AvatarProofs.RunKeepsAwaiting | lib/avatar.zscheme:569-584 | a booking survives every run in which nothing ends it, including events of all other actors and refused proposals of its own |
| AvatarProofs.EquipIsHonoured | lib/avatar.zscheme:729-745 | once `equip` returned with a booking, it is still booked after any such run, and the first acknowledged proposal of the container then makes it the inventory and not the held item |
| AvatarProofs.AnEquipIsHonoured | lib/avatar.zscheme:576-584 | such a cycle exists: a concrete container is equipped, another actor's proposal passes, and its own proposal is accepted |
| AvatarProofs.RunBooksNothing | lib/avatar.zscheme:569-608 | without an `equip`, no run books anything and no inventory appears |
| AvatarProofs.TakeAndFindCancelBookings | lib/avatar.zscheme:666-668 | after `take` or `find`, however it ended, no later run without an `equip` honours an earlier booking |
| AvatarSpec.SplitCommandExact | lib/avatar.zscheme:496-509 | a command line splits into a pair exactly when the pair is what the grammar reads: the words before the first keyword, and after it, neither empty |
| AvatarEffects.ResolveInContainerExact | lib/avatar.zscheme:285-291 | a bare word names an item of a container if and only if exactly one content entry bears it as nick or, when none does, exactly one as name |
| AvatarEffects.TakeHereDone | lib/avatar.zscheme:682-688 | a `take` that returns has sent `hold` to the one actor the name resolved to, after the hand had been cleared |
| AvatarEffects.TakeOutDone | lib/avatar.zscheme:846-855 | taking out of a container has asked the container for the resolved item, after the hand had been cleared, and remembers the action id |
| AvatarEffects.FindDone | lib/avatar.zscheme:829-844 | `find` has held, with a cleared hand, an actor whose parent was the room, the avatar or the equipped inventory |
| AvatarEffects.ForgeDone | lib/avatar.zscheme:523-532 | `forge` has sent the map of kind and name to the actor the room resolves to, after the hand had been cleared |
| AvatarEffects.EquipClearsTheWay | lib/avatar.zscheme:729-745 | when `equip` sends its proposal request it has relocated everything the avatar carried but the container itself |
| AvatarEffects.UnequipDone | lib/avatar.zscheme:784-807 | `unequip` leaves the container in the hand with its cached ctx, no inventory, and what was held relocated |
| AvatarEffects.KeepDone | lib/avatar.zscheme:755-776 | `keep` has asked the held actor to put itself into the inventory and changed no slot |
| AvatarEffects.PutDone | lib/avatar.zscheme:958-973 | `put` has asked the resolved item to move into the resolved container and changed no slot |
| AvatarEffects.DropHandDone | lib/avatar.zscheme:910-917 | `drop` alone has relocated the held actor |
| AvatarEffects.DropNamedDone | lib/avatar.zscheme:926-941 | a named drop has relocated its target if a slot held it, and otherwise has asked the parent its entry names for it and noted it for dropping |
| AvatarEffects.DropOutDone | lib/avatar.zscheme:918-925 | `drop … from` has asked the container the name resolves to for the item resolved inside it, and noted it for dropping |
| AvatarEffects.PendingDropIsCompleted | lib/avatar.zscheme:585-592 | the proposal of an item noted for dropping is un-noted, and if the step succeeds was acknowledged and relocated; it never lands in a slot |
| AvatarEffects.EventGainExact | lib/avatar.zscheme:574-602 | exactly when an event puts an actor in a slot |
| AvatarEffects.CarriedWasAcknowledged | lib/avatar.zscheme:571-608 | over every run, an actor that comes to be carried was sent `child` on the way and answered |
| AvatarExact.RelocateExact | lib/avatar.zscheme:640-648 | without a room nothing is asked; the room is asked first and its refusal raises; then the actor is, and a refusal in which "unknown entity" occurs returns false and forgets it, while any other raises with the slots as they were |
| AvatarExact.ForgetExact | lib/avatar.zscheme:632-638 | a forgotten actor is in neither slot, a cached ctx goes with the pointer that named it, and no other slot changes |
| AvatarExact.DropHeldExact | lib/avatar.zscheme:655-659 | an empty hand, or one that points at the inventory, is left alone and nothing is asked; otherwise the held actor is relocated, exactly so |
| AvatarExact.DropTargetExact | lib/avatar.zscheme:885-887 | a relocation, exactly so, that also clears an inventory pointer naming the target |
| AvatarExact.BookFreeSlot | lib/avatar.zscheme:809-815 | with no other inventory equipped the slot is written and nothing is asked |
| AvatarExact.BookTakenSlot | lib/avatar.zscheme:809-815 | with another one equipped the slot is written only after that one was relocated, and a relocation that raises leaves every slot |
| AvatarExact.DisplayCtxExact | lib/avatar.zscheme:372-378 | an inventory known by its DID is shown by the name it answers, or by the DID when that is no text, "" or "(none)" |
| AvatarExact.UnequipToHandExact | lib/avatar.zscheme:820-823 | the hand holds the cached ctx, or without one the shown ctx; pointer and cache are clear; no other slot changes |
| AvatarExact.TakeThenDropExact | lib/avatar.zscheme:898-902 | the item is noted and an id answered remembered; a refusal un-notes it and raises |
| AvatarExact.SyncCarriedExact | lib/avatar.zscheme:385-395 | in a room with a DID the held actor and then the inventory are sent `here`, whatever they answer; elsewhere nothing is sent |
| AvatarExact.ConfirmationExact | lib/avatar.zscheme:603-608 | an event naming another parent asks nothing, clears the hand if it is about the held actor, and changes nothing else |
| AvatarExact.RefusedProposalExact | lib/avatar.zscheme:576-592 | a refused acknowledgement raises, and of all slots only the note to drop the actor is gone |
| AvatarExact.UnsolicitedProposalExact | lib/avatar.zscheme:593-602 | acknowledged and neither booked nor noted, the proposed ctx itself is held, or refreshes the cached ctx of the inventory; no other slot changes |
| AvatarExact.BookedProposalExact | lib/avatar.zscheme:576-584 | acknowledged and booked, the proposed ctx is the inventory, the booking is spent and the hand no longer holds it; no other slot changes |
| AvatarExact.NotedProposalExact | lib/avatar.zscheme:585-592 | acknowledged and noted, it is un-noted and relocated at once, exactly as an explicit drop would |
| AvatarNames.RoomPoolExact | lib/avatar.zscheme:166-171 | the room's children as listed, asked for once |
| AvatarNames.ContentsExact | lib/avatar.zscheme:282-283 | the container is asked `contents?` once, and lists what it answers |
| AvatarNames.InventoryPoolExact | lib/avatar.zscheme:179-186 | the container's own entry, cached or as it answers, then its contents; nothing when it is not equipped or does not answer that it is a container |
| AvatarNames.PackedExact | lib/avatar.zscheme:862-874 | of packed entries only containers are asked for their contents, in order |
| AvatarNames.DropPoolExact | lib/avatar.zscheme:862-874 | the hand, the inventory and what is packed one level down |
| AvatarNames.PoolExact | lib/avatar.zscheme:198-200 | which entries each command looks names up among |
| AvatarNames.MissRefreshes | lib/avatar.zscheme:217-230 | a word nothing matches has the room looked at once and the pool rebuilt, and then resolves exactly if one distinct actor of the new pool matches |
| AvatarNames.AmbiguityRaises | lib/avatar.zscheme:225-230 | a word several actors match raises at once and asks nothing |
| AvatarNames.ResolveReference | lib/avatar.zscheme:232-235 | a DID passes through; any other word is looked up among the hand, the room and the inventory |
| AvatarCommands.StepAchieves | lib/avatar.zscheme:511-973 | for every input, stated on the words typed: a command that returns has sent its request last, to the actor the one phrase resolves to and about the actor the other does, with the hand cleared where it must be, and changed only the slots it names |
| AvatarCommands.UnphrasedIsRefused | lib/avatar.zscheme:496-509 | words the command's grammar does not read raise at once: nothing is asked and no slot changes, but `take` has cancelled a booking |
| AvatarCommands.RaiseNamesTheCommand | lib/avatar.zscheme:616-618 | a command that raises puts what was attempted, with the names as typed, before the reason |
| AvatarProgress.StepReturns | lib/avatar.zscheme:511-973 | with a room and nothing refused, a command returns if and only if the names it is given resolve and fit it, and an event always does |
| Avatars.Avatar.constructor | lib/avatar.zscheme:346-352 | after a reload only the room and the inventory pointer survive, and the invariant holds |
| Avatars.Avatar.ForgetStaleSlots | lib/avatar.zscheme:632-638 | the slots that name the target are cleared in place, as AvatarExact.ForgetExact pins down |
| Avatars.Avatar.RelocateToRoom | lib/avatar.zscheme:644-648 | two calls with their three exits, on the fields |
| Avatars.Avatar.DropHeldToRoom | lib/avatar.zscheme:655-659 | the guarded relocation of the held item |
| Avatars.Avatar.UnequipToHand | lib/avatar.zscheme:820-823 | the slot move, with the display ctx when none is cached |
| Avatars.Avatar.BookInventory | lib/avatar.zscheme:809-815 | the previous inventory is relocated before the slot is written; a raise leaves the slot unwritten |
| Avatars.Avatar.DropTargetToRoom | lib/avatar.zscheme:885-887 | relocation and unbooking |
| Avatars.Avatar.TakeThenDrop | lib/avatar.zscheme:898-902 | the note is made before the call and withdrawn if it raises |
| Avatars.Avatar.SyncCarriedHere | lib/avatar.zscheme:385-395 | the guarded `here` announcements, in order |
| Avatars.Avatar.HandleAvatarParent | lib/avatar.zscheme:571-608 | all four branches with every raise; keeps the invariant |
| Avatars.Avatar.Take | lib/avatar.zscheme:666-688 | the booking is cleared first; ends in the world and with the outcome specified, on every exit, and is conservative |
| Avatars.Avatar.TakeFrom | lib/avatar.zscheme:846-855 | ends as specified and is conservative |
| Avatars.Avatar.EquipPropose | lib/avatar.zscheme:729-745 | ends as specified, with the booking withdrawn on every raise after it |
| Avatars.Avatar.Equip | lib/avatar.zscheme:697-711 | ends as specified and is conservative |
| Avatars.Avatar.Unequip | lib/avatar.zscheme:784-803 | ends as specified and is conservative |
| Avatars.Avatar.Keep | lib/avatar.zscheme:755-776 | ends as specified and is conservative |
| Avatars.Avatar.Put | lib/avatar.zscheme:958-973 | ends as specified and is conservative |
| Avatars.Avatar.Drop | lib/avatar.zscheme:910-941 | ends as specified and is conservative |
| Avatars.Avatar.Find | lib/avatar.zscheme:829-844 | ends as specified and is conservative |
| Avatars.Avatar.Forge | lib/avatar.zscheme:523-532 | ends as specified and is conservative |
| Avatars.Avatar.Session | lib/avatar.zscheme:569-608 | any sequence of commands and events, raises reported and passed over, ends as the specified run and keeps the invariant |
| Cbor.Decode | emacs/ma-ipc.el:129-162 | total on all bytes: it raises, or ends past its start and within the input, whatever length is announced |
| Cbor.DecodeAt | emacs/ma-ipc.el:129-162 | the imperative decoder computes `Decode` |
| Cbor.ReadItems | emacs/ma-ipc.el:143-149 | the array loop pushes exactly the items of the recursive reading, in order |
| Cbor.ReadPairs | emacs/ma-ipc.el:150-158 | the map loop likewise |
| Cbor.DecodeOfEncode | emacs/ma-ipc.el:83-162 | an encoded value standing anywhere in any bytes decodes to itself, integers modulo 2^64, ending just after it (RFC 8949 sections 3 and 3.1) |
| Cbor.RoundTripInContext | emacs/ma-ipc.el:105-162 | decoding at `\|p\|` in `p ++ encode(v) ++ s` ends after the encoding, and gives `v` if and only if all integers of `v` are in [-2^64, 2^64-1] |
| Cbor.WrapIsIdentityInRange | emacs/ma-ipc.el:83-103 | truncation to eight bytes changes a value if and only if some integer in it is out of range |
| Cbor.EncodingsArePrefixFree | emacs/ma-ipc.el:105-127 | no encoding of any value is a proper prefix of another; two values share one only if they agree modulo 2^64, so within range only if equal |
| Cbor.HeadRoundTrip | emacs/ma-ipc.el:71-103 | reading a written head gives its major type and its argument modulo 2^64 |
| Cbor.HeadIsShortest | emacs/ma-ipc.el:71-103 | the writer's head for a read argument is never longer than the head it was read from (RFC 8949 section 4.2.1) |
| Cbor.ReencodingNeverGrows | emacs/ma-ipc.el:83-162 | whatever was decoded fits 64 bits and re-encodes in no more bytes than were consumed (RFC 8949 section 4.1) |
| CborGrammar.DecodeExact | emacs/ma-ipc.el:58-162 | on any bytes, the decoder gives a value and an end if and only if that value stands between the two positions in the grammar of RFC 8949 sections 3, 3.1 and 3.3, restricted to the kinds the code supports |
| CborGrammar.EncodingStands | emacs/ma-ipc.el:83-127 | the encoding of a value is, from its first byte to its last, that value in the grammar, integers modulo 2^64 |
| CborGrammar.HeadExact | emacs/ma-ipc.el:58-81 | a head is read exactly where the grammar has one, its argument big-endian |
| CborGrammar.StandardNumbers | emacs/ma-ipc.el:83-114 | integers of RFC 8949 appendix A encode to the bytes given there |
| CborGrammar.StandardItems | emacs/ma-ipc.el:105-127 | so do its empty and small texts, arrays and maps of integers |
| Frames.DrainAppend | emacs/ma-ipc.el:250-261 | more bytes continue a clean run of the filter, and leave a stopped run's messages and error as they were |
| Frames.ChunkingExact | emacs/ma-ipc.el:250-261 | cutting a stream never changes the error nor the messages before it, and changes anything at all if and only if a body is refused, a whole frame follows it in the stream, and a chunk comes after the one that brought the refused body |
| Frames.EveryCutExact | emacs/ma-ipc.el:250-261 | every cut of a stream is invisible if and only if no body of it is refused before a whole frame; an oversized prefix never shows |
| Frames.RefusedBodyShowsTheCut | emacs/ma-ipc.el:250-261 | a concrete stream, a refused CBOR body before a good one, that yields nothing as one chunk and the good message as two |
| Frames.FramesSurviveChunking | emacs/ma-ipc.el:240-261 | framed bodies of at most 16 MiB, cut anywhere, arrive in order and leave an empty buffer |
| Frames.ValuesSurviveTheWire | emacs/ma-ipc.el:105-261 | values encoded, framed, concatenated and cut anywhere come out of the filter as they went in |
| Frames.ReadersAgree | src/ipc.rs:217-236 | on every byte stream the Rust reader takes the messages the filter takes, and ends cleanly exactly when the filter has no error and at most a partial length prefix left |
| Frames.ReadAllStream | src/ipc.rs:211-236 | the Rust reader takes framed bodies back in order and then meets the end of the stream |
| Frames.PartialPrefixEndsCleanly | src/ipc.rs:222-227 | on a stream of one byte the Rust reader ends cleanly with that byte left over, where its documentation speaks of a clean end of the stream |
| Frames.FrameExact | emacs/ma-ipc.el:240-248 | the Emacs writer refuses exactly the bodies over 16 MiB, which both readers would refuse; what it writes is four bytes that spell the length and the body, and is read back as that body |
| Frames.OversizedIsRefused | src/ipc.rs:228-231 | a prefix that spells more than 16 MiB is refused by both readers at once, whatever follows |
| Frames.ByteWriter.WriteFrame | src/ipc.rs:195-209 | appends prefix and body when the length fits a `u32`, and otherwise fails and writes nothing |
| Frames.ByteReader.ReadExact | src/ipc.rs:222-233 | takes exactly the next bytes, or reports that the stream ended |
| Frames.ByteReader.ReadFrame | src/ipc.rs:217-236 | one frame, the end or an error, and leaves the reader just after the frame |
| Frames.Connection.ProcessFilter | emacs/ma-ipc.el:250-261 | the in-place loop drains the buffer, and queues the messages in arrival order |
| Frames.FirstMatchExact | emacs/ma-ipc.el:328-335 | one pass finds a frame if and only if one is wanted, takes the earliest, and keeps every other once and in order |
| Frames.PopTakesEarliest | emacs/ma-ipc.el:324-337 | over any number of passes with frames arriving between them, the earliest arrived match is taken as soon as there is one, and nothing is lost, repeated or reordered |
| Frames.Connection.PopResponse | emacs/ma-ipc.el:324-337 | the double-reversing loop on the newest-first list does that, for a predicate without side effects |
| DaemonProofs.ReachableIsGood | src/daemon.rs:178-255 | in every reachable world: mutual exclusion, sink ownership, responses in request order, environments folding over the lock order |
| DaemonProofs.ActionKeepsGood | src/daemon.rs:200-312 | every action at an await point keeps all of it |
| DaemonProofs.OneEvalOneSink | src/daemon.rs:280-307 | at most one eval runs; a sink is set exactly while one does and names its connection and request id |
| DaemonProofs.EmitOwn | src/daemon.rs:284-290 | a display goes to the connection and request that evaluates, although it is sent wherever the global sink points |
| DaemonProofs.FinishKeepsGood | src/daemon.rs:292-312 | the end of an eval extends the order by one turn that did what the sequential evaluator does, wherever its environment is vouched for |
| DaemonProofs.AcquireKeepsGood | src/daemon.rs:280-303 | an eval starts in the environment its connection's own isolated evals, or all shared evals, left |
| DaemonProofs.ReadKeepsGood | src/daemon.rs:200-236 | the requests handled outside the lock keep it too; a `Reset` among them tears the shared environment exactly when a shared eval is running, until the next one that finds none |
| DaemonProofs.ReadAnswers | src/daemon.rs:200-250 | each request is answered with one response of its kind on its own channel: the version, and for a dump the session environment as the evals before it left it; an eval only starts to wait |
| DaemonProofs.IsolatedStartsWhereOwnEnded | src/daemon.rs:292-303 | a connection's isolated eval starts in a root environment if it is its first, and otherwise in what its own previous one left |
| DaemonProofs.SharedStartsWhereLastEnded | src/daemon.rs:292-303 | a shared eval starts in the session environment if nothing shared came before it or a reset came last, and otherwise in what the last shared eval left |
| DaemonProofs.ClosedStaysClosed | src/daemon.rs:219-222 | after `Stop` a connection is served and sent nothing more, over any run |
| DaemonServer.Server.HandleConn | src/daemon.rs:200-250 | one turn of the request loop, on the daemon's fields |
| DaemonServer.Server.BeginEval | src/daemon.rs:280-303 | lock, sink and lazily made isolated environment, in place |
| DaemonServer.Server.DisplayText | src/daemon.rs:284-290 | a display sent to whatever the sink names |
| DaemonServer.Server.FinishEval | src/daemon.rs:292-312 | environment kept, sink cleared, lock released, result sent |
| DaemonServer.Server.Serve | src/daemon.rs:178-312 | any possible schedule, from any world with the invariant, ends where the model's run ends and keeps the invariant |
| Client.ClientSeesSequentialEvaluator | src/client.rs:110-140 | for any interleaving and any prefix of responses received, the n-th completed eval printed exactly the displays, in order and once, and returned exactly the outcome, of the n-th turn of its connection in the order, which evaluated its n-th source; and that is what a sequential evaluator does after the turns before it, unless the turn used a shared environment torn by a reset inside an eval and not reset since |
| Client.PositionExact | src/daemon.rs:200-250 | the position named for a connection's n-th turn holds that turn, with n turns of the connection before it |
| Client.ScriptSession | src/client.rs:110-140 | a connection's whole response stream reads back as exactly its evals, in order, each on its own source |
| Client.PrefixOfScript | src/client.rs:110-140 | a prefix of the stream reads back as a prefix of them |
| Client.SessionOfRendered | src/client.rs:122-140 | the response loop undoes the rendering of numbered evals |
| Client.SessionPrefix | src/client.rs:122-140 | what has been read stays read as more arrives |
| Client.ForeignFramesAreSkipped | src/client.rs:122-140 | a frame of another id or kind, wherever it arrives, changes neither what is printed nor the outcome |
| Client.DanglingExact | src/client.rs:131-134 | the last text that is not empty decides whether the cursor is left inside a line |
| Client.ResponsesFollowRequests | src/daemon.rs:200-250 | on any connection requests are answered in the order sent, with exactly one `EvalResult` for each finished eval, in that order |
| Client.DaemonClient.Hello | src/client.rs:79-97 | succeeds exactly on the acknowledgement of its own version |
| Client.DaemonClient.Eval | src/client.rs:110-140 | allocates the next id, prints and returns what the stream holds for that id, and tracks the dangling line |
| Client.DaemonClient.EvalAll | src/client.rs:110-140 | one eval after another returns the outcomes and prints the texts of the session on the stream, and the texts of the eval the stream cuts short |
| Client.PrintedIsSession | src/client.rs:122-140 | what a number of evals print is the texts of the completed ones, in order, then what an unfinished one had shown |
| Replies.EveryRunCorrelates | src/context.rs:112-152 | over every interleaving of sends, registrations, arrivals and polls, a registered id is in the table while unanswered since it registered, and otherwise completed with the first reply drained since |
| Replies.StepKeepsCorrelated | src/context.rs:112-152 | every single action keeps that |
| Replies.CompletesAtMostOnce | src/context.rs:133-152 | a completion is never revised and its id never returns to the table |
| Replies.DrainedOnce | src/context.rs:133-152 | over any run what has been drained and what is still in the inbox is exactly what arrived, in order and once each; a poll leaves the inbox empty |
| Replies.EarlyReplyIsDropped | src/context.rs:118-125 | a reply drained between sending and registering is lost: the call waits for another |
| Replies.ReplyTable.RegisterReplySender | src/context.rs:212-218 | the id enters the table, at this point of the history |
| Replies.ReplyTable.PollReplies | src/context.rs:133-152 | the draining loop routes every message, in order, and keeps the correlation |
| Values.RoundTripExact | src/context.rs:403-459 | a value survives the trip to CBOR and back if and only if no procedure is anywhere inside it |
| Values.DecodeNormalises | src/context.rs:403-459 | whatever CBOR came in, what it decodes to survives every further trip |
| Values.LastWriteWins | src/context.rs:423-459 | an all-text-key map decodes to the key-ordered map in which each key has the value of its last pair |
| Values.NonTextKeyMakesPairList | src/context.rs:423-459 | a map decodes to a list if and only if some key is not text, and then to all its pairs in order |
| Values.MapOrList | src/context.rs:423-459 | the map-building loop computes that |
| Values.DecodeReplyExact | src/context.rs:461-496 | a reply fails exactly when it is an array headed `:error`, with its second element if that is text and the lossy payload otherwise; an `:ok` array gives its second element or, bare, ":ok"; any other CBOR gives its value, and bytes that are no CBOR their text |
| Values.ReplyRoundTrip | src/context.rs:403-496 | a call gets back the value put in an `:ok` and the reason put in an `:error` |
| Values.SchemeKinds | src/context.rs:403-421 | which kind of CBOR each kind of value becomes, lists and maps element by element in order |
| Values.CborKinds | src/context.rs:423-459 | which kind of value each kind of CBOR becomes; an integer beyond 64 bits becomes the text that spells it in decimal |
| Values.LessExact | src/context.rs:434-455 | map keys are in string order: by the first character that differs, a prefix first |
| Values.InsertKeepsSorted | src/context.rs:423-459 | inserting keeps the map in key order and adds nothing else |
| Values.LookupOfInsert | src/context.rs:423-459 | an insert changes what its own key maps to and no other |
| Resolver.PiecesAreDelimited | lib/runtime.zscheme:88-107 | the words of a text are exactly the space-free strings that stand in it with a space or an end on either side |
| Resolver.NameMatchesExact | lib/runtime.zscheme:98-107 | a name matches exactly when the query has a word and for every word of it some whole word of the value is the same letter by letter, up to the case of the 26 letters |
| Resolver.DowncaseExact | lib/runtime.zscheme:98-107 | two texts are down-cased alike if and only if they are equal up to that case, so letters that differ otherwise stay apart |
| Resolver.CaseIsIgnored | lib/runtime.zscheme:98-107 | queries, and values, equal up to case match alike |
| Resolver.ResolveRefExact | lib/runtime.zscheme:113-148 | the candidates are duplicate-free and are exactly the actors of pool entries that match every query word in name, nick or description |
| Resolver.ResolveOneExact | lib/avatar.zscheme:205-211 | a bare word resolves if and only if exactly one distinct actor matches, and to that actor; it is a no-match error if and only if none does |
| Resolver.ResolveOneIgnoresPoolOrder | lib/avatar.zscheme:205-211 | the chosen actor and the kind of failure depend on which entries the pool holds, not on order or repeats |
| Resolver.ResolveOneIgnoresCase | lib/avatar.zscheme:205-211 | a query finds the same actor, or fails, however its letters are cased |
| Resolver.ResolveDid | lib/avatar.zscheme:205-207 | a word that starts with "did:ma:" resolves to itself, as the pool's first entry for it if there is one |
| Resolver.FirstMatchingKeyDecides | lib/runtime.zscheme:113-121 | of keys in order of preference, the first that anything matches decides: the candidates are exactly its matches |
| Resolver.FindEntryByActor | lib/runtime.zscheme:76-81 | finds an entry of the actor if and only if the pool has one |
| Resolver.CandidateForDidExact | lib/runtime.zscheme:83-86 | the first entry of the pool for that actor, and a bare one exactly when the pool has none |
| Stdlib.StringIndexIsFirst | lib/stdlib.zscheme:152-163 | the search that splitting rests on finds an occurrence whenever there is one, and the first |
| Stdlib.JoinOfSplit | lib/stdlib.zscheme:155-172 | for a non-empty delimiter, joining a split gives the text back and no piece contains the delimiter |
| Stdlib.SplitOfJoin | lib/stdlib.zscheme:155-172 | for a one-character delimiter, splitting a join of delimiter-free pieces gives the pieces back |
| Stdlib.SplitAccumulates | lib/stdlib.zscheme:155-163 | the accumulating loop adds exactly the split of what is left |
| Stdlib.UniqueListExact | lib/stdlib.zscheme:233-243 | no repeats, and the same members |
| Stdlib.UniqueListKeepsLast | lib/stdlib.zscheme:238-243 | the last occurrence of each value stays: appending a value moves it to the end |
| Stdlib.FilterMembers | lib/stdlib.zscheme:98-101 | exactly the members that pass |
| Stdlib.FilterAppend | lib/stdlib.zscheme:98-101 | filtering works piece by piece, so it keeps order and repeats |
| Stdlib.MapPointwise | lib/stdlib.zscheme:93-96 | element by element, in order |
| Stdlib.FlattenSplices | lib/stdlib.zscheme:87-91 | at every nesting, a list inside a list flattens as its elements in its place, and the pieces of a list flatten in order |
| Stdlib.CutExact | lib/stdlib.zscheme:155-163 | the two substrings a split takes rejoin to the text, the first without the delimiter; there are none exactly when the text has no delimiter |
| Prose.ProseExact | lib/avatar.zscheme:1068-1105 | for every text and parts list: the text parses to the list if and only if the list is canonical and prints as the text |
| Prose.FormExact | lib/avatar.zscheme:1085-1092 | a span without `)` reads as a form if and only if the form is canonical and prints as the span |
| Prose.ArgExact | lib/avatar.zscheme:1094-1105 | a token reads as a term if and only if the term is canonical and prints as the token |
| Prose.LoopAccumulates | lib/avatar.zscheme:1068-1083 | the accumulating loop ends on every text, with its accumulator ahead of what the rest parses to |
| Prose.SpansNeverNest | lib/avatar.zscheme:1085-1105 | no text parses to a form inside a form |
| RoomCache.CacheFollowsLastWord | lib/events.zscheme:98-141 | after the latest snapshot, an actor is cached as the last event about it says |
| RoomCache.CacheKeepsSnapshot | lib/events.zscheme:98-141 | an actor not mentioned since is cached as the snapshot had it |
| RoomCache.NoSnapshotNoCache | lib/events.zscheme:98-112 | the cache is empty exactly while no snapshot has been installed |
| RoomCache.EventsCommute | lib/events.zscheme:98-127 | repeated child events are idempotent and child events of different actors commute |
| RoomCache.Cache.RememberRoom | lib/avatar.zscheme:25-28 | a map replaces the snapshot, anything else leaves it |
| RoomCache.Cache.RoomChildUpsert | lib/events.zscheme:98-104 | the child's key is set, if there is a snapshot |
| RoomCache.Cache.RoomChildRemove | lib/events.zscheme:106-112 | the child's key is removed, if there is a snapshot |

## Left out

- The evaluator, the tokenizer, the environment dump and the dot-command grammar belong to another crate; an eval is a parameter: displays, an outcome and a next environment from a source, an environment and the network's answers.
- An eval changes its environment when it finishes, so what `DumpEnv` shows inside a running shared eval is not modelled, and nothing is claimed for a shared eval into which a `Reset` lands or for the shared evals after it up to the next `Reset` outside one.
- Which waiter wins the evaluator lock: any may, where tokio's lock is first come, first served; the theorems hold for every choice.
- The daemon's tasks, channels and streams as objects: a connection's task is a value in the daemon's table, its channel the list of responses sent, and a broken stream is a connection that takes no further action. `HelloAck` carries no DID, and a version mismatch is only logged.
- Daemon takeover, the session image, sockets, spawning, signals, DID publishing, Kubo and IPFS, and all of `src/main.rs`.
- The line accumulator of `src/repl.rs`: its depth count comes from the tokenizer crate.
- Exactly-once display in Emacs: the predicate of `ma-ipc-eval` has a side effect; the queue theorems are for predicates without one. The conversion of decoded bodies to responses (`ma-ipc--response`) is a parameter, and the deadline of a pop is where the chunks run out.
- UTF-8, floats and byte strings are opaque values with equality; `string-downcase` is modelled on ASCII letters.
- AvatarProofs.StepIsSafe: conservation of a single step is for commands; an unsolicited proposal with a full hand overwrites the slot in the source, and EventLossExact says exactly when.
- AvatarProofs.TakeAndFindCancelBookings: `take-from` does not cancel a booking in the source, so it is not among the commands that do; a stale note of a pending drop is withdrawn only by a synchronous refusal, and no more is claimed.
- Every ctx is taken to carry a string "actor", and only this library to write `.my.ctx.inv`; a ctx without an actor, which the source ignores, is not modelled.
- The room pool seen by the avatar, its children and exits, is one answer of the environment, cached or fetched, so RoomCache is proved on its own and not composed with the resolver; a snapshot without children counts as one with none.
- Replies.EveryRunCorrelates: message ids are unique, as the protocol makes them; a cancelled receiver is not modelled.
- Error texts: an ambiguity error does not list its candidates.
- What commands print, `look`, `help`, `inv`, movement, digging, triggers beyond their prose, locks, `give`, `claim`, `recycle`, `roll-call`, `head-n` and `tail-n`.
- Remote actors' own rules: locks, admission and commits are answers of the environment.
