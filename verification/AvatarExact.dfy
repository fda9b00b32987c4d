/**
 Every step of the avatar pinned down by what is asked of whom, what is answered, and what each slot then
 holds, and not by the function that computes it.
 */
module AvatarExact {
  import opened Wrappers
  import opened Resolver
  import opened AvatarSpec
  import opened AvatarProofs
  import Stdlib

  /** The trace after one more request. */
  function Then(env: Env, log: seq<Event>, request: Request): seq<Event> {
    log + [Event(request, env(log, request))]
  }

  predicate Occurs(text: string, part: string) {
    exists i: nat | i <= |text| :: Stdlib.OccursAt(text, part, i)
  }

  lemma ContainsExact(text: string, part: string)
    ensures Stdlib.StringContains(text, part) <==> Occurs(text, part)
  {
    if Stdlib.StringContains(text, part) {
      assert Stdlib.OccursAt(text, part, Stdlib.StringIndex(text, part).value);
    }
    if i: nat :| i <= |text| && Stdlib.OccursAt(text, part, i) {
      Stdlib.StringIndexIsFirst(text, part, i);
    }
  }

  // ── Relocation and vanished actors ────────────────────────────────────────

  /** `target` is in neither slot, a cached ctx is gone with the pointer that named it, and nothing else changed. */
  predicate Forgotten(s: Slots, s': Slots, target: string) {
    && !Holds(s', target) && MyInv(s') != Some(target)
    && s'.held == (if Holds(s, target) then None else s.held)
    && (if MyInv(s) == Some(target) then s'.inv.None? && s'.invEntry.None?
        else s'.inv == s.inv && s'.invEntry == s.invEntry)
    && s'.equipPending == s.equipPending
    && s'.dropPending == s.dropPending && s'.pendingActions == s.pendingActions
  }

  lemma ForgetExact(s: Slots, target: string)
    ensures Forgotten(s, Forget(s, target), target)
  {
  }

  /** A relocation of `target`, step by step: without a room nothing is asked; the room is asked first and its
      refusal ends it; then the actor is asked, and a refusal that says "unknown entity" forgets it while any
      other raises with the slots as they were. `moved` are the slots when the actor agrees. */
  predicate Moves<T>(env: Env, w: World, target: string, r: Step<T>, moved: Slots) {
    match w.room
    case None => r.Raised? && r.w == w
    case Some(room) =>
      var drop, move := Call(room, "drop", [Text(target)]), Call(target, "set-parent", [Text(room)]);
      var asked := Then(env, w.log, drop);
      match env(w.log, drop)
      case Fail(m) => r.Raised? && r.error == m && r.w == w.(log := asked)
      case Answer(_) =>
        && r.w == w.(log := Then(env, asked, move), slots := r.w.slots)
        && match env(asked, move)
           case Answer(_) => r.Done? && r.w.slots == moved
           case Fail(m) =>
             if Occurs(m, "unknown entity") then r.Done? && Forgotten(w.slots, r.w.slots, target)
             else r.Raised? && r.error == m && r.w.slots == w.slots
  }

  lemma RelocateExact(env: Env, w: World, target: string)
    ensures Moves(env, w, target, Relocate(env, w, target), w.slots)
    ensures Relocate(env, w, target).Done? ==>
              (Relocate(env, w, target).value <==> Relocate(env, w, target).w.log[|w.log| + 1].reply.Answer?)
  {
    ForgetExact(w.slots, target);
    if w.room.Some? {
      var asked := Then(env, w.log, Call(w.room.value, "drop", [Text(target)]));
      var answer := env(asked, Call(target, "set-parent", [Text(w.room.value)]));
      if answer.Fail? {
        ContainsExact(answer.message, "unknown entity");
      }
    }
  }

  /** Making room relocates the held actor, unless the hand is empty or points at the equipped inventory. */
  lemma DropHeldExact(env: Env, w: World)
    ensures w.slots.held.None? || MyInv(w.slots) == Some(w.slots.held.value.actor) ==>
              DropHeld(env, w) == Done(w, ())
    ensures w.slots.held.Some? && MyInv(w.slots) != Some(w.slots.held.value.actor) ==>
              Moves(env, w, w.slots.held.value.actor, DropHeld(env, w), w.slots)
  {
    if w.slots.held.Some? {
      RelocateExact(env, w, w.slots.held.value.actor);
    }
  }

  /** An explicit drop is a relocation that also clears an inventory pointer naming the target. */
  lemma DropTargetExact(env: Env, w: World, target: string)
    ensures Moves(env, w, target, DropTarget(env, w, target),
                  if MyInv(w.slots) == Some(target) then w.slots.(inv := None) else w.slots)
  {
    RelocateExact(env, w, target);
  }

  /** With no other inventory equipped the slot is written, and nothing is asked. */
  lemma BookFreeSlot(env: Env, w: World, did: string, ctx: Ctx)
    requires MyInv(w.slots).None? || MyInv(w.slots) == Some(did)
    ensures BookInventory(env, w, did, ctx) == Done(w.(slots := w.slots.(invEntry := Some(ctx), inv := Some(did))), ())
  {
  }

  /** Otherwise the slot is written only after the equipped inventory has been relocated; a relocation that
      raises leaves every slot. */
  lemma BookTakenSlot(env: Env, w: World, did: string, ctx: Ctx, worn: string)
    requires MyInv(w.slots) == Some(worn) && worn != did
    ensures var (r, first) := (BookInventory(env, w, did, ctx), Relocate(env, w, worn));
            && r.w.log == first.w.log && (r.Done? <==> first.Done?)
            && (r.Raised? ==> r.w.slots == w.slots)
            && (r.Done? ==>
                  && Relocated(r.w, |w.log|, worn)
                  && r.w.slots == w.slots.(held := r.w.slots.held, invEntry := Some(ctx), inv := Some(did))
                  && (r.w.slots.held == w.slots.held || (r.w.slots.held.None? && Holds(w.slots, worn))))
  {
    RelocateFacts(env, w, worn);
    var first := Relocate(env, w, worn);
    if first.Done? {
      RelocatedLater(first.w, BookInventory(env, w, did, ctx).w, |w.log|, |w.log|, worn);
    }
  }

  // ── Slot moves without a relocation ───────────────────────────────────────

  /** The ctx shown for an inventory known only by its DID: its own answer to `name` if that is a proper text,
      and otherwise the DID. */
  predicate ShowsAs(reply: Reply, inventory: string, ctx: Ctx) {
    && ctx.actor == inventory && ctx.parent.None? && ctx.nick.None? && ctx.description.None? && ctx.kind == ""
    && match reply
       case Answer(Text(name)) => ctx.name == Some(if name == "" || name == "(none)" then inventory else name)
       case _ => ctx.name == Some(inventory)
  }

  lemma DisplayCtxExact(env: Env, w: World, inventory: string)
    ensures var (w', ctx) := DisplayCtx(env, w, inventory);
            var ask := Call(inventory, "name", []);
            w' == w.(log := Then(env, w.log, ask)) && ShowsAs(env(w.log, ask), inventory, ctx)
  {
  }

  /** The container moves to the hand with its cached ctx, or, without one, as it answers for itself. */
  lemma UnequipToHandExact(env: Env, w: World, inventory: string)
    ensures var w' := UnequipToHand(env, w, inventory);
            var ask := Call(inventory, "name", []);
            && w'.slots == w.slots.(held := w'.slots.held, invEntry := None, inv := None)
            && w'.slots.held.Some?
            && if w.slots.invEntry.Some? then w'.log == w.log && w'.slots.held == w.slots.invEntry
               else w'.log == Then(env, w.log, ask) && ShowsAs(env(w.log, ask), inventory, w'.slots.held.value)
  {
  }

  /** The ids of started actions: a text reply adds one. */
  function Remembering(ids: set<string>, reply: Reply): set<string> {
    match reply
    case Answer(Text(id)) => ids + {id}
    case _ => ids
  }

  /** The item is noted while its container is asked for it, and un-noted if that is refused. */
  lemma TakeThenDropExact(env: Env, w: World, container: string, item: string)
    ensures var r := TakeThenDrop(env, w, container, item);
            var ask := Call(container, "take", [Text(item)]);
            && r.w == w.(log := Then(env, w.log, ask), slots := r.w.slots)
            && match env(w.log, ask)
               case Fail(m) =>
                 && r.Raised? && r.error == m
                 && r.w.slots == w.slots.(dropPending := w.slots.dropPending - {item})
               case Answer(_) =>
                 && r.Done?
                 && r.w.slots == w.slots.(dropPending := w.slots.dropPending + {item},
                                          pendingActions := Remembering(w.slots.pendingActions, env(w.log, ask)))
  {
    assert w.slots.dropPending + {item} - {item} == w.slots.dropPending - {item};
  }

  /** In a room with a DID, the held actor and then the inventory are told where they are, whatever they answer;
      elsewhere nobody is. */
  lemma SyncCarriedExact(env: Env, w: World)
    ensures var w' := SyncCarried(env, w);
            && w' == w.(log := w'.log)
            && match w.room
               case None => w'.log == w.log
               case Some(room) =>
                 if !StartsWithDid(room) then w'.log == w.log
                 else
                   var told := match w.slots.held
                     case Some(held) => Then(env, w.log, Call(held.actor, "here", [Text(room)]))
                     case None => w.log;
                   w'.log == match MyInv(w.slots)
                     case Some(inventory) => Then(env, told, Call(inventory, "here", [Text(room)]))
                     case None => told
  {
  }

  // ── The handshake ─────────────────────────────────────────────────────────

  /** The ctx names us as its actor's new parent; one without a parent counts as naming "". */
  predicate Own(w: World, ctx: Ctx) {
    ctx.parent == Some(w.self) || (ctx.parent.None? && w.self == "")
  }

  /** An event that names another parent asks nothing; it clears the hand if it is about the held actor, and
      changes nothing else. */
  lemma ConfirmationExact(env: Env, w: World, ctx: Ctx)
    requires !Own(w, ctx)
    ensures HandleParent(env, w, ctx) ==
            Done(w.(slots := w.slots.(held := if Holds(w.slots, ctx.actor) then None else w.slots.held)), ())
  {
  }

  /** An own proposal is acknowledged with its ctx. A refused acknowledgement raises, and of the slots only the
      note that the actor is to be dropped is gone. */
  lemma RefusedProposalExact(env: Env, w: World, ctx: Ctx)
    requires Own(w, ctx) && env(w.log, Call(ctx.actor, "child", [OneCtx(ctx)])).Fail?
    ensures var r := HandleParent(env, w, ctx);
            var ack := Call(ctx.actor, "child", [OneCtx(ctx)]);
            && r.Raised? && r.error == env(w.log, ack).message
            && r.w == w.(log := Then(env, w.log, ack), slots := r.w.slots)
            && r.w.slots == if w.slots.equipPending == Some(ctx.actor) then w.slots
                            else w.slots.(dropPending := w.slots.dropPending - {ctx.actor})
  {
  }

  /** Acknowledged, and neither booked nor noted for dropping, it is held as proposed; or, already the inventory,
      it refreshes the cached ctx. Nothing else changes. */
  lemma UnsolicitedProposalExact(env: Env, w: World, ctx: Ctx)
    requires Own(w, ctx) && env(w.log, Call(ctx.actor, "child", [OneCtx(ctx)])).Answer?
    requires w.slots.equipPending != Some(ctx.actor) && ctx.actor !in w.slots.dropPending
    ensures var log := Then(env, w.log, Call(ctx.actor, "child", [OneCtx(ctx)]));
            HandleParent(env, w, ctx) ==
            Done(w.(log := log,
                    slots := if MyInv(w.slots) == Some(ctx.actor) then w.slots.(invEntry := Some(ctx))
                             else w.slots.(held := Some(ctx))), ())
  {
  }

  /** Acknowledged and booked, it becomes the inventory as proposed, and leaves the hand if it was there. */
  lemma BookedProposalExact(env: Env, w: World, ctx: Ctx)
    requires Inv(w.slots) && Own(w, ctx) && env(w.log, Call(ctx.actor, "child", [OneCtx(ctx)])).Answer?
    requires w.slots.equipPending == Some(ctx.actor)
    ensures var log := Then(env, w.log, Call(ctx.actor, "child", [OneCtx(ctx)]));
            HandleParent(env, w, ctx) ==
            Done(w.(log := log,
                    slots := w.slots.(held := if Holds(w.slots, ctx.actor) then None else w.slots.held,
                                      invEntry := Some(ctx), inv := Some(ctx.actor), equipPending := None)), ())
  {
  }

  /** Acknowledged and noted, it is un-noted and dropped at once, as an explicit drop would. */
  lemma NotedProposalExact(env: Env, w: World, ctx: Ctx)
    requires Own(w, ctx) && env(w.log, Call(ctx.actor, "child", [OneCtx(ctx)])).Answer?
    requires w.slots.equipPending != Some(ctx.actor) && ctx.actor in w.slots.dropPending
    ensures var slots := w.slots.(dropPending := w.slots.dropPending - {ctx.actor});
            var w1 := w.(log := Then(env, w.log, Call(ctx.actor, "child", [OneCtx(ctx)])), slots := slots);
            Moves(env, w1, ctx.actor, HandleParent(env, w, ctx),
                  if MyInv(slots) == Some(ctx.actor) then slots.(inv := None) else slots)
  {
    var slots := w.slots.(dropPending := w.slots.dropPending - {ctx.actor});
    var w1 := w.(log := Then(env, w.log, Call(ctx.actor, "child", [OneCtx(ctx)])), slots := slots);
    DropTargetExact(env, w1, ctx.actor);
  }
}
