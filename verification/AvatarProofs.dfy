/** Safety of the avatar's slot machine, for every environment and every run. */
module AvatarProofs {
  import opened Wrappers
  import opened Resolver
  import opened AvatarSpec

  // ── The invariant ─────────────────────────────────────────────────────────

  /** The held actor is never the equipped inventory. */
  predicate Exclusive(s: Slots) {
    s.held.Some? && MyInv(s).Some? ==> s.held.value.actor != MyInv(s).value
  }

  /** The cached ctx and the inventory pointer, when both set, name the same actor. */
  predicate Agreed(s: Slots) {
    s.invEntry.Some? && MyInv(s).Some? ==> s.invEntry.value.actor == MyInv(s).value
  }

  /** A booking awaits its proposal only while no inventory is equipped. */
  predicate Unbooked(s: Slots) {
    s.equipPending.Some? ==> MyInv(s).None?
  }

  predicate Inv(s: Slots) {
    Exclusive(s) && Agreed(s) && Unbooked(s)
  }

  // ── What a step owes the actors it lets go of ─────────────────────────────

  predicate Carried(s: Slots, a: string) {
    Holds(s, a) || MyInv(s) == Some(a)
  }

  predicate RelocationAt(log: seq<Event>, i: nat, room: string, a: string) {
    && i + 1 < |log|
    && log[i].request == Call(room, "drop", [Text(a)]) && log[i].reply.Answer?
    && log[i + 1].request == Call(a, "set-parent", [Text(room)])
  }

  /** From position `from` on, the room accepted `drop` for `a` and `a` was then sent `set-parent`. */
  ghost predicate Relocated(w: World, from: nat, a: string) {
    w.room.Some? && exists i: nat :: from <= i && RelocationAt(w.log, i, w.room.value, a)
  }

  predicate Extends(w: World, w': World) {
    w.self == w'.self && w.room == w'.room && w.log <= w'.log
  }

  ghost predicate Conserved(w: World, w': World) {
    && Extends(w, w')
    && forall a :: Carried(w.slots, a) && !Carried(w'.slots, a) ==> Relocated(w', |w.log|, a)
  }

  /** No actor `a` was sent `set-parent` between the two worlds. */
  predicate Spared(w: World, w': World, a: string) {
    && w.log <= w'.log
    && forall i | |w.log| <= i < |w'.log| ::
         !(Relocates(w'.log[i].request) && w'.log[i].request.target == a)
  }

  lemma RelocatedLater(w: World, w': World, from: nat, earlier: nat, a: string)
    requires Relocated(w, from, a) && Extends(w, w') && earlier <= from
    ensures Relocated(w', earlier, a)
  {
    var i: nat :| from <= i && RelocationAt(w.log, i, w.room.value, a);
    assert RelocationAt(w'.log, i, w'.room.value, a);
  }

  lemma ConservedTrans(w: World, w1: World, w2: World)
    requires Conserved(w, w1) && Conserved(w1, w2)
    ensures Conserved(w, w2)
  {
    forall a | Carried(w.slots, a) && !Carried(w2.slots, a)
      ensures Relocated(w2, |w.log|, a)
    {
      if Carried(w1.slots, a) {
        RelocatedLater(w2, w2, |w1.log|, |w.log|, a);
      } else {
        RelocatedLater(w1, w2, |w.log|, |w.log|, a);
      }
    }
  }

  lemma QuietTail(w: World, w1: World, w2: World)
    requires Conserved(w, w1) && Quiet(w1, w2)
    ensures Conserved(w, w2)
    ensures forall a | Spared(w, w1, a) :: Spared(w, w2, a)
  {
    ConservedTrans(w, w1, w2);
  }

  // ── Slot moves ────────────────────────────────────────────────────────────

  /** Relocation either leaves every slot or, told the actor is gone, forgets exactly that actor. */
  lemma RelocateFacts(env: Env, w: World, target: string)
    ensures var r := Relocate(env, w, target);
            && Extends(w, r.w)
            && (r.w.slots == w.slots
                || (r.w.slots == Forget(w.slots, target) && Relocated(r.w, |w.log|, target)))
            && (r.Done? ==> Relocated(r.w, |w.log|, target))
            && (r.Raised? ==> r.w.slots == w.slots)
            && (forall a | a != target :: Spared(w, r.w, a))
  {
    if w.room.Some? {
      var room := w.room.value;
      var s1 := Ask(env, w, Call(room, "drop", [Text(target)]));
      if s1.Done? {
        var s2 := Ask(env, s1.w, Call(target, "set-parent", [Text(room)]));
        assert RelocationAt(s2.w.log, |w.log|, room, target);
      }
    }
  }

  /** Making room never touches the inventory, and on success leaves no held actor unaccounted for. */
  lemma DropHeldFacts(env: Env, w: World)
    requires Exclusive(w.slots) && Agreed(w.slots)
    ensures var r := DropHeld(env, w);
            && Conserved(w, r.w)
            && (r.w.slots == w.slots || r.w.slots == w.slots.(held := None))
            && (r.Done? ==> forall a | Holds(w.slots, a) :: Relocated(r.w, |w.log|, a))
            && (MyInv(w.slots).Some? ==> Spared(w, r.w, MyInv(w.slots).value))
  {
    if w.slots.held.Some? {
      RelocateFacts(env, w, w.slots.held.value.actor);
    }
  }

  lemma SwapToHandFacts(env: Env, w: World, inventory: string)
    requires Exclusive(w.slots) && Agreed(w.slots) && MyInv(w.slots) == Some(inventory)
    ensures var r := SwapToHand(env, w, inventory);
            && Conserved(w, r.w)
            && Spared(w, r.w, inventory)
            && (r.Raised? ==> r.w.slots == w.slots || r.w.slots == w.slots.(held := None))
            && (r.Done? ==>
                  && Holds(r.w.slots, inventory)
                  && r.w.slots == w.slots.(held := r.w.slots.held, invEntry := None, inv := None))
  {
    DropHeldFacts(env, w);
    var r := DropHeld(env, w);
    if r.Done? {
      var w2 := UnequipToHand(env, r.w, inventory);
      forall a | Carried(w.slots, a) && !Carried(w2.slots, a)
        ensures Relocated(w2, |w.log|, a)
      {
        RelocatedLater(r.w, w2, |w.log|, |w.log|, a);
      }
    }
  }

  lemma DropTargetFacts(env: Env, w: World, target: string)
    requires Exclusive(w.slots) && Agreed(w.slots)
    ensures var r := DropTarget(env, w, target);
            && Conserved(w, r.w)
            && (r.w.slots == w.slots
                || r.w.slots == Forget(w.slots, target)
                || (MyInv(w.slots) == Some(target) && r.w.slots == w.slots.(inv := None)))
  {
    RelocateFacts(env, w, target);
    var s := Relocate(env, w, target);
    var r := DropTarget(env, w, target);
    forall a | Carried(w.slots, a) && !Carried(r.w.slots, a)
      ensures Relocated(r.w, |w.log|, a)
    {
      assert a == target;
      RelocatedLater(s.w, r.w, |w.log|, |w.log|, a);
    }
  }

  // ── Commands ──────────────────────────────────────────────────────────────

  /** No actor enters a slot. */
  ghost predicate GainsNothing(s: Slots, s': Slots) {
    forall a :: Carried(s', a) ==> Carried(s, a)
  }

  ghost predicate Safe(w: World, w': World) {
    Conserved(w, w') && GainsNothing(w.slots, w'.slots) && Inv(w'.slots)
  }

  /** The equipped container, if any, is not relocated. */
  predicate SparesInventory(w: World, w': World) {
    MyInv(w.slots).Some? ==> Spared(w, w', MyInv(w.slots).value)
  }

  /** A booking is neither made nor cancelled, and no inventory appears. */
  predicate KeepsBooking(s: Slots, s': Slots) {
    && s'.equipPending == s.equipPending
    && (MyInv(s') == MyInv(s) || MyInv(s').None?)
  }

  lemma TakeOutSafe(env: Env, w: World, item: string, container: string)
    requires Inv(w.slots)
    ensures Safe(w, TakeOut(env, w, item, container).w)
    ensures SparesInventory(w, TakeOut(env, w, item, container).w)
    ensures KeepsBooking(w.slots, TakeOut(env, w, item, container).w.slots)
  {
    var s1 := ResolveOne(env, w, container);
    if s1.Done? {
      var s2 := ResolveInContainer(env, s1.w, item, s1.value);
      if s2.Done? {
        DropHeldFacts(env, s2.w);
        ConservedTrans(w, s2.w, DropHeld(env, s2.w).w);
        ConservedTrans(w, DropHeld(env, s2.w).w, TakeOut(env, w, item, container).w);
      }
    }
  }

  lemma TakeFromSafe(env: Env, w: World, container: string, name: string)
    requires Inv(w.slots)
    ensures Safe(w, TakeFrom(env, w, container, name).w)
    ensures SparesInventory(w, TakeFrom(env, w, container, name).w)
    ensures KeepsBooking(w.slots, TakeFrom(env, w, container, name).w.slots)
  {
    hide TakeOut;
    TakeOutSafe(env, w, name, container);
  }

  lemma TakeHereSafe(env: Env, w: World, item: string)
    requires Inv(w.slots)
    ensures Safe(w, TakeHere(env, w, item).w)
    ensures SparesInventory(w, TakeHere(env, w, item).w)
  {
    var s1 := ResolveFresh(env, w, item, FromRoom);
    if s1.Done? {
      DropHeldFacts(env, s1.w);
      ConservedTrans(w, s1.w, DropHeld(env, s1.w).w);
      ConservedTrans(w, DropHeld(env, s1.w).w, TakeHere(env, w, item).w);
    }
  }

  lemma TakeSafe(env: Env, w: World, words: seq<string>)
    requires Inv(w.slots)
    ensures Safe(w, Take(env, w, words).w)
    ensures SparesInventory(w, Take(env, w, words).w)
  {
    var parsed := SplitCommand(words, "from", TAKE_USAGE, false);
    if parsed.Success? {
      var item := JoinWords(parsed.value.before);
      if parsed.value.after.Some? {
        TakeOutSafe(env, Unbook(w), item, JoinWords(parsed.value.after.value));
      } else {
        TakeHereSafe(env, Unbook(w), item);
      }
    }
  }

  lemma FindReachSafe(env: Env, w: World, did: string)
    requires Inv(w.slots)
    ensures Safe(w, FindReach(env, w, did).w)
    ensures SparesInventory(w, FindReach(env, w, did).w)
  {
    var s1 := Ask(env, w, Call(did, "parent?", []));
    DropHeldFacts(env, s1.w);
    var s2 := DropHeld(env, s1.w);
    ConservedTrans(w, s1.w, s2.w);
    if s2.Done? {
      QuietTail(w, s2.w, HoldAndName(env, s2.w, did).w);
    }
  }

  lemma FindSafe(env: Env, w: World, did: string)
    requires Inv(w.slots)
    ensures Safe(w, Find(env, w, did).w)
    ensures SparesInventory(w, Find(env, w, did).w)
  {
    FindReachSafe(env, Unbook(w), did);
  }

  lemma ForgeSafe(env: Env, w: World, kind: string, rest: seq<string>)
    requires Inv(w.slots)
    ensures Safe(w, Forge(env, w, kind, rest).w)
    ensures SparesInventory(w, Forge(env, w, kind, rest).w)
    ensures KeepsBooking(w.slots, Forge(env, w, kind, rest).w.slots)
  {
    DropHeldFacts(env, w);
    var s1 := DropHeld(env, w);
    if s1.Done? && rest != [] {
      QuietTail(w, s1.w, ForgeHere(env, s1.w, kind, JoinWords(rest[1..])).w);
    }
  }

  lemma UnequipSafe(env: Env, w: World, words: seq<string>)
    requires Inv(w.slots)
    ensures Safe(w, Unequip(env, w, words).w)
    ensures SparesInventory(w, Unequip(env, w, words).w)
    ensures KeepsBooking(w.slots, Unequip(env, w, words).w.slots)
    ensures Unequip(env, w, words).Done? ==>
              MyInv(w.slots).Some? && Holds(Unequip(env, w, words).w.slots, MyInv(w.slots).value)
  {
    if MyInv(w.slots).Some? {
      var w1 := if words == [] then w else InventoryPool(env, w).0;
      SwapToHandFacts(env, w1, MyInv(w.slots).value);
      ConservedTrans(w, w1, SwapToHand(env, w1, MyInv(w.slots).value).w);
    }
  }

  lemma KeepSafe(env: Env, w: World, words: seq<string>)
    requires Inv(w.slots)
    ensures Safe(w, Keep(env, w, words).w)
    ensures SparesInventory(w, Keep(env, w, words).w)
    ensures KeepsBooking(w.slots, Keep(env, w, words).w.slots)
    ensures Keep(env, w, words).w.slots == w.slots.(pendingActions := Keep(env, w, words).w.slots.pendingActions)
  {
  }

  lemma PutInQuiet(env: Env, w: World, item: string, container: string)
    ensures var r := PutIn(env, w, item, container);
            && Extends(w, r.w)
            && r.w.slots == w.slots.(pendingActions := r.w.slots.pendingActions)
            && forall a :: Spared(w, r.w, a)
  {
    var s1 := PoolOf(env, w, FromAnywhere);
    if s1.Done? {
      var s2 := ResolveOrRefresh(env, s1.w, item, s1.value, FromAnywhere);
      if s2.Done? {
        var s3 := ResolveOrRefresh(env, s2.w, container, s1.value, FromAnywhere);
        if s3.Done? {
          var w4 := SyncCarried(env, s3.w);
          assert Quiet(w, w4);
          assert Quiet(w4, Ask(env, w4, Call(s2.value.actor, "put", [Text(s3.value.actor)])).w);
        }
      }
    }
  }

  lemma PutSafe(env: Env, w: World, words: seq<string>)
    requires Inv(w.slots)
    ensures Safe(w, Put(env, w, words).w)
    ensures SparesInventory(w, Put(env, w, words).w)
    ensures KeepsBooking(w.slots, Put(env, w, words).w.slots)
  {
    var parsed := SplitCommand(words, "in", PUT_USAGE, true);
    if parsed.Success? {
      PutInQuiet(env, w, JoinWords(parsed.value.before),
                 JoinWords(if parsed.value.after.Some? then parsed.value.after.value else []));
    }
  }

  lemma TakeThenDropSafe(env: Env, w: World, container: string, item: string)
    requires Inv(w.slots)
    ensures Safe(w, TakeThenDrop(env, w, container, item).w)
    ensures KeepsBooking(w.slots, TakeThenDrop(env, w, container, item).w.slots)
  {
  }

  lemma DropSafe(env: Env, w: World, words: seq<string>)
    requires Inv(w.slots)
    ensures Safe(w, Drop(env, w, words).w)
    ensures KeepsBooking(w.slots, Drop(env, w, words).w.slots)
  {
    if words == [] {
      if w.slots.held.Some? {
        DropTargetFacts(env, w, w.slots.held.value.actor);
      }
    } else {
      var parsed := SplitCommand(words, "from", DROP_USAGE, false);
      if parsed.Success? {
        var item := JoinWords(parsed.value.before);
        if parsed.value.after.Some? {
          var s1 := ResolveFresh(env, w, JoinWords(parsed.value.after.value), FromReachable);
          if s1.Done? {
            var s2 := ResolveInContainer(env, s1.w, item, s1.value.actor);
            if s2.Done? {
              TakeThenDropSafe(env, s2.w, s1.value.actor, s2.value);
              ConservedTrans(w, s2.w, TakeThenDrop(env, s2.w, s1.value.actor, s2.value).w);
            }
          }
        } else {
          DropNamedSafe(env, w, item);
        }
      }
    }
  }

  lemma DropNamedSafe(env: Env, w: World, item: string)
    requires Inv(w.slots)
    ensures Safe(w, DropNamed(env, w, item).w)
    ensures KeepsBooking(w.slots, DropNamed(env, w, item).w.slots)
  {
    var s1 := ResolveFresh(env, w, item, FromCarried);
    if s1.Done? {
      DropTargetFacts(env, s1.w, s1.value.actor);
      ConservedTrans(w, s1.w, DropTarget(env, s1.w, s1.value.actor).w);
      if s1.value.parent.Some? {
        TakeThenDropSafe(env, s1.w, s1.value.parent.value, s1.value.actor);
        ConservedTrans(w, s1.w, TakeThenDrop(env, s1.w, s1.value.parent.value, s1.value.actor).w);
      }
    }
  }

  // ── Equip ─────────────────────────────────────────────────────────────────

  lemma EquipTransferFacts(env: Env, w: World, did: string, via: Proposal)
    requires Exclusive(w.slots) && Agreed(w.slots) && MyInv(w.slots) != Some(did)
    ensures var r := EquipTransfer(env, w, did, via);
            && Conserved(w, r.w) && GainsNothing(w.slots, r.w.slots)
            && Exclusive(r.w.slots) && Agreed(r.w.slots)
            && r.w.slots.equipPending == w.slots.equipPending
            && (r.Done? ==> MyInv(r.w.slots).None?)
  {
    var worn := MyInv(w.slots);
    var s1 := if worn.Some? then SwapToHand(env, w, worn.value) else Done(w, ());
    if worn.Some? {
      SwapToHandFacts(env, w, worn.value);
    }
    if s1.Done? {
      DropHeldFacts(env, s1.w);
      var s2 := if Holds(s1.w.slots, did) then Done(s1.w, ()) else DropHeld(env, s1.w);
      ConservedTrans(w, s1.w, s2.w);
      if s2.Done? {
        ConservedTrans(w, s2.w, Ask(env, s2.w, ProposalRequest(did, via)).w);
      }
    }
  }

  lemma SameHands(w: World, w': World)
    requires Extends(w, w') && w'.slots.held == w.slots.held && w'.slots.inv == w.slots.inv
    ensures Conserved(w, w') && GainsNothing(w.slots, w'.slots)
  {
  }

  lemma EquipProposeSafe(env: Env, w: World, did: string, via: Proposal)
    requires Inv(w.slots)
    ensures Conserved(w, EquipPropose(env, w, did, via).w)
    ensures GainsNothing(w.slots, EquipPropose(env, w, did, via).w.slots)
  {
    if MyInv(w.slots) != Some(did) {
      var s1 := Ask(env, w, Call(did, "kind?", []));
      var w1 := s1.w.(slots := s1.w.slots.(equipPending := Some(did)));
      SameHands(w, s1.w);
      SameHands(w, w1);
      var s2 := EquipTransfer(env, w1, did, via);
      EquipTransferFacts(env, w1, did, via);
      ConservedTrans(w, w1, s2.w);
      SameHands(s2.w, Unbook(s2.w));
      ConservedTrans(w, s2.w, Unbook(s2.w));
      assert EquipPropose(env, w, did, via).w in [s1.w, s2.w, Unbook(s2.w)];
    } else {
      SameHands(w, w);
    }
  }

  /** `equip` either leaves no booking behind, or leaves one with no inventory equipped. */
  lemma EquipProposeFacts(env: Env, w: World, did: string, via: Proposal)
    requires Inv(w.slots)
    ensures var r := EquipPropose(env, w, did, via);
            && Inv(r.w.slots)
            && (r.Done? && MyInv(w.slots) != Some(did) ==>
                  r.w.slots.equipPending == Some(did) && MyInv(r.w.slots).None?)
            && (r.Done? && MyInv(w.slots) == Some(did) ==> r.w == w)
            && (r.Raised? ==> r.w.slots.equipPending.None? || r.w.slots == w.slots)
  {
    var s1 := Ask(env, w, Call(did, "kind?", []));
    if MyInv(w.slots) != Some(did) {
      EquipTransferFacts(env, s1.w.(slots := s1.w.slots.(equipPending := Some(did))), did, via);
    }
  }

  lemma EquipSafe(env: Env, w: World, words: seq<string>)
    requires Inv(w.slots)
    ensures Safe(w, Equip(env, w, words).w)
  {
    var parsed := SplitCommand(words, "from", EQUIP_USAGE, false);
    if parsed.Success? {
      var item := JoinWords(parsed.value.before);
      if parsed.value.after.Some? {
        var s1 := ResolveOne(env, w, JoinWords(parsed.value.after.value));
        if s1.Done? {
          var s2 := ResolveInContainer(env, s1.w, item, s1.value);
          if s2.Done? {
            EquipProposeSafe(env, s2.w, s2.value, ByTake(s1.value));
            EquipProposeFacts(env, s2.w, s2.value, ByTake(s1.value));
            ConservedTrans(w, s2.w, EquipPropose(env, s2.w, s2.value, ByTake(s1.value)).w);
          }
        }
      } else {
        var s1 := ResolveFresh(env, w, item, FromHandAndRoom);
        if s1.Done? {
          EquipProposeSafe(env, s1.w, s1.value.actor, ByHold);
          EquipProposeFacts(env, s1.w, s1.value.actor, ByHold);
          ConservedTrans(w, s1.w, EquipPropose(env, s1.w, s1.value.actor, ByHold).w);
        }
      }
    }
  }

  // ── The handshake ─────────────────────────────────────────────────────────

  lemma HandleParentKeepsInv(env: Env, w: World, ctx: Ctx)
    requires Inv(w.slots)
    ensures Inv(HandleParent(env, w, ctx).w.slots)
    ensures Extends(w, HandleParent(env, w, ctx).w)
  {
    if w.slots.equipPending != Some(ctx.actor) && ProposesUs(w, ctx) && ctx.actor in w.slots.dropPending {
      var w0 := w.(slots := w.slots.(dropPending := w.slots.dropPending - {ctx.actor}));
      var s1 := Ask(env, w0, Call(ctx.actor, "child", [OneCtx(ctx)]));
      DropTargetFacts(env, s1.w, ctx.actor);
    }
  }

  /** A booked container's proposal: refused, nothing changes; acknowledged, it moves from the hand
      (or from nowhere) into the inventory slot, and no other actor leaves a slot. */
  lemma BookingNeverLosesTheContainer(env: Env, w: World, ctx: Ctx)
    requires Inv(w.slots)
    requires w.slots.equipPending == Some(ctx.actor) && ProposesUs(w, ctx)
    ensures var r := HandleParent(env, w, ctx);
            var ack := Call(ctx.actor, "child", [OneCtx(ctx)]);
            && r.w.log == w.log + [Event(ack, env(w.log, ack))]
            && (r.Raised? ==> r.w.slots == w.slots)
            && (r.Raised? <==> env(w.log, ack).Fail?)
            && (r.Done? ==>
                  && r.w.slots.inv == Some(ctx.actor) && r.w.slots.invEntry == Some(ctx)
                  && r.w.slots.equipPending.None? && !Holds(r.w.slots, ctx.actor)
                  && (forall a | a != ctx.actor :: Holds(r.w.slots, a) <==> Holds(w.slots, a)))
  {
  }

  predicate AckAccepted(env: Env, w: World, ctx: Ctx) {
    env(w.log, Call(ctx.actor, "child", [OneCtx(ctx)])).Answer?
  }

  /** The old parent's confirmation that the held actor has moved. */
  predicate Confirms(w: World, ctx: Ctx, a: string) {
    !ProposesUs(w, ctx) && a == ctx.actor && Holds(w.slots, a)
  }

  /** An unsolicited proposal, acknowledged while the hand holds something else. */
  predicate Overwrites(env: Env, w: World, ctx: Ctx, a: string) {
    && ProposesUs(w, ctx) && AckAccepted(env, w, ctx)
    && w.slots.equipPending != Some(ctx.actor) && ctx.actor !in w.slots.dropPending
    && MyInv(w.slots) != Some(ctx.actor)
    && Holds(w.slots, a) && a != ctx.actor
  }

  /** A booked actor whose address is no DID: the inventory pointer that names it is never read back. */
  predicate Misbooks(env: Env, w: World, ctx: Ctx, a: string) {
    && ProposesUs(w, ctx) && AckAccepted(env, w, ctx)
    && w.slots.equipPending == Some(a) && a == ctx.actor && !StartsWithDid(a)
  }

  /** Exactly when an event loses a carried actor that it did not relocate. */
  lemma EventLossExact(env: Env, w: World, ctx: Ctx, a: string)
    requires Inv(w.slots) && Carried(w.slots, a)
    ensures var w' := HandleParent(env, w, ctx).w;
            (!Carried(w'.slots, a) && !Relocated(w', |w.log|, a))
            <==> Confirms(w, ctx, a) || Overwrites(env, w, ctx, a) || Misbooks(env, w, ctx, a)
  {
    var r := HandleParent(env, w, ctx);
    if w.slots.equipPending != Some(ctx.actor) && ProposesUs(w, ctx) && ctx.actor in w.slots.dropPending {
      var w0 := w.(slots := w.slots.(dropPending := w.slots.dropPending - {ctx.actor}));
      var s1 := Ask(env, w0, Call(ctx.actor, "child", [OneCtx(ctx)]));
      DropTargetFacts(env, s1.w, ctx.actor);
      if s1.Done? && !Carried(r.w.slots, a) {
        RelocatedLater(r.w, r.w, |s1.w.log|, |w.log|, a);
      }
    } else {
      assert |r.w.log| <= |w.log| + 1;
    }
  }

  // ── Every run ─────────────────────────────────────────────────────────────

  predicate IsCommand(input: Input) {
    !input.Parent?
  }

  predicate MayMoveInventory(input: Input) {
    input.DoDrop? || input.DoEquip? || input.Parent?
  }

  ghost predicate StepSafe(w: World, input: Input, w': World) {
    && Inv(w'.slots)
    && w.log <= w'.log
    && (IsCommand(input) && !input.Entered? ==> Conserved(w, w'))
    && (IsCommand(input) ==> GainsNothing(w.slots, w'.slots))
    && (!MayMoveInventory(input) ==> SparesInventory(w, w'))
  }

  /** One step, whatever it is and however it ends, keeps the invariant; a command step also accounts
      for every actor it lets go of, and only `drop` and `equip` ever relocate the inventory. */
  lemma StepIsSafe(env: Env, w: World, input: Input)
    requires Inv(w.slots)
    ensures StepSafe(w, input, Apply(env, w, input).w)
  {
    hide Take, TakeFrom, Find, Equip, Unequip, Keep, Put, Drop, Forge, HandleParent;
    match input
    case DoTake(words) => TakeSafe(env, w, words);
    case DoTakeFrom(container, name) => TakeFromSafe(env, w, container, name);
    case DoFind(did) => FindSafe(env, w, did);
    case DoEquip(words) => EquipSafe(env, w, words);
    case DoUnequip(words) => UnequipSafe(env, w, words);
    case DoKeep(words) => KeepSafe(env, w, words);
    case DoPut(words) => PutSafe(env, w, words);
    case DoDrop(words) => DropSafe(env, w, words);
    case DoForge(kind, rest) => ForgeSafe(env, w, kind, rest);
    case Parent(ctx) => HandleParentKeepsInv(env, w, ctx);
    case ActionDone(_) => SameHands(w, Apply(env, w, input).w);
    case Entered(_) =>
  }

  /** The slot invariant over every run, with any request failing anywhere. */
  lemma {:induction false} RunKeepsInv(env: Env, w: World, inputs: seq<Input>)
    requires Inv(w.slots)
    ensures Inv(Run(env, w, inputs).slots)
    ensures w.log <= Run(env, w, inputs).log
    decreases |inputs|
  {
    if inputs != [] {
      StepIsSafe(env, w, inputs[0]);
      RunKeepsInv(env, Apply(env, w, inputs[0]).w, inputs[1..]);
    }
  }

  /** The events that lose an actor they do not relocate. */
  predicate Loses(env: Env, w: World, ctx: Ctx, a: string) {
    Confirms(w, ctx, a) || Overwrites(env, w, ctx, a) || Misbooks(env, w, ctx, a)
  }

  predicate RelocatedTo(log: seq<Event>, from: nat, i: nat, room: string, a: string) {
    from <= i && RelocationAt(log, i, room, a)
  }

  /** From position `from` of the trace on, some room accepted `drop` for `a` and `a` was then sent there. */
  ghost predicate RelocatedSomewhere(log: seq<Event>, from: nat, a: string) {
    exists i: nat, room: string :: RelocatedTo(log, from, i, room, a)
  }

  /** Input `k` of the run is an event that loses `a` in the world it arrives in. */
  predicate LosesAt(env: Env, w: World, inputs: seq<Input>, k: nat, a: string) {
    k < |inputs| && inputs[k].Parent? && Loses(env, Run(env, w, inputs[..k]), inputs[k].ctx, a)
  }

  lemma SomewhereLater(log: seq<Event>, log': seq<Event>, from: nat, earlier: nat, a: string)
    requires RelocatedSomewhere(log, from, a) && log <= log' && earlier <= from
    ensures RelocatedSomewhere(log', earlier, a)
  {
    var i: nat, room: string :| RelocatedTo(log, from, i, room, a);
    assert RelocatedTo(log', earlier, i, room, a);
  }

  /** A step that lets go of an actor relocated it, or is an event that loses it. */
  lemma StepAccounts(env: Env, w: World, input: Input, a: string)
    requires Inv(w.slots) && Carried(w.slots, a) && !Carried(Apply(env, w, input).w.slots, a)
    ensures RelocatedSomewhere(Apply(env, w, input).w.log, |w.log|, a)
            || (input.Parent? && Loses(env, w, input.ctx, a))
  {
    var w' := Apply(env, w, input).w;
    StepIsSafe(env, w, input);
    if input.Parent? {
      EventLossExact(env, w, input.ctx, a);
    }
    if Relocated(w', |w.log|, a) {
      var i: nat :| |w.log| <= i && RelocationAt(w'.log, i, w'.room.value, a);
      assert RelocatedTo(w'.log, |w.log|, i, w'.room.value, a);
    }
  }

  /** Over every run whatever, events and moves between rooms included: an actor carried at the start and not at
      the end was relocated on the way, or lost at one of the events named above. */
  lemma {:induction false} RunAccounts(env: Env, w: World, inputs: seq<Input>, a: string)
    requires Inv(w.slots) && Carried(w.slots, a) && !Carried(Run(env, w, inputs).slots, a)
    ensures RelocatedSomewhere(Run(env, w, inputs).log, |w.log|, a)
            || exists k: nat :: LosesAt(env, w, inputs, k, a)
    decreases |inputs|
  {
    var w1, end, later := Apply(env, w, inputs[0]).w, Run(env, w, inputs), inputs[1..];
    StepIsSafe(env, w, inputs[0]);
    RunKeepsInv(env, w1, later);
    if !Carried(w1.slots, a) {
      StepAccounts(env, w, inputs[0], a);
      if RelocatedSomewhere(w1.log, |w.log|, a) {
        SomewhereLater(w1.log, end.log, |w.log|, |w.log|, a);
      } else {
        assert inputs[..0] == [];
        assert LosesAt(env, w, inputs, 0, a);
      }
    } else {
      RunAccounts(env, w1, later, a);
      if RelocatedSomewhere(end.log, |w1.log|, a) {
        SomewhereLater(end.log, end.log, |w1.log|, |w.log|, a);
      } else {
        var k: nat :| LosesAt(env, w1, later, k, a);
        LosesLater(env, w, inputs, k, a);
      }
    }
  }

  lemma LosesLater(env: Env, w: World, inputs: seq<Input>, k: nat, a: string)
    requires inputs != [] && LosesAt(env, Apply(env, w, inputs[0]).w, inputs[1..], k, a)
    ensures LosesAt(env, w, inputs, k + 1, a)
  {
    var prefix := inputs[..k + 1];
    assert prefix[0] == inputs[0] && prefix[1..] == inputs[1..][..k];
    assert inputs[k + 1] == inputs[1..][k];
  }

  /** Over a run of commands, every actor let go of along the way was relocated along the way. */
  lemma {:induction false} CommandRunConserves(env: Env, w: World, inputs: seq<Input>)
    requires Inv(w.slots)
    requires forall input | input in inputs :: IsCommand(input) && !input.Entered?
    ensures Conserved(w, Run(env, w, inputs))
    decreases |inputs|
  {
    if inputs != [] {
      var w1 := Apply(env, w, inputs[0]).w;
      StepIsSafe(env, w, inputs[0]);
      CommandRunConserves(env, w1, inputs[1..]);
      ConservedTrans(w, w1, Run(env, w, inputs));
    }
  }

  // ── An accepted equip is honoured ─────────────────────────────────────────

  predicate Awaits(s: Slots, did: string) {
    s.equipPending == Some(did) && MyInv(s).None?
  }

  /** The steps that may end a booking of `did`: the commands that clear or replace it,
      and an acknowledged proposal of `did` itself. */
  predicate EndsBooking(env: Env, w: World, input: Input, did: string) {
    || input.DoTake? || input.DoFind? || input.DoEquip?
    || (input.Parent? && input.ctx.actor == did && ProposesUs(w, input.ctx) && AckAccepted(env, w, input.ctx))
  }

  predicate Undisturbed(env: Env, w: World, inputs: seq<Input>, did: string)
    decreases |inputs|
  {
    inputs != [] ==>
      && !EndsBooking(env, w, inputs[0], did)
      && Undisturbed(env, Apply(env, w, inputs[0]).w, inputs[1..], did)
  }

  lemma OtherCommandsKeepBooking(env: Env, w: World, input: Input)
    requires Inv(w.slots)
    requires input.DoTakeFrom? || input.DoUnequip? || input.DoKeep? || input.DoPut? || input.DoDrop? || input.DoForge?
    ensures KeepsBooking(w.slots, Apply(env, w, input).w.slots)
  {
    hide TakeFrom, Unequip, Keep, Put, Drop, Forge;
    match input
    case DoTakeFrom(container, name) => TakeFromSafe(env, w, container, name);
    case DoUnequip(words) => UnequipSafe(env, w, words);
    case DoKeep(words) => KeepSafe(env, w, words);
    case DoPut(words) => PutSafe(env, w, words);
    case DoDrop(words) => DropSafe(env, w, words);
    case DoForge(kind, rest) => ForgeSafe(env, w, kind, rest);
  }

  lemma ProposalKeepsAwaiting(env: Env, w: World, ctx: Ctx, did: string)
    requires Inv(w.slots) && Awaits(w.slots, did) && !EndsBooking(env, w, Parent(ctx), did)
    ensures Awaits(HandleParent(env, w, ctx).w.slots, did)
  {
    if w.slots.equipPending != Some(ctx.actor) && ProposesUs(w, ctx) && ctx.actor in w.slots.dropPending {
      var w0 := w.(slots := w.slots.(dropPending := w.slots.dropPending - {ctx.actor}));
      var s1 := Ask(env, w0, Call(ctx.actor, "child", [OneCtx(ctx)]));
      DropTargetFacts(env, s1.w, ctx.actor);
    }
  }

  lemma StepKeepsAwaiting(env: Env, w: World, input: Input, did: string)
    requires Inv(w.slots) && Awaits(w.slots, did) && !EndsBooking(env, w, input, did)
    ensures Awaits(Apply(env, w, input).w.slots, did)
  {
    hide HandleParent;
    match input
    case Parent(ctx) => ProposalKeepsAwaiting(env, w, ctx, did);
    case ActionDone(_) =>
    case Entered(_) =>
    case _ => OtherCommandsKeepBooking(env, w, input);
  }

  lemma {:induction false} RunKeepsAwaiting(env: Env, w: World, inputs: seq<Input>, did: string)
    requires Inv(w.slots) && Awaits(w.slots, did) && Undisturbed(env, w, inputs, did)
    ensures Inv(Run(env, w, inputs).slots) && Awaits(Run(env, w, inputs).slots, did)
    decreases |inputs|
  {
    if inputs != [] {
      StepIsSafe(env, w, inputs[0]);
      StepKeepsAwaiting(env, w, inputs[0], did);
      RunKeepsAwaiting(env, Apply(env, w, inputs[0]).w, inputs[1..], did);
    }
  }

  /** Once `equip` returns with a booking, the booking survives any undisturbed run, and the first
      acknowledged self-parented proposal makes the container the inventory and not the held item. */
  lemma EquipIsHonoured(env: Env, w: World, words: seq<string>, did: string, inputs: seq<Input>, ctx: Ctx)
    requires Inv(w.slots)
    ensures var equipped := Equip(env, w, words);
            var w1 := Run(env, equipped.w, inputs);
            equipped.Done? && equipped.w.slots.equipPending == Some(did)
            && Undisturbed(env, equipped.w, inputs, did) ==>
              && Awaits(w1.slots, did)
              && (ctx.actor == did && ProposesUs(w1, ctx) && AckAccepted(env, w1, ctx) ==>
                    var r := HandleParent(env, w1, ctx);
                    && r.Done?
                    && r.w.slots.inv == Some(did) && r.w.slots.invEntry == Some(ctx)
                    && r.w.slots.equipPending.None? && !Holds(r.w.slots, did))
  {
    EquipSafe(env, w, words);
    var w1 := Run(env, Equip(env, w, words).w, inputs);
    if Equip(env, w, words).w.slots.equipPending == Some(did) && Undisturbed(env, Equip(env, w, words).w, inputs, did) {
      RunKeepsAwaiting(env, Equip(env, w, words).w, inputs, did);
      if ctx.actor == did && ProposesUs(w1, ctx) {
        BookingNeverLosesTheContainer(env, w1, ctx);
      }
    }
  }

  // The cycle exists: every actor agrees, a container in the room is equipped, another actor's
  // proposal passes, and then the container proposes itself.

  function Agreeing(log: seq<Event>, request: Request): Reply {
    Answer(Text(CONTAINER))
  }

  const CHEST := Ctx("did:ma:chest", Some("did:ma:me"), "container", None, None, None)
  const LAMP := Ctx("did:ma:lamp", Some("did:ma:me"), "thing", None, None, None)
  const EMPTY_HANDED := World("did:ma:me", Some("did:ma:room"), Slots(None, None, None, None, {}, {}), [])

  lemma EquipsTheChest() returns (w: World)
    ensures Equip(Agreeing, EMPTY_HANDED, [CHEST.actor]) == Done(w, ())
    ensures w.self == "did:ma:me" && w.slots == EMPTY_HANDED.slots.(equipPending := Some(CHEST.actor))
  {
    var did, w0 := CHEST.actor, EMPTY_HANDED;
    SplitCommandExact([did], "from", EQUIP_USAGE, false, Split([did], None));
    assert JoinWords([did]) == did;
    var s1 := ResolveFresh(Agreeing, w0, did, FromHandAndRoom);
    assert s1.Done? && s1.value.actor == did && s1.w.slots == w0.slots;
    var s2 := EquipPropose(Agreeing, s1.w, did, ByHold);
    assert s2.Done? && s2.w.slots == w0.slots.(equipPending := Some(did));
    w := s2.w;
  }

  lemma AnEquipIsHonoured() returns (w: World)
    ensures Inv(EMPTY_HANDED.slots) && Equip(Agreeing, EMPTY_HANDED, [CHEST.actor]) == Done(w, ())
    ensures w.slots.equipPending == Some(CHEST.actor)
    ensures Undisturbed(Agreeing, w, [Parent(LAMP)], CHEST.actor)
    ensures var w1 := Run(Agreeing, w, [Parent(LAMP)]);
            ProposesUs(w1, CHEST) && AckAccepted(Agreeing, w1, CHEST)
  {
    w := EquipsTheChest();
    assert |LAMP.actor| != |CHEST.actor|;
    OneStep(Agreeing, w, Parent(LAMP), CHEST.actor);
    HandleParentKeepsSelf(Agreeing, w, LAMP);
  }

  lemma OneStep(env: Env, w: World, input: Input, did: string)
    ensures Run(env, w, [input]) == Apply(env, w, input).w
    ensures !EndsBooking(env, w, input, did) ==> Undisturbed(env, w, [input], did)
  {
    assert [input][1..] == [];
  }

  lemma HandleParentKeepsSelf(env: Env, w: World, ctx: Ctx)
    ensures HandleParent(env, w, ctx).w.self == w.self
  {
  }

  // ── Without an equip, nothing is ever booked ──────────────────────────────

  lemma TakeBooksNothing(env: Env, w: World, words: seq<string>)
    requires Inv(w.slots)
    ensures KeepsBooking(Unbook(w).slots, Take(env, w, words).w.slots)
  {
    var parsed := SplitCommand(words, "from", TAKE_USAGE, false);
    if parsed.Success? {
      var item, w1 := JoinWords(parsed.value.before), Unbook(w);
      if parsed.value.after.Some? {
        TakeOutSafe(env, w1, item, JoinWords(parsed.value.after.value));
      } else {
        DropHeldFacts(env, ResolveFresh(env, w1, item, FromRoom).w);
      }
    }
  }

  lemma FindBooksNothing(env: Env, w: World, did: string)
    requires Inv(w.slots)
    ensures KeepsBooking(Unbook(w).slots, Find(env, w, did).w.slots)
  {
    DropHeldFacts(env, Ask(env, Unbook(w), Call(did, "parent?", [])).w);
  }

  lemma ProposalBooksNothing(env: Env, w: World, ctx: Ctx)
    requires Inv(w.slots) && w.slots.equipPending.None?
    ensures KeepsBooking(w.slots, HandleParent(env, w, ctx).w.slots)
  {
    if ProposesUs(w, ctx) && ctx.actor in w.slots.dropPending {
      var w0 := w.(slots := w.slots.(dropPending := w.slots.dropPending - {ctx.actor}));
      DropTargetFacts(env, Ask(env, w0, Call(ctx.actor, "child", [OneCtx(ctx)])).w, ctx.actor);
    }
  }

  lemma StepBooksNothing(env: Env, w: World, input: Input)
    requires Inv(w.slots) && w.slots.equipPending.None? && !input.DoEquip?
    ensures KeepsBooking(w.slots, Apply(env, w, input).w.slots)
  {
    hide Take, Find, HandleParent;
    match input
    case DoTake(words) => TakeBooksNothing(env, w, words);
    case DoFind(did) => FindBooksNothing(env, w, did);
    case Parent(ctx) => ProposalBooksNothing(env, w, ctx);
    case ActionDone(_) =>
    case Entered(_) =>
    case _ => OtherCommandsKeepBooking(env, w, input);
  }

  lemma {:induction false} RunBooksNothing(env: Env, w: World, inputs: seq<Input>)
    requires Inv(w.slots) && w.slots.equipPending.None?
    requires forall input | input in inputs :: !input.DoEquip?
    ensures KeepsBooking(w.slots, Run(env, w, inputs).slots)
    decreases |inputs|
  {
    if inputs != [] {
      StepIsSafe(env, w, inputs[0]);
      StepBooksNothing(env, w, inputs[0]);
      RunBooksNothing(env, Apply(env, w, inputs[0]).w, inputs[1..]);
    }
  }

  /** After `take` or `find`, however it ended, no run without a new `equip` makes any proposal
      the inventory: a booking made before is dead. */
  lemma TakeAndFindCancelBookings(env: Env, w: World, input: Input, inputs: seq<Input>)
    requires Inv(w.slots) && (input.DoTake? || input.DoFind?)
    requires forall later | later in inputs :: !later.DoEquip?
    ensures KeepsBooking(Unbook(w).slots, Run(env, Apply(env, w, input).w, inputs).slots)
  {
    StepIsSafe(env, w, input);
    if input.DoTake? {
      TakeBooksNothing(env, w, input.words);
    } else {
      FindBooksNothing(env, w, input.did);
    }
    RunBooksNothing(env, Apply(env, w, input).w, inputs);
  }

  /** The third clause of the invariant is needed: with a booking beside an equipped inventory,
      a proposal could leave its container in neither slot, unrelocated. */
  lemma BookingBesideInventoryLosesTheContainer()
    ensures exists env: Env, w: World, ctx: Ctx ::
              && Exclusive(w.slots) && Agreed(w.slots) && !Unbooked(w.slots)
              && w.slots.equipPending == Some(ctx.actor) && ProposesUs(w, ctx)
              && Carried(w.slots, ctx.actor)
              && !Carried(HandleParent(env, w, ctx).w.slots, ctx.actor)
              && !Relocated(HandleParent(env, w, ctx).w, |w.log|, ctx.actor)
  {
    var chest := Ctx("did:ma:chest", Some("did:ma:me"), "container", None, None, None);
    var env: Env := (log: seq<Event>, request: Request) => Answer(Other);
    var w := World("did:ma:me", None,
                   Slots(Some(chest), None, Some("did:ma:box"), Some("did:ma:chest"), {}, {}), []);
    var r := HandleParent(env, w, chest);
    assert r.Raised? && r.w.slots.held.None? && MyInv(r.w.slots) == Some("did:ma:box");
  }
}
