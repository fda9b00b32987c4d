/** What a command or event that returns has done, and how an actor comes to be carried. */
module AvatarEffects {
  import opened Wrappers
  import opened Resolver
  import opened AvatarSpec
  import opened AvatarProofs
  import Stdlib

  // ── Naming an item inside a container ─────────────────────────────────────

  /** Position `i` is the only one of the pool whose `key` the word matches. */
  predicate OnlyMatch(word: string, pool: seq<Ctx>, key: Key, i: nat) {
    Stdlib.OnlyAt((entry: Ctx) => NameMatches(word, entry, key), pool, i)
  }

  /** A bare word names an item of a container if and only if exactly one content entry bears it as nick
      or, when none does, exactly one as name. */
  lemma ResolveInContainerExact(env: Env, w: World, word: string, container: string, did: string)
    requires !StartsWithDid(word) && Contents(env, w, container).Done?
    ensures var pool := Contents(env, w, container).value;
            var key := if MatchesAny(word, pool, Nick) then Nick else Name;
            var r := ResolveInContainer(env, w, word, container);
            r.Outcome() == Success(did) <==> exists i: nat :: OnlyMatch(word, pool, key, i) && pool[i].actor == did
  {
    var pool := Contents(env, w, container).value;
    var key := if MatchesAny(word, pool, Nick) then Nick else Name;
    var matches := (entry: Ctx) => NameMatches(word, entry, key);
    var hits := CandidatesByKeys(word, pool, [Nick, Name]);
    ContainerHits(word, pool);
    if i: nat :| OnlyMatch(word, pool, key, i) && pool[i].actor == did {
      Stdlib.FilterOnly(matches, pool, i);
    } else if |hits| == 1 {
      var i := Stdlib.FilteredIsOnly(matches, pool);
      assert OnlyMatch(word, pool, key, i);
    }
  }

  lemma ContainerHits(word: string, pool: seq<Ctx>)
    ensures var key := if MatchesAny(word, pool, Nick) then Nick else Name;
            CandidatesByKeys(word, pool, [Nick, Name]) ==
            Stdlib.Filter((entry: Ctx) => NameMatches(word, entry, key), pool)
  {
    if MatchesAny(word, pool, Nick) {
      FirstMatchingKeyDecides(word, pool, [Nick, Name], 0);
    } else if MatchesAny(word, pool, Name) {
      FirstMatchingKeyDecides(word, pool, [Nick, Name], 1);
    } else {
      NoKeyMatches(word, pool, [Nick, Name]);
      HitsOfKey(word, pool, Name);
    }
  }

  // ── Room is made before anything is picked up ─────────────────────────────

  predicate EndsIn(w: World, request: Request) {
    w.log != [] && var last := w.log[|w.log| - 1]; last.request == request && last.reply.Answer?
  }

  function BeforeLast(w: World): World {
    if w.log == [] then w else w.(log := w.log[..|w.log| - 1])
  }

  /** By the time `w` was reached, whatever the hand held at the start had been relocated. */
  ghost predicate HandCleared(start: World, w: World) {
    && Extends(start, w)
    && forall a | Holds(start.slots, a) :: Relocated(w, |start.log|, a)
  }

  /** The id a transfer was answered with is remembered until its completion event. */
  predicate Remembered(w: World) {
    w.log != [] ==>
      var reply := w.log[|w.log| - 1].reply;
      reply.Answer? && reply.value.Text? ==> reply.value.text in w.slots.pendingActions
  }

  lemma DropHeldClears(env: Env, start: World, w: World)
    requires Inv(w.slots) && Quiet(start, w) && DropHeld(env, w).Done?
    ensures HandCleared(start, DropHeld(env, w).w)
  {
    DropHeldFacts(env, w);
    var w' := DropHeld(env, w).w;
    forall a | Holds(start.slots, a)
      ensures Relocated(w', |start.log|, a)
    {
      RelocatedLater(w', w', |w.log|, |start.log|, a);
    }
  }

  lemma ClearedLater(start: World, w: World, w': World)
    requires HandCleared(start, w) && Extends(w, w')
    ensures HandCleared(start, w')
  {
    forall a | Holds(start.slots, a)
      ensures Relocated(w', |start.log|, a)
    {
      RelocatedLater(w, w', |start.log|, |start.log|, a);
    }
  }

  /** A `take` that returns has asked the one resolved actor to hold, with the hand already cleared. */
  lemma TakeHereDone(env: Env, w: World, item: string)
    requires Inv(w.slots) && TakeHere(env, w, item).Done?
    ensures var (s, w') := (ResolveFresh(env, w, item, FromRoom), TakeHere(env, w, item).w);
            && s.Done? && EndsIn(w', Call(s.value.actor, "hold", []))
            && HandCleared(w, BeforeLast(w'))
  {
    var s := ResolveFresh(env, w, item, FromRoom);
    DropHeldClears(env, w, s.w);
    assert BeforeLast(TakeHere(env, w, item).w) == DropHeld(env, s.w).w;
  }

  /** Taking out of a container asks the container, with the hand already cleared, and books the action. */
  lemma TakeOutDone(env: Env, w: World, item: string, container: string)
    requires Inv(w.slots) && TakeOut(env, w, item, container).Done?
    ensures var s := ResolveOne(env, w, container);
            s.Done? &&
            var did := ResolveInContainer(env, s.w, item, s.value);
            var w' := TakeOut(env, w, item, container).w;
            && did.Done? && EndsIn(w', Call(s.value, "take", [Text(did.value)]))
            && HandCleared(w, BeforeLast(w')) && Remembered(w')
  {
    var s1 := ResolveOne(env, w, container);
    var s2 := ResolveInContainer(env, s1.w, item, s1.value);
    DropHeldClears(env, w, s2.w);
    ClearedLater(w, DropHeld(env, s2.w).w, BeforeLast(TakeOut(env, w, item, container).w));
  }

  /** `find` holds the actor, then asks its name; the actor was in the room, the avatar or the inventory. */
  lemma FindDone(env: Env, w: World, did: string)
    requires Inv(w.slots) && Find(env, w, did).Done?
    ensures var w' := Find(env, w, did).w;
            var parent := env(w.log, Call(did, "parent?", []));
            && EndsIn(w', Call(did, "name", [])) && EndsIn(BeforeLast(w'), Call(did, "hold", []))
            && HandCleared(w, BeforeLast(BeforeLast(w')))
            && parent.Answer? && w.room.Some?
            && (parent.value == Text(w.room.value) || parent.value == Text(w.self)
                || (MyInv(w.slots).Some? && parent.value == Text(MyInv(w.slots).value)))
  {
    var w1 := Unbook(w);
    var s := Ask(env, w1, Call(did, "parent?", []));
    DropHeldClears(env, w1, s.w);
    var w2 := DropHeld(env, s.w).w;
    assert BeforeLast(BeforeLast(Find(env, w, did).w)) == w2;
    ClearedLater(w, w2, w2);
  }

  lemma ForgeDone(env: Env, w: World, kind: string, rest: seq<string>)
    requires Inv(w.slots)
    ensures var r := Forge(env, w, kind, rest);
            r.Done? ==>
              && rest != [] && rest[0] == "named" && !StartsWithDid(JoinWords(rest[1..]))
              && HandCleared(w, BeforeLast(r.w))
              && w.room.Some? &&
              var target := ResolveOne(env, DropHeld(env, w).w, w.room.value);
              target.Done? && EndsIn(r.w, ForgeRequest(target.value, kind, JoinWords(rest[1..])))
  {
    var r := Forge(env, w, kind, rest);
    if r.Done? {
      DropHeldClears(env, w, w);
      var s1 := DropHeld(env, w);
      var s2 := ResolveOne(env, s1.w, w.room.value);
      assert EndsIn(r.w, ForgeRequest(s2.value, kind, JoinWords(rest[1..])));
      ClearedLater(w, s1.w, BeforeLast(r.w));
    }
  }

  // ── Equip clears both slots ───────────────────────────────────────────────

  /** When `equip` asks for the proposal it has relocated everything else the avatar carried. */
  lemma EquipClearsTheWay(env: Env, w: World, did: string, via: Proposal)
    requires Inv(w.slots) && MyInv(w.slots) != Some(did) && EquipPropose(env, w, did, via).Done?
    ensures var w' := EquipPropose(env, w, did, via).w;
            && EndsIn(w', ProposalRequest(did, via))
            && forall a | Carried(w.slots, a) && a != did :: Relocated(BeforeLast(w'), |w.log|, a)
  {
    var s1 := Ask(env, w, Call(did, "kind?", []));
    var w1 := s1.w.(slots := s1.w.slots.(equipPending := Some(did)));
    var worn := MyInv(w.slots);
    var w2 := if worn.Some? then SwapToHand(env, w1, worn.value).w else w1;
    var w3 := if Holds(w2.slots, did) then w2 else DropHeld(env, w2).w;
    assert BeforeLast(EquipPropose(env, w, did, via).w) == w3;
    forall a | Carried(w.slots, a) && a != did
      ensures Relocated(w3, |w.log|, a)
    {
      TransferClears(env, w, w1, did, a);
    }
  }

  lemma TransferClears(env: Env, w: World, w1: World, did: string, a: string)
    requires Inv(w.slots) && w1.slots == w.slots.(equipPending := Some(did)) && Extends(w, w1)
    requires Carried(w.slots, a) && a != did
    ensures var worn := MyInv(w.slots);
            var s2 := if worn.Some? then SwapToHand(env, w1, worn.value) else Done(w1, ());
            var s3 := if Holds(s2.w.slots, did) then Done(s2.w, ()) else DropHeld(env, s2.w);
            s2.Done? && s3.Done? ==> Relocated(s3.w, |w.log|, a)
  {
    var worn := MyInv(w.slots);
    var s2 := if worn.Some? then SwapToHand(env, w1, worn.value) else Done(w1, ());
    var s3 := if Holds(s2.w.slots, did) then Done(s2.w, ()) else DropHeld(env, s2.w);
    DropHeldFacts(env, w1);
    if worn.Some? {
      SwapToHandFacts(env, w1, worn.value);
    }
    if s2.Done? {
      DropHeldFacts(env, s2.w);
      if s3.Done? {
        if Holds(w.slots, a) && worn.Some? {
          RelocatedLater(DropHeld(env, w1).w, s3.w, |w1.log|, |w.log|, a);
        } else if s3.w != s2.w {
          RelocatedLater(s3.w, s3.w, |s2.w.log|, |w.log|, a);
        }
      }
    }
  }

  // ── The other commands ────────────────────────────────────────────────────

  /** `unequip` moves the equipped container to a hand it has cleared. */
  lemma UnequipDone(env: Env, w: World, words: seq<string>)
    requires Inv(w.slots) && Unequip(env, w, words).Done?
    ensures var w' := Unequip(env, w, words).w;
            && MyInv(w.slots).Some? && Holds(w'.slots, MyInv(w.slots).value)
            && w'.slots == w.slots.(held := w'.slots.held, invEntry := None, inv := None)
            && (w.slots.invEntry.Some? ==> w'.slots.held == w.slots.invEntry)
            && HandCleared(w, w')
  {
    hide InventoryPool, ResolveOneEntry, DropHeld;
    var inventory := MyInv(w.slots).value;
    var w1 := if words == [] then w else InventoryPool(env, w).0;
    DropHeldFacts(env, w1);
    SwapToHandFacts(env, w1, inventory);
    DropHeldClears(env, w, w1);
    ClearedLater(w, DropHeld(env, w1).w, Unequip(env, w, words).w);
  }

  /** `keep` asks the held actor to put itself into the equipped inventory; the slots wait for the events. */
  lemma KeepDone(env: Env, w: World, words: seq<string>)
    requires Keep(env, w, words).Done?
    ensures var w' := Keep(env, w, words).w;
            && w.slots.held.Some? && MyInv(w.slots).Some?
            && EndsIn(w', Call(w.slots.held.value.actor, "put", [Text(MyInv(w.slots).value)]))
            && Remembered(w') && w'.slots == w.slots.(pendingActions := w'.slots.pendingActions)
  {
  }

  /** `put` asks the named item to move into the named container, and changes no slot. */
  lemma PutDone(env: Env, w: World, item: string, container: string)
    ensures var r := PutIn(env, w, item, container);
            r.Done? ==>
              var pool := PoolOf(env, w, FromAnywhere);
              pool.Done? &&
              var moved := ResolveOrRefresh(env, pool.w, item, pool.value, FromAnywhere);
              moved.Done? &&
              var into := ResolveOrRefresh(env, moved.w, container, pool.value, FromAnywhere);
              && into.Done? && EndsIn(r.w, Call(moved.value.actor, "put", [Text(into.value.actor)]))
              && Remembered(r.w) && r.w.slots == w.slots.(pendingActions := r.w.slots.pendingActions)
  {
  }

  /** A slot let go of `target`, which was relocated. */
  ghost predicate Released(w: World, w': World, target: string) {
    Relocated(w', |w.log|, target) && MyInv(w'.slots) != Some(target)
  }

  /** The container was asked for `target`, and its proposal is noted to be dropped. */
  predicate AskedToDrop(w: World, container: string, target: string) {
    && EndsIn(w, Call(container, "take", [Text(target)]))
    && target in w.slots.dropPending && Remembered(w)
  }

  lemma DropTargetDone(env: Env, start: World, w: World, target: string)
    requires Inv(w.slots) && Quiet(start, w) && Carried(w.slots, target) && DropTarget(env, w, target).Done?
    ensures Released(start, DropTarget(env, w, target).w, target)
  {
    RelocateFacts(env, w, target);
    var w' := DropTarget(env, w, target).w;
    RelocatedLater(Relocate(env, w, target).w, w', |w.log|, |start.log|, target);
  }

  lemma TakeThenDropDone(env: Env, w: World, container: string, item: string)
    requires TakeThenDrop(env, w, container, item).Done?
    ensures AskedToDrop(TakeThenDrop(env, w, container, item).w, container, item)
  {
  }

  lemma DropHandDone(env: Env, w: World)
    requires Inv(w.slots) && Drop(env, w, []).Done?
    ensures w.slots.held.Some? && Released(w, Drop(env, w, []).w, w.slots.held.value.actor)
  {
    DropTargetDone(env, w, w, w.slots.held.value.actor);
  }

  /** A named drop releases a carried actor, and asks the parent the entry itself names for any other. */
  lemma DropNamedDone(env: Env, w: World, item: string)
    requires Inv(w.slots)
    ensures var s := ResolveFresh(env, w, item, FromCarried);
            var r := DropNamed(env, w, item);
            r.Done? ==>
              && s.Done?
              && if Carried(w.slots, s.value.actor) then Released(w, r.w, s.value.actor)
                 else s.value.parent.Some? && AskedToDrop(r.w, s.value.parent.value, s.value.actor)
  {
    var s := ResolveFresh(env, w, item, FromCarried);
    if DropNamed(env, w, item).Done? {
      var target := s.value.actor;
      if Carried(s.w.slots, target) {
        DropTargetDone(env, w, s.w, target);
      } else {
        TakeThenDropDone(env, s.w, s.value.parent.value, target);
      }
    }
  }

  /** `drop <item> from <container>` asks the container the name resolves to for the item inside it. */
  lemma DropOutDone(env: Env, w: World, item: string, container: string)
    ensures var s := ResolveFresh(env, w, container, FromReachable);
            var r := DropOut(env, w, item, container);
            r.Done? ==>
              s.Done? &&
              var did := ResolveInContainer(env, s.w, item, s.value.actor);
              did.Done? && AskedToDrop(r.w, s.value.actor, did.value)
  {
    var s := ResolveFresh(env, w, container, FromReachable);
    if DropOut(env, w, item, container).Done? {
      var did := ResolveInContainer(env, s.w, item, s.value.actor);
      TakeThenDropDone(env, did.w, s.value.actor, did.value);
    }
  }

  /** The proposal of an item that `drop … from` asked for: acknowledged, it is relocated to the room
      and never lands in a slot; either way it is no longer noted. */
  lemma PendingDropIsCompleted(env: Env, w: World, ctx: Ctx)
    requires Inv(w.slots) && ProposesUs(w, ctx)
    requires ctx.actor in w.slots.dropPending && w.slots.equipPending != Some(ctx.actor)
    ensures var r := HandleParent(env, w, ctx);
            && r.w.slots.dropPending == w.slots.dropPending - {ctx.actor}
            && (r.Done? ==> AckAccepted(env, w, ctx) && Relocated(r.w, |w.log|, ctx.actor))
            && (Carried(r.w.slots, ctx.actor) ==> Carried(w.slots, ctx.actor))
  {
    var w0 := w.(slots := w.slots.(dropPending := w.slots.dropPending - {ctx.actor}));
    var s := Ask(env, w0, Call(ctx.actor, "child", [OneCtx(ctx)]));
    assert s.w.log == w.log + [Event(Call(ctx.actor, "child", [OneCtx(ctx)]), env(w.log, Call(ctx.actor, "child", [OneCtx(ctx)])))];
    DropTargetFacts(env, s.w, ctx.actor);
    if s.Done? {
      RelocateFacts(env, s.w, ctx.actor);
      var moved := Relocate(env, s.w, ctx.actor);
      if moved.Done? {
        RelocatedLater(moved.w, HandleParent(env, w, ctx).w, |s.w.log|, |w.log|, ctx.actor);
      }
    }
  }

  // ── Where carried actors come from ────────────────────────────────────────

  /** Exactly when an event puts an actor in a slot: it proposed itself to us and acknowledged. A booked
      one becomes the inventory if its address is a DID; one noted for dropping is dropped instead. */
  lemma EventGainExact(env: Env, w: World, ctx: Ctx, a: string)
    requires Inv(w.slots) && !Carried(w.slots, a)
    ensures Carried(HandleParent(env, w, ctx).w.slots, a)
            <==> && a == ctx.actor && ProposesUs(w, ctx) && AckAccepted(env, w, ctx)
                 && if w.slots.equipPending == Some(a) then StartsWithDid(a) else a !in w.slots.dropPending
  {
    if w.slots.equipPending != Some(ctx.actor) && ProposesUs(w, ctx) && ctx.actor in w.slots.dropPending {
      var w0 := w.(slots := w.slots.(dropPending := w.slots.dropPending - {ctx.actor}));
      DropTargetFacts(env, Ask(env, w0, Call(ctx.actor, "child", [OneCtx(ctx)])).w, ctx.actor);
    }
  }

  predicate AcknowledgedAt(log: seq<Event>, i: nat, a: string) {
    && i < |log| && log[i].reply.Answer?
    && log[i].request.Call? && log[i].request.target == a && log[i].request.verb == "child"
  }

  lemma GainIsLogged(env: Env, w: World, input: Input, a: string)
    requires Inv(w.slots) && !Carried(w.slots, a) && Carried(Apply(env, w, input).w.slots, a)
    ensures AcknowledgedAt(Apply(env, w, input).w.log, |w.log|, a)
  {
    StepIsSafe(env, w, input);
    var ctx := input.ctx;
    EventGainExact(env, w, ctx, a);
    var ack := Call(a, "child", [OneCtx(ctx)]);
    assert HandleParent(env, w, ctx).w.log == w.log + [Event(ack, env(w.log, ack))];
  }

  /** Over every run of commands and events, an actor that comes to be carried was, on the way, sent
      `child` and answered it. */
  lemma {:induction false} CarriedWasAcknowledged(env: Env, w: World, inputs: seq<Input>, a: string)
    requires Inv(w.slots) && !Carried(w.slots, a) && Carried(Run(env, w, inputs).slots, a)
    ensures exists i: nat :: |w.log| <= i && AcknowledgedAt(Run(env, w, inputs).log, i, a)
    decreases |inputs|
  {
    if inputs != [] {
      var w1, end := Apply(env, w, inputs[0]).w, Run(env, w, inputs);
      StepIsSafe(env, w, inputs[0]);
      RunKeepsInv(env, w1, inputs[1..]);
      if Carried(w1.slots, a) {
        GainIsLogged(env, w, inputs[0], a);
        assert AcknowledgedAt(end.log, |w.log|, a);
      } else {
        CarriedWasAcknowledged(env, w1, inputs[1..], a);
      }
    }
  }
}
