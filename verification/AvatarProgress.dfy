/** When commands return: with every request granted, exactly if what they name exists and fits. */
module AvatarProgress {
  import opened Wrappers
  import opened Resolver
  import opened AvatarSpec
  import opened AvatarProofs
  import opened AvatarExact
  import opened AvatarNames
  import opened AvatarCommands

  /** No request is ever refused; what it is answered with is still up to the other actors. */
  ghost predicate Granting(env: Env) {
    forall log: seq<Event>, request: Request :: env(log, request).Answer?
  }

  // ── What a command needs ──────────────────────────────────────────────────

  /** The container resolves, and so does the item inside it. */
  predicate FoundInside(env: Env, w: World, item: string, container: string) {
    var source := ResolveOne(env, w, container);
    source.Done? && ResolveInContainer(env, source.w, item, source.value).Done?
  }

  /** The word, if there is one, names this very actor among the entries. */
  predicate Names(words: seq<string>, pool: seq<Ctx>, actor: string) {
    words == [] ||
    var entry := ResolveOneEntry(JoinWords(words), pool);
    entry.Success? && entry.value.actor == actor
  }

  predicate AnswersAsContainer(env: Env, w: World, did: string) {
    env(w.log, Call(did, "kind?", [])) == Answer(Text("/ma/container/0.0.1"))
  }

  predicate Equippable(env: Env, w: World, did: string) {
    MyInv(w.slots) == Some(did) || AnswersAsContainer(env, w, did)
  }

  /** The actor's own parent is the room, the avatar or the equipped inventory, and after it was held it answers
      its name with a text. */
  predicate Reachable(env: Env, w: World, did: string)
    requires w.room.Some?
  {
    var w1 := w.(log := Then(env, w.log, Call(did, "parent?", [])));
    var parent := env(w.log, Call(did, "parent?", []));
    var held := Then(env, DropHeld(env, w1).w.log, Call(did, "hold", []));
    var name := env(held, Call(did, "name", []));
    && (parent == Answer(Text(w.room.value)) || parent == Answer(Text(w.self))
        || (MyInv(w.slots).Some? && parent == Answer(Text(MyInv(w.slots).value))))
    && name.Answer? && name.value.Text?
  }

  predicate Feasible(env: Env, w: World, input: Input, s: Split)
    requires w.room.Some?
  {
    var item := JoinWords(s.before);
    var w0 := w.(slots := w.slots.(equipPending := None));
    match input
    case DoTake(_) =>
      (match s.after
       case Some(words) => FoundInside(env, w0, item, JoinWords(words))
       case None => ResolveFresh(env, w0, item, FromRoom).Done?)
    case DoTakeFrom(container, name) => FoundInside(env, w, name, container)
    case DoFind(did) => "did:ma:" <= did && Reachable(env, w0, did)
    case DoEquip(_) =>
      (match s.after
       case Some(words) =>
         && FoundInside(env, w, item, JoinWords(words))
         && var source := ResolveOne(env, w, JoinWords(words));
            var did := ResolveInContainer(env, source.w, item, source.value);
            Equippable(env, did.w, did.value)
       case None =>
         var entry := ResolveFresh(env, w, item, FromHandAndRoom);
         entry.Done? && Equippable(env, entry.w, entry.value.actor))
    case DoUnequip(words) =>
      MyInv(w.slots).Some? && Names(words, InventoryPool(env, w).1, MyInv(w.slots).value)
    case DoKeep(words) =>
      && w.slots.held.Some? && MyInv(w.slots).Some?
      && Names(words, Held(w.slots), w.slots.held.value.actor)
    case DoPut(_) =>
      var pool := PoolOf(env, w, FromAnywhere);
      s.after.Some? && pool.Done? &&
      var moved := ResolveOrRefresh(env, pool.w, item, pool.value, FromAnywhere);
      moved.Done? && ResolveOrRefresh(env, moved.w, JoinWords(s.after.value), pool.value, FromAnywhere).Done?
    case DoDrop(words) =>
      if words == [] then w.slots.held.Some?
      else
        (match s.after
         case Some(rest) =>
           var source := ResolveFresh(env, w, JoinWords(rest), FromReachable);
           source.Done? && ResolveInContainer(env, source.w, item, source.value.actor).Done?
         case None =>
           var entry := ResolveFresh(env, w, item, FromCarried);
           entry.Done? && (Carried(w.slots, entry.value.actor) || entry.value.parent.Some?))
    case DoForge(_, rest) =>
      && rest != [] && rest[0] == "named" && !("did:ma:" <= JoinWords(rest[1..]))
      && ResolveOne(env, DropHeld(env, w).w, w.room.value).Done?
    case _ => true
  }

  // ── Granted, the moves succeed ────────────────────────────────────────────

  lemma GrantedDropHeld(env: Env, w: World)
    requires Granting(env) && w.room.Some?
    ensures DropHeld(env, w).Done? && DropHeld(env, w).w.slots == w.slots && DropHeld(env, w).w.room == w.room
  {
    DropHeldExact(env, w);
  }

  lemma GrantedDropTarget(env: Env, w: World, target: string)
    requires Granting(env) && w.room.Some?
    ensures DropTarget(env, w, target).Done?
  {
    DropTargetExact(env, w, target);
  }

  lemma GrantedTakeOut(env: Env, w: World, item: string, container: string)
    requires Granting(env) && w.room.Some?
    ensures TakeOut(env, w, item, container).Done? <==> FoundInside(env, w, item, container)
  {
    if FoundInside(env, w, item, container) {
      var source := ResolveOne(env, w, container);
      GrantedDropHeld(env, ResolveInContainer(env, source.w, item, source.value).w);
    }
  }

  lemma GrantedTake(env: Env, w: World, words: seq<string>, s: Split)
    requires Granting(env) && w.room.Some? && Reads(words, "from", false, s)
    ensures Take(env, w, words).Done? <==> Feasible(env, w, DoTake(words), s)
  {
    SplitCommandExact(words, "from", TAKE_USAGE, false, s);
    var item, w0 := JoinWords(s.before), Unbook(w);
    if s.after.Some? {
      GrantedTakeOut(env, w0, item, JoinWords(s.after.value));
    } else {
      var entry := ResolveFresh(env, w0, item, FromRoom);
      if entry.Done? {
        GrantedDropHeld(env, entry.w);
      }
    }
  }

  lemma GrantedFind(env: Env, w: World, did: string)
    requires Granting(env) && w.room.Some?
    ensures Find(env, w, did).Done? <==> Feasible(env, w, DoFind(did), Split([], None))
  {
    GrantedDropHeld(env, Ask(env, Unbook(w), Call(did, "parent?", [])).w);
  }

  lemma GrantedProposal(env: Env, w: World, did: string, via: Proposal)
    requires Granting(env) && w.room.Some?
    ensures EquipPropose(env, w, did, via).Done? <==> Equippable(env, w, did)
  {
    var s1 := Ask(env, w, Call(did, "kind?", []));
    var w1 := s1.w.(slots := s1.w.slots.(equipPending := Some(did)));
    var worn := MyInv(w.slots);
    GrantedDropHeld(env, w1);
    if worn.Some? {
      var w2 := SwapToHand(env, w1, worn.value).w;
      UnequipToHandExact(env, DropHeld(env, w1).w, worn.value);
      GrantedDropHeld(env, w2);
    }
  }

  lemma GrantedEquip(env: Env, w: World, words: seq<string>, s: Split)
    requires Granting(env) && w.room.Some? && Reads(words, "from", false, s)
    ensures Equip(env, w, words).Done? <==> Feasible(env, w, DoEquip(words), s)
  {
    hide EquipPropose, Equippable;
    SplitCommandExact(words, "from", EQUIP_USAGE, false, s);
    var item := JoinWords(s.before);
    if s.after.Some? {
      var source := ResolveOne(env, w, JoinWords(s.after.value));
      if source.Done? {
        var did := ResolveInContainer(env, source.w, item, source.value);
        if did.Done? {
          GrantedProposal(env, did.w, did.value, ByTake(source.value));
        }
      }
    } else {
      var entry := ResolveFresh(env, w, item, FromHandAndRoom);
      if entry.Done? {
        GrantedProposal(env, entry.w, entry.value.actor, ByHold);
      }
    }
  }

  lemma GrantedUnequip(env: Env, w: World, words: seq<string>)
    requires Granting(env) && w.room.Some?
    ensures Unequip(env, w, words).Done? <==> Feasible(env, w, DoUnequip(words), Split([], None))
  {
    var w1 := if words == [] then w else InventoryPool(env, w).0;
    GrantedDropHeld(env, w1);
  }

  lemma GrantedKeep(env: Env, w: World, words: seq<string>)
    requires Granting(env) && w.room.Some?
    ensures Keep(env, w, words).Done? <==> Feasible(env, w, DoKeep(words), Split([], None))
  {
    hide SyncCarried;
  }

  lemma GrantedPut(env: Env, w: World, words: seq<string>, s: Split)
    requires Granting(env) && w.room.Some? && Reads(words, "in", true, s)
    ensures Put(env, w, words).Done? <==> Feasible(env, w, DoPut(words), s)
  {
    hide PoolOf, ResolveOrRefresh, SyncCarried;
    SplitCommandExact(words, "in", PUT_USAGE, true, s);
  }

  lemma GrantedDropNamed(env: Env, w: World, item: string)
    requires Granting(env) && w.room.Some?
    ensures var entry := ResolveFresh(env, w, item, FromCarried);
            DropNamed(env, w, item).Done? <==>
              entry.Done? && (Carried(w.slots, entry.value.actor) || entry.value.parent.Some?)
  {
    hide ResolveFresh, DropTarget;
    var entry := ResolveFresh(env, w, item, FromCarried);
    if entry.Done? {
      GrantedDropTarget(env, entry.w, entry.value.actor);
    }
  }

  lemma GrantedDrop(env: Env, w: World, words: seq<string>, s: Split)
    requires Granting(env) && w.room.Some? && Phrased(DoDrop(words), s)
    ensures Drop(env, w, words).Done? <==> Feasible(env, w, DoDrop(words), s)
  {
    hide ResolveFresh, ResolveInContainer, DropTarget;
    if words == [] {
      if w.slots.held.Some? {
        GrantedDropTarget(env, w, w.slots.held.value.actor);
      }
    } else {
      SplitCommandExact(words, "from", DROP_USAGE, false, s);
      if s.after.None? {
        hide DropNamed;
        GrantedDropNamed(env, w, JoinWords(s.before));
      }
    }
  }

  lemma GrantedForge(env: Env, w: World, kind: string, rest: seq<string>)
    requires Granting(env) && w.room.Some?
    ensures Forge(env, w, kind, rest).Done? <==> Feasible(env, w, DoForge(kind, rest), Split([], None))
  {
    hide ResolveOne, DropHeld, JoinWords;
    GrantedDropHeld(env, w);
  }

  lemma GrantedEvent(env: Env, w: World, ctx: Ctx)
    requires Granting(env) && w.room.Some? && Inv(w.slots)
    ensures HandleParent(env, w, ctx).Done?
  {
    var s := Ask(env, w.(slots := w.slots.(dropPending := w.slots.dropPending - {ctx.actor})),
                 Call(ctx.actor, "child", [OneCtx(ctx)]));
    GrantedDropTarget(env, s.w, ctx.actor);
  }

  /** With a room, and nothing refused, a step returns if and only if its words name what the command is for;
      an event always does. */
  lemma StepReturns(env: Env, w: World, input: Input, s: Split)
    requires Inv(w.slots) && Granting(env) && w.room.Some? && Phrased(input, s)
    ensures Apply(env, w, input).Done? <==> Feasible(env, w, input, s)
  {
    hide Take, TakeOut, Find, Equip, Unequip, Keep, Put, Drop, Forge, HandleParent;
    hide FoundInside, Names, Equippable, Reachable;
    match input
    case DoTake(words) => GrantedTake(env, w, words, s);
    case DoTakeFrom(container, name) => GrantedTakeOut(env, w, name, container);
    case DoFind(did) => GrantedFind(env, w, did);
    case DoEquip(words) => GrantedEquip(env, w, words, s);
    case DoUnequip(words) => GrantedUnequip(env, w, words);
    case DoKeep(words) => GrantedKeep(env, w, words);
    case DoPut(words) => GrantedPut(env, w, words, s);
    case DoDrop(words) => GrantedDrop(env, w, words, s);
    case DoForge(kind, rest) => GrantedForge(env, w, kind, rest);
    case Parent(ctx) => GrantedEvent(env, w, ctx);
    case ActionDone(_) =>
    case Entered(_) =>
  }
}
