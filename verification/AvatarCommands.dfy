/** What each command, as typed, has done when it returns, and exactly when it returns. */
module AvatarCommands {
  import opened Wrappers
  import opened Resolver
  import opened AvatarSpec
  import opened AvatarProofs
  import opened AvatarEffects
  import opened AvatarExact

  function LastReply(w: World): Reply {
    if w.log == [] then Fail("") else w.log[|w.log| - 1].reply
  }

  /** The slots after a transfer was asked for: the hand is as it was, unless what it held has vanished, and
      the id the request was answered with is remembered. */
  predicate OnlyStarted(s: Slots, w': World) {
    && w'.slots == s.(held := w'.slots.held, pendingActions := Remembering(s.pendingActions, LastReply(w')))
    && (w'.slots.held == s.held || w'.slots.held.None?)
  }

  // ── What was asked of whom ────────────────────────────────────────────────

  /** The container the one name resolves to was asked for the item the other resolves to inside it, last, and
      with the hand already cleared. */
  ghost predicate TookOut(env: Env, w: World, item: string, container: string, w': World) {
    var source := ResolveOne(env, w, container);
    source.Done? &&
    var did := ResolveInContainer(env, source.w, item, source.value);
    && did.Done? && EndsIn(w', Call(source.value, "take", [Text(did.value)]))
    && HandCleared(w, BeforeLast(w')) && OnlyStarted(w.slots, w')
  }

  /** The actor of the room the name resolves to was asked to be held, last, with the hand already cleared. */
  ghost predicate TookHere(env: Env, w: World, item: string, w': World) {
    var entry := ResolveFresh(env, w, item, FromRoom);
    && entry.Done? && EndsIn(w', Call(entry.value.actor, "hold", []))
    && HandCleared(w, BeforeLast(w'))
    && w'.slots == w.slots.(held := w'.slots.held) && (w'.slots.held == w.slots.held || w'.slots.held.None?)
  }

  /** `did` was already the inventory and nothing was done; or it is booked, its proposal was asked for last, by
      `request`, and everything else carried had been relocated. */
  ghost predicate Booked(w: World, did: string, request: Request, w': World) {
    if MyInv(w.slots) == Some(did) then w' == w
    else
      && EndsIn(w', request)
      && w'.slots.equipPending == Some(did) && MyInv(w'.slots).None?
      && (forall a | Carried(w.slots, a) && a != did :: Relocated(BeforeLast(w'), |w.log|, a))
      && w'.slots.dropPending == w.slots.dropPending && w'.slots.pendingActions == w.slots.pendingActions
  }

  ghost predicate EquippedOut(env: Env, w: World, item: string, container: string, w': World) {
    var source := ResolveOne(env, w, container);
    source.Done? &&
    var did := ResolveInContainer(env, source.w, item, source.value);
    did.Done? && Booked(did.w, did.value, Call(source.value, "take", [Text(did.value)]), w')
  }

  ghost predicate EquippedHere(env: Env, w: World, item: string, w': World) {
    var entry := ResolveFresh(env, w, item, FromHandAndRoom);
    entry.Done? && Booked(entry.w, entry.value.actor, Call(entry.value.actor, "hold", []), w')
  }

  /** The actor of the first name was asked, last, to put itself into the actor of the second. */
  predicate PutInto(env: Env, w: World, item: string, container: string, w': World) {
    var pool := PoolOf(env, w, FromAnywhere);
    pool.Done? &&
    var moved := ResolveOrRefresh(env, pool.w, item, pool.value, FromAnywhere);
    moved.Done? &&
    var into := ResolveOrRefresh(env, moved.w, container, pool.value, FromAnywhere);
    && into.Done? && EndsIn(w', Call(moved.value.actor, "put", [Text(into.value.actor)]))
    && OnlyStarted(w.slots, w') && w'.slots.held == w.slots.held
    && w'.log == Then(env, SyncCarried(env, into.w).log, Call(moved.value.actor, "put", [Text(into.value.actor)]))
  }

  ghost predicate DroppedNamed(env: Env, w: World, item: string, w': World) {
    var entry := ResolveFresh(env, w, item, FromCarried);
    && entry.Done?
    && if Carried(w.slots, entry.value.actor) then Released(w, w', entry.value.actor)
       else entry.value.parent.Some? && AskedToDrop(w', entry.value.parent.value, entry.value.actor)
  }

  ghost predicate DroppedOut(env: Env, w: World, item: string, container: string, w': World) {
    var source := ResolveFresh(env, w, container, FromReachable);
    source.Done? &&
    var did := ResolveInContainer(env, source.w, item, source.value.actor);
    did.Done? && AskedToDrop(w', source.value.actor, did.value)
  }

  // ── The grammar of an input ───────────────────────────────────────────────

  /** `s` is what the command's own grammar reads in its words; commands without one read nothing. */
  predicate Phrased(input: Input, s: Split) {
    match input
    case DoTake(words) => Reads(words, "from", false, s)
    case DoEquip(words) => Reads(words, "from", false, s)
    case DoDrop(words) => words != [] ==> Reads(words, "from", false, s)
    case DoPut(words) => Reads(words, "in", true, s)
    case _ => true
  }

  /** Words no grammar reads are refused at once: nothing is asked and no slot changes, but `take` has by then
      cancelled a booking. */
  lemma UnphrasedIsRefused(env: Env, w: World, input: Input)
    requires forall s :: !Phrased(input, s)
    ensures var r := Apply(env, w, input);
            r.Raised? && r.w == if input.DoTake? then w.(slots := w.slots.(equipPending := None)) else w
  {
    assert !Phrased(input, Split([], None));
    match input
    case DoTake(words) => SplitReads(words, "from", TAKE_USAGE, false, input);
    case DoEquip(words) => SplitReads(words, "from", EQUIP_USAGE, false, input);
    case DoDrop(words) => SplitReads(words, "from", DROP_USAGE, false, input);
    case DoPut(words) => SplitReads(words, "in", PUT_USAGE, true, input);
    case _ =>
  }

  lemma SplitReads(words: seq<string>, keyword: string, usage: string, required: bool, input: Input)
    requires forall s | Reads(words, keyword, required, s) :: Phrased(input, s)
    ensures SplitCommand(words, keyword, usage, required).Success? ==> exists s :: Phrased(input, s)
  {
    var r := SplitCommand(words, keyword, usage, required);
    if r.Success? {
      SplitCommandExact(words, keyword, usage, required, r.value);
    }
  }

  // ── What a returning step has done ────────────────────────────────────────

  ghost predicate Achieved(env: Env, w: World, input: Input, s: Split, w': World) {
    var item := JoinWords(s.before);
    match input
    case DoTake(_) =>
      var w0 := w.(slots := w.slots.(equipPending := None));
      (match s.after
       case Some(words) => TookOut(env, w0, item, JoinWords(words), w')
       case None => TookHere(env, w0, item, w'))
    case DoTakeFrom(container, name) => TookOut(env, w, name, container, w')
    case DoFind(did) =>
      && EndsIn(w', Call(did, "name", [])) && EndsIn(BeforeLast(w'), Call(did, "hold", []))
      && HandCleared(w, BeforeLast(BeforeLast(w')))
      && w'.slots == w.slots.(equipPending := None, held := w'.slots.held)
      && (w'.slots.held == w.slots.held || w'.slots.held.None?)
    case DoEquip(_) =>
      (match s.after
       case Some(words) => EquippedOut(env, w, item, JoinWords(words), w')
       case None => EquippedHere(env, w, item, w'))
    case DoUnequip(_) =>
      && MyInv(w.slots).Some? && Holds(w'.slots, MyInv(w.slots).value) && HandCleared(w, w')
      && w'.slots == w.slots.(held := w'.slots.held, invEntry := None, inv := None)
      && (w.slots.invEntry.Some? ==> w'.slots.held == w.slots.invEntry)
    case DoKeep(_) =>
      && w.slots.held.Some? && MyInv(w.slots).Some?
      && EndsIn(w', Call(w.slots.held.value.actor, "put", [Text(MyInv(w.slots).value)]))
      && w' == w.(log := w'.log, slots := w.slots.(pendingActions := w'.slots.pendingActions))
      && w'.slots.pendingActions == Remembering(w.slots.pendingActions, LastReply(w'))
      && w'.log == Then(env, SyncCarried(env, w).log, Call(w.slots.held.value.actor, "put", [Text(MyInv(w.slots).value)]))
    case DoPut(_) => s.after.Some? && PutInto(env, w, item, JoinWords(s.after.value), w')
    case DoDrop(words) =>
      if words == [] then w.slots.held.Some? && Released(w, w', w.slots.held.value.actor)
      else
        (match s.after
         case Some(rest) => DroppedOut(env, w, item, JoinWords(rest), w')
         case None => DroppedNamed(env, w, item, w'))
    case DoForge(kind, rest) =>
      && rest != [] && rest[0] == "named" && w.room.Some? && HandCleared(w, BeforeLast(w'))
      && var target := ResolveOne(env, DropHeld(env, w).w, w.room.value);
         target.Done? && EndsIn(w', Call(target.value, "forge", [Fields(map["kind" := kind, "name" := JoinWords(rest[1..])])]))
    case Parent(ctx) => Own(w, ctx) ==> AckAccepted(env, w, ctx)
    case ActionDone(id) => w' == w.(slots := w.slots.(pendingActions := w.slots.pendingActions - {id}))
    case Entered(room) => w' == w.(room := Some(room))
  }

  lemma TakeOutAchieves(env: Env, w: World, item: string, container: string)
    requires Inv(w.slots) && TakeOut(env, w, item, container).Done?
    ensures TookOut(env, w, item, container, TakeOut(env, w, item, container).w)
  {
    var w' := TakeOut(env, w, item, container).w;
    TakeOutDone(env, w, item, container);
    var source := ResolveOne(env, w, container);
    DropHeldFacts(env, ResolveInContainer(env, source.w, item, source.value).w);
  }

  lemma TakeHereAchieves(env: Env, w: World, item: string)
    requires Inv(w.slots) && TakeHere(env, w, item).Done?
    ensures TookHere(env, w, item, TakeHere(env, w, item).w)
  {
    TakeHereDone(env, w, item);
    DropHeldFacts(env, ResolveFresh(env, w, item, FromRoom).w);
  }

  lemma EquipAchieves(env: Env, w: World, did: string, via: Proposal)
    requires Inv(w.slots) && EquipPropose(env, w, did, via).Done?
    ensures Booked(w, did, ProposalRequest(did, via), EquipPropose(env, w, did, via).w)
  {
    EquipProposeFacts(env, w, did, via);
    if MyInv(w.slots) != Some(did) {
      EquipClearsTheWay(env, w, did, via);
      EquipKeepsNotes(env, w, did, via);
    }
  }

  lemma EquipKeepsNotes(env: Env, w: World, did: string, via: Proposal)
    requires Inv(w.slots)
    ensures var s := EquipPropose(env, w, did, via).w.slots;
            s.dropPending == w.slots.dropPending && s.pendingActions == w.slots.pendingActions
  {
    hide DropHeld, UnequipToHand;
    var s1 := Ask(env, w, Call(did, "kind?", []));
    var w1 := s1.w.(slots := s1.w.slots.(equipPending := Some(did)));
    var worn := MyInv(w.slots);
    var s2 := if worn.Some? then SwapToHand(env, w1, worn.value) else Done(w1, ());
    if worn.Some? {
      SwapToHandFacts(env, w1, worn.value);
    }
    if s2.Done? {
      DropHeldFacts(env, s2.w);
    }
  }

  lemma EquipOutAchieves(env: Env, w: World, item: string, container: string)
    requires Inv(w.slots) && EquipOut(env, w, item, container).Done?
    ensures EquippedOut(env, w, item, container, EquipOut(env, w, item, container).w)
  {
    hide EquipPropose;
    var source := ResolveOne(env, w, container);
    var did := ResolveInContainer(env, source.w, item, source.value);
    EquipAchieves(env, did.w, did.value, ByTake(source.value));
  }

  lemma EquipHereAchieves(env: Env, w: World, item: string)
    requires Inv(w.slots) && EquipHere(env, w, item).Done?
    ensures EquippedHere(env, w, item, EquipHere(env, w, item).w)
  {
    hide EquipPropose;
    var entry := ResolveFresh(env, w, item, FromHandAndRoom);
    EquipAchieves(env, entry.w, entry.value.actor, ByHold);
  }

  lemma PutAchieves(env: Env, w: World, item: string, container: string)
    requires PutIn(env, w, item, container).Done?
    ensures PutInto(env, w, item, container, PutIn(env, w, item, container).w)
  {
    PutDone(env, w, item, container);
  }

  lemma TakeAchieves(env: Env, w: World, words: seq<string>, s: Split)
    requires Inv(w.slots) && Reads(words, "from", false, s) && Take(env, w, words).Done?
    ensures Achieved(env, w, DoTake(words), s, Take(env, w, words).w)
  {
    hide TakeOut, TakeHere, TookOut, TookHere;
    SplitCommandExact(words, "from", TAKE_USAGE, false, s);
    if s.after.Some? {
      TakeOutAchieves(env, Unbook(w), JoinWords(s.before), JoinWords(s.after.value));
    } else {
      TakeHereAchieves(env, Unbook(w), JoinWords(s.before));
    }
  }

  lemma EquipCommandAchieves(env: Env, w: World, words: seq<string>, s: Split)
    requires Inv(w.slots) && Reads(words, "from", false, s) && Equip(env, w, words).Done?
    ensures Achieved(env, w, DoEquip(words), s, Equip(env, w, words).w)
  {
    hide EquipOut, EquipHere, EquippedOut, EquippedHere;
    SplitCommandExact(words, "from", EQUIP_USAGE, false, s);
    if s.after.Some? {
      EquipOutAchieves(env, w, JoinWords(s.before), JoinWords(s.after.value));
    } else {
      EquipHereAchieves(env, w, JoinWords(s.before));
    }
  }

  lemma PutCommandAchieves(env: Env, w: World, words: seq<string>, s: Split)
    requires Reads(words, "in", true, s) && Put(env, w, words).Done?
    ensures Achieved(env, w, DoPut(words), s, Put(env, w, words).w)
  {
    hide PutIn, PutInto;
    SplitCommandExact(words, "in", PUT_USAGE, true, s);
    PutAchieves(env, w, JoinWords(s.before), JoinWords(s.after.value));
  }

  lemma DropCommandAchieves(env: Env, w: World, words: seq<string>, s: Split)
    requires Inv(w.slots) && Phrased(DoDrop(words), s) && Drop(env, w, words).Done?
    ensures Achieved(env, w, DoDrop(words), s, Drop(env, w, words).w)
  {
    if words == [] {
      DropHandDone(env, w);
    } else {
      hide DropOut, DropNamed;
      SplitCommandExact(words, "from", DROP_USAGE, false, s);
      if s.after.Some? {
        DropOutDone(env, w, JoinWords(s.before), JoinWords(s.after.value));
      } else {
        DropNamedDone(env, w, JoinWords(s.before));
      }
    }
  }

  lemma FindAchieves(env: Env, w: World, did: string)
    requires Inv(w.slots) && Find(env, w, did).Done?
    ensures Achieved(env, w, DoFind(did), Split([], None), Find(env, w, did).w)
  {
    FindDone(env, w, did);
    DropHeldFacts(env, Ask(env, Unbook(w), Call(did, "parent?", [])).w);
  }

  lemma KeepAchieves(env: Env, w: World, words: seq<string>)
    requires Keep(env, w, words).Done?
    ensures Achieved(env, w, DoKeep(words), Split([], None), Keep(env, w, words).w)
  {
    hide SyncCarried, ResolveOneEntry;
  }

  /** Whatever the input: a step that returns has done what the command says, to whom its words say. */
  lemma StepAchieves(env: Env, w: World, input: Input, s: Split)
    requires Inv(w.slots) && Phrased(input, s)
    ensures Apply(env, w, input).Done? ==> Achieved(env, w, input, s, Apply(env, w, input).w)
  {
    if Apply(env, w, input).Done? {
      hide Take, TakeFrom, Find, Equip, Unequip, Keep, Put, Drop, Forge, HandleParent;
      match input
      case DoTake(words) => TakeAchieves(env, w, words, s);
      case DoTakeFrom(container, name) => TakeFromAchieves(env, w, container, name);
      case DoFind(did) => FindAchieves(env, w, did);
      case DoEquip(words) => EquipCommandAchieves(env, w, words, s);
      case DoUnequip(words) => UnequipDone(env, w, words);
      case DoKeep(words) => KeepAchieves(env, w, words);
      case DoPut(words) => PutCommandAchieves(env, w, words, s);
      case DoDrop(words) => DropCommandAchieves(env, w, words, s);
      case DoForge(kind, rest) => ForgeDone(env, w, kind, rest);
      case Parent(ctx) => ProposalAchieves(env, w, ctx);
      case ActionDone(_) =>
      case Entered(_) =>
    }
  }

  lemma TakeFromAchieves(env: Env, w: World, container: string, name: string)
    requires Inv(w.slots) && TakeFrom(env, w, container, name).Done?
    ensures TookOut(env, w, name, container, TakeFrom(env, w, container, name).w)
  {
    hide TakeOut, TookOut;
    TakeOutAchieves(env, w, name, container);
  }

  lemma ProposalAchieves(env: Env, w: World, ctx: Ctx)
    requires HandleParent(env, w, ctx).Done?
    ensures Own(w, ctx) ==> AckAccepted(env, w, ctx)
  {
  }

  // ── What a raise says ─────────────────────────────────────────────────────

  predicate Begins(text: string, error: string) {
    text <= error
  }

  /** A command that raises puts what the user was trying to do, with the names as typed, before the reason. */
  lemma RaiseNamesTheCommand(env: Env, w: World, input: Input, s: Split)
    requires Phrased(input, s) && Apply(env, w, input).Raised?
    ensures var item := JoinWords(s.before);
            var error := Apply(env, w, input).error;
            match input
            case DoTake(_) => Begins("could not take " + item, error)
            case DoTakeFrom(container, name) => Begins("could not take " + name + " from " + container, error)
            case DoEquip(_) => Begins("could not equip " + item, error)
            case DoPut(_) => s.after.Some? && Begins("could not put " + item + " in " + JoinWords(s.after.value), error)
            case DoDrop(words) => words != [] ==> Begins("could not drop " + item, error)
            case DoFind(did) => StartsWithDid(did) ==> Begins("could not find " + did, error)
            case _ => true
  {
    hide TakeOut, TakeHere, EquipOut, EquipHere, PutIn, DropOut, DropNamed, FindReach;
    hide Unequip, Keep, Forge, HandleParent;
    match input
    case DoTake(words) => SplitCommandExact(words, "from", TAKE_USAGE, false, s);
    case DoEquip(words) => SplitCommandExact(words, "from", EQUIP_USAGE, false, s);
    case DoPut(words) => SplitCommandExact(words, "in", PUT_USAGE, true, s);
    case DoDrop(words) =>
      if words != [] {
        SplitCommandExact(words, "from", DROP_USAGE, false, s);
      }
    case _ =>
  }
}
