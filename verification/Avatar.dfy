/** The avatar's globals as the fields of an object, updated in place by the commands of `lib/avatar.zscheme`. */
module Avatars {
  import opened Wrappers
  import opened Resolver
  import opened AvatarSpec
  import AvatarProofs

  /** A body ended where its specification ends: same world, same outcome. */
  predicate Ends<T(==)>(step: Step<T>, w: World, r: Result<T>) {
    w == step.w && r == step.Outcome()
  }

  function Context<T>(description: string, r: Result<T>): Result<T> {
    match r
    case Success(_) => r
    case Failure(e) => Failure(description + " \U{2014} " + e)
  }

  class Avatar {
    const env: Env
    const self: string
    var room: Option<string>
    var held: Option<Ctx>
    var invEntry: Option<Ctx>
    var inv: Option<string>
    var equipPending: Option<string>
    var dropPending: set<string>
    var pendingActions: set<string>
    var log: seq<Event>

    function State(): World
      reads this
    {
      World(self, room, Slots(held, invEntry, inv, equipPending, dropPending, pendingActions), log)
    }

    /** After a reload only the persisted room and inventory pointer survive. */
    constructor (env: Env, self: string, room: Option<string>, inv: Option<string>)
      ensures this.env == env
      ensures State() == World(self, room, Slots(None, None, inv, None, {}, {}), [])
      ensures AvatarProofs.Inv(State().slots)
    {
      this.env, this.self, this.room, this.inv := env, self, room, inv;
      held, invEntry, equipPending := None, None, None;
      dropPending, pendingActions, log := {}, {}, [];
    }

    method Ask(request: Request) returns (r: Result<Term>)
      modifies `log
      ensures Ends(AvatarSpec.Ask(env, old(State()), request), State(), r)
    {
      var reply := env(log, request);
      log := log + [Event(request, reply)];
      match reply {
        case Answer(v) => r := Success(v);
        case Fail(m) => r := Failure(m);
      }
    }

    /** A resolver call: it only queries, so only the trace grows. */
    method Query<T>(step: Step<T>) returns (r: Result<T>)
      requires Quiet(State(), step.w)
      modifies `log
      ensures State() == step.w && r == step.Outcome()
    {
      log := step.w.log;
      r := step.Outcome();
    }

    method RoomPath() returns (r: Result<string>)
      ensures Ends(AvatarSpec.RoomOf(State()), State(), r)
    {
      r := if room.Some? then Success(room.value) else Failure("no value at .my.ctx.room");
    }

    function Inventory(): Option<string>
      reads this
    {
      MyInv(State().slots)
    }

    method PendingStore(reply: Term)
      modifies `pendingActions
      ensures State() == StorePending(old(State()), reply)
    {
      if reply.Text? {
        pendingActions := pendingActions + {reply.text};
      }
    }

    // ── Slot moves ──────────────────────────────────────────────────────────

    method ForgetStaleSlots(target: string)
      modifies `held, `inv, `invEntry
      ensures State() == old(State()).(slots := Forget(old(State()).slots, target))
    {
      if held.Some? && held.value.actor == target {
        held := None;
      }
      if Inventory() == Some(target) {
        invEntry := None;
        inv := None;
      }
    }

    method RelocateToRoom(target: string) returns (r: Result<bool>)
      modifies this
      ensures Ends(AvatarSpec.Relocate(env, old(State()), target), State(), r)
    {
      var here :- RoomPath();
      var _ :- Ask(Call(here, "drop", [Text(target)]));
      var sent := Ask(Call(target, "set-parent", [Text(here)]));
      match sent {
        case Success(_) => return Success(true);
        case Failure(e) =>
          if UnknownFragment(e) {
            ForgetStaleSlots(target);
            return Success(false);
          }
          return Failure(e);
      }
    }

    method DropHeldToRoom() returns (r: Result<()>)
      modifies this
      ensures Ends(AvatarSpec.DropHeld(env, old(State())), State(), r)
    {
      if held.Some? && Inventory() != Some(held.value.actor) {
        var _ :- RelocateToRoom(held.value.actor);
      }
      return Success(());
    }

    method UnequipToHand(inventory: string)
      modifies this
      ensures State() == AvatarSpec.UnequipToHand(env, old(State()), inventory)
    {
      if invEntry.Some? {
        held := invEntry;
      } else {
        var (w, ctx) := DisplayCtx(env, State(), inventory);
        log := w.log;
        held := Some(ctx);
      }
      invEntry := None;
      inv := None;
    }

    method BookInventory(did: string, ctx: Ctx) returns (r: Result<()>)
      modifies this
      ensures Ends(AvatarSpec.BookInventory(env, old(State()), did, ctx), State(), r)
    {
      var worn := Inventory();
      if worn.Some? && worn.value != did {
        var _ :- RelocateToRoom(worn.value);
      }
      invEntry := Some(ctx);
      inv := Some(did);
      return Success(());
    }

    method DropTargetToRoom(target: string) returns (r: Result<()>)
      modifies this
      ensures Ends(AvatarSpec.DropTarget(env, old(State()), target), State(), r)
    {
      var _ :- RelocateToRoom(target);
      if Inventory() == Some(target) {
        inv := None;
      }
      return Success(());
    }

    method TakeThenDrop(container: string, item: string) returns (r: Result<()>)
      modifies this
      ensures Ends(AvatarSpec.TakeThenDrop(env, old(State()), container, item), State(), r)
    {
      dropPending := dropPending + {item};
      var id := Ask(Call(container, "take", [Text(item)]));
      if id.Failure? {
        dropPending := dropPending - {item};
        return Failure(id.error);
      }
      PendingStore(id.value);
      return Success(());
    }

    method SyncCarriedHere()
      modifies `log
      ensures State() == SyncCarried(env, old(State()))
    {
      if room.Some? && StartsWithDid(room.value) {
        if held.Some? {
          var _ := Ask(Call(held.value.actor, "here", [Text(room.value)]));
        }
        if Inventory().Some? {
          var _ := Ask(Call(Inventory().value, "here", [Text(room.value)]));
        }
      }
    }

    // ── The handshake ───────────────────────────────────────────────────────

    method HandleAvatarParent(ctx: Ctx) returns (r: Result<()>)
      modifies this
      ensures Ends(HandleParent(env, old(State()), ctx), State(), r)
      ensures old(AvatarProofs.Inv(State().slots)) ==> AvatarProofs.Inv(State().slots)
    {
      ghost var w := State();
      if AvatarProofs.Inv(w.slots) {
        AvatarProofs.HandleParentKeepsInv(env, w, ctx);
      }
      var actor := ctx.actor;
      var ours := ProposesUs(State(), ctx);
      if equipPending == Some(actor) && ours {
        var _ :- Ask(Call(actor, "child", [OneCtx(ctx)]));
        equipPending := None;
        if held.Some? && held.value.actor == actor {
          held := None;
        }
        r := BookInventory(actor, ctx);
      } else if ours && actor in dropPending {
        dropPending := dropPending - {actor};
        var _ :- Ask(Call(actor, "child", [OneCtx(ctx)]));
        r := DropTargetToRoom(actor);
      } else if ours {
        var _ :- Ask(Call(actor, "child", [OneCtx(ctx)]));
        if Inventory() == Some(actor) {
          invEntry := Some(ctx);
        } else {
          held := Some(ctx);
        }
        r := Success(());
      } else {
        if held.Some? && held.value.actor == actor {
          held := None;
        }
        r := Success(());
      }
    }

    // ── Commands ────────────────────────────────────────────────────────────

    method TakeOut(item: string, container: string) returns (r: Result<()>)
      modifies this
      ensures Ends(AvatarSpec.TakeOut(env, old(State()), item, container), State(), r)
    {
      var source :- Query(ResolveOne(env, State(), container));
      var did :- Query(ResolveInContainer(env, State(), item, source));
      var _ :- DropHeldToRoom();
      var id :- Ask(Call(source, "take", [Text(did)]));
      PendingStore(id);
      return Success(());
    }

    method TakeHere(item: string) returns (r: Result<()>)
      modifies this
      ensures Ends(AvatarSpec.TakeHere(env, old(State()), item), State(), r)
    {
      var entry :- Query(ResolveFresh(env, State(), item, FromRoom));
      var _ :- DropHeldToRoom();
      var _ :- Ask(Call(entry.actor, "hold", []));
      return Success(());
    }

    method Take(words: seq<string>) returns (r: Result<()>)
      modifies this
      ensures Ends(AvatarSpec.Take(env, old(State()), words), State(), r)
      ensures old(AvatarProofs.Inv(State().slots)) ==> AvatarProofs.Safe(old(State()), State())
    {
      if AvatarProofs.Inv(State().slots) {
        AvatarProofs.TakeSafe(env, State(), words);
      }
      equipPending := None;
      var s :- SplitCommand(words, "from", TAKE_USAGE, false);
      var item := JoinWords(s.before);
      if s.after.Some? {
        var container := JoinWords(s.after.value);
        r := TakeOut(item, container);
        r := Context("could not take " + item + " from " + container, r);
      } else {
        r := TakeHere(item);
        r := Context("could not take " + item, r);
      }
    }

    method TakeFrom(container: string, name: string) returns (r: Result<()>)
      modifies this
      ensures Ends(AvatarSpec.TakeFrom(env, old(State()), container, name), State(), r)
      ensures old(AvatarProofs.Inv(State().slots)) ==> AvatarProofs.Safe(old(State()), State())
    {
      if AvatarProofs.Inv(State().slots) {
        AvatarProofs.TakeFromSafe(env, State(), container, name);
      }
      r := TakeOut(name, container);
      r := Context("could not take " + name + " from " + container, r);
    }

    method EquipTransfer(did: string, via: Proposal) returns (r: Result<()>)
      modifies this
      ensures Ends(AvatarSpec.EquipTransfer(env, old(State()), did, via), State(), r)
    {
      var worn := Inventory();
      if worn.Some? {
        var _ :- DropHeldToRoom();
        UnequipToHand(worn.value);
      }
      if !(held.Some? && held.value.actor == did) {
        var _ :- DropHeldToRoom();
      }
      var _ :- Ask(ProposalRequest(did, via));
      return Success(());
    }

    method EquipPropose(did: string, via: Proposal) returns (r: Result<()>)
      modifies this
      ensures Ends(AvatarSpec.EquipPropose(env, old(State()), did, via), State(), r)
    {
      if Inventory() == Some(did) {
        return Success(());
      }
      var kind :- Ask(Call(did, "kind?", []));
      if kind != Text(CONTAINER) {
        return Failure("invalid inventory kind");
      }
      equipPending := Some(did);
      r := EquipTransfer(did, via);
      if r.Failure? {
        equipPending := None;
      }
    }

    method EquipOut(item: string, container: string) returns (r: Result<()>)
      modifies this
      ensures Ends(AvatarSpec.EquipOut(env, old(State()), item, container), State(), r)
    {
      var source :- Query(ResolveOne(env, State(), container));
      var did :- Query(ResolveInContainer(env, State(), item, source));
      r := EquipPropose(did, ByTake(source));
    }

    method EquipHere(item: string) returns (r: Result<()>)
      modifies this
      ensures Ends(AvatarSpec.EquipHere(env, old(State()), item), State(), r)
    {
      var entry :- Query(ResolveFresh(env, State(), item, FromHandAndRoom));
      r := EquipPropose(entry.actor, ByHold);
    }

    method Equip(words: seq<string>) returns (r: Result<()>)
      modifies this
      ensures Ends(AvatarSpec.Equip(env, old(State()), words), State(), r)
      ensures old(AvatarProofs.Inv(State().slots)) ==> AvatarProofs.Safe(old(State()), State())
    {
      if AvatarProofs.Inv(State().slots) {
        AvatarProofs.EquipSafe(env, State(), words);
      }
      var s :- SplitCommand(words, "from", EQUIP_USAGE, false);
      var item := JoinWords(s.before);
      if s.after.Some? {
        var container := JoinWords(s.after.value);
        r := EquipOut(item, container);
        r := Context("could not equip " + item + " from " + container, r);
      } else {
        r := EquipHere(item);
        r := Context("could not equip " + item, r);
      }
    }

    method Unequip(words: seq<string>) returns (r: Result<()>)
      modifies this
      ensures Ends(AvatarSpec.Unequip(env, old(State()), words), State(), r)
      ensures old(AvatarProofs.Inv(State().slots)) ==> AvatarProofs.Safe(old(State()), State())
    {
      if AvatarProofs.Inv(State().slots) {
        AvatarProofs.UnequipSafe(env, State(), words);
      }
      var worn := Inventory();
      if worn.None? {
        return Failure("no inventory equipped");
      }
      var name := JoinWords(words);
      if words != [] {
        var (w, pool) := InventoryPool(env, State());
        log := w.log;
        var named := ResolveOneEntry(name, pool);
        if named.Failure? || named.value.actor != worn.value {
          return Failure(name + " is not your equipped inventory");
        }
      }
      r := DropHeldToRoom();
      if r.Success? {
        UnequipToHand(worn.value);
      }
      r := Context(if words == [] then "could not unequip it" else "could not unequip " + name, r);
    }

    method KeepHeld(target: string) returns (r: Result<()>)
      modifies `log, `pendingActions
      ensures Ends(AvatarSpec.KeepHeld(env, old(State()), target), State(), r)
    {
      var worn := Inventory();
      if worn.None? {
        return Failure("no inventory equipped");
      }
      SyncCarriedHere();
      var id :- Ask(Call(target, "put", [Text(worn.value)]));
      PendingStore(id);
      return Success(());
    }

    method Keep(words: seq<string>) returns (r: Result<()>)
      modifies `log, `pendingActions
      ensures Ends(AvatarSpec.Keep(env, old(State()), words), State(), r)
      ensures old(AvatarProofs.Inv(State().slots)) ==> AvatarProofs.Safe(old(State()), State())
    {
      if AvatarProofs.Inv(State().slots) {
        AvatarProofs.KeepSafe(env, State(), words);
      }
      if held.None? {
        return Failure("you're not holding anything");
      }
      var target := held.value.actor;
      var name := JoinWords(words);
      if words != [] {
        var named := ResolveOneEntry(name, HandPool(State().slots));
        if named.Failure? || named.value.actor != target {
          return Failure("you're not holding " + name);
        }
      }
      r := KeepHeld(target);
      r := Context(if words == [] then "could not keep it" else "could not keep " + name, r);
    }

    method PutIn(item: string, container: string) returns (r: Result<()>)
      modifies `log, `pendingActions
      ensures Ends(AvatarSpec.PutIn(env, old(State()), item, container), State(), r)
    {
      var pool :- Query(PoolOf(env, State(), FromAnywhere));
      var entry :- Query(ResolveOrRefresh(env, State(), item, pool, FromAnywhere));
      var target :- Query(ResolveOrRefresh(env, State(), container, pool, FromAnywhere));
      SyncCarriedHere();
      var id :- Ask(Call(entry.actor, "put", [Text(target.actor)]));
      PendingStore(id);
      return Success(());
    }

    method Put(words: seq<string>) returns (r: Result<()>)
      modifies `log, `pendingActions
      ensures Ends(AvatarSpec.Put(env, old(State()), words), State(), r)
      ensures old(AvatarProofs.Inv(State().slots)) ==> AvatarProofs.Safe(old(State()), State())
    {
      if AvatarProofs.Inv(State().slots) {
        AvatarProofs.PutSafe(env, State(), words);
      }
      var s :- SplitCommand(words, "in", PUT_USAGE, true);
      var item := JoinWords(s.before);
      var container := JoinWords(if s.after.Some? then s.after.value else []);
      r := PutIn(item, container);
      r := Context("could not put " + item + " in " + container, r);
    }

    method DropNamed(item: string) returns (r: Result<()>)
      modifies this
      ensures Ends(AvatarSpec.DropNamed(env, old(State()), item), State(), r)
    {
      var entry :- Query(ResolveFresh(env, State(), item, FromCarried));
      if held.Some? && held.value.actor == entry.actor {
        r := DropTargetToRoom(entry.actor);
      } else if Inventory() == Some(entry.actor) {
        r := DropTargetToRoom(entry.actor);
      } else if entry.parent.Some? {
        r := TakeThenDrop(entry.parent.value, entry.actor);
      } else {
        r := Failure("you're not holding " + item);
      }
    }

    method DropOut(item: string, container: string) returns (r: Result<()>)
      modifies this
      ensures Ends(AvatarSpec.DropOut(env, old(State()), item, container), State(), r)
    {
      var source :- Query(ResolveFresh(env, State(), container, FromReachable));
      var did :- Query(ResolveInContainer(env, State(), item, source.actor));
      r := TakeThenDrop(source.actor, did);
    }

    method Drop(words: seq<string>) returns (r: Result<()>)
      modifies this
      ensures Ends(AvatarSpec.Drop(env, old(State()), words), State(), r)
      ensures old(AvatarProofs.Inv(State().slots)) ==> AvatarProofs.Safe(old(State()), State())
    {
      if AvatarProofs.Inv(State().slots) {
        AvatarProofs.DropSafe(env, State(), words);
      }
      if words == [] {
        if held.None? {
          return Failure("you're not holding anything");
        }
        r := DropTargetToRoom(held.value.actor);
        r := Context("could not drop it", r);
        return;
      }
      var s :- SplitCommand(words, "from", DROP_USAGE, false);
      var item := JoinWords(s.before);
      if s.after.Some? {
        var container := JoinWords(s.after.value);
        r := DropOut(item, container);
        r := Context("could not drop " + item + " from " + container, r);
      } else {
        r := DropNamed(item);
        r := Context("could not drop " + item, r);
      }
    }

    method FindReach(did: string) returns (r: Result<()>)
      modifies this
      ensures Ends(AvatarSpec.FindReach(env, old(State()), did), State(), r)
    {
      var parent :- Ask(Call(did, "parent?", []));
      var here :- RoomPath();
      if parent != Text(here) && parent != Text(self)
         && (Inventory().None? || parent != Text(Inventory().value)) {
        return Failure("it's not here");
      }
      var _ :- DropHeldToRoom();
      var _ :- Ask(Call(did, "hold", []));
      var name :- Ask(Call(did, "name", []));
      r := if name.Text? then Success(()) else Failure("string-append: not a string");
    }

    method Find(did: string) returns (r: Result<()>)
      modifies this
      ensures Ends(AvatarSpec.Find(env, old(State()), did), State(), r)
      ensures old(AvatarProofs.Inv(State().slots)) ==> AvatarProofs.Safe(old(State()), State())
    {
      if AvatarProofs.Inv(State().slots) {
        AvatarProofs.FindSafe(env, State(), did);
      }
      equipPending := None;
      if !StartsWithDid(did) {
        return Failure("usage: find <did>");
      }
      r := FindReach(did);
      r := Context("could not find " + did, r);
    }

    method Forge(kind: string, rest: seq<string>) returns (r: Result<()>)
      modifies this
      ensures Ends(AvatarSpec.Forge(env, old(State()), kind, rest), State(), r)
      ensures old(AvatarProofs.Inv(State().slots)) ==> AvatarProofs.Safe(old(State()), State())
    {
      if AvatarProofs.Inv(State().slots) {
        AvatarProofs.ForgeSafe(env, State(), kind, rest);
      }
      if rest == [] || rest[0] != "named" {
        return Failure(FORGE_USAGE);
      }
      var name := JoinWords(rest[1..]);
      if StartsWithDid(name) {
        return Failure("name must not be a DID or DID-URL");
      }
      var _ :- DropHeldToRoom();
      var here :- RoomPath();
      var target :- Query(ResolveOne(env, State(), here));
      var _ :- Ask(ForgeRequest(target, kind, name));
      return Success(());
    }

    method Handle(input: Input) returns (r: Result<()>)
      modifies this
      ensures Ends(Apply(env, old(State()), input), State(), r)
    {
      hide AvatarSpec.Take, AvatarSpec.TakeFrom, AvatarSpec.Find, AvatarSpec.Equip, AvatarSpec.Unequip;
      hide AvatarSpec.Keep, AvatarSpec.Put, AvatarSpec.Drop, AvatarSpec.Forge, AvatarSpec.HandleParent;
      hide AvatarProofs.Safe;
      match input {
        case DoTake(words) => r := Take(words);
        case DoTakeFrom(container, name) => r := TakeFrom(container, name);
        case DoFind(did) => r := Find(did);
        case DoEquip(words) => r := Equip(words);
        case DoUnequip(words) => r := Unequip(words);
        case DoKeep(words) => r := Keep(words);
        case DoPut(words) => r := Put(words);
        case DoDrop(words) => r := Drop(words);
        case DoForge(kind, rest) => r := Forge(kind, rest);
        case Parent(ctx) => r := HandleAvatarParent(ctx);
        case ActionDone(id) =>
          pendingActions := pendingActions - {id};
          r := Success(());
        case Entered(place) =>
          room := Some(place);
          r := Success(());
      }
    }

    /** Any session, whatever the other actors answer: the object ends in the world the
        specification computes, and its slots still satisfy the invariant. */
    method Session(inputs: seq<Input>)
      requires AvatarProofs.Inv(State().slots)
      modifies this
      ensures State() == Run(env, old(State()), inputs)
      ensures AvatarProofs.Inv(State().slots)
    {
      ghost var w := State();
      AvatarProofs.RunKeepsInv(env, w, inputs);
      var i := 0;
      while i < |inputs|
        invariant 0 <= i <= |inputs|
        invariant Run(env, w, inputs) == Run(env, State(), inputs[i..])
      {
        var _ := Handle(inputs[i]);
        i := i + 1;
      }
    }
  }
}
