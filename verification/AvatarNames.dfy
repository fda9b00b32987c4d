/** Which entries a typed name is looked up among, and what is asked to find out. */
module AvatarNames {
  import opened Wrappers
  import opened Resolver
  import opened AvatarSpec
  import opened AvatarExact
  import Stdlib

  /** The entries a reply lists; anything but a list of ctxs lists none. */
  function Listed(reply: Reply): seq<Ctx> {
    match reply
    case Answer(Ctxs(entries)) => entries
    case _ => []
  }

  function Held(s: Slots): seq<Ctx> {
    match s.held
    case Some(ctx) => [ctx]
    case None => []
  }

  /** A listing asked for once: its refusal raises. */
  predicate Lists(env: Env, w: World, request: Request, r: Step<seq<Ctx>>) {
    && r.w == w.(log := Then(env, w.log, request))
    && match env(w.log, request)
       case Fail(m) => r.Raised? && r.error == m
       case Answer(_) => r.Done? && r.value == Listed(env(w.log, request))
  }

  lemma RoomPoolExact(env: Env, w: World)
    ensures Lists(env, w, RoomChildren, RoomPool(env, w))
  {
  }

  lemma ContentsExact(env: Env, w: World, container: string)
    ensures Lists(env, w, Call(container, "contents?", []), Contents(env, w, container))
    ensures var ask := Call(container, "contents?", []);
            GuardedContents(env, w, container) == (w.(log := Then(env, w.log, ask)), Listed(env(w.log, ask)))
  {
  }

  // ── The inventory ─────────────────────────────────────────────────────────

  /** The equipped inventory still answers that it is a container. */
  predicate Usable(env: Env, w: World) {
    && MyInv(w.slots).Some?
    && env(w.log, Call(MyInv(w.slots).value, "kind?", [])) == Answer(Text("/ma/container/0.0.1"))
  }

  /** The container's own entry, as cached or as it answers, and then what it lists; and nothing at all if it
      is not equipped or no longer a container. */
  lemma InventoryPoolExact(env: Env, w: World)
    ensures var (w', pool) := InventoryPool(env, w);
            if !Usable(env, w) then
              && pool == []
              && w' == if MyInv(w.slots).None? then w
                       else w.(log := Then(env, w.log, Call(MyInv(w.slots).value, "kind?", [])))
            else
              var inventory := MyInv(w.slots).value;
              var kind := Then(env, w.log, Call(inventory, "kind?", []));
              var listing := Call(inventory, "contents?", []);
              && pool != [] && pool[1..] == Listed(env(kind, listing))
              && if w.slots.invEntry.Some? && w.slots.invEntry.value.actor == inventory then
                   w'.log == Then(env, kind, listing) && pool[0] == w.slots.invEntry.value
                 else
                   var ask := Call(inventory, "name", []);
                   && w'.log == Then(env, Then(env, kind, listing), ask)
                   && ShowsAs(env(Then(env, kind, listing), ask), inventory, pool[0])
  {
    if Usable(env, w) {
      var inventory := MyInv(w.slots).value;
      var w1 := w.(log := Then(env, w.log, Call(inventory, "kind?", [])));
      ContentsExact(env, w1, inventory);
      DisplayCtxExact(env, w1.(log := Then(env, w1.log, Call(inventory, "contents?", []))), inventory);
    }
  }

  /** Of packed entries only those of kind "container" are asked, in order; what they list is added up. */
  lemma PackedExact(env: Env, w: World, entry: Ctx, rest: seq<Ctx>)
    ensures Packed(env, w, []) == (w, [])
    ensures var ask := Call(entry.actor, "contents?", []);
            var w1 := if entry.kind == "container" then w.(log := Then(env, w.log, ask)) else w;
            var here := if entry.kind == "container" then Listed(env(w.log, ask)) else [];
            var later := Packed(env, w1, rest);
            Packed(env, w, [entry] + rest) == (later.0, here + later.1)
  {
    ContentsExact(env, w, entry.actor);
    assert ([entry] + rest)[1..] == rest;
  }

  // ── Pools ─────────────────────────────────────────────────────────────────

  /** What is carried: the hand, the inventory, and what is packed in the containers of the inventory. */
  lemma DropPoolExact(env: Env, w: World)
    ensures var (w1, inventory) := InventoryPool(env, w);
            DropPool(env, w) ==
            if inventory == [] then (w1, Held(w.slots))
            else
              var (w2, packed) := Packed(env, w1, inventory[1..]);
              (w2, Held(w.slots) + inventory + packed)
  {
  }

  /** The pool of a command: the room's answer joined with the hand, the inventory or all that is carried. Only
      what is carried can be listed without the room. */
  lemma PoolExact(env: Env, w: World, kind: PoolKind)
    ensures var r := PoolOf(env, w, kind);
            var room := env(w.log, RoomChildren);
            var w1 := w.(log := Then(env, w.log, RoomChildren));
            if kind.FromCarried? then r == Done(DropPool(env, w).0, DropPool(env, w).1)
            else if room.Fail? then r.Raised? && r.error == room.message && r.w == w1
            else match kind
              case FromRoom => r == Done(w1, Listed(room))
              case FromHandAndRoom => r == Done(w1, Held(w.slots) + Listed(room))
              case FromAnywhere =>
                r == Done(InventoryPool(env, w1).0, Held(w.slots) + Listed(room) + InventoryPool(env, w1).1)
              case FromReachable => r == Done(DropPool(env, w1).0, Listed(room) + DropPool(env, w1).1)
              case FromCarried => false
  {
    RoomPoolExact(env, w);
  }

  // ── One retry ─────────────────────────────────────────────────────────────

  lemma MissSaysSo(word: string)
    ensures Occurs(NoMatchError(word), "no match for")
  {
    assert NoMatchError(word)[..12] == "no match for";
    assert Stdlib.OccursAt(NoMatchError(word), "no match for", 0);
  }

  /** A word that resolves in the pool at hand asks nothing. */
  lemma ResolvesAtOnce(env: Env, w: World, word: string, pool: seq<Ctx>, kind: PoolKind)
    requires ResolveOneEntry(word, pool).Success?
    ensures ResolveOrRefresh(env, w, word, pool, kind) == Done(w, ResolveOneEntry(word, pool).value)
  {
  }

  /** A word nothing in the pool matches has the room looked at once, the pool rebuilt, and is tried again
      there, once. */
  lemma MissRefreshes(env: Env, w: World, word: string, pool: seq<Ctx>, kind: PoolKind)
    requires !StartsWithDid(word) && MatchingActors(word, pool) == {}
    ensures var r := ResolveOrRefresh(env, w, word, pool, kind);
            var w1 := w.(log := Then(env, w.log, Look));
            match env(w.log, Look)
            case Fail(m) => r.Raised? && r.error == m && r.w == w1
            case Answer(_) =>
              match PoolOf(env, w1, kind)
              case Raised(w2, m) => r == Raised(w2, m)
              case Done(w2, again) =>
                && r.w == w2
                && (r.Done? <==> exists a :: MatchingActors(word, again) == {a})
                && (r.Done? ==> MatchingActors(word, again) == {r.value.actor})
  {
    ResolveOneExact(word, pool);
    MissSaysSo(word);
    ContainsExact(NoMatchError(word), "no match for");
    if env(w.log, Look).Answer? {
      var pooled := PoolOf(env, w.(log := Then(env, w.log, Look)), kind);
      if pooled.Done? {
        ResolveOneExact(word, pooled.value);
      }
    }
  }

  /** A word that several actors match raises at once; only one whose own message reads like a miss is retried. */
  lemma AmbiguityRaises(env: Env, w: World, word: string, pool: seq<Ctx>, kind: PoolKind, a: string, b: string)
    requires !StartsWithDid(word) && a != b && a in MatchingActors(word, pool) && b in MatchingActors(word, pool)
    requires !Occurs(AmbiguousError(word), "no match for")
    ensures ResolveOrRefresh(env, w, word, pool, kind).Raised?
    ensures ResolveOrRefresh(env, w, word, pool, kind).w == w
  {
    ResolveOneExact(word, pool);
    ContainsExact(AmbiguousError(word), "no match for");
  }

  /** A DID is its own answer; any other word is looked up among the hand, the room and the inventory. */
  lemma ResolveReference(env: Env, w: World, word: string)
    ensures "did:ma:" <= word ==> ResolveOne(env, w, word) == Done(w, word)
    ensures !("did:ma:" <= word) ==>
              var pool := PoolOf(env, w, FromAnywhere);
              var r := ResolveOne(env, w, word);
              match pool
              case Raised(w1, m) => r == Raised(w1, m)
              case Done(w1, entries) =>
                match ResolveOrRefresh(env, w1, word, entries, FromAnywhere)
                case Raised(w2, m) => r == Raised(w2, m)
                case Done(w2, entry) => r == Done(w2, entry.actor)
  {
  }
}
