/**
 The avatar's slot machine (`lib/avatar.zscheme`) as functions of the world.

 A world holds the six globals and the trace of requests sent so far. The actors at the other end
 are an arbitrary environment: a function from the trace and the next request to an answer or a
 failure. A step that raises keeps the world it raised in, because `guard` never rolls back.
 */
module AvatarSpec {
  import opened Wrappers
  import opened Resolver
  import Stdlib

  // ── Requests, environment, world ──────────────────────────────────────────

  datatype Term =
    | Text(text: string)
    | Ctxs(entries: seq<Ctx>)
    | OneCtx(ctx: Ctx)
    | Fields(fields: map<string, string>)
    | Other

  /** `RoomChildren` asks for the room pool; the cache behind it is part of the environment. */
  datatype Request = Call(target: string, verb: string, args: seq<Term>) | RoomChildren | Look

  datatype Reply = Answer(value: Term) | Fail(message: string)

  datatype Event = Event(request: Request, reply: Reply)

  type Env = (seq<Event>, Request) -> Reply

  datatype Slots = Slots(
    held: Option<Ctx>,
    invEntry: Option<Ctx>,
    inv: Option<string>,
    equipPending: Option<string>,
    dropPending: set<string>,
    pendingActions: set<string>)

  datatype World = World(self: string, room: Option<string>, slots: Slots, log: seq<Event>)

  /** The end of a step, normal or raised. `:-` threads the world through and stops at a raise. */
  datatype Step<+T> = Done(w: World, value: T) | Raised(w: World, error: string) {
    predicate IsFailure() { Raised? }

    function PropagateFailure<U>(): Step<U>
      requires Raised?
    {
      Raised(w, error)
    }

    function Extract(): (World, T)
      requires Done?
    {
      (w, value)
    }

    function Outcome(): Result<T> {
      match this
      case Done(_, v) => Success(v)
      case Raised(_, e) => Failure(e)
    }
  }

  const CONTAINER := "/ma/container/0.0.1"

  /** A query: the slots stay, the trace grows, and nothing in it relocates an actor. */
  predicate Quiet(w: World, w': World) {
    && w' == w.(log := w'.log)
    && w.log <= w'.log
    && forall i | |w.log| <= i < |w'.log| :: !Relocates(w'.log[i].request)
  }

  predicate Relocates(request: Request) {
    request.Call? && request.verb == "set-parent"
  }

  function Ask(env: Env, w: World, request: Request): (r: Step<Term>)
    ensures !Relocates(request) ==> Quiet(w, r.w)
    ensures r.w.log == w.log + [Event(request, env(w.log, request))]
  {
    var reply := env(w.log, request);
    var w' := w.(log := w.log + [Event(request, reply)]);
    match reply
    case Answer(v) => Done(w', v)
    case Fail(m) => Raised(w', m)
  }

  function Lift<T>(w: World, r: Result<T>): Step<T> {
    match r
    case Success(v) => Done(w, v)
    case Failure(e) => Raised(w, e)
  }

  function InContext<T>(description: string, step: Step<T>): Step<T> {
    match step
    case Done(_, _) => step
    case Raised(w, e) => Raised(w, description + " \U{2014} " + e)
  }

  /** Reading the unset path `.my.ctx.room` raises. */
  function RoomOf(w: World): Step<string> {
    match w.room
    case Some(room) => Done(w, room)
    case None => Raised(w, "no value at .my.ctx.room")
  }

  function MyInv(s: Slots): Option<string> {
    if s.inv.Some? && StartsWithDid(s.inv.value) then s.inv else None
  }

  predicate Holds(s: Slots, actor: string) {
    s.held.Some? && s.held.value.actor == actor
  }

  function ClearHand(w: World): World {
    w.(slots := w.slots.(held := None))
  }

  function StorePending(w: World, reply: Term): World {
    match reply
    case Text(id) => w.(slots := w.slots.(pendingActions := w.slots.pendingActions + {id}))
    case _ => w
  }

  // ── Pools and resolution: queries only ────────────────────────────────────

  function ListValues(v: Term): seq<Ctx> {
    match v
    case Ctxs(es) => es
    case _ => []
  }

  function Contents(env: Env, w: World, container: string): (r: Step<seq<Ctx>>)
    ensures Quiet(w, r.w)
  {
    var (w1, v) :- Ask(env, w, Call(container, "contents?", []));
    Done(w1, ListValues(v))
  }

  function GuardedContents(env: Env, w: World, container: string): (r: (World, seq<Ctx>))
    ensures Quiet(w, r.0)
  {
    match Contents(env, w, container)
    case Done(w1, es) => (w1, es)
    case Raised(w1, _) => (w1, [])
  }

  function DisplayCtx(env: Env, w: World, inventory: string): (r: (World, Ctx))
    ensures Quiet(w, r.0) && r.1.actor == inventory
  {
    var named := Ask(env, w, Call(inventory, "name", []));
    var name := if named.Done? && named.value.Text? && named.value.text != "" && named.value.text != "(none)"
                then named.value.text else inventory;
    (named.w, Ctx(inventory, None, "", Some(name), None, None))
  }

  function InventoryPool(env: Env, w: World): (r: (World, seq<Ctx>))
    ensures Quiet(w, r.0)
  {
    if MyInv(w.slots).None? then (w, [])
    else
      var inventory := MyInv(w.slots).value;
      var kind := Ask(env, w, Call(inventory, "kind?", []));
      if kind.Done? && kind.value == Text(CONTAINER) then
        var (w2, contents) := GuardedContents(env, kind.w, inventory);
        if w2.slots.invEntry.Some? && w2.slots.invEntry.value.actor == inventory then
          (w2, [w2.slots.invEntry.value] + contents)
        else
          var (w3, ctx) := DisplayCtx(env, w2, inventory);
          (w3, [ctx] + contents)
      else (kind.w, [])
  }

  function HandPool(s: Slots): seq<Ctx> {
    if s.held.Some? then [s.held.value] else []
  }

  function RoomPool(env: Env, w: World): (r: Step<seq<Ctx>>)
    ensures Quiet(w, r.w)
  {
    var (w1, v) :- Ask(env, w, RoomChildren);
    Done(w1, ListValues(v))
  }

  /** The contents of every container packed in the inventory, one level down. */
  function Packed(env: Env, w: World, entries: seq<Ctx>): (r: (World, seq<Ctx>))
    ensures Quiet(w, r.0)
    decreases |entries|
  {
    if entries == [] then (w, [])
    else
      var (w1, here) := if entries[0].kind == "container" then GuardedContents(env, w, entries[0].actor) else (w, []);
      var (w2, rest) := Packed(env, w1, entries[1..]);
      (w2, here + rest)
  }

  function DropPool(env: Env, w: World): (r: (World, seq<Ctx>))
    ensures Quiet(w, r.0)
  {
    var (w1, inventory) := InventoryPool(env, w);
    if inventory == [] then (w1, HandPool(w.slots))
    else
      var (w2, packed) := Packed(env, w1, inventory[1..]);
      (w2, HandPool(w.slots) + inventory + packed)
  }

  datatype PoolKind = FromRoom | FromHandAndRoom | FromAnywhere | FromCarried | FromReachable

  function PoolOf(env: Env, w: World, kind: PoolKind): (r: Step<seq<Ctx>>)
    ensures Quiet(w, r.w)
  {
    match kind
    case FromRoom => RoomPool(env, w)
    case FromHandAndRoom =>
      var (w1, room) :- RoomPool(env, w);
      Done(w1, HandPool(w.slots) + room)
    case FromAnywhere =>
      var (w1, room) :- RoomPool(env, w);
      var (w2, inventory) := InventoryPool(env, w1);
      Done(w2, HandPool(w.slots) + room + inventory)
    case FromCarried =>
      var (w1, carried) := DropPool(env, w);
      Done(w1, carried)
    case FromReachable =>
      var (w1, room) :- RoomPool(env, w);
      var (w2, carried) := DropPool(env, w1);
      Done(w2, room + carried)
  }

  /** A miss refreshes the room once and retries; every other failure propagates. */
  function ResolveOrRefresh(env: Env, w: World, word: string, pool: seq<Ctx>, kind: PoolKind): (r: Step<Ctx>)
    ensures Quiet(w, r.w)
  {
    match ResolveOneEntry(word, pool)
    case Success(entry) => Done(w, entry)
    case Failure(e) =>
      if Stdlib.StringContains(e, "no match for") then
        var (w1, _) :- Ask(env, w, Look);
        var (w2, again) :- PoolOf(env, w1, kind);
        Lift(w2, ResolveOneEntry(word, again))
      else Raised(w, e)
  }

  function ResolveFresh(env: Env, w: World, word: string, kind: PoolKind): (r: Step<Ctx>)
    ensures Quiet(w, r.w)
  {
    var (w1, pool) :- PoolOf(env, w, kind);
    ResolveOrRefresh(env, w1, word, pool, kind)
  }

  function ResolveOne(env: Env, w: World, word: string): (r: Step<string>)
    ensures Quiet(w, r.w)
  {
    if StartsWithDid(word) then Done(w, word)
    else
      var (w1, entry) :- ResolveFresh(env, w, word, FromAnywhere);
      Done(w1, entry.actor)
  }

  function ResolveInContainer(env: Env, w: World, word: string, container: string): (r: Step<string>)
    ensures Quiet(w, r.w)
  {
    if StartsWithDid(word) then Done(w, word)
    else
      var (w1, contents) :- Contents(env, w, container);
      var hits := CandidatesByKeys(word, contents, [Nick, Name]);
      if hits == [] then Raised(w1, NoMatchError(word))
      else if |hits| == 1 then Done(w1, hits[0].actor)
      else Raised(w1, AmbiguousError(word))
  }

  // ── Command grammar ───────────────────────────────────────────────────────

  function JoinWords(words: seq<string>): string {
    Stdlib.StringJoin(words, " ")
  }

  function WordsBefore(words: seq<string>, keyword: string): seq<string> {
    if words == [] || words[0] == keyword then [] else [words[0]] + WordsBefore(words[1..], keyword)
  }

  function WordsAfter(words: seq<string>, keyword: string): Option<seq<string>> {
    if words == [] then None
    else if words[0] == keyword then Some(words[1..])
    else WordsAfter(words[1..], keyword)
  }

  datatype Split = Split(before: seq<string>, after: Option<seq<string>>)

  function SplitCommand(words: seq<string>, keyword: string, usage: string, required: bool): Result<Split> {
    var before, after := WordsBefore(words, keyword), WordsAfter(words, keyword);
    if before == [] || (required && after.None?) || after == Some([]) then Failure(usage)
    else Success(Split(before, after))
  }

  /** The words around the first keyword, and only a keyword with words on both sides, or none at all
      where none is required. */
  predicate Reads(words: seq<string>, keyword: string, required: bool, s: Split) {
    && s.before != [] && keyword !in s.before
    && match s.after
       case Some(after) => after != [] && words == s.before + [keyword] + after
       case None => !required && words == s.before
  }

  lemma {:induction false} WordsAround(words: seq<string>, keyword: string)
    ensures keyword !in WordsBefore(words, keyword)
    ensures words == WordsBefore(words, keyword)
                     + match WordsAfter(words, keyword) case Some(after) => [keyword] + after case None => []
  {
    if words != [] && words[0] != keyword {
      WordsAround(words[1..], keyword);
    }
  }

  lemma {:induction false} WordsAroundFirst(before: seq<string>, keyword: string, rest: seq<string>)
    requires keyword !in before && (rest != [] ==> rest[0] == keyword)
    ensures WordsBefore(before + rest, keyword) == before
    ensures WordsAfter(before + rest, keyword) == if rest == [] then None else Some(rest[1..])
  {
    if before == [] {
      assert before + rest == rest;
    } else {
      assert (before + rest)[1..] == before[1..] + rest;
      WordsAroundFirst(before[1..], keyword, rest);
    }
  }

  /** A command line splits into a pair exactly when the pair is what the grammar reads in it. */
  lemma SplitCommandExact(words: seq<string>, keyword: string, usage: string, required: bool, s: Split)
    ensures SplitCommand(words, keyword, usage, required) == Success(s) <==> Reads(words, keyword, required, s)
  {
    WordsAround(words, keyword);
    if Reads(words, keyword, required, s) {
      var rest := if s.after.Some? then [keyword] + s.after.value else [];
      assert words == s.before + rest;
      WordsAroundFirst(s.before, keyword, rest);
    }
  }

  // ── Slot moves ────────────────────────────────────────────────────────────

  function Forget(s: Slots, target: string): Slots {
    var s1 := if Holds(s, target) then s.(held := None) else s;
    if MyInv(s1) == Some(target) then s1.(invEntry := None, inv := None) else s1
  }

  predicate UnknownFragment(failure: string) {
    Stdlib.StringContains(failure, "unknown entity")
  }

  function Relocate(env: Env, w: World, target: string): Step<bool> {
    var (w0, room) :- RoomOf(w);
    var (w1, _) :- Ask(env, w0, Call(room, "drop", [Text(target)]));
    match Ask(env, w1, Call(target, "set-parent", [Text(room)]))
    case Done(w2, _) => Done(w2, true)
    case Raised(w2, e) =>
      if UnknownFragment(e) then Done(w2.(slots := Forget(w2.slots, target)), false) else Raised(w2, e)
  }

  function DropHeld(env: Env, w: World): Step<()> {
    if w.slots.held.None? || MyInv(w.slots) == Some(w.slots.held.value.actor) then Done(w, ())
    else
      var (w1, _) :- Relocate(env, w, w.slots.held.value.actor);
      Done(w1, ())
  }

  function UnequipToHand(env: Env, w: World, inventory: string): World {
    var (w1, ctx) := if w.slots.invEntry.Some? then (w, w.slots.invEntry.value) else DisplayCtx(env, w, inventory);
    w1.(slots := w1.slots.(held := Some(ctx), invEntry := None, inv := None))
  }

  /** The shared make-room tail of `unequip` and `equip`: empty the hand, then move the container there. */
  function SwapToHand(env: Env, w: World, inventory: string): Step<()> {
    var (w1, _) :- DropHeld(env, w);
    Done(UnequipToHand(env, w1, inventory), ())
  }

  function BookInventory(env: Env, w: World, did: string, ctx: Ctx): Step<()> {
    var worn := MyInv(w.slots);
    var (w1, _) :- (if worn.Some? && worn.value != did then Relocate(env, w, worn.value) else Done(w, true));
    Done(w1.(slots := w1.slots.(invEntry := Some(ctx), inv := Some(did))), ())
  }

  function DropTarget(env: Env, w: World, target: string): Step<()> {
    var (w1, _) :- Relocate(env, w, target);
    Done(if MyInv(w1.slots) == Some(target) then w1.(slots := w1.slots.(inv := None)) else w1, ())
  }

  function TakeThenDrop(env: Env, w: World, container: string, item: string): Step<()> {
    var booked := w.(slots := w.slots.(dropPending := w.slots.dropPending + {item}));
    match Ask(env, booked, Call(container, "take", [Text(item)]))
    case Done(w1, id) => Done(StorePending(w1, id), ())
    case Raised(w1, e) => Raised(w1.(slots := w1.slots.(dropPending := w1.slots.dropPending - {item})), e)
  }

  function SyncCarried(env: Env, w: World): (r: World)
    ensures Quiet(w, r)
  {
    if w.room.None? || !StartsWithDid(w.room.value) then w
    else
      var here := [Text(w.room.value)];
      var w1 := if w.slots.held.Some? then Ask(env, w, Call(w.slots.held.value.actor, "here", here)).w else w;
      if MyInv(w1.slots).Some? then Ask(env, w1, Call(MyInv(w1.slots).value, "here", here)).w else w1
  }

  // ── The `:parent` handshake ───────────────────────────────────────────────

  predicate ProposesUs(w: World, ctx: Ctx) {
    (if ctx.parent.Some? then ctx.parent.value else "") == w.self
  }

  function HandleParent(env: Env, w: World, ctx: Ctx): Step<()> {
    var actor := ctx.actor;
    var ack := Call(actor, "child", [OneCtx(ctx)]);
    if w.slots.equipPending == Some(actor) && ProposesUs(w, ctx) then
      var (w1, _) :- Ask(env, w, ack);
      var w2 := w1.(slots := w1.slots.(equipPending := None));
      var w3 := if Holds(w2.slots, actor) then ClearHand(w2) else w2;
      BookInventory(env, w3, actor, ctx)
    else if ProposesUs(w, ctx) && actor in w.slots.dropPending then
      var w0 := w.(slots := w.slots.(dropPending := w.slots.dropPending - {actor}));
      var (w1, _) :- Ask(env, w0, ack);
      DropTarget(env, w1, actor)
    else if ProposesUs(w, ctx) then
      var (w1, _) :- Ask(env, w, ack);
      if MyInv(w1.slots) == Some(actor) then Done(w1.(slots := w1.slots.(invEntry := Some(ctx))), ())
      else Done(w1.(slots := w1.slots.(held := Some(ctx))), ())
    else if Holds(w.slots, actor) then Done(ClearHand(w), ())
    else Done(w, ())
  }

  // ── Commands ──────────────────────────────────────────────────────────────

  function Unbook(w: World): World {
    w.(slots := w.slots.(equipPending := None))
  }

  /** `take <item> from <container>` after parsing, and `take-from`. */
  function TakeOut(env: Env, w: World, item: string, container: string): Step<()> {
    var (w1, source) :- ResolveOne(env, w, container);
    var (w2, did) :- ResolveInContainer(env, w1, item, source);
    var (w3, _) :- DropHeld(env, w2);
    var (w4, id) :- Ask(env, w3, Call(source, "take", [Text(did)]));
    Done(StorePending(w4, id), ())
  }

  function TakeHere(env: Env, w: World, item: string): Step<()> {
    var (w1, entry) :- ResolveFresh(env, w, item, FromRoom);
    var (w2, _) :- DropHeld(env, w1);
    var (w3, _) :- Ask(env, w2, Call(entry.actor, "hold", []));
    Done(w3, ())
  }

  const TAKE_USAGE := "usage: take <item...> [from <container...>]"

  function Take(env: Env, w: World, words: seq<string>): Step<()> {
    var (w1, s) :- Lift(Unbook(w), SplitCommand(words, "from", TAKE_USAGE, false));
    var item := JoinWords(s.before);
    if s.after.Some? then
      var container := JoinWords(s.after.value);
      InContext("could not take " + item + " from " + container, TakeOut(env, w1, item, container))
    else
      InContext("could not take " + item, TakeHere(env, w1, item))
  }

  function TakeFrom(env: Env, w: World, container: string, name: string): Step<()> {
    InContext("could not take " + name + " from " + container, TakeOut(env, w, name, container))
  }

  /** How an equipped container is asked to propose itself. */
  datatype Proposal = ByHold | ByTake(source: string)

  function ProposalRequest(did: string, via: Proposal): (r: Request)
    ensures !Relocates(r)
  {
    match via
    case ByHold => Call(did, "hold", [])
    case ByTake(source) => Call(source, "take", [Text(did)])
  }

  function EquipTransfer(env: Env, w: World, did: string, via: Proposal): Step<()> {
    var worn := MyInv(w.slots);
    var (w1, _) :- (if worn.Some? then SwapToHand(env, w, worn.value) else Done(w, ()));
    var (w2, _) :- (if Holds(w1.slots, did) then Done(w1, ()) else DropHeld(env, w1));
    var (w3, _) :- Ask(env, w2, ProposalRequest(did, via));
    Done(w3, ())
  }

  function EquipPropose(env: Env, w: World, did: string, via: Proposal): Step<()> {
    if MyInv(w.slots) == Some(did) then Done(w, ())
    else
      var (w1, kind) :- Ask(env, w, Call(did, "kind?", []));
      if kind != Text(CONTAINER) then Raised(w1, "invalid inventory kind")
      else
        match EquipTransfer(env, w1.(slots := w1.slots.(equipPending := Some(did))), did, via)
        case Done(w2, _) => Done(w2, ())
        case Raised(w2, e) => Raised(Unbook(w2), e)
  }

  function EquipOut(env: Env, w: World, item: string, container: string): Step<()> {
    var (w1, source) :- ResolveOne(env, w, container);
    var (w2, did) :- ResolveInContainer(env, w1, item, source);
    EquipPropose(env, w2, did, ByTake(source))
  }

  function EquipHere(env: Env, w: World, item: string): Step<()> {
    var (w1, entry) :- ResolveFresh(env, w, item, FromHandAndRoom);
    EquipPropose(env, w1, entry.actor, ByHold)
  }

  const EQUIP_USAGE := "usage: equip <container...> [from <container...>]"

  function Equip(env: Env, w: World, words: seq<string>): Step<()> {
    var (w1, s) :- Lift(w, SplitCommand(words, "from", EQUIP_USAGE, false));
    var item := JoinWords(s.before);
    if s.after.Some? then
      var container := JoinWords(s.after.value);
      InContext("could not equip " + item + " from " + container, EquipOut(env, w1, item, container))
    else
      InContext("could not equip " + item, EquipHere(env, w1, item))
  }

  function Unequip(env: Env, w: World, words: seq<string>): Step<()> {
    if MyInv(w.slots).None? then Raised(w, "no inventory equipped")
    else
      var inventory := MyInv(w.slots).value;
      var name := JoinWords(words);
      var (w1, pool) := if words == [] then (w, []) else InventoryPool(env, w);
      var named := ResolveOneEntry(name, pool);
      if words == [] || (named.Success? && named.value.actor == inventory) then
        InContext(if words == [] then "could not unequip it" else "could not unequip " + name,
                  SwapToHand(env, w1, inventory))
      else Raised(w1, name + " is not your equipped inventory")
  }

  function KeepHeld(env: Env, w: World, target: string): Step<()> {
    if MyInv(w.slots).None? then Raised(w, "no inventory equipped")
    else
      var (w1, id) :- Ask(env, SyncCarried(env, w), Call(target, "put", [Text(MyInv(w.slots).value)]));
      Done(StorePending(w1, id), ())
  }

  function Keep(env: Env, w: World, words: seq<string>): Step<()> {
    if w.slots.held.None? then Raised(w, "you're not holding anything")
    else
      var target := w.slots.held.value.actor;
      var name := JoinWords(words);
      var named := ResolveOneEntry(name, HandPool(w.slots));
      if words == [] || (named.Success? && named.value.actor == target) then
        InContext(if words == [] then "could not keep it" else "could not keep " + name, KeepHeld(env, w, target))
      else Raised(w, "you're not holding " + name)
  }

  function PutIn(env: Env, w: World, item: string, container: string): Step<()> {
    var (w1, pool) :- PoolOf(env, w, FromAnywhere);
    var (w2, entry) :- ResolveOrRefresh(env, w1, item, pool, FromAnywhere);
    var (w3, target) :- ResolveOrRefresh(env, w2, container, pool, FromAnywhere);
    var (w4, id) :- Ask(env, SyncCarried(env, w3), Call(entry.actor, "put", [Text(target.actor)]));
    Done(StorePending(w4, id), ())
  }

  const PUT_USAGE := "usage: put <item...> in <container...>"

  function Put(env: Env, w: World, words: seq<string>): Step<()> {
    var (w1, s) :- Lift(w, SplitCommand(words, "in", PUT_USAGE, true));
    var item, container := JoinWords(s.before), JoinWords(if s.after.Some? then s.after.value else []);
    InContext("could not put " + item + " in " + container, PutIn(env, w1, item, container))
  }

  function DropNamed(env: Env, w: World, item: string): Step<()> {
    var (w1, entry) :- ResolveFresh(env, w, item, FromCarried);
    if Holds(w1.slots, entry.actor) then DropTarget(env, w1, entry.actor)
    else if MyInv(w1.slots) == Some(entry.actor) then DropTarget(env, w1, entry.actor)
    else if entry.parent.Some? then TakeThenDrop(env, w1, entry.parent.value, entry.actor)
    else Raised(w1, "you're not holding " + item)
  }

  function DropOut(env: Env, w: World, item: string, container: string): Step<()> {
    var (w1, source) :- ResolveFresh(env, w, container, FromReachable);
    var (w2, did) :- ResolveInContainer(env, w1, item, source.actor);
    TakeThenDrop(env, w2, source.actor, did)
  }

  const DROP_USAGE := "usage: drop [<item...>] [from <container...>]"

  function Drop(env: Env, w: World, words: seq<string>): Step<()> {
    if words == [] then
      if w.slots.held.None? then Raised(w, "you're not holding anything")
      else InContext("could not drop it", DropTarget(env, w, w.slots.held.value.actor))
    else
      var (w1, s) :- Lift(w, SplitCommand(words, "from", DROP_USAGE, false));
      var item := JoinWords(s.before);
      if s.after.Some? then
        var container := JoinWords(s.after.value);
        InContext("could not drop " + item + " from " + container, DropOut(env, w1, item, container))
      else
        InContext("could not drop " + item, DropNamed(env, w1, item))
  }

  function HoldAndName(env: Env, w: World, did: string): (r: Step<()>)
    ensures Quiet(w, r.w)
  {
    var (w1, _) :- Ask(env, w, Call(did, "hold", []));
    var (w2, name) :- Ask(env, w1, Call(did, "name", []));
    if name.Text? then Done(w2, ()) else Raised(w2, "string-append: not a string")
  }

  function FindReach(env: Env, w: World, did: string): Step<()> {
    var (w1, parent) :- Ask(env, w, Call(did, "parent?", []));
    var (w2, room) :- RoomOf(w1);
    if parent == Text(room) || parent == Text(w.self)
       || (MyInv(w2.slots).Some? && parent == Text(MyInv(w2.slots).value)) then
      var (w3, _) :- DropHeld(env, w2);
      HoldAndName(env, w3, did)
    else Raised(w2, "it's not here")
  }

  function Find(env: Env, w: World, did: string): Step<()> {
    if !StartsWithDid(did) then Raised(Unbook(w), "usage: find <did>")
    else InContext("could not find " + did, FindReach(env, Unbook(w), did))
  }

  const FORGE_USAGE := "usage: forge <kind> named <name...>"

  function ForgeRequest(target: string, kind: string, name: string): (r: Request)
    ensures !Relocates(r)
  {
    Call(target, "forge", [Fields(map["kind" := kind, "name" := name])])
  }

  function ForgeHere(env: Env, w: World, kind: string, name: string): (r: Step<()>)
    ensures Quiet(w, r.w)
  {
    var (w1, room) :- RoomOf(w);
    var (w2, target) :- ResolveOne(env, w1, room);
    var (w3, _) :- Ask(env, w2, ForgeRequest(target, kind, name));
    Done(w3, ())
  }

  function Forge(env: Env, w: World, kind: string, rest: seq<string>): Step<()> {
    if rest == [] || rest[0] != "named" then Raised(w, FORGE_USAGE)
    else
      var name := JoinWords(rest[1..]);
      if StartsWithDid(name) then Raised(w, "name must not be a DID or DID-URL")
      else
        var (w1, _) :- DropHeld(env, w);
        ForgeHere(env, w1, kind, name)
  }

  // ── Runs ──────────────────────────────────────────────────────────────────

  datatype Input =
    | DoTake(words: seq<string>)
    | DoTakeFrom(container: string, name: string)
    | DoFind(did: string)
    | DoEquip(words: seq<string>)
    | DoUnequip(words: seq<string>)
    | DoKeep(words: seq<string>)
    | DoPut(words: seq<string>)
    | DoDrop(words: seq<string>)
    | DoForge(kind: string, rest: seq<string>)
    | Parent(ctx: Ctx)
    | ActionDone(id: string)
    | Entered(room: string)

  function Apply(env: Env, w: World, input: Input): Step<()> {
    match input
    case DoTake(words) => Take(env, w, words)
    case DoTakeFrom(container, name) => TakeFrom(env, w, container, name)
    case DoFind(did) => Find(env, w, did)
    case DoEquip(words) => Equip(env, w, words)
    case DoUnequip(words) => Unequip(env, w, words)
    case DoKeep(words) => Keep(env, w, words)
    case DoPut(words) => Put(env, w, words)
    case DoDrop(words) => Drop(env, w, words)
    case DoForge(kind, rest) => Forge(env, w, kind, rest)
    case Parent(ctx) => HandleParent(env, w, ctx)
    case ActionDone(id) => Done(w.(slots := w.slots.(pendingActions := w.slots.pendingActions - {id})), ())
    case Entered(room) => Done(w.(room := Some(room)), ())
  }

  /** The top level reports a raise and carries on from the world it left. */
  function Run(env: Env, w: World, inputs: seq<Input>): World
    decreases |inputs|
  {
    if inputs == [] then w else Run(env, Apply(env, w, inputs[0]).w, inputs[1..])
  }
}
