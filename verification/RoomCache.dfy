/**
 The avatar's cached room snapshot (`lib/events.zscheme`, `lib/avatar.zscheme`): replaced whole by a
 look or a `:child` ack, and patched child by child by room events. Children are keyed by actor.
 */
module RoomCache {
  import opened Wrappers
  import opened Resolver

  type Children = map<string, Ctx>

  /** A payload that is not a map, or names no actor, is None. */
  datatype RoomEvent =
    | Snapshot(children: Option<Children>)
    | ChildAck(parentChildren: Option<Children>)
    | Present(ctx: Option<Ctx>)
    | Leave(ctx: Option<Ctx>)

  class Cache {
    /** `last-room`: None for `#f`. */
    var lastRoom: Option<Children>

    constructor ()
      ensures lastRoom.None?
    {
      lastRoom := None;
    }

    method RememberRoom(snapshot: Option<Children>)
      modifies this
      ensures lastRoom == if snapshot.Some? then snapshot else old(lastRoom)
    {
      if snapshot.Some? {
        lastRoom := snapshot;
      }
    }

    method RoomChildUpsert(ctx: Option<Ctx>)
      modifies this
      ensures lastRoom == After(old(lastRoom), Present(ctx))
    {
      if lastRoom.Some? && ctx.Some? {
        lastRoom := Some(lastRoom.value[ctx.value.actor := ctx.value]);
      }
    }

    method RoomChildRemove(ctx: Option<Ctx>)
      modifies this
      ensures lastRoom == After(old(lastRoom), Leave(ctx))
    {
      if lastRoom.Some? && ctx.Some? {
        lastRoom := Some(lastRoom.value - {ctx.value.actor});
      }
    }

    method OnEvents(events: seq<RoomEvent>)
      modifies this
      ensures lastRoom == AfterAll(old(lastRoom), events)
    {
      for i := 0 to |events|
        invariant lastRoom == AfterAll(old(lastRoom), events[..i])
      {
        match events[i] {
          case Snapshot(children) => RememberRoom(children);
          case ChildAck(children) => RememberRoom(children);
          case Present(ctx) => RoomChildUpsert(ctx);
          case Leave(ctx) => RoomChildRemove(ctx);
        }
        assert events[..i + 1][..i] == events[..i];
      }
      assert events[..|events|] == events;
    }
  }

  function After(room: Option<Children>, e: RoomEvent): Option<Children> {
    match e
    case Snapshot(children) => if children.Some? then children else room
    case ChildAck(children) => if children.Some? then children else room
    case Present(ctx) =>
      if room.Some? && ctx.Some? then Some(room.value[ctx.value.actor := ctx.value]) else room
    case Leave(ctx) =>
      if room.Some? && ctx.Some? then Some(room.value - {ctx.value.actor}) else room
  }

  function AfterAll(room: Option<Children>, events: seq<RoomEvent>): Option<Children> {
    if events == [] then room else After(AfterAll(room, events[..|events| - 1]), events[|events| - 1])
  }

  /** The snapshot an event installs, if it does. */
  function Installs(e: RoomEvent): Option<Children> {
    match e
    case Snapshot(children) => children
    case ChildAck(children) => children
    case _ => None
  }

  /** The index of the latest installed snapshot. */
  predicate LatestSnapshot(events: seq<RoomEvent>, k: nat) {
    && k < |events| && Installs(events[k]).Some?
    && forall j | k < j < |events| :: Installs(events[j]).None?
  }

  predicate Concerns(e: RoomEvent, actor: string) {
    (e.Present? || e.Leave?) && e.ctx.Some? && e.ctx.value.actor == actor
  }

  /** Event `k` is the last one after `from` about `actor`. */
  predicate LastWord(events: seq<RoomEvent>, from: nat, actor: string, k: nat) {
    && from < k < |events| && Concerns(events[k], actor)
    && forall j | k < j < |events| :: !Concerns(events[j], actor)
  }

  predicate Silent(events: seq<RoomEvent>, from: nat, actor: string) {
    forall j | from < j < |events| :: !Concerns(events[j], actor)
  }

  function Find(children: Children, actor: string): Option<Ctx> {
    if actor in children then Some(children[actor]) else None
  }

  /** From a snapshot on the cache is never empty again. */
  lemma {:induction false} SnapshotFillsCache(room: Option<Children>, events: seq<RoomEvent>, s: nat)
    requires s < |events| && Installs(events[s]).Some?
    ensures AfterAll(room, events).Some?
    decreases |events|
  {
    var init, n := events[..|events| - 1], |events| - 1;
    if s < n {
      SnapshotFillsCache(room, init, s);
    }
  }

  /** After the latest snapshot, an actor is as the last event about it says; earlier events about it, and
      everything before the snapshot, no longer matter. */
  lemma {:induction false} CacheFollowsLastWord(room: Option<Children>, events: seq<RoomEvent>, s: nat, actor: string, k: nat)
    requires LatestSnapshot(events, s) && LastWord(events, s, actor, k)
    ensures AfterAll(room, events).Some?
    ensures Find(AfterAll(room, events).value, actor) == if events[k].Present? then events[k].ctx else None
    decreases |events|
  {
    var init, n := events[..|events| - 1], |events| - 1;
    SnapshotFillsCache(room, init, s);
    if k < n {
      assert forall j | 0 <= j < n :: init[j] == events[j];
      CacheFollowsLastWord(room, init, s, actor, k);
      assert Installs(events[n]).None? && !Concerns(events[n], actor);
    }
  }

  /** An actor no event has mentioned since the latest snapshot is as that snapshot had it. */
  lemma {:induction false} CacheKeepsSnapshot(room: Option<Children>, events: seq<RoomEvent>, s: nat, actor: string)
    requires LatestSnapshot(events, s) && Silent(events, s, actor)
    ensures AfterAll(room, events).Some?
    ensures Find(AfterAll(room, events).value, actor) == Find(Installs(events[s]).value, actor)
    decreases |events|
  {
    var init, n := events[..|events| - 1], |events| - 1;
    if s < n {
      assert forall j | 0 <= j < n :: init[j] == events[j];
      CacheKeepsSnapshot(room, init, s, actor);
      assert Installs(events[n]).None? && !Concerns(events[n], actor);
    }
  }

  /** Before any snapshot has been seen, child events leave the cache empty. */
  lemma {:induction false} NoSnapshotNoCache(events: seq<RoomEvent>)
    ensures AfterAll(None, events).None? <==> forall j | 0 <= j < |events| :: Installs(events[j]).None?
    decreases |events|
  {
    if events != [] {
      var init, n := events[..|events| - 1], |events| - 1;
      NoSnapshotNoCache(init);
      assert forall j | 0 <= j < n :: init[j] == events[j];
    }
  }

  /** Repeating an event changes nothing, and events about different actors commute. */
  lemma EventsCommute(room: Option<Children>, e: RoomEvent, f: RoomEvent)
    requires Installs(e).None? && Installs(f).None?
    ensures After(After(room, e), e) == After(room, e)
    ensures (forall a :: !(Concerns(e, a) && Concerns(f, a))) ==>
              After(After(room, e), f) == After(After(room, f), e)
  {
    if (e.Present? || e.Leave?) && e.ctx.Some? {
      assert Concerns(e, e.ctx.value.actor);
    }
    if room.Some? {
      assert After(After(room, e), e).value == After(room, e).value;
    }
    if room.Some? && (forall a :: !(Concerns(e, a) && Concerns(f, a))) {
      assert After(After(room, e), f).value == After(After(room, f), e).value;
    }
  }
}
