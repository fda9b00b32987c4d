/**
 Matching replies to actor calls (`src/context.rs`). A call sends its message, awaits, and only then
 registers under the message id; a poll drains the inbox and completes whoever is registered.
 Message ids are unique.
 */
module Replies {
  import opened Wrappers
  import opened Values

  datatype Message = Message(replyTo: Option<string>, payload: Payload)

  /** `senders` and `completed` are the table and the values handed to receivers; the rest is history:
      the ids sent, every message drained so far, and how many had been drained when each id registered. */
  datatype State = State(
    senders: set<string>,
    completed: map<string, Result<SchemeVal>>,
    inbox: seq<Message>,
    sent: set<string>,
    drained: seq<Message>,
    registeredAt: map<string, nat>)

  const START := State({}, map[], [], {}, [], map[])

  /** One drained message: its registered waiter, if there is one, leaves the table with the decoded reply. */
  function Route(s: State, msg: Message): State {
    var s' := s.(drained := s.drained + [msg]);
    if msg.replyTo.Some? && msg.replyTo.value in s.senders then
      s'.(senders := s.senders - {msg.replyTo.value},
          completed := s.completed[msg.replyTo.value := DecodeReply(msg.payload)])
    else s'
  }

  function RouteAll(s: State, msgs: seq<Message>): State
    decreases |msgs|
  {
    if msgs == [] then s else RouteAll(Route(s, msgs[0]), msgs[1..])
  }

  function Poll(s: State): State {
    RouteAll(s.(inbox := []), s.inbox)
  }

  function Register(s: State, id: string): State {
    s.(senders := s.senders + {id}, registeredAt := s.registeredAt[id := |s.drained|])
  }

  datatype Action = SendMessage(id: string) | RegisterSender(id: string) | Arrive(msg: Message) | PollReplies

  /** Ids are fresh when sent, and registered once, after the send. */
  predicate Enabled(s: State, a: Action) {
    match a
    case SendMessage(id) => id !in s.sent
    case RegisterSender(id) => id in s.sent && id !in s.registeredAt
    case _ => true
  }

  function Step(s: State, a: Action): State
    requires Enabled(s, a)
  {
    match a
    case SendMessage(id) => s.(sent := s.sent + {id})
    case RegisterSender(id) => Register(s, id)
    case Arrive(msg) => s.(inbox := s.inbox + [msg])
    case PollReplies => Poll(s)
  }

  predicate Possible(s: State, run: seq<Action>)
    decreases |run|
  {
    run != [] ==> Enabled(s, run[0]) && Possible(Step(s, run[0]), run[1..])
  }

  function After(s: State, run: seq<Action>): State
    requires Possible(s, run)
    decreases |run|
  {
    if run == [] then s else After(Step(s, run[0]), run[1..])
  }

  // ── What correlation means ────────────────────────────────────────────────

  predicate Answers(msg: Message, id: string) {
    msg.replyTo == Some(id)
  }

  /** The k-th drained message is the first reply to `id` at or after position `from`. */
  predicate FirstReply(drained: seq<Message>, from: nat, id: string, k: nat) {
    && from <= k < |drained| && Answers(drained[k], id)
    && forall j | from <= j < k :: !Answers(drained[j], id)
  }

  predicate Unanswered(drained: seq<Message>, from: nat, id: string) {
    forall j | from <= j < |drained| :: !Answers(drained[j], id)
  }

  /** A registered id is in the table while no reply to it has been drained since it registered, and is
      otherwise completed with the first such reply. Nothing else is ever in the table or completed. */
  ghost predicate Correlated(s: State) {
    && s.registeredAt.Keys <= s.sent
    && s.senders + s.completed.Keys == s.registeredAt.Keys
    && s.senders !! s.completed.Keys
    && (forall id | id in s.registeredAt :: s.registeredAt[id] <= |s.drained|)
    && (forall id | id in s.senders :: Unanswered(s.drained, s.registeredAt[id], id))
    && (forall id | id in s.completed ::
          exists k: nat :: FirstReply(s.drained, s.registeredAt[id], id, k)
                           && s.completed[id] == DecodeReply(s.drained[k].payload))
  }

  lemma RouteKeepsCorrelated(s: State, msg: Message)
    requires Correlated(s)
    ensures Correlated(Route(s, msg))
  {
    var s' := Route(s, msg);
    forall id | id in s'.completed
      ensures exists k: nat :: FirstReply(s'.drained, s'.registeredAt[id], id, k)
                               && s'.completed[id] == DecodeReply(s'.drained[k].payload)
    {
      if id in s.completed {
        StaysFirst(s, msg, id);
      } else {
        BecomesFirst(s, msg, id);
      }
    }
    forall id | id in s'.senders
      ensures Unanswered(s'.drained, s'.registeredAt[id], id)
    {
      assert Unanswered(s.drained, s.registeredAt[id], id);
    }
  }

  lemma BecomesFirst(s: State, msg: Message, id: string)
    requires Correlated(s) && id in s.senders && Answers(msg, id)
    ensures FirstReply(s.drained + [msg], s.registeredAt[id], id, |s.drained|)
  {
    assert Unanswered(s.drained, s.registeredAt[id], id);
  }

  lemma StaysFirst(s: State, msg: Message, id: string)
    requires Correlated(s) && id in s.completed
    ensures var drained := s.drained + [msg];
            exists k: nat :: FirstReply(drained, s.registeredAt[id], id, k)
                             && s.completed[id] == DecodeReply(drained[k].payload)
  {
    var k: nat :| FirstReply(s.drained, s.registeredAt[id], id, k)
                  && s.completed[id] == DecodeReply(s.drained[k].payload);
    assert FirstReply(s.drained + [msg], s.registeredAt[id], id, k);
  }

  lemma {:induction false} RouteAllKeepsCorrelated(s: State, msgs: seq<Message>)
    requires Correlated(s)
    ensures Correlated(RouteAll(s, msgs))
    ensures RouteAll(s, msgs).drained == s.drained + msgs
    decreases |msgs|
  {
    if msgs != [] {
      RouteKeepsCorrelated(s, msgs[0]);
      RouteAllKeepsCorrelated(Route(s, msgs[0]), msgs[1..]);
      assert s.drained + [msgs[0]] + msgs[1..] == s.drained + msgs;
    }
  }

  lemma StepKeepsCorrelated(s: State, a: Action)
    requires Correlated(s) && Enabled(s, a)
    ensures Correlated(Step(s, a))
  {
    match a
    case PollReplies =>
      assert Correlated(s.(inbox := []));
      RouteAllKeepsCorrelated(s.(inbox := []), s.inbox);
    case RegisterSender(id) =>
      var s' := Step(s, a);
      forall other | other in s'.completed
        ensures exists k: nat :: FirstReply(s'.drained, s'.registeredAt[other], other, k)
                                 && s'.completed[other] == DecodeReply(s'.drained[k].payload)
      {
        assert s'.registeredAt[other] == s.registeredAt[other];
      }
    case _ =>
  }

  /** Over every interleaving of calls, arrivals and polls. */
  lemma {:induction false} EveryRunCorrelates(s: State, run: seq<Action>)
    requires Correlated(s) && Possible(s, run)
    ensures Correlated(After(s, run))
    decreases |run|
  {
    if run != [] {
      StepKeepsCorrelated(s, run[0]);
      EveryRunCorrelates(Step(s, run[0]), run[1..]);
    }
  }

  /** The messages that arrive over a run, in order. */
  function Arrived(run: seq<Action>): seq<Message> {
    if run == [] then [] else (if run[0].Arrive? then [run[0].msg] else []) + Arrived(run[1..])
  }

  /** Every message is drained once, in the order of arrival, or still waits in the inbox; a poll leaves none. */
  lemma {:induction false} DrainedOnce(s: State, run: seq<Action>)
    requires Correlated(s) && Possible(s, run)
    ensures After(s, run).drained + After(s, run).inbox == s.drained + s.inbox + Arrived(run)
    ensures run != [] && run[|run| - 1].PollReplies? ==> After(s, run).inbox == []
    decreases |run|
  {
    if run == [] {
      assert s.drained + s.inbox + [] == s.drained + s.inbox;
    } else {
      var s1, later := Step(s, run[0]), run[1..];
      StepKeepsCorrelated(s, run[0]);
      DrainedOnce(s1, later);
      StepDrains(s, run[0]);
      var here := if run[0].Arrive? then [run[0].msg] else [];
      assert s.drained + s.inbox + here + Arrived(later) == s.drained + s.inbox + (here + Arrived(later));
      if later != [] {
        assert later[|later| - 1] == run[|run| - 1];
      }
    }
  }

  lemma StepDrains(s: State, a: Action)
    requires Correlated(s) && Enabled(s, a)
    ensures Step(s, a).drained + Step(s, a).inbox == s.drained + s.inbox + if a.Arrive? then [a.msg] else []
    ensures a.PollReplies? ==> Step(s, a).inbox == []
  {
    if a.PollReplies? {
      RouteAllKeepsCorrelated(s.(inbox := []), s.inbox);
      RouteAllKeepsInbox(s.(inbox := []), s.inbox);
    }
  }

  lemma {:induction false} RouteAllKeepsInbox(s: State, msgs: seq<Message>)
    ensures RouteAll(s, msgs).inbox == s.inbox
    decreases |msgs|
  {
    if msgs != [] {
      RouteAllKeepsInbox(Route(s, msgs[0]), msgs[1..]);
    }
  }

  /** A completion is never revised, and its id never returns to the table. */
  lemma {:induction false} CompletesAtMostOnce(s: State, run: seq<Action>, id: string)
    requires Correlated(s) && Possible(s, run) && id in s.completed
    ensures id in After(s, run).completed && After(s, run).completed[id] == s.completed[id]
    ensures id !in After(s, run).senders
    decreases |run|
  {
    if run != [] {
      StepKeepsCorrelated(s, run[0]);
      if run[0].PollReplies? {
        RoutingNeverRevises(s.(inbox := []), s.inbox, id);
      }
      CompletesAtMostOnce(Step(s, run[0]), run[1..], id);
    }
  }

  lemma {:induction false} RoutingNeverRevises(s: State, msgs: seq<Message>, id: string)
    requires Correlated(s) && id in s.completed
    ensures id in RouteAll(s, msgs).completed && RouteAll(s, msgs).completed[id] == s.completed[id]
    decreases |msgs|
  {
    if msgs != [] {
      RouteKeepsCorrelated(s, msgs[0]);
      RoutingNeverRevises(Route(s, msgs[0]), msgs[1..], id);
    }
  }

  /** A reply drained before its call has registered is dropped: the call stays in the table
      until another reply to it is drained. */
  lemma EarlyReplyIsDropped(s: State, id: string, early: seq<Message>, late: seq<Message>)
    requires Correlated(s) && id in s.sent && id !in s.registeredAt && s.inbox == []
    requires forall msg | msg in late :: !Answers(msg, id)
    ensures var polled := Poll(s.(inbox := early));
            id !in polled.completed
            && id in Poll(Register(polled, id).(inbox := late)).senders
  {
    RouteAllKeepsCorrelated(s, early);
    RouteAllTable(s, early, id);
    var polled := Poll(s.(inbox := early));
    assert s.(inbox := early).(inbox := []) == s;
    StepKeepsCorrelated(polled, RegisterSender(id));
    var registered := Register(polled, id);
    assert registered.(inbox := late).(inbox := []) == registered.(inbox := []);
    StaysWhileUnanswered(registered.(inbox := []), late, id);
  }

  lemma {:induction false} RouteAllTable(s: State, msgs: seq<Message>, id: string)
    ensures RouteAll(s, msgs).registeredAt == s.registeredAt && RouteAll(s, msgs).sent == s.sent
    decreases |msgs|
  {
    if msgs != [] {
      RouteAllTable(Route(s, msgs[0]), msgs[1..], id);
    }
  }

  lemma {:induction false} StaysWhileUnanswered(s: State, msgs: seq<Message>, id: string)
    requires id in s.senders && forall msg | msg in msgs :: !Answers(msg, id)
    ensures id in RouteAll(s, msgs).senders
    decreases |msgs|
  {
    if msgs != [] {
      assert msgs[0] in msgs;
      StaysWhileUnanswered(Route(s, msgs[0]), msgs[1..], id);
    }
  }

  // ── The table as the source keeps it ──────────────────────────────────────

  class ReplyTable {
    var senders: set<string>
    var completed: map<string, Result<SchemeVal>>
    var inbox: seq<Message>
    ghost var sent: set<string>
    ghost var drained: seq<Message>
    ghost var registeredAt: map<string, nat>

    ghost function Snapshot(): State
      reads this
    {
      State(senders, completed, inbox, sent, drained, registeredAt)
    }

    constructor ()
      ensures Snapshot() == START && Correlated(Snapshot())
    {
      senders, completed, inbox := {}, map[], [];
      sent, drained, registeredAt := {}, [], map[];
    }

    method RegisterReplySender(id: string)
      requires Enabled(Snapshot(), RegisterSender(id))
      modifies this
      ensures Snapshot() == Register(old(Snapshot()), id)
    {
      senders := senders + {id};
      registeredAt := registeredAt[id := |drained|];
    }

    method PollReplies()
      requires Correlated(Snapshot())
      modifies this
      ensures Snapshot() == Poll(old(Snapshot())) && Correlated(Snapshot())
    {
      ghost var start := Snapshot();
      StepKeepsCorrelated(start, Action.PollReplies);
      var messages := inbox;
      inbox := [];
      for i := 0 to |messages|
        invariant RouteAll(start.(inbox := []), messages) == RouteAll(Snapshot(), messages[i..])
      {
        var msg := messages[i];
        drained := drained + [msg];
        if msg.replyTo.None? {
          continue;
        }
        var result := DecodeReply(msg.payload);
        if msg.replyTo.value in senders {
          senders := senders - {msg.replyTo.value};
          completed := completed[msg.replyTo.value := result];
        }
      }
    }
  }
}
