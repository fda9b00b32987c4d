/** The Rust client's eval loop (`src/client.rs`) and what it reads through the daemon. */
module Client {
  import opened Wrappers
  import opened Daemon
  import opened DaemonProofs

  // ── One eval ──────────────────────────────────────────────────────────────

  /** What the response loop prints, the outcome it returns if it gets one, and the responses it leaves unread. */
  datatype Seen = Seen(texts: seq<string>, outcome: Option<Outcome>, rest: seq<Response>)

  /** Frames for other ids, and any other frame, are skipped. */
  function ReadEval(stream: seq<Response>, id: nat): Seen {
    if stream == [] then Seen([], None, [])
    else
      match stream[0]
      case Display(rid, text) =>
        var later := ReadEval(stream[1..], id);
        if rid == id then Seen([text] + later.texts, later.outcome, later.rest) else later
      case EvalResult(rid, outcome) =>
        if rid == id then Seen([], Some(outcome), stream[1..]) else ReadEval(stream[1..], id)
      case _ => ReadEval(stream[1..], id)
  }

  lemma {:induction false} ReadEvalShrinks(stream: seq<Response>, id: nat)
    ensures ReadEval(stream, id).outcome.Some? ==> |ReadEval(stream, id).rest| < |stream|
  {
    if stream != [] {
      ReadEvalShrinks(stream[1..], id);
    }
  }

  datatype Done = Done(texts: seq<string>, outcome: Outcome)

  /** The evals that complete, one after another, with ids counting up from `id`. */
  function Session(stream: seq<Response>, id: nat): seq<Done>
    decreases |stream|
  {
    ReadEvalShrinks(stream, id);
    var seen := ReadEval(stream, id);
    if seen.outcome.None? then [] else [Done(seen.texts, seen.outcome.value)] + Session(seen.rest, id + 1)
  }

  /** What is printed by `n` evals numbered from `id`, the last of which may find the stream at its end. */
  function Printed(stream: seq<Response>, id: nat, n: nat): seq<string>
    decreases n
  {
    if n == 0 then []
    else
      var seen := ReadEval(stream, id);
      if seen.outcome.None? then seen.texts else seen.texts + Printed(seen.rest, id + 1, n - 1)
  }

  function AllTexts(session: seq<Done>): seq<string> {
    if session == [] then [] else session[0].texts + AllTexts(session[1..])
  }

  /** Completed evals print what the session says they showed, and an eval cut short adds what it had shown. */
  lemma {:induction false} PrintedIsSession(stream: seq<Response>, id: nat, n: nat)
    ensures var session := Session(stream, id);
            && (n <= |session| ==> Printed(stream, id, n) == AllTexts(session[..n]))
            && (n > |session| ==> AllTexts(session) <= Printed(stream, id, n))
    decreases n
  {
    var session, seen := Session(stream, id), ReadEval(stream, id);
    if n > 0 && seen.outcome.Some? {
      PrintedIsSession(seen.rest, id + 1, n - 1);
      assert session[1..] == Session(seen.rest, id + 1);
      if n <= |session| {
        assert session[..n][1..] == session[1..][..n - 1];
      }
    }
  }

  /** Whether the last printed text left the cursor inside a line. */
  function Dangling(texts: seq<string>, was: bool): bool {
    if texts == [] then was
    else Dangling(texts[1..], if texts[0] == "" then was else texts[0][|texts[0]| - 1] != '\n')
  }

  /** A frame that is neither a display nor a result of eval `id`. */
  predicate Foreign(f: Response, id: nat) {
    match f
    case Display(rid, _) => rid != id
    case EvalResult(rid, _) => rid != id
    case _ => true
  }

  /** A foreign frame, wherever it arrives, changes neither what is printed nor the outcome. */
  lemma {:induction false} ForeignFramesAreSkipped(p: seq<Response>, f: Response, q: seq<Response>, id: nat)
    requires Foreign(f, id)
    ensures ReadEval(p + ([f] + q), id).texts == ReadEval(p + q, id).texts
    ensures ReadEval(p + ([f] + q), id).outcome == ReadEval(p + q, id).outcome
    decreases |p|
  {
    if p == [] {
      assert p + ([f] + q) == [f] + q && p + q == q;
      assert ([f] + q)[1..] == q;
    } else {
      assert (p + ([f] + q))[1..] == p[1..] + ([f] + q) && (p + q)[1..] == p[1..] + q;
      ForeignFramesAreSkipped(p[1..], f, q, id);
    }
  }

  predicate LastShown(texts: seq<string>, k: nat) {
    k < |texts| && texts[k] != "" && forall j | k < j < |texts| :: texts[j] == ""
  }

  lemma {:induction false} SilenceLeavesCursor(texts: seq<string>, was: bool)
    requires forall j | 0 <= j < |texts| :: texts[j] == ""
    ensures Dangling(texts, was) == was
    decreases |texts|
  {
    if texts != [] {
      SilenceLeavesCursor(texts[1..], was);
    }
  }

  /** The last text that is not empty decides whether the cursor is left inside a line. */
  lemma {:induction false} DanglingExact(texts: seq<string>, was: bool, k: nat)
    requires LastShown(texts, k)
    ensures Dangling(texts, was) <==> texts[k][|texts[k]| - 1] != '\n'
    decreases |texts|
  {
    var tail := texts[1..];
    var now := if texts[0] == "" then was else texts[0][|texts[0]| - 1] != '\n';
    assert forall j | 0 <= j < |tail| :: tail[j] == texts[j + 1];
    if k == 0 {
      SilenceLeavesCursor(tail, now);
    } else {
      DanglingExact(tail, now, k - 1);
    }
  }

  class DaemonClient {
    const isolated: bool
    const incoming: seq<Response>
    var pos: nat
    var nextId: nat
    var danglingOutput: bool
    var printed: seq<string>
    var requests: seq<Request>

    constructor (isolated: bool, incoming: seq<Response>)
      ensures this.isolated == isolated && this.incoming == incoming
      ensures pos == 0 && nextId == 1 && !danglingOutput && printed == [] && requests == []
    {
      this.isolated, this.incoming := isolated, incoming;
      pos, nextId, danglingOutput, printed, requests := 0, 1, false, [], [];
    }

    /** The handshake takes exactly one response. */
    method Hello(version: string) returns (r: Result<()>)
      requires pos <= |incoming|
      modifies this
      ensures pos <= |incoming|
      ensures requests == old(requests) + [Request.Hello(version)]
      ensures r.Success? <==> old(pos) < |incoming| && incoming[old(pos)] == HelloAck(version)
      ensures r.Success? ==> pos == old(pos) + 1
      ensures nextId == old(nextId) && printed == old(printed)
    {
      requests := requests + [Request.Hello(version)];
      if pos == |incoming| {
        return Failure("daemon closed connection during handshake");
      }
      var resp := incoming[pos];
      pos := pos + 1;
      match resp {
        case HelloAck(v) =>
          if v != version {
            return Failure("daemon version does not match client");
          }
          return Success(());
        case _ => return Failure("unexpected handshake reply");
      }
    }

    method Eval(source: string) returns (r: Result<Outcome>)
      requires pos <= |incoming|
      modifies this
      ensures pos <= |incoming|
      ensures nextId == old(nextId) + 1
      ensures requests == old(requests) + [Request.Eval(Job(old(nextId), source, isolated))]
      ensures var seen := ReadEval(incoming[old(pos)..], old(nextId));
              && printed == old(printed) + seen.texts
              && danglingOutput == Dangling(seen.texts, false)
              && incoming[pos..] == seen.rest
              && (seen.outcome.Some? ==> r == Success(seen.outcome.value))
              && (seen.outcome.None? ==> r == Failure("daemon closed connection"))
    {
      var id := nextId;
      nextId := nextId + 1;
      danglingOutput := false;
      requests := requests + [Request.Eval(Job(id, source, isolated))];
      ghost var whole := ReadEval(incoming[pos..], id);
      while true
        invariant old(pos) <= pos <= |incoming|
        invariant nextId == old(nextId) + 1
        invariant requests == old(requests) + [Request.Eval(Job(id, source, isolated))]
        invariant printed + ReadEval(incoming[pos..], id).texts == old(printed) + whole.texts
        invariant Dangling(ReadEval(incoming[pos..], id).texts, danglingOutput) == Dangling(whole.texts, false)
        invariant ReadEval(incoming[pos..], id).outcome == whole.outcome
        invariant ReadEval(incoming[pos..], id).rest == whole.rest
        decreases |incoming| - pos
      {
        if pos == |incoming| {
          return Failure("daemon closed connection");
        }
        var resp := incoming[pos];
        assert incoming[pos..][1..] == incoming[pos + 1..];
        ghost var later := ReadEval(incoming[pos + 1..], id);
        pos := pos + 1;
        match resp {
          case Display(rid, text) =>
            if rid == id {
              assert printed + ([text] + later.texts) == (printed + [text]) + later.texts;
              printed := printed + [text];
              if text != "" {
                danglingOutput := text[|text| - 1] != '\n';
              }
            }
          case EvalResult(rid, outcome) =>
            if rid == id {
              return Success(outcome);
            }
          case _ =>
        }
      }
    }

    /** A script of evals, cut short by the end of the stream: its outcomes and printed texts are what the session
        reads off the stream. */
    method EvalAll(sources: seq<string>) returns (results: seq<Outcome>)
      requires pos <= |incoming|
      modifies this
      ensures var session := Session(incoming[old(pos)..], old(nextId));
              && |results| == (if |session| < |sources| then |session| else |sources|)
              && forall i | 0 <= i < |results| :: results[i] == session[i].outcome
      ensures printed == old(printed) + Printed(incoming[old(pos)..], old(nextId), |sources|)
    {
      hide ReadEval, Session, Printed, Dangling;
      results := [];
      ghost var done: seq<Done> := [];
      ghost var stream := incoming[pos..];
      ghost var session, shown := Session(stream, nextId), Printed(stream, nextId, |sources|);
      for i := 0 to |sources|
        invariant pos <= |incoming| && |results| == |done| == i && nextId == old(nextId) + i
        invariant stream == incoming[pos..] && session == done + Session(stream, nextId)
        invariant forall j | 0 <= j < i :: results[j] == done[j].outcome
        invariant printed + Printed(stream, nextId, |sources| - i) == old(printed) + shown
      {
        ghost var seen := ReadEval(stream, nextId);
        OneEval(stream, nextId, |sources| - i, printed, done);
        var r := Eval(sources[i]);
        if r.Failure? {
          return;
        }
        results := results + [r.value];
        done := done + [Done(seen.texts, seen.outcome.value)];
        stream := seen.rest;
      }
      NoMorePrinted(stream, nextId);
    }
  }

  lemma NoMorePrinted(stream: seq<Response>, id: nat)
    ensures Printed(stream, id, 0) == []
  {
  }

  /** One more eval, on what has been printed and completed before it. */
  lemma OneEval(stream: seq<Response>, id: nat, n: nat, before: seq<string>, done: seq<Done>)
    requires n > 0
    ensures var seen := ReadEval(stream, id);
            if seen.outcome.None? then
              Session(stream, id) == [] && before + Printed(stream, id, n) == before + seen.texts
            else
              && before + Printed(stream, id, n) == (before + seen.texts) + Printed(seen.rest, id + 1, n - 1)
              && done + Session(stream, id)
                 == (done + [Done(seen.texts, seen.outcome.value)]) + Session(seen.rest, id + 1)
  {
  }

  // ── Reading what the daemon rendered ──────────────────────────────────────

  lemma Assoc<T>(a: seq<T>, b: seq<T>, c: seq<T>)
    ensures (a + b) + c == a + (b + c)
  {
  }

  lemma ReadOneDisplay(id: nat, text: string, tail: seq<Response>)
    ensures var later := ReadEval(tail, id);
            ReadEval([Display(id, text)] + tail, id) == Seen([text] + later.texts, later.outcome, later.rest)
  {
    assert ([Display(id, text)] + tail)[1..] == tail;
  }

  lemma {:induction false} ReadDisplays(id: nat, texts: seq<string>, tail: seq<Response>)
    ensures var later := ReadEval(tail, id);
            ReadEval(Displays(id, texts) + tail, id) == Seen(texts + later.texts, later.outcome, later.rest)
    decreases |texts|
  {
    var later := ReadEval(tail, id);
    if texts == [] {
      assert Displays(id, texts) + tail == tail && texts + later.texts == later.texts;
    } else {
      var init, last := texts[..|texts| - 1], texts[|texts| - 1];
      var one := Display(id, last);
      assert texts == init + [last];
      Assoc(Displays(id, init), [one], tail);
      ReadDisplays(id, init, [one] + tail);
      ReadOneDisplay(id, last, tail);
      Assoc(init, [last], later.texts);
    }
  }

  lemma ReadRendered(a: Answer, tail: seq<Response>)
    requires a.Evaluated?
    ensures ReadEval(Rendered(a) + tail, a.job.id) == Seen(a.effect.displays, Some(a.effect.outcome), tail)
  {
    var id, result := a.job.id, EvalResult(a.job.id, a.effect.outcome);
    ReadDisplays(id, a.effect.displays, [result] + tail);
    assert ([result] + tail)[1..] == tail;
    assert Rendered(a) + tail == Displays(id, a.effect.displays) + ([result] + tail);
    assert a.effect.displays + [] == a.effect.displays;
  }

  lemma {:induction false} RenderedAllCons(a: Answer, answers: seq<Answer>)
    ensures RenderedAll([a] + answers) == Rendered(a) + RenderedAll(answers)
    decreases |answers|
  {
    if answers == [] {
      RenderedOne(a);
      assert [a] + answers == [a] && Rendered(a) + [] == Rendered(a);
    } else {
      var init, last := answers[..|answers| - 1], answers[|answers| - 1];
      assert answers == init + [last];
      RenderedAllCons(a, init);
      RenderedSnoc(a, init, last);
    }
  }

  lemma RenderedOne(a: Answer)
    ensures RenderedAll([a]) == Rendered(a)
  {
    AppendAnswer([], a);
    assert [] + [a] == [a] && [] + Rendered(a) == Rendered(a);
  }

  lemma RenderedSnoc(a: Answer, init: seq<Answer>, last: Answer)
    requires RenderedAll([a] + init) == Rendered(a) + RenderedAll(init)
    ensures RenderedAll([a] + (init + [last])) == Rendered(a) + RenderedAll(init + [last])
  {
    Assoc([a], init, [last]);
    AppendAnswer([a] + init, last);
    AppendAnswer(init, last);
    Assoc(Rendered(a), RenderedAll(init), Rendered(last));
  }

  lemma StreamCons(a: Answer, answers: seq<Answer>, tail: seq<Response>)
    ensures RenderedAll([a] + answers) + tail == Rendered(a) + (RenderedAll(answers) + tail)
  {
    RenderedAllCons(a, answers);
  }

  /** Evals with ids counting up from `id`. */
  predicate Numbered(answers: seq<Answer>, id: nat) {
    forall i | 0 <= i < |answers| :: answers[i].Evaluated? && answers[i].job.id == id + i
  }

  function DoneOf(a: Answer): Done
    requires a.Evaluated?
  {
    Done(a.effect.displays, a.effect.outcome)
  }

  function AllDone(answers: seq<Answer>): (r: seq<Done>)
    requires forall a | a in answers :: a.Evaluated?
    ensures |r| == |answers| && forall i | 0 <= i < |answers| :: r[i] == DoneOf(answers[i])
  {
    if answers == [] then [] else [DoneOf(answers[0])] + AllDone(answers[1..])
  }

  /** Numbered evals, rendered, read back as exactly their displays and outcomes. */
  lemma {:induction false} SessionOfRendered(answers: seq<Answer>, id: nat, tail: seq<Response>)
    requires Numbered(answers, id) && ReadEval(tail, id + |answers|).outcome.None?
    ensures Session(RenderedAll(answers) + tail, id) == AllDone(answers)
    decreases |answers|
  {
    var stream := RenderedAll(answers) + tail;
    if answers == [] {
      assert stream == tail;
    } else {
      var a, rest := answers[0], answers[1..];
      var later := RenderedAll(rest) + tail;
      assert stream == Rendered(a) + later by {
        assert answers == [a] + rest;
        StreamCons(a, rest, tail);
      }
      ReadRendered(a, later);
      SessionOfRendered(rest, id + 1, tail);
    }
  }

  lemma {:induction false} ReadEvalPrefix(p: seq<Response>, q: seq<Response>, id: nat)
    requires ReadEval(p, id).outcome.Some?
    ensures var seen := ReadEval(p, id);
            ReadEval(p + q, id) == Seen(seen.texts, seen.outcome, seen.rest + q)
  {
    assert (p + q)[0] == p[0] && (p + q)[1..] == p[1..] + q;
    if ReadEval(p[1..], id).outcome.Some? {
      ReadEvalPrefix(p[1..], q, id);
    }
  }

  /** What has been read stays read as more arrives. */
  lemma {:induction false} SessionPrefix(p: seq<Response>, q: seq<Response>, id: nat)
    ensures Session(p, id) <= Session(p + q, id)
    decreases |p|
  {
    ReadEvalShrinks(p, id);
    if ReadEval(p, id).outcome.Some? {
      ReadEvalPrefix(p, q, id);
      SessionPrefix(ReadEval(p, id).rest, q, id + 1);
    }
  }

  // ── Through the daemon ────────────────────────────────────────────────────

  /** What a `DaemonClient` sends: a hello, then evals numbered from 1. */
  predicate Script(submitted: seq<Request>, version: string, sources: seq<string>, isolated: bool) {
    && |submitted| == 1 + |sources|
    && submitted[0] == Request.Hello(version)
    && forall i | 0 <= i < |sources| :: submitted[i + 1] == Request.Eval(Job(i + 1, sources[i], isolated))
  }

  lemma SubmittedAt<E(!new)>(conn: Conn<E>, i: nat)
    requires Consistent(conn)
    ensures |conn.served| <= |conn.submitted|
    ensures i < |conn.served| ==> conn.submitted[i] == RequestOf(conn.served[i])
    ensures conn.phase.Running? || conn.phase.Waiting? ==>
              |conn.served| < |conn.submitted| && conn.submitted[|conn.served|] == Request.Eval(conn.phase.job)
  {
  }

  /** The evals of a script served so far: the hello's answer, then evals of its sources in order. */
  lemma ServedScript<E(!new)>(conn: Conn<E>, version: string, sources: seq<string>, isolated: bool)
    requires Consistent(conn) && Script(conn.submitted, version, sources, isolated) && conn.out != []
    ensures conn.served != [] && conn.served[0].Plain? && conn.served[0].response.HelloAck?
    ensures |conn.served| <= |conn.submitted|
    ensures forall i | 1 <= i < |conn.served| ::
              conn.served[i].Evaluated? && conn.served[i].job == Job(i, sources[i - 1], isolated)
    ensures conn.phase.Running? ==> conn.phase.job.id == |conn.served|
  {
    var served := conn.served;
    SubmittedAt(conn, 0);
    assert served != [];
    assert served[0] in served;
    forall i | 1 <= i < |served|
      ensures served[i].Evaluated? && served[i].job == Job(i, sources[i - 1], isolated)
    {
      var j := i - 1;
      SubmittedAt(conn, i);
      assert conn.submitted[j + 1] == Request.Eval(Job(j + 1, sources[j], isolated));
      assert served[i] in served;
    }
    if conn.phase.Running? {
      var j := |served| - 1;
      assert conn.submitted[j + 1] == Request.Eval(Job(j + 1, sources[j], isolated));
    }
  }

  lemma {:induction false} EvalsOfEvals(first: Answer, evals: seq<Answer>)
    requires first.Plain? && forall i | 0 <= i < |evals| :: evals[i].Evaluated?
    ensures EvalsOf([first] + evals) == evals
    decreases |evals|
  {
    if evals == [] {
      assert [first] + evals == [] + [first];
      AppendAnswer([], first);
    } else {
      var init, last := evals[..|evals| - 1], evals[|evals| - 1];
      EvalsOfEvals(first, init);
      assert evals == init + [last];
      EvalsSnoc(first, init, last);
    }
  }

  lemma EvalsSnoc(first: Answer, init: seq<Answer>, last: Answer)
    requires last.Evaluated? && EvalsOf([first] + init) == init
    ensures EvalsOf([first] + (init + [last])) == init + [last]
  {
    Assoc([first], init, [last]);
    AppendAnswer([first] + init, last);
  }

  lemma InFlightIncomplete<E(!new)>(conn: Conn<E>)
    requires Consistent(conn)
    ensures conn.phase.Running? ==> ReadEval(InFlight(conn.phase), conn.phase.job.id).outcome.None?
    ensures !conn.phase.Running? ==> InFlight(conn.phase) == []
  {
    if conn.phase.Running? {
      var p := conn.phase;
      var shown := p.effect.displays[..p.shown];
      ReadDisplays(p.job.id, shown, []);
      assert Displays(p.job.id, shown) + [] == Displays(p.job.id, shown);
    }
  }

  lemma SessionOfOut(out: seq<Response>, ack: Answer, evals: seq<Answer>, partial: seq<Response>)
    requires ack.Plain? && Numbered(evals, 1) && ReadEval(partial, 1 + |evals|).outcome.None?
    requires out == RenderedAll([ack] + evals) + partial
    ensures out != [] && out[0] == ack.response && Session(out[1..], 1) == AllDone(evals)
  {
    var later := RenderedAll(evals) + partial;
    StreamCons(ack, evals, partial);
    assert ([ack.response] + later)[1..] == later;
    SessionOfRendered(evals, 1, partial);
  }

  /** The evals a script has had served: numbered from 1, each on its own source. */
  predicate Follows(evals: seq<Answer>, sources: seq<string>, isolated: bool) {
    && |evals| <= |sources|
    && forall i | 0 <= i < |evals| :: evals[i].Evaluated? && evals[i].job == Job(i + 1, sources[i], isolated)
  }

  lemma ServedEvals<E(!new)>(conn: Conn<E>, version: string, sources: seq<string>, isolated: bool)
      returns (ack: Answer, evals: seq<Answer>)
    requires Consistent(conn) && Script(conn.submitted, version, sources, isolated) && conn.out != []
    ensures conn.served == [ack] + evals && EvalsOf(conn.served) == evals
    ensures ack.Plain? && ack.response.HelloAck?
    ensures Follows(evals, sources, isolated) && Numbered(evals, 1)
    ensures ReadEval(InFlight(conn.phase), 1 + |evals|).outcome.None?
  {
    ServedScript(conn, version, sources, isolated);
    InFlightIncomplete(conn);
    hide Consistent, ReadEval;
    ack, evals := conn.served[0], conn.served[1..];
    assert conn.served == [ack] + evals;
    forall i | 0 <= i < |evals|
      ensures evals[i].Evaluated? && evals[i].job == Job(i + 1, sources[i], isolated)
    {
      assert evals[i] == conn.served[i + 1];
    }
    EvalsOfEvals(ack, evals);
  }

  /** The whole response stream of a script, read back: its evals, in order, each on its own source. */
  lemma ScriptSession<E(!new)>(conn: Conn<E>, version: string, sources: seq<string>, isolated: bool)
    requires Consistent(conn) && Script(conn.submitted, version, sources, isolated) && conn.out != []
    ensures conn.out[0].HelloAck?
    ensures var evals := EvalsOf(conn.served);
            Follows(evals, sources, isolated) && Session(conn.out[1..], 1) == AllDone(evals)
  {
    var ack, evals := ServedEvals(conn, version, sources, isolated);
    SessionOfOut(conn.out, ack, evals, InFlight(conn.phase));
  }

  /** Where in the order connection `c` had its turn number `n`, counting from 0. */
  function Position(order: seq<Turn>, c: nat, n: nat): nat
    requires n < |TurnsOf(order, c)|
  {
    var init := order[..|order| - 1];
    if n < |TurnsOf(init, c)| then Position(init, c, n) else |order| - 1
  }

  lemma {:induction false} PositionExact(order: seq<Turn>, c: nat, n: nat)
    requires n < |TurnsOf(order, c)|
    ensures var p := Position(order, c, n);
            && p < |order| && order[p].EvalTurn? && order[p].conn == c
            && TurnsOf(order, c)[n] == Evaluated(order[p].job, order[p].effect)
            && |TurnsOf(order[..p], c)| == n
    decreases |order|
  {
    var init := order[..|order| - 1];
    if n < |TurnsOf(init, c)| {
      PositionExact(init, c, n);
      var p := Position(init, c, n);
      assert init[..p] == order[..p] && init[p] == order[p];
    }
  }

  function DoneWith(effect: Effect): Done {
    Done(effect.displays, effect.outcome)
  }

  /** What was read is the turn at `p`, on `job`, the one after `n` others of `c`; and, where the turns before it
      vouch for it, it is what the sequential evaluator does after them. */
  predicate ReadsTurn<E>(ev: Evaluator<E>, order: seq<Turn>, c: nat, n: nat, p: nat, job: Job, done: Done) {
    && p < |order| && order[p].EvalTurn? && order[p].conn == c && order[p].job == job
    && |TurnsOf(order[..p], c)| == n
    && done == DoneWith(order[p].effect)
    && (Vouched(ev, order[..p], job) ==> done == DoneWith(SequentialEffect(ev, order[..p], c, job, order[p].tape)))
  }

  /** Refinement. In every reachable world, whatever prefix of its responses a client has received, its n-th
      completed eval printed exactly the displays, in order and once, and returned exactly the outcome, of its
      connection's n-th turn in the order; that turn evaluated its n-th source, and did what a sequential evaluator
      does after all turns before it, unless it used a shared environment torn by a reset inside an eval and
      not reset since. With every response received, every turn so far has been read. */
  lemma ClientSeesSequentialEvaluator<E(!new)>(
      ev: Evaluator<E>, run: seq<Action>, c: nat,
      version: string, sources: seq<string>, isolated: bool, received: seq<Response>)
    requires Possible(ev, Start(ev), run)
    requires var w := After(ev, Start(ev), run);
             && c in w.conns && Script(w.conns[c].submitted, version, sources, isolated)
             && received != [] && received <= w.conns[c].out
    ensures var w := After(ev, Start(ev), run);
            var turns := TurnsOf(w.order, c);
            var session := Session(received[1..], 1);
            && Follows(turns, sources, isolated)
            && |session| <= |turns|
            && (forall i | 0 <= i < |session| ::
                  ReadsTurn(ev, w.order, c, i, Position(w.order, c, i), Job(i + 1, sources[i], isolated), session[i]))
            && (received == w.conns[c].out ==> |session| == |turns|)
            && Faithful(ev, w.order)
  {
    ReachableIsGood(ev, run);
    var w := After(ev, Start(ev), run);
    assert Consistent(w.conns[c]) && EnvsFold(ev, w, c);
    PrefixOfScript(w.conns[c], version, sources, isolated, received);
    var session := Session(received[1..], 1);
    forall i | 0 <= i < |session|
      ensures ReadsTurn(ev, w.order, c, i, Position(w.order, c, i), Job(i + 1, sources[i], isolated), session[i])
    {
      PositionExact(w.order, c, i);
    }
  }

  lemma PrefixOfScript<E(!new)>(
      conn: Conn<E>, version: string, sources: seq<string>, isolated: bool, received: seq<Response>)
    requires Consistent(conn) && Script(conn.submitted, version, sources, isolated)
    requires received != [] && received <= conn.out
    ensures var evals := EvalsOf(conn.served);
            var session := Session(received[1..], 1);
            && Follows(evals, sources, isolated)
            && |session| <= |evals|
            && (forall i | 0 <= i < |session| :: session[i] == DoneOf(evals[i]))
            && (received == conn.out ==> |session| == |evals|)
  {
    ScriptSession(conn, version, sources, isolated);
    var later := conn.out[|received|..];
    assert conn.out[1..] == received[1..] + later;
    SessionPrefix(received[1..], later, 1);
  }

  // ── Responses answer requests ─────────────────────────────────────────────

  function ResultsIn(stream: seq<Response>): seq<Response> {
    if stream == [] then []
    else if stream[|stream| - 1].EvalResult? then ResultsIn(stream[..|stream| - 1]) + [stream[|stream| - 1]]
    else ResultsIn(stream[..|stream| - 1])
  }

  function ResultOf(a: Answer): Response
    requires a.Evaluated?
  {
    EvalResult(a.job.id, a.effect.outcome)
  }

  function ResultsOf(answers: seq<Answer>): seq<Response> {
    if answers == [] then []
    else
      var last := answers[|answers| - 1];
      ResultsOf(answers[..|answers| - 1]) + if last.Evaluated? then [ResultOf(last)] else []
  }

  lemma {:induction false} ResultsInAppend(a: seq<Response>, b: seq<Response>)
    ensures ResultsIn(a + b) == ResultsIn(a) + ResultsIn(b)
    decreases |b|
  {
    if b == [] {
      assert a + b == a && ResultsIn(a) + [] == ResultsIn(a);
    } else {
      var init, last := b[..|b| - 1], b[|b| - 1];
      ResultsInAppend(a, init);
      assert a + b == (a + init) + [last];
      Snoc(a + init, last);
    }
  }

  lemma {:induction false} NoResultsInDisplays(id: nat, texts: seq<string>)
    ensures ResultsIn(Displays(id, texts)) == []
    decreases |texts|
  {
    if texts != [] {
      NoResultsInDisplays(id, texts[..|texts| - 1]);
      Snoc(Displays(id, texts[..|texts| - 1]), Display(id, texts[|texts| - 1]));
    }
  }

  lemma ResultsInOne(r: Response)
    ensures ResultsIn([r]) == if r.EvalResult? then [r] else []
  {
    assert [r][..0] == [];
  }

  lemma ResultsInAnswer(a: Answer)
    requires a.Plain? ==> Matches(a.request, a.response)
    ensures ResultsIn(Rendered(a)) == if a.Evaluated? then [ResultOf(a)] else []
  {
    match a
    case Plain(_, r) => ResultsInOne(r);
    case Evaluated(job, effect) =>
      NoResultsInDisplays(job.id, effect.displays);
      ResultsInAppend(Displays(job.id, effect.displays), [ResultOf(a)]);
      ResultsInOne(ResultOf(a));
  }

  lemma {:induction false} ResultsInRendered(answers: seq<Answer>)
    requires forall a | a in answers && a.Plain? :: Matches(a.request, a.response)
    ensures ResultsIn(RenderedAll(answers)) == ResultsOf(answers)
    decreases |answers|
  {
    if answers != [] {
      var init, last := answers[..|answers| - 1], answers[|answers| - 1];
      ResultsInRendered(init);
      ResultsInAppend(RenderedAll(init), Rendered(last));
      assert last in answers;
      ResultsInAnswer(last);
    }
  }

  /** On any connection, whatever it sends, requests are answered in the order they were sent, and the
      `EvalResult`s are exactly one per finished eval, in that order. */
  lemma ResponsesFollowRequests<E(!new)>(ev: Evaluator<E>, run: seq<Action>, c: nat)
    requires Possible(ev, Start(ev), run) && c in After(ev, Start(ev), run).conns
    ensures var conn := After(ev, Start(ev), run).conns[c];
            && RequestsOf(conn.served) <= conn.submitted
            && RenderedAll(conn.served) <= conn.out
            && ResultsIn(conn.out) == ResultsOf(conn.served)
  {
    ReachableIsGood(ev, run);
    var conn := After(ev, Start(ev), run).conns[c];
    assert Consistent(conn);
    ResultsInRendered(conn.served);
    ResultsInAppend(RenderedAll(conn.served), InFlight(conn.phase));
    if conn.phase.Running? {
      NoResultsInDisplays(conn.phase.job.id, conn.phase.effect.displays[..conn.phase.shown]);
    }
  }
}
