/**
 The daemon (`src/daemon.rs`) as a state machine over connections. Each action is a stretch of code
 between two await points: reading a request, winning the evaluator lock, one `display`, finishing.
 Any connection may take the next action. The evaluator itself is a parameter.
 */
module Daemon {
  import opened Wrappers

  /** What an eval returns to its client: nothing or a text to print, or a formatted error. */
  type Outcome = Result<Option<string>>

  datatype Effect = Effect(displays: seq<string>, outcome: Outcome)

  /** The unseen evaluator. An eval depends on its source, the environment it starts in and the
      answers the network gives it (`tape`); a whole-line dot command touches no environment. */
  datatype Evaluator<!E> = Evaluator(
    run: (string, E, nat) -> (Effect, E),
    dot: (string, nat) -> Effect,
    isDot: string -> bool,
    session: E,
    root: E,
    dump: E -> string)

  datatype Request =
    | Hello(version: string)
    | Ping
    | Stop
    | Reset
    | DumpEnv
    | Eval(job: Job)

  datatype Job = Job(id: nat, source: string, isolated: bool)

  datatype Response =
    | HelloAck(version: string)
    | Pong
    | Stopping
    | ResetDone
    | EnvDump(source: string)
    | Display(id: nat, text: string)
    | EvalResult(id: nat, outcome: Outcome)

  const VERSION := "0.3.0"

  /** A handled request: one plain response, or an eval and its effect. */
  datatype Answer = Plain(request: Request, response: Response) | Evaluated(job: Job, effect: Effect)

  /** `next` is the environment the eval will leave, `shown` how many displays it has made. */
  datatype Phase<E> =
    | Reading
    | Waiting(job: Job)
    | Running(job: Job, tape: nat, effect: Effect, next: E, shown: nat)
    | Closed

  /** `todo` has been sent by the client and not read; `out` is everything put on the writer channel.
      `submitted` and `served` are history. */
  datatype Conn<E> = Conn(
    todo: seq<Request>,
    phase: Phase<E>,
    isolatedEnv: Option<E>,
    out: seq<Response>,
    submitted: seq<Request>,
    served: seq<Answer>)

  /** One entry of the order: an eval, where it finished, or a reset, which tears the shared environment
      when it lands inside a running shared eval. */
  datatype Turn = EvalTurn(conn: nat, job: Job, tape: nat, effect: Effect) | ResetTurn(tears: bool)

  /** `order` is history. */
  datatype World<E> = World(
    conns: map<nat, Conn<E>>,
    holder: Option<nat>,
    sink: Option<(nat, nat)>,
    shared: E,
    order: seq<Turn>)

  function Start<E>(ev: Evaluator<E>): World<E> {
    World(map[], None, None, ev.session, [])
  }

  datatype Action =
    | Connect(c: nat)
    | Submit(c: nat, request: Request)
    | Read(c: nat)
    | Acquire(c: nat, tape: nat)
    | Emit(c: nat)
    | Finish(c: nat)

  predicate Enabled<E>(w: World<E>, a: Action) {
    match a
    case Connect(c) => c !in w.conns
    case Submit(c, _) => c in w.conns
    case Read(c) => c in w.conns && w.conns[c].phase.Reading? && w.conns[c].todo != []
    case Acquire(c, _) => c in w.conns && w.conns[c].phase.Waiting? && w.holder.None?
    case Emit(c) =>
      c in w.conns && w.conns[c].phase.Running? && w.conns[c].phase.shown < |w.conns[c].phase.effect.displays|
    case Finish(c) =>
      c in w.conns && w.conns[c].phase.Running? && w.conns[c].phase.shown == |w.conns[c].phase.effect.displays|
  }

  predicate UsesShared<E>(ev: Evaluator<E>, job: Job) {
    !ev.isDot(job.source) && !job.isolated
  }

  predicate SharedEvalRunning<E>(ev: Evaluator<E>, w: World<E>) {
    && w.holder.Some? && w.holder.value in w.conns
    && w.conns[w.holder.value].phase.Running?
    && UsesShared(ev, w.conns[w.holder.value].phase.job)
  }

  /** Sending on a connection's channel. */
  function Send<E>(c: Conn<E>, r: Response): Conn<E> {
    c.(out := c.out + [r])
  }

  function Handle<E>(ev: Evaluator<E>, w: World<E>, c: nat): World<E>
    requires Enabled(w, Read(c))
  {
    var conn := w.conns[c];
    var request := conn.todo[0];
    var rest := conn.(todo := conn.todo[1..]);
    match request
    case Eval(job) => w.(conns := w.conns[c := rest.(phase := Waiting(job))])
    case Hello(_) => Reply(w, c, rest, request, HelloAck(VERSION))
    case Ping => Reply(w, c, rest, request, Pong)
    case Stop => Reply(w, c, rest.(phase := Closed), request, Stopping)
    case DumpEnv => Reply(w, c, rest, request, EnvDump(ev.dump(w.shared)))
    case Reset =>
      Reply(w, c, rest, request, ResetDone)
        .(shared := ev.session, order := w.order + [ResetTurn(SharedEvalRunning(ev, w))])
  }

  function Reply<E>(w: World<E>, c: nat, conn: Conn<E>, request: Request, r: Response): World<E> {
    w.(conns := w.conns[c := Send(conn, r).(served := conn.served + [Plain(request, r)])])
  }

  /** Winning the lock sets the display sink and starts the eval in its environment. */
  function Begin<E>(ev: Evaluator<E>, w: World<E>, c: nat, tape: nat): World<E>
    requires Enabled(w, Acquire(c, tape))
  {
    var conn := w.conns[c];
    var job := conn.phase.job;
    var w' := w.(holder := Some(c), sink := Some((c, job.id)));
    if ev.isDot(job.source) then
      w'.(conns := w.conns[c := conn.(phase := Running(job, tape, ev.dot(job.source, tape), w.shared, 0))])
    else if job.isolated then
      var env := if conn.isolatedEnv.Some? then conn.isolatedEnv.value else ev.root;
      var (effect, next) := ev.run(job.source, env, tape);
      w'.(conns := w.conns[c := conn.(phase := Running(job, tape, effect, next, 0), isolatedEnv := Some(env))])
    else
      var (effect, next) := ev.run(job.source, w.shared, tape);
      w'.(conns := w.conns[c := conn.(phase := Running(job, tape, effect, next, 0))])
  }

  /** A display goes wherever the one global sink points, not to the connection that evaluates. */
  function Show<E>(w: World<E>, c: nat): World<E>
    requires Enabled(w, Emit(c))
  {
    var conn := w.conns[c];
    var text := conn.phase.effect.displays[conn.phase.shown];
    var conns := w.conns[c := conn.(phase := conn.phase.(shown := conn.phase.shown + 1))];
    if w.sink.Some? && w.sink.value.0 in conns then
      w.(conns := conns[w.sink.value.0 := Send(conns[w.sink.value.0], Display(w.sink.value.1, text))])
    else w.(conns := conns)
  }

  /** The end of an eval: environment kept, sink cleared, lock released, result sent. */
  function End<E>(ev: Evaluator<E>, w: World<E>, c: nat): World<E>
    requires Enabled(w, Finish(c))
  {
    var conn := w.conns[c];
    var p := conn.phase;
    var kept := if !ev.isDot(p.job.source) && p.job.isolated then conn.(isolatedEnv := Some(p.next)) else conn;
    var replied := Send(kept, EvalResult(p.job.id, p.effect.outcome))
      .(phase := Reading, served := conn.served + [Evaluated(p.job, p.effect)]);
    World(w.conns[c := replied], None, None,
          if UsesShared(ev, p.job) then p.next else w.shared,
          w.order + [EvalTurn(c, p.job, p.tape, p.effect)])
  }

  function Next<E>(ev: Evaluator<E>, w: World<E>, a: Action): World<E>
    requires Enabled(w, a)
  {
    match a
    case Connect(c) => w.(conns := w.conns[c := Conn([], Reading, None, [], [], [])])
    case Submit(c, request) =>
      var conn := w.conns[c];
      w.(conns := w.conns[c := conn.(todo := conn.todo + [request], submitted := conn.submitted + [request])])
    case Read(c) => Handle(ev, w, c)
    case Acquire(c, tape) => Begin(ev, w, c, tape)
    case Emit(c) => Show(w, c)
    case Finish(c) => End(ev, w, c)
  }

  ghost predicate Possible<E(!new)>(ev: Evaluator<E>, w: World<E>, run: seq<Action>)
    decreases |run|
  {
    run != [] ==> Enabled(w, run[0]) && Possible(ev, Next(ev, w, run[0]), run[1..])
  }

  ghost function After<E(!new)>(ev: Evaluator<E>, w: World<E>, run: seq<Action>): World<E>
    requires Possible(ev, w, run)
    decreases |run|
  {
    if run == [] then w else After(ev, Next(ev, w, run[0]), run[1..])
  }

  // ── What a connection should have been sent ───────────────────────────────

  function Displays(id: nat, texts: seq<string>): seq<Response> {
    if texts == [] then [] else Displays(id, texts[..|texts| - 1]) + [Display(id, texts[|texts| - 1])]
  }

  function Rendered(a: Answer): seq<Response> {
    match a
    case Plain(_, r) => [r]
    case Evaluated(job, effect) => Displays(job.id, effect.displays) + [EvalResult(job.id, effect.outcome)]
  }

  function RenderedAll(answers: seq<Answer>): seq<Response> {
    if answers == [] then []
    else RenderedAll(answers[..|answers| - 1]) + Rendered(answers[|answers| - 1])
  }

  function InFlight<E>(p: Phase<E>): seq<Response> {
    match p
    case Running(job, _, effect, _, shown) =>
      if shown <= |effect.displays| then Displays(job.id, effect.displays[..shown]) else []
    case _ => []
  }

  function RequestOf(a: Answer): Request {
    match a
    case Plain(request, _) => request
    case Evaluated(job, _) => Eval(job)
  }

  function RequestsOf(answers: seq<Answer>): seq<Request> {
    seq(|answers|, i requires 0 <= i < |answers| => RequestOf(answers[i]))
  }

  function Current<E>(p: Phase<E>): seq<Request> {
    match p
    case Waiting(job) => [Eval(job)]
    case Running(job, _, _, _, _) => [Eval(job)]
    case _ => []
  }

  function EvalsOf(answers: seq<Answer>): seq<Answer> {
    if answers == [] then []
    else
      var last := answers[|answers| - 1];
      EvalsOf(answers[..|answers| - 1]) + if last.Evaluated? then [last] else []
  }

  function TurnsOf(order: seq<Turn>, c: nat): seq<Answer> {
    if order == [] then []
    else
      var last := order[|order| - 1];
      TurnsOf(order[..|order| - 1], c)
      + if last.EvalTurn? && last.conn == c then [Evaluated(last.job, last.effect)] else []
  }

  // ── The sequential evaluator the daemon should amount to ──────────────────

  function SharedAfter<E>(ev: Evaluator<E>, order: seq<Turn>): E {
    if order == [] then ev.session
    else
      var before, last := SharedAfter(ev, order[..|order| - 1]), order[|order| - 1];
      match last
      case ResetTurn(_) => ev.session
      case EvalTurn(_, job, tape, _) => if UsesShared(ev, job) then ev.run(job.source, before, tape).1 else before
  }

  /** A connection's isolated environment folds over its own isolated evals and nothing else. */
  function IsolatedAfter<E>(ev: Evaluator<E>, order: seq<Turn>, c: nat): E {
    if order == [] then ev.root
    else
      var before, last := IsolatedAfter(ev, order[..|order| - 1], c), order[|order| - 1];
      if last.EvalTurn? && last.conn == c && last.job.isolated && !ev.isDot(last.job.source)
      then ev.run(last.job.source, before, last.tape).1 else before
  }

  /** What an eval does when everything before it in the lock order has been run, one after another. */
  function SequentialEffect<E>(ev: Evaluator<E>, order: seq<Turn>, c: nat, job: Job, tape: nat): Effect {
    if ev.isDot(job.source) then ev.dot(job.source, tape)
    else if job.isolated then ev.run(job.source, IsolatedAfter(ev, order, c), tape).0
    else ev.run(job.source, SharedAfter(ev, order), tape).0
  }

  /** Whether the latest reset landed inside a shared eval: the shared environment is then unknown
      until a reset lands outside one. */
  function Torn(order: seq<Turn>): bool {
    order != [] &&
    var last := order[|order| - 1];
    if last.ResetTurn? then last.tears else Torn(order[..|order| - 1])
  }

  /** An eval after these turns is answered for, unless it uses a torn shared environment. */
  predicate Vouched<E>(ev: Evaluator<E>, order: seq<Turn>, job: Job) {
    UsesShared(ev, job) ==> !Torn(order)
  }

  /** Every turn did what the sequential evaluator does after the turns before it, wherever it is vouched for. */
  ghost predicate Faithful<E(!new)>(ev: Evaluator<E>, order: seq<Turn>) {
    forall i | 0 <= i < |order| && order[i].EvalTurn? && Vouched(ev, order[..i], order[i].job) ::
      order[i].effect == SequentialEffect(ev, order[..i], order[i].conn, order[i].job, order[i].tape)
  }

  // ── The invariant ─────────────────────────────────────────────────────────

  ghost predicate Exclusive<E(!new)>(w: World<E>) {
    && (w.holder.Some? ==> w.holder.value in w.conns)
    && (forall c | c in w.conns :: w.conns[c].phase.Running? <==> w.holder == Some(c))
    && w.sink == if w.holder.Some? && w.conns[w.holder.value].phase.Running?
                 then Some((w.holder.value, w.conns[w.holder.value].phase.job.id)) else None
  }

  /** The response each plain request gets; an eval is never answered plainly. */
  predicate Matches(request: Request, r: Response) {
    match request
    case Hello(_) => r.HelloAck?
    case Ping => r.Pong?
    case Stop => r.Stopping?
    case Reset => r.ResetDone?
    case DumpEnv => r.EnvDump?
    case Eval(_) => false
  }

  ghost predicate Consistent<E(!new)>(conn: Conn<E>) {
    && (forall a | a in conn.served && a.Plain? :: Matches(a.request, a.response))
    && (conn.phase.Running? ==> conn.phase.shown <= |conn.phase.effect.displays|)
    && conn.out == RenderedAll(conn.served) + InFlight(conn.phase)
    && conn.submitted == RequestsOf(conn.served) + (Current(conn.phase) + conn.todo)
  }

  ghost predicate EnvsFold<E(!new)>(ev: Evaluator<E>, w: World<E>, c: nat)
    requires c in w.conns
  {
    var conn := w.conns[c];
    && (conn.isolatedEnv.Some? ==> conn.isolatedEnv.value == IsolatedAfter(ev, w.order, c))
    && (conn.isolatedEnv.None? ==> ev.root == IsolatedAfter(ev, w.order, c))
    && EvalsOf(conn.served) == TurnsOf(w.order, c)
    && (conn.phase.Running? && Vouched(ev, w.order, conn.phase.job) ==>
          var p := conn.phase;
          && p.effect == SequentialEffect(ev, w.order, c, p.job, p.tape)
          && (UsesShared(ev, p.job) ==> p.next == ev.run(p.job.source, SharedAfter(ev, w.order), p.tape).1)
          && (!UsesShared(ev, p.job) && !ev.isDot(p.job.source) ==>
                p.next == ev.run(p.job.source, IsolatedAfter(ev, w.order, c), p.tape).1))
  }

  ghost predicate Good<E(!new)>(ev: Evaluator<E>, w: World<E>) {
    && Exclusive(w)
    && (forall c | c in w.conns :: Consistent(w.conns[c]))
    && (forall c | c in w.conns :: EnvsFold(ev, w, c))
    && (forall c | c !in w.conns :: TurnsOf(w.order, c) == [] && IsolatedAfter(ev, w.order, c) == ev.root)
    && (!Torn(w.order) ==> w.shared == SharedAfter(ev, w.order))
    && Faithful(ev, w.order)
  }
}
