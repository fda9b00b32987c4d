/**
 The daemon's own form (`src/daemon.rs`): one lock, one display sink and one session environment,
 changed in place by whichever connection runs next. Each method is the stretch of `handle_conn` or
 `eval_request` between two await points, and ends exactly where `Daemon.Next` says.
 */
module DaemonServer {
  import opened Wrappers
  import opened Daemon
  import DaemonProofs

  class Server<E(!new)> {
    const ev: Evaluator<E>
    var conns: map<nat, Conn<E>>
    var evalLock: Option<nat>
    var displaySink: Option<(nat, nat)>
    var session: E
    var order: seq<Turn>

    function World(): World<E>
      reads this
    {
      Daemon.World(conns, evalLock, displaySink, session, order)
    }

    constructor (ev: Evaluator<E>)
      ensures this.ev == ev && World() == Start(ev)
      ensures Good(ev, World())
    {
      this.ev := ev;
      conns, evalLock, displaySink, session, order := map[], None, None, ev.session, [];
      new;
      DaemonProofs.ReachableIsGood(ev, []);
    }

    method Accept(c: nat)
      requires Enabled(World(), Connect(c))
      modifies this
      ensures World() == Next(ev, old(World()), Connect(c))
    {
      conns := conns[c := Conn([], Reading, None, [], [], [])];
    }

    method Receive(c: nat, request: Request)
      requires Enabled(World(), Submit(c, request))
      modifies this
      ensures World() == Next(ev, old(World()), Submit(c, request))
    {
      var conn := conns[c];
      conns := conns[c := conn.(todo := conn.todo + [request], submitted := conn.submitted + [request])];
    }

    /** One turn of the request loop, up to its first await. */
    method HandleConn(c: nat)
      requires Enabled(World(), Read(c))
      modifies this
      ensures World() == Next(ev, old(World()), Read(c))
    {
      var request := conns[c].todo[0];
      var conn := conns[c].(todo := conns[c].todo[1..]);
      var response;
      match request {
        case Hello(_) =>
          response := HelloAck(VERSION);
        case Ping =>
          response := Pong;
        case Stop =>
          response := Stopping;
          conn := conn.(phase := Closed);
        case Reset =>
          order := order + [ResetTurn(SharedEvalRunning(ev, World()))];
          session := ev.session;
          response := ResetDone;
        case DumpEnv =>
          response := EnvDump(ev.dump(session));
        case Eval(job) =>
          conns := conns[c := conn.(phase := Waiting(job))];
          return;
      }
      conn := Send(conn, response);
      conns := conns[c := conn.(served := conn.served + [Plain(request, response)])];
    }

    /** The lock is won: the sink is pointed at this request and the eval starts in its environment. */
    method BeginEval(c: nat, tape: nat)
      requires Enabled(World(), Acquire(c, tape))
      modifies this
      ensures World() == Next(ev, old(World()), Acquire(c, tape))
    {
      var conn := conns[c];
      var job := conn.phase.job;
      evalLock := Some(c);
      displaySink := Some((c, job.id));
      var effect, next;
      if ev.isDot(job.source) {
        effect, next := ev.dot(job.source, tape), session;
      } else if job.isolated {
        if conn.isolatedEnv.None? {
          conn := conn.(isolatedEnv := Some(ev.root));
        }
        var ran := ev.run(job.source, conn.isolatedEnv.value, tape);
        effect, next := ran.0, ran.1;
      } else {
        var ran := ev.run(job.source, session, tape);
        effect, next := ran.0, ran.1;
      }
      conns := conns[c := conn.(phase := Running(job, tape, effect, next, 0))];
    }

    /** A `display` inside the running eval: it goes to the sink, whoever set it. */
    method DisplayText(c: nat)
      requires Enabled(World(), Emit(c))
      modifies this
      ensures World() == Next(ev, old(World()), Emit(c))
    {
      var p := conns[c].phase;
      conns := conns[c := conns[c].(phase := p.(shown := p.shown + 1))];
      if displaySink.Some? {
        var (to, id) := displaySink.value;
        if to in conns {
          conns := conns[to := Send(conns[to], Display(id, p.effect.displays[p.shown]))];
        }
      }
    }

    /** The eval is over: its environment is kept, the sink cleared, the lock released, the result sent. */
    method FinishEval(c: nat)
      requires Enabled(World(), Finish(c))
      modifies this
      ensures World() == Next(ev, old(World()), Finish(c))
    {
      var conn := conns[c];
      var p := conn.phase;
      if ev.isDot(p.job.source) {
      } else if p.job.isolated {
        conn := conn.(isolatedEnv := Some(p.next));
      } else {
        session := p.next;
      }
      displaySink := None;
      evalLock := None;
      order := order + [EvalTurn(c, p.job, p.tape, p.effect)];
      conn := Send(conn, EvalResult(p.job.id, p.effect.outcome));
      conns := conns[c := conn.(phase := Reading, served := conn.served + [Evaluated(p.job, p.effect)])];
    }

    method Act(a: Action)
      requires Enabled(World(), a)
      modifies this
      ensures World() == Next(ev, old(World()), a)
    {
      match a {
        case Connect(c) => Accept(c);
        case Submit(c, request) => Receive(c, request);
        case Read(c) => HandleConn(c);
        case Acquire(c, tape) => BeginEval(c, tape);
        case Emit(c) => DisplayText(c);
        case Finish(c) => FinishEval(c);
      }
    }

    /** Any schedule the daemon can follow, from any world that satisfies the invariant. */
    method Serve(run: seq<Action>)
      requires Possible(ev, World(), run) && Good(ev, World())
      modifies this
      ensures World() == After(ev, old(World()), run) && Good(ev, World())
    {
      for i := 0 to |run|
        invariant Possible(ev, World(), run[i..]) && Good(ev, World())
        invariant After(ev, World(), run[i..]) == After(ev, old(World()), run)
      {
        assert run[i..][0] == run[i] && run[i..][1..] == run[i + 1..];
        DaemonProofs.ActionKeepsGood(ev, World(), run[i]);
        Act(run[i]);
      }
    }
  }
}
