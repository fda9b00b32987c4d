/** Every interleaving of the daemon keeps its invariant, and every client reads a sequential evaluator through it. */
module DaemonProofs {
  import opened Wrappers
  import opened Daemon

  // ── Appending to the histories ────────────────────────────────────────────

  lemma Snoc<T>(xs: seq<T>, x: T)
    ensures (xs + [x])[..|xs + [x]| - 1] == xs && (xs + [x])[|xs + [x]| - 1] == x
  {
  }

  lemma AppendAnswer(answers: seq<Answer>, a: Answer)
    ensures RenderedAll(answers + [a]) == RenderedAll(answers) + Rendered(a)
    ensures EvalsOf(answers + [a]) == EvalsOf(answers) + if a.Evaluated? then [a] else []
    ensures RequestsOf(answers + [a]) == RequestsOf(answers) + [RequestOf(a)]
  {
    Snoc(answers, a);
  }

  lemma AppendTurn<E(!new)>(ev: Evaluator<E>, order: seq<Turn>, t: Turn, c: nat)
    ensures TurnsOf(order + [t], c) ==
            TurnsOf(order, c) + if t.EvalTurn? && t.conn == c then [Evaluated(t.job, t.effect)] else []
    ensures SharedAfter(ev, order + [t]) ==
            if t.ResetTurn? then ev.session
            else if UsesShared(ev, t.job) then ev.run(t.job.source, SharedAfter(ev, order), t.tape).1
            else SharedAfter(ev, order)
    ensures IsolatedAfter(ev, order + [t], c) ==
            if t.EvalTurn? && t.conn == c && t.job.isolated && !ev.isDot(t.job.source)
            then ev.run(t.job.source, IsolatedAfter(ev, order, c), t.tape).1
            else IsolatedAfter(ev, order, c)
    ensures Torn(order + [t]) == if t.ResetTurn? then t.tears else Torn(order)
  {
    Snoc(order, t);
  }

  lemma AppendFaithful<E(!new)>(ev: Evaluator<E>, order: seq<Turn>, t: Turn)
    requires Faithful(ev, order)
    requires t.EvalTurn? && Vouched(ev, order, t.job) ==>
               t.effect == SequentialEffect(ev, order, t.conn, t.job, t.tape)
    ensures Faithful(ev, order + [t])
  {
    var longer := order + [t];
    forall i | 0 <= i < |longer| && longer[i].EvalTurn? && Vouched(ev, longer[..i], longer[i].job)
      ensures longer[i].effect == SequentialEffect(ev, longer[..i], longer[i].conn, longer[i].job, longer[i].tape)
    {
      assert longer[..i] == order[..i];
      if i == |order| {
        assert order[..i] == order;
      }
    }
  }

  lemma AppendDisplay(id: nat, texts: seq<string>, k: nat)
    requires k < |texts|
    ensures Displays(id, texts[..k + 1]) == Displays(id, texts[..k]) + [Display(id, texts[k])]
  {
    assert texts[..k + 1] == texts[..k] + [texts[k]];
    Snoc(texts[..k], texts[k]);
  }

  // ── One action ────────────────────────────────────────────────────────────

  lemma Regroup<T>(a: seq<T>, x: T, b: seq<T>)
    ensures a + ([] + ([x] + b)) == (a + [x]) + ([] + b)
    ensures a + ([] + ([x] + b)) == a + ([x] + b)
    ensures (a + [x]) + [] == a + [x]
  {
  }

  /** A plain request is answered by one response. */
  lemma ReplyKeepsConsistent<E(!new)>(conn: Conn<E>, r: Response, phase: Phase<E>)
    requires Consistent(conn) && conn.phase.Reading? && conn.todo != [] && (phase.Reading? || phase.Closed?)
    requires Matches(conn.todo[0], r)
    ensures var a := Plain(conn.todo[0], r);
            && Consistent(conn.(todo := conn.todo[1..], phase := phase, out := conn.out + [r], served := conn.served + [a]))
            && EvalsOf(conn.served + [a]) == EvalsOf(conn.served)
  {
    var a := Plain(conn.todo[0], r);
    AppendAnswer(conn.served, a);
    assert conn.todo == [conn.todo[0]] + conn.todo[1..];
    Regroup(RequestsOf(conn.served), conn.todo[0], conn.todo[1..]);
    assert RenderedAll(conn.served) + [] == RenderedAll(conn.served);
    Regroup(RenderedAll(conn.served), r, []);
  }

  lemma QueueKeepsConsistent<E(!new)>(conn: Conn<E>)
    requires Consistent(conn) && conn.phase.Reading? && conn.todo != [] && conn.todo[0].Eval?
    ensures Consistent(conn.(todo := conn.todo[1..], phase := Waiting(conn.todo[0].job)))
  {
    assert conn.todo == [conn.todo[0]] + conn.todo[1..];
    Regroup(RequestsOf(conn.served), conn.todo[0], conn.todo[1..]);
  }

  lemma ReadKeepsConsistent<E(!new)>(ev: Evaluator<E>, w: World<E>, c: nat)
    requires Enabled(w, Read(c)) && Consistent(w.conns[c])
    ensures Consistent(Handle(ev, w, c).conns[c])
    ensures EvalsOf(Handle(ev, w, c).conns[c].served) == EvalsOf(w.conns[c].served)
  {
    var conn := w.conns[c];
    match conn.todo[0]
    case Eval(_) => QueueKeepsConsistent(conn);
    case Hello(_) => ReplyKeepsConsistent(conn, HelloAck(VERSION), Reading);
    case Ping => ReplyKeepsConsistent(conn, Pong, Reading);
    case Stop => ReplyKeepsConsistent(conn, Stopping, Closed);
    case DumpEnv => ReplyKeepsConsistent(conn, EnvDump(ev.dump(w.shared)), Reading);
    case Reset => ReplyKeepsConsistent(conn, ResetDone, Reading);
  }

  lemma ResetLeavesIsolatedEnvs<E(!new)>(ev: Evaluator<E>, order: seq<Turn>, tears: bool)
    ensures var longer := order + [ResetTurn(tears)];
            && SharedAfter(ev, longer) == ev.session && Torn(longer) == tears
            && (forall d :: TurnsOf(longer, d) == TurnsOf(order, d))
            && (forall d :: IsolatedAfter(ev, longer, d) == IsolatedAfter(ev, order, d))
  {
    var longer := order + [ResetTurn(tears)];
    forall d
      ensures TurnsOf(longer, d) == TurnsOf(order, d)
      ensures IsolatedAfter(ev, longer, d) == IsolatedAfter(ev, order, d)
    {
      AppendTurn(ev, order, ResetTurn(tears), d);
    }
    AppendTurn(ev, order, ResetTurn(tears), 0);
  }

  /** Reading touches its own connection, which is then not running, and at most resets the shared environment. */
  ghost predicate AfterRead<E(!new)>(ev: Evaluator<E>, w: World<E>, w': World<E>, c: nat) {
    && c in w.conns && w'.conns.Keys == w.conns.Keys && w'.holder == w.holder && w'.sink == w.sink
    && (forall d | d in w.conns && d != c :: w'.conns[d] == w.conns[d])
    && !w'.conns[c].phase.Running? && w'.conns[c].isolatedEnv == w.conns[c].isolatedEnv
    && ((w'.order == w.order && w'.shared == w.shared)
        || (w'.order == w.order + [ResetTurn(SharedEvalRunning(ev, w))] && w'.shared == ev.session))
  }

  lemma ReadTouches<E(!new)>(ev: Evaluator<E>, w: World<E>, c: nat)
    requires Enabled(w, Read(c))
    ensures AfterRead(ev, w, Handle(ev, w, c), c)
  {
  }

  lemma ReadKeepsEnvs<E(!new)>(ev: Evaluator<E>, w: World<E>, w': World<E>, c: nat, d: nat)
    requires AfterRead(ev, w, w', c) && d in w.conns && EnvsFold(ev, w, d) && Exclusive(w)
    requires EvalsOf(w'.conns[c].served) == EvalsOf(w.conns[c].served)
    ensures EnvsFold(ev, w', d)
  {
    ResetLeavesIsolatedEnvs(ev, w.order, SharedEvalRunning(ev, w));
  }

  /** All of `w'` but connection `c`, the holder and the sink is as in `w`. */
  ghost predicate OnlyTouches<E(!new)>(w: World<E>, w': World<E>, c: nat) {
    && w'.order == w.order && w'.shared == w.shared
    && w'.conns.Keys == w.conns.Keys + {c}
    && (forall d | d in w.conns && d != c :: w'.conns[d] == w.conns[d])
  }

  lemma TouchKeepsGood<E(!new)>(ev: Evaluator<E>, w: World<E>, w': World<E>, c: nat)
    requires Good(ev, w) && OnlyTouches(w, w', c)
    requires Exclusive(w') && Consistent(w'.conns[c]) && EnvsFold(ev, w', c)
    ensures Good(ev, w')
  {
    forall d | d in w'.conns
      ensures Consistent(w'.conns[d]) && EnvsFold(ev, w', d)
    {
      if d != c {
        assert Consistent(w.conns[d]) && EnvsFold(ev, w, d);
      }
    }
  }

  lemma ReadKeepsExclusive<E(!new)>(ev: Evaluator<E>, w: World<E>, w': World<E>, c: nat)
    requires Exclusive(w) && AfterRead(ev, w, w', c) && !w.conns[c].phase.Running?
    ensures Exclusive(w')
  {
  }

  lemma ResetKeepsGood<E(!new)>(ev: Evaluator<E>, w: World<E>, w': World<E>, c: nat)
    requires Good(ev, w) && AfterRead(ev, w, w', c) && Consistent(w'.conns[c]) && !w.conns[c].phase.Running?
    requires EvalsOf(w'.conns[c].served) == EvalsOf(w.conns[c].served)
    requires w'.order == w.order + [ResetTurn(SharedEvalRunning(ev, w))] && w'.shared == ev.session
    ensures Good(ev, w')
  {
    ReadKeepsExclusive(ev, w, w', c);
    ResetLeavesIsolatedEnvs(ev, w.order, SharedEvalRunning(ev, w));
    AppendFaithful(ev, w.order, ResetTurn(SharedEvalRunning(ev, w)));
    forall d | d in w'.conns
      ensures Consistent(w'.conns[d]) && EnvsFold(ev, w', d)
    {
      assert Consistent(w.conns[d]) && EnvsFold(ev, w, d);
      ReadKeepsEnvs(ev, w, w', c, d);
    }
  }

  lemma AfterReadGood<E(!new)>(ev: Evaluator<E>, w: World<E>, w': World<E>, c: nat)
    requires Good(ev, w) && AfterRead(ev, w, w', c) && Consistent(w'.conns[c]) && !w.conns[c].phase.Running?
    requires EvalsOf(w'.conns[c].served) == EvalsOf(w.conns[c].served)
    ensures Good(ev, w')
  {
    if w'.order == w.order {
      ReadKeepsExclusive(ev, w, w', c);
      assert EnvsFold(ev, w, c);
      ReadKeepsEnvs(ev, w, w', c, c);
      TouchKeepsGood(ev, w, w', c);
    } else {
      ResetKeepsGood(ev, w, w', c);
    }
  }

  lemma ReadKeepsGood<E(!new)>(ev: Evaluator<E>, w: World<E>, c: nat)
    requires Good(ev, w) && Enabled(w, Read(c))
    ensures Good(ev, Handle(ev, w, c))
  {
    ReadKeepsConsistent(ev, w, c);
    ReadTouches(ev, w, c);
    AfterReadGood(ev, w, Handle(ev, w, c), c);
  }

  lemma BeginTouches<E(!new)>(ev: Evaluator<E>, w: World<E>, c: nat, tape: nat)
    requires Enabled(w, Acquire(c, tape)) && Consistent(w.conns[c])
    ensures var w' := Begin(ev, w, c, tape);
            && OnlyTouches(w, w', c) && Consistent(w'.conns[c])
            && w'.conns[c].phase.Running? && w'.holder == Some(c) && w'.sink == Some((c, w'.conns[c].phase.job.id))
  {
    assert Begin(ev, w, c, tape).conns[c].phase.effect.displays[..0] == [];
  }

  /** The eval starts in the environment its predecessors left. */
  lemma BeginEnvs<E(!new)>(ev: Evaluator<E>, w: World<E>, c: nat, tape: nat)
    requires Enabled(w, Acquire(c, tape)) && EnvsFold(ev, w, c)
    requires !Torn(w.order) ==> w.shared == SharedAfter(ev, w.order)
    ensures EnvsFold(ev, Begin(ev, w, c, tape), c)
  {
  }

  lemma AcquireKeepsGood<E(!new)>(ev: Evaluator<E>, w: World<E>, c: nat, tape: nat)
    requires Good(ev, w) && Enabled(w, Acquire(c, tape))
    ensures Good(ev, Begin(ev, w, c, tape))
  {
    BeginTouches(ev, w, c, tape);
    BeginEnvs(ev, w, c, tape);
    TouchKeepsGood(ev, w, Begin(ev, w, c, tape), c);
  }

  lemma EmitKeepsConsistent<E(!new)>(conn: Conn<E>)
    requires Consistent(conn) && conn.phase.Running? && conn.phase.shown < |conn.phase.effect.displays|
    ensures Consistent(Shown(conn))
  {
    var p := conn.phase;
    AppendDisplay(p.job.id, p.effect.displays, p.shown);
    var shown, one := InFlight(p), Display(p.job.id, p.effect.displays[p.shown]);
    assert RenderedAll(conn.served) + shown + [one] == RenderedAll(conn.served) + (shown + [one]);
  }

  function Shown<E>(conn: Conn<E>): Conn<E>
    requires conn.phase.Running? && conn.phase.shown < |conn.phase.effect.displays|
  {
    var p := conn.phase;
    Send(conn.(phase := p.(shown := p.shown + 1)), Display(p.job.id, p.effect.displays[p.shown]))
  }

  lemma ShowOwn<E(!new)>(w: World<E>, c: nat)
    requires Enabled(w, Emit(c)) && w.sink == Some((c, w.conns[c].phase.job.id))
    ensures Show(w, c) == w.(conns := w.conns[c := Shown(w.conns[c])])
  {
    assert Show(w, c).conns == w.conns[c := Shown(w.conns[c])];
  }

  /** While `c` holds the lock the sink is `c`'s, so the display lands on `c`'s own channel. */
  lemma EmitOwn<E(!new)>(ev: Evaluator<E>, w: World<E>, c: nat)
    requires Enabled(w, Emit(c)) && Consistent(w.conns[c]) && EnvsFold(ev, w, c)
    requires w.sink == Some((c, w.conns[c].phase.job.id))
    ensures var w' := Show(w, c);
            && OnlyTouches(w, w', c) && Consistent(w'.conns[c]) && EnvsFold(ev, w', c)
            && w'.conns[c].phase == w.conns[c].phase.(shown := w.conns[c].phase.shown + 1)
            && w'.holder == w.holder && w'.sink == w.sink
  {
    EmitKeepsConsistent(w.conns[c]);
    ShowOwn(w, c);
  }

  lemma EmitKeepsGood<E(!new)>(ev: Evaluator<E>, w: World<E>, c: nat)
    requires Good(ev, w) && Enabled(w, Emit(c))
    ensures Good(ev, Show(w, c))
  {
    EmitOwn(ev, w, c);
    TouchKeepsGood(ev, w, Show(w, c), c);
  }

  /** An eval is answered by its displays and then its result. */
  lemma FinishKeepsConsistent<E(!new)>(conn: Conn<E>, env: Option<E>)
    requires Consistent(conn) && conn.phase.Running? && conn.phase.shown == |conn.phase.effect.displays|
    ensures var p := conn.phase;
            var a := Evaluated(p.job, p.effect);
            && Consistent(conn.(phase := Reading, isolatedEnv := env, served := conn.served + [a],
                                out := conn.out + [EvalResult(p.job.id, p.effect.outcome)]))
            && EvalsOf(conn.served + [a]) == EvalsOf(conn.served) + [a]
  {
    var p := conn.phase;
    var a := Evaluated(p.job, p.effect);
    AppendAnswer(conn.served, a);
    Regroup(RequestsOf(conn.served), Eval(p.job), conn.todo);
    assert p.effect.displays[..p.shown] == p.effect.displays;
    var shown, result := Displays(p.job.id, p.effect.displays), EvalResult(p.job.id, p.effect.outcome);
    assert RenderedAll(conn.served) + shown + [result] == RenderedAll(conn.served) + (shown + [result]) + [];
  }

  lemma FinishOwn<E(!new)>(ev: Evaluator<E>, w: World<E>, c: nat)
    requires Enabled(w, Finish(c)) && Consistent(w.conns[c]) && EnvsFold(ev, w, c)
    ensures Consistent(End(ev, w, c).conns[c]) && EnvsFold(ev, End(ev, w, c), c)
  {
    var conn := w.conns[c];
    var p := conn.phase;
    FinishKeepsConsistent(conn, End(ev, w, c).conns[c].isolatedEnv);
    AppendTurn(ev, w.order, EvalTurn(c, p.job, p.tape, p.effect), c);
  }

  lemma FinishOther<E(!new)>(ev: Evaluator<E>, w: World<E>, c: nat, d: nat)
    requires Enabled(w, Finish(c)) && d != c
    requires d in w.conns ==> Consistent(w.conns[d]) && EnvsFold(ev, w, d) && !w.conns[d].phase.Running?
    requires d !in w.conns ==> TurnsOf(w.order, d) == [] && IsolatedAfter(ev, w.order, d) == ev.root
    ensures var w' := End(ev, w, c);
            && (d in w.conns ==> Consistent(w'.conns[d]) && EnvsFold(ev, w', d))
            && (d !in w.conns ==> TurnsOf(w'.order, d) == [] && IsolatedAfter(ev, w'.order, d) == ev.root)
  {
    var p := w.conns[c].phase;
    AppendTurn(ev, w.order, EvalTurn(c, p.job, p.tape, p.effect), d);
  }

  lemma FinishShared<E(!new)>(ev: Evaluator<E>, w: World<E>, c: nat)
    requires Enabled(w, Finish(c)) && EnvsFold(ev, w, c) && Faithful(ev, w.order)
    requires !Torn(w.order) ==> w.shared == SharedAfter(ev, w.order)
    ensures var w' := End(ev, w, c);
            Faithful(ev, w'.order) && (!Torn(w'.order) ==> w'.shared == SharedAfter(ev, w'.order))
  {
    var p := w.conns[c].phase;
    var turn := EvalTurn(c, p.job, p.tape, p.effect);
    AppendFaithful(ev, w.order, turn);
    AppendTurn(ev, w.order, turn, c);
  }

  lemma FinishKeepsExclusive<E(!new)>(ev: Evaluator<E>, w: World<E>, c: nat)
    requires Exclusive(w) && Enabled(w, Finish(c))
    ensures Exclusive(End(ev, w, c))
  {
  }

  lemma FinishKeepsGood<E(!new)>(ev: Evaluator<E>, w: World<E>, c: nat)
    requires Good(ev, w) && Enabled(w, Finish(c))
    ensures Good(ev, End(ev, w, c))
  {
    var w' := End(ev, w, c);
    assert Consistent(w.conns[c]) && EnvsFold(ev, w, c);
    FinishKeepsExclusive(ev, w, c);
    FinishOwn(ev, w, c);
    FinishShared(ev, w, c);
    forall d: nat | d != c
      ensures d in w.conns ==> Consistent(w'.conns[d]) && EnvsFold(ev, w', d)
      ensures d !in w.conns ==> TurnsOf(w'.order, d) == [] && IsolatedAfter(ev, w'.order, d) == ev.root
    {
      if d in w.conns {
        assert Consistent(w.conns[d]) && EnvsFold(ev, w, d);
      }
      FinishOther(ev, w, c, d);
    }
  }

  lemma SubmitOwn<E(!new)>(conn: Conn<E>, request: Request)
    requires Consistent(conn)
    ensures Consistent(conn.(todo := conn.todo + [request], submitted := conn.submitted + [request]))
  {
    assert RequestsOf(conn.served) + (Current(conn.phase) + (conn.todo + [request]))
        == RequestsOf(conn.served) + (Current(conn.phase) + conn.todo) + [request];
  }

  lemma SubmitKeepsGood<E(!new)>(ev: Evaluator<E>, w: World<E>, c: nat, request: Request)
    requires Good(ev, w) && Enabled(w, Submit(c, request))
    ensures Good(ev, Next(ev, w, Submit(c, request)))
  {
    assert Consistent(w.conns[c]) && EnvsFold(ev, w, c);
    SubmitOwn(w.conns[c], request);
    TouchKeepsGood(ev, w, Next(ev, w, Submit(c, request)), c);
  }

  lemma ConnectKeepsGood<E(!new)>(ev: Evaluator<E>, w: World<E>, c: nat)
    requires Good(ev, w) && Enabled(w, Connect(c))
    ensures Good(ev, Next(ev, w, Connect(c)))
  {
    TouchKeepsGood(ev, w, Next(ev, w, Connect(c)), c);
  }

  lemma ActionKeepsGood<E(!new)>(ev: Evaluator<E>, w: World<E>, a: Action)
    requires Good(ev, w) && Enabled(w, a)
    ensures Good(ev, Next(ev, w, a))
  {
    match a
    case Read(c) => ReadKeepsGood(ev, w, c);
    case Acquire(c, tape) => AcquireKeepsGood(ev, w, c, tape);
    case Emit(c) => EmitKeepsGood(ev, w, c);
    case Finish(c) => FinishKeepsGood(ev, w, c);
    case Submit(c, request) => SubmitKeepsGood(ev, w, c, request);
    case Connect(c) => ConnectKeepsGood(ev, w, c);
  }

  lemma {:induction false} RunKeepsGood<E(!new)>(ev: Evaluator<E>, w: World<E>, run: seq<Action>)
    requires Good(ev, w) && Possible(ev, w, run)
    ensures Good(ev, After(ev, w, run))
    decreases |run|
  {
    if run != [] {
      ActionKeepsGood(ev, w, run[0]);
      RunKeepsGood(ev, Next(ev, w, run[0]), run[1..]);
    }
  }

  /** Every world the daemon can reach, whatever the interleaving, satisfies the invariant. */
  lemma ReachableIsGood<E(!new)>(ev: Evaluator<E>, run: seq<Action>)
    requires Possible(ev, Start(ev), run)
    ensures Good(ev, After(ev, Start(ev), run))
  {
    RunKeepsGood(ev, Start(ev), run);
  }

  // ── Mutual exclusion and the sink ─────────────────────────────────────────

  /** At most one eval runs; a sink is set iff one does, and names its connection and request. */
  lemma OneEvalOneSink<E(!new)>(ev: Evaluator<E>, run: seq<Action>)
    requires Possible(ev, Start(ev), run)
    ensures var w := After(ev, Start(ev), run);
            && (forall c, d | c in w.conns && d in w.conns && w.conns[c].phase.Running? && w.conns[d].phase.Running? :: c == d)
            && (forall c | c in w.conns && w.conns[c].phase.Running? :: w.sink == Some((c, w.conns[c].phase.job.id)))
            && (w.sink.Some? ==> w.sink.value.0 in w.conns && w.conns[w.sink.value.0].phase.Running?)
  {
    ReachableIsGood(ev, run);
  }

  // ── What each request is answered with ────────────────────────────────────

  /** In a reachable world a request is answered with exactly one response, on its own channel: a hello with the
      version, a dump with the session environment as the evals before it left it. An eval is answered later. */
  lemma ReadAnswers<E(!new)>(ev: Evaluator<E>, w: World<E>, c: nat)
    requires Good(ev, w) && Enabled(w, Read(c))
    ensures var w', conn, conn' := Handle(ev, w, c), w.conns[c], Handle(ev, w, c).conns[c];
            && conn'.todo == conn.todo[1..]
            && w'.conns == w.conns[c := conn']
            && (!conn.todo[0].Reset? ==> w'.order == w.order && w'.shared == w.shared)
            && match conn.todo[0]
               case Eval(job) => conn'.out == conn.out && conn'.phase == Waiting(job)
               case Hello(_) => conn'.out == conn.out + [HelloAck("0.3.0")] && conn'.phase.Reading?
               case Ping => conn'.out == conn.out + [Pong] && conn'.phase.Reading?
               case Stop => conn'.out == conn.out + [Stopping] && conn'.phase.Closed?
               case Reset =>
                 && conn'.out == conn.out + [ResetDone] && conn'.phase.Reading? && w'.shared == ev.session
                 && (Torn(w'.order) <==> exists d :: d in w.conns && w.conns[d].phase.Running?
                                                  && UsesShared(ev, w.conns[d].phase.job))
               case DumpEnv =>
                 && conn'.phase.Reading? && |conn'.out| == |conn.out| + 1
                 && (!Torn(w.order) ==> conn'.out == conn.out + [EnvDump(ev.dump(SharedAfter(ev, w.order)))])
  {
    AppendTurn(ev, w.order, ResetTurn(SharedEvalRunning(ev, w)), c);
  }

  // ── Environments ──────────────────────────────────────────────────────────

  predicate OwnIsolated<E>(ev: Evaluator<E>, t: Turn, c: nat) {
    t.EvalTurn? && t.conn == c && t.job.isolated && !ev.isDot(t.job.source)
  }

  lemma {:induction false} IsolatedUntouched<E(!new)>(ev: Evaluator<E>, order: seq<Turn>, c: nat, from: nat, upto: nat)
    requires from <= upto <= |order| && forall j | from <= j < upto :: !OwnIsolated(ev, order[j], c)
    ensures IsolatedAfter(ev, order[..upto], c) == IsolatedAfter(ev, order[..from], c)
    decreases upto
  {
    if from < upto {
      IsolatedUntouched(ev, order, c, from, upto - 1);
      assert order[..upto] == order[..upto - 1] + [order[upto - 1]];
      AppendTurn(ev, order[..upto - 1], order[upto - 1], c);
    }
  }

  /** A connection's isolated eval starts in a root environment if it is its first, and otherwise in what its own
      previous isolated eval left; no other turn, of whichever connection, has touched it. */
  lemma IsolatedStartsWhereOwnEnded<E(!new)>(ev: Evaluator<E>, order: seq<Turn>, c: nat, q: nat)
    requires q <= |order|
    ensures (forall j | 0 <= j < q :: !OwnIsolated(ev, order[j], c)) ==> IsolatedAfter(ev, order[..q], c) == ev.root
    ensures forall p: nat | LastOwnIsolated(ev, order, c, p, q) ::
              IsolatedAfter(ev, order[..q], c)
              == ev.run(order[p].job.source, IsolatedAfter(ev, order[..p], c), order[p].tape).1
  {
    if forall j | 0 <= j < q :: !OwnIsolated(ev, order[j], c) {
      IsolatedUntouched(ev, order, c, 0, q);
    }
    forall p: nat | LastOwnIsolated(ev, order, c, p, q)
      ensures IsolatedAfter(ev, order[..q], c)
           == ev.run(order[p].job.source, IsolatedAfter(ev, order[..p], c), order[p].tape).1
    {
      IsolatedUntouched(ev, order, c, p + 1, q);
      assert order[..p + 1] == order[..p] + [order[p]];
      AppendTurn(ev, order[..p], order[p], c);
    }
  }

  predicate LastOwnIsolated<E>(ev: Evaluator<E>, order: seq<Turn>, c: nat, p: nat, q: nat) {
    p < q <= |order| && OwnIsolated(ev, order[p], c) && forall j | p < j < q :: !OwnIsolated(ev, order[j], c)
  }

  predicate TouchesShared<E>(ev: Evaluator<E>, t: Turn) {
    t.ResetTurn? || UsesShared(ev, t.job)
  }

  lemma {:induction false} SharedUntouched<E(!new)>(ev: Evaluator<E>, order: seq<Turn>, from: nat, upto: nat)
    requires from <= upto <= |order| && forall j | from <= j < upto :: !TouchesShared(ev, order[j])
    ensures SharedAfter(ev, order[..upto]) == SharedAfter(ev, order[..from])
    decreases upto
  {
    if from < upto {
      SharedUntouched(ev, order, from, upto - 1);
      assert order[..upto] == order[..upto - 1] + [order[upto - 1]];
      AppendTurn(ev, order[..upto - 1], order[upto - 1], 0);
    }
  }

  predicate LastShared<E>(ev: Evaluator<E>, order: seq<Turn>, p: nat, q: nat) {
    p < q <= |order| && TouchesShared(ev, order[p]) && forall j | p < j < q :: !TouchesShared(ev, order[j])
  }

  /** A shared eval starts in the session environment if nothing shared came before it or a reset did last, and
      otherwise in what the previous shared eval, of whichever connection, left. */
  lemma SharedStartsWhereLastEnded<E(!new)>(ev: Evaluator<E>, order: seq<Turn>, q: nat)
    requires q <= |order|
    ensures (forall j | 0 <= j < q :: !TouchesShared(ev, order[j])) ==> SharedAfter(ev, order[..q]) == ev.session
    ensures forall p: nat | LastShared(ev, order, p, q) ::
              SharedAfter(ev, order[..q]) ==
              if order[p].ResetTurn? then ev.session
              else ev.run(order[p].job.source, SharedAfter(ev, order[..p]), order[p].tape).1
  {
    if forall j | 0 <= j < q :: !TouchesShared(ev, order[j]) {
      SharedUntouched(ev, order, 0, q);
    }
    forall p: nat | LastShared(ev, order, p, q)
      ensures SharedAfter(ev, order[..q]) ==
              if order[p].ResetTurn? then ev.session
              else ev.run(order[p].job.source, SharedAfter(ev, order[..p]), order[p].tape).1
    {
      SharedUntouched(ev, order, p + 1, q);
      assert order[..p + 1] == order[..p] + [order[p]];
      AppendTurn(ev, order[..p], order[p], 0);
    }
  }

  /** After `Stop` a connection is served and sent nothing more, whatever the run. */
  lemma {:induction false} ClosedStaysClosed<E(!new)>(ev: Evaluator<E>, w: World<E>, run: seq<Action>, c: nat)
    requires Good(ev, w) && Possible(ev, w, run) && c in w.conns && w.conns[c].phase.Closed?
    ensures var w' := After(ev, w, run);
            && c in w'.conns && w'.conns[c].phase.Closed?
            && w'.conns[c].out == w.conns[c].out && w'.conns[c].served == w.conns[c].served
    decreases |run|
  {
    if run != [] {
      ActionKeepsGood(ev, w, run[0]);
      ActionLeavesClosed(ev, w, run[0], c);
      ClosedStaysClosed(ev, Next(ev, w, run[0]), run[1..], c);
    }
  }

  lemma ActionLeavesClosed<E(!new)>(ev: Evaluator<E>, w: World<E>, a: Action, c: nat)
    requires Good(ev, w) && Enabled(w, a) && c in w.conns && w.conns[c].phase.Closed?
    ensures var w' := Next(ev, w, a);
            && c in w'.conns && w'.conns[c].phase.Closed?
            && w'.conns[c].out == w.conns[c].out && w'.conns[c].served == w.conns[c].served
  {
    hide Consistent, EnvsFold, Faithful;
    match a
    case Read(d) => ReadTouches(ev, w, d);
    case Acquire(d, tape) =>
      assert Consistent(w.conns[d]);
      BeginTouches(ev, w, d, tape);
    case Emit(d) => ShowOwn(w, d);
    case _ =>
  }
}
