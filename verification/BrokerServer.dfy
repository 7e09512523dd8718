/** The broker as a program: its request objects, table, connection slots and goroutines.  Every region
    under the mutex and every call out is one method here, proved to be a step of Broker; the
    handlers and Close are whole methods over them, in which others may run wherever the mutex is free. */
module BrokerServer {
  import opened Common
  import opened Broker
  import opened History
  import opened RateLimit

  /** Where a request object stands in memory. */
  type Ptr = nat

  /** What a provider's Open returned; it is named by the request it was opened for. */
  datatype Handle = Handle(owner: Ptr)

  datatype RequestObject = RequestObject(id: string, wrapper: Conn, handle: Option<Handle>)

  /** Where a connection's goroutine is, and its local variables. */
  datatype Stack =
    | AtStart
    | AtGreeting
    | AtOpen(req: Ptr)
    | AtPublish(req: Ptr, handle: Handle)
    | AtDiscard(handle: Handle)
    | AtServe(req: Ptr)
    | AtPane(id: string)
    | AtEnd(req: Ptr, mail: Mail, code: int)
    | AtExit
    | AtFree

  /** The first message of a connection. */
  datatype Message = OpenMessage(id: string) | PaneMessage(id: string) | ExitedMessage(id: string, code: int) | OtherMessage

  /** finish closes by the policy, cancel always, fail never. */
  predicate ClosesAfter(config: Config, mail: Mail, code: int) {
    match mail
    case ExitedMail => ClosesOnExit(config, code)
    case CancelMail => true
    case ErrorMail => false
  }

  // ---------------------------------------------------------------- what the objects stand for

  predicate MirrorsObject(m: RequestObject, q: Request, r: Ptr) {
    m.id == q.id && m.wrapper == q.wrapper && m.handle == if q.published then Some(Handle(r)) else None
  }

  predicate MirrorsStack(config: Config, reqs: seq<Request>, s: Stack, phase: Phase) {
    match s
    case AtGreeting => phase == Greeting
    case AtOpen(req) => phase == Opening(req)
    case AtPublish(req, h) => phase == Holding(req) && h == Handle(req)
    case AtDiscard(h) => phase == Discarding(h.owner)
    case AtServe(req) => phase == Serving(req)
    case AtPane(id) => phase == Pane(id)
    case AtEnd(req, mail, code) =>
      req < |reqs| && phase == Ending(req, mail, reqs[req].published && ClosesAfter(config, mail, code))
    case AtExit => phase == Done
    case _ => false
  }

  ghost predicate ShowsTable(requests: map<string, Ptr>, memory: seq<RequestObject>, table: map<string, Ref>, reqs: seq<Request>) {
    requests == table && |memory| == |reqs| && forall r | 0 <= r < |memory| :: MirrorsObject(memory[r], reqs[r], r)
  }

  /** Every effect on the outside is one that the run accounts for. */
  ghost predicate ShowsEffects(openings: multiset<Handle>, closings: multiset<Handle>, told: multiset<Ptr>, reqs: seq<Request>) {
    && (forall r | 0 <= r < |reqs| :: openings[Handle(r)] == (if reqs[r].handle then 1 else 0)
                                      && closings[Handle(r)] == reqs[r].closes && told[r] == reqs[r].mails)
    && (forall h | h in openings || h in closings :: h.owner < |reqs|)
    && (forall r | r in told :: r < |reqs|)
  }

  ghost predicate ShowsStacks(config: Config, stacks: map<Conn, Stack>, pending: set<Conn>, live: map<Conn, Phase>,
                              ended: set<Conn>, reqs: seq<Request>)
  {
    && stacks.Keys == pending + live.Keys + ended
    && (forall c | c in pending :: c in stacks && stacks[c] == AtStart)
    && (forall c | c in ended :: c in stacks && stacks[c] == AtFree)
    && (forall c | c in live :: c in stacks && MirrorsStack(config, reqs, stacks[c], live[c]))
  }

  ghost predicate ShowsCounts(connections: set<Conn>, slots: nat, running: nat, pending: set<Conn>, live: map<Conn, Phase>,
                              ended: set<Conn>)
  {
    connections == live.Keys && slots == |pending| + |live| + |ended| && running == |live| + |ended|
  }

  ghost predicate ShowsSweep(sweep: seq<Ptr>, w: set<Ref>) {
    Unrepeated(sweep) && forall r :: r in sweep <==> r in w
  }

  function Last(run: seq<World>): World
    requires run != []
  {
    run[|run| - 1]
  }

  /** Everything the program holds.  The counters of opened and closed handles and of wrappers told are
      its effects on the outside. */
  datatype State = State(
    config: Config,
    requests: map<string, Ptr>,
    memory: seq<RequestObject>,
    connections: set<Conn>,
    slots: nat,
    running: nat,
    closing: bool,
    stacks: map<Conn, Stack>,
    sweep: seq<Ptr>,
    returned: bool,
    openings: multiset<Handle>,
    closings: multiset<Handle>,
    told: multiset<Ptr>)

  /** The program is in a state that stands for this world. */
  ghost predicate Shows(s: State, w: World) {
    && ShowsTable(s.requests, s.memory, w.table, w.reqs) && ShowsEffects(s.openings, s.closings, s.told, w.reqs)
    && ShowsStacks(s.config, s.stacks, w.pending, w.live, w.ended, w.reqs)
    && ShowsCounts(s.connections, s.slots, s.running, w.pending, w.live, w.ended)
    && ShowsSweep(s.sweep, w.sweep) && s.closing == w.closing && s.returned == w.returned && s.config == w.config
  }

  ghost function Next(): (World, Step, World) -> bool {
    (w: World, step: Step, v: World) => Took(w, step, v)
  }

  lemma ChainIsRun(config: Config, run: seq<World>, steps: seq<Step>)
    requires Chain(Next(), Initial(config), run, steps)
    ensures IsRun(config, run, steps)
  {
    forall k {:trigger steps[k]} | 0 <= k < |steps| ensures Took(run[k], steps[k], run[k + 1]) {
      assert Next()(run[k], steps[k], run[k + 1]);
    }
  }

  /** What the sections need to know about the world they stand for. */
  predicate Orderly(w: World) {
    && Apart(w.pending, w.live, w.ended)
    && (forall id | id in w.table :: w.table[id] < |w.reqs| && w.reqs[w.table[id]].id == id)
  }

  lemma ChainKeeps(config: Config, run: seq<World>, steps: seq<Step>)
    requires Chain(Next(), Initial(config), run, steps)
    ensures Inv(Last(run))
  {
    ChainIsRun(config, run, steps);
    RunKeeps(config, run, steps, |steps|);
  }

  lemma ChainOrderly(config: Config, run: seq<World>, steps: seq<Step>)
    requires Chain(Next(), Initial(config), run, steps)
    ensures Orderly(Last(run))
  {
    ChainKeeps(config, run, steps);
  }

  lemma IsNext(w: World, step: Step, v: World)
    requires Took(w, step, v)
    ensures Next()(w, step, v)
  {
  }

  /** The requests in the table are those that stand. */
  lemma TakenStand(w: World)
    requires Inv(w) && !w.closing
    ensures Swept(w).sweep == w.table.Values
  {
    forall r | 0 <= r < |w.reqs| ensures r in w.table.Values <==> Standing(w, r) {
      if r in w.table.Values {
        var id :| id in w.table && w.table[id] == r;
      }
    }
    forall r | r in w.table.Values ensures 0 <= r < |w.reqs| {
      var id :| id in w.table && w.table[id] == r;
    }
  }

  predicate Unrepeated(s: seq<Ptr>) {
    forall i, j | 0 <= i < j < |s| :: s[i] != s[j]
  }

  lemma UnrepeatedMore(s: seq<Ptr>, r: Ptr)
    requires Unrepeated(s) && forall x | x in s :: x != r
    ensures Unrepeated(s + [r])
  {
    forall i | 0 <= i < |s| ensures s[i] != r {
      assert s[i] in s;
    }
  }

  /** The requests of the table, collected one by one. */
  method Collect(requests: map<string, Ptr>) returns (taken: seq<Ptr>)
    requires forall i, j | i in requests && j in requests && i != j :: requests[i] != requests[j]
    ensures Unrepeated(taken) && forall r :: r in taken <==> r in requests.Values
  {
    var ids := requests.Keys;
    taken := [];
    while ids != {}
      invariant ids <= requests.Keys && Unrepeated(taken)
      invariant forall r | r in taken :: exists id :: id in requests && id !in ids && requests[id] == r
      invariant forall id | id in requests && id !in ids :: requests[id] in taken
      decreases ids
    {
      var id :| id in ids;
      forall r | r in taken ensures r != requests[id] {
        var other :| other in requests && other !in ids && requests[other] == r;
      }
      UnrepeatedMore(taken, requests[id]);
      taken, ids := taken + [requests[id]], ids - {id};
    }
    forall r | r in requests.Values ensures r in taken {
      var id :| id in requests && requests[id] == r;
    }
  }

  // ---------------------------------------------------------------- how a step changes each part

  predicate Apart(pending: set<Conn>, live: map<Conn, Phase>, ended: set<Conn>) {
    pending !! live.Keys && ended !! live.Keys && pending !! ended
  }

  function Without(stacks: map<Conn, Stack>, c: Conn): map<Conn, Stack> {
    map d | d in stacks && d != c :: stacks[d]
  }

  lemma StacksAccept(config: Config, stacks: map<Conn, Stack>, w: World, c: Conn)
    requires ShowsStacks(config, stacks, w.pending, w.live, w.ended, w.reqs) && c !in stacks
    ensures ShowsStacks(config, stacks[c := AtStart], w.pending + {c}, w.live, w.ended, w.reqs)
    ensures c !in w.pending && c !in w.live && c !in w.ended
  {
  }

  lemma StacksReject(config: Config, stacks: map<Conn, Stack>, w: World, c: Conn)
    requires ShowsStacks(config, stacks, w.pending, w.live, w.ended, w.reqs) && c in stacks && stacks[c].AtStart?
    requires Apart(w.pending, w.live, w.ended)
    ensures c in w.pending && ShowsStacks(config, Without(stacks, c), w.pending - {c}, w.live, w.ended, w.reqs)
  {
  }

  lemma StacksRegister(config: Config, stacks: map<Conn, Stack>, w: World, c: Conn)
    requires ShowsStacks(config, stacks, w.pending, w.live, w.ended, w.reqs) && c in stacks && stacks[c].AtStart?
    requires Apart(w.pending, w.live, w.ended)
    ensures c in w.pending && c !in w.live
    ensures ShowsStacks(config, stacks[c := AtGreeting], w.pending - {c}, w.live[c := Greeting], w.ended, w.reqs)
  {
    assert w.live[c := Greeting].Keys == w.live.Keys + {c};
  }

  lemma StacksUnregister(config: Config, stacks: map<Conn, Stack>, w: World, c: Conn)
    requires ShowsStacks(config, stacks, w.pending, w.live, w.ended, w.reqs) && c in stacks && stacks[c].AtExit?
    requires Apart(w.pending, w.live, w.ended)
    ensures c in w.live && w.live[c].Done? && c !in w.ended
    ensures ShowsStacks(config, stacks[c := AtFree], w.pending, w.live - {c}, w.ended + {c}, w.reqs)
  {
    assert (w.live - {c}).Keys == w.live.Keys - {c};
  }

  lemma StacksFree(config: Config, stacks: map<Conn, Stack>, w: World, c: Conn)
    requires ShowsStacks(config, stacks, w.pending, w.live, w.ended, w.reqs) && c in stacks && stacks[c].AtFree?
    requires Apart(w.pending, w.live, w.ended)
    ensures c in w.ended && ShowsStacks(config, Without(stacks, c), w.pending, w.live, w.ended - {c}, w.reqs)
  {
  }

  /** A handler is where its stack says. */
  lemma StackOf(config: Config, stacks: map<Conn, Stack>, w: World, c: Conn)
    requires ShowsStacks(config, stacks, w.pending, w.live, w.ended, w.reqs) && Apart(w.pending, w.live, w.ended)
    requires c in stacks && !stacks[c].AtStart? && !stacks[c].AtFree?
    ensures c in w.live && MirrorsStack(config, w.reqs, stacks[c], w.live[c])
  {
  }

  /** Nothing that has left the table is published. */
  predicate PublishedSame(reqs: seq<Request>, reqs': seq<Request>) {
    |reqs| <= |reqs'| && forall r | 0 <= r < |reqs| :: reqs[r].published == reqs'[r].published
  }

  /** One handler moves on; what the others' stacks say about requests still holds. */
  lemma StacksMove(config: Config, stacks: map<Conn, Stack>, w: World, v: World, c: Conn, s: Stack)
    requires ShowsStacks(config, stacks, w.pending, w.live, w.ended, w.reqs) && Apart(w.pending, w.live, w.ended)
    requires c in w.live && c in v.live && v.live == w.live[c := v.live[c]] && MirrorsStack(config, v.reqs, s, v.live[c])
    requires OthersStay(w, v, c)
    ensures ShowsStacks(config, stacks[c := s], w.pending, v.live, w.ended, v.reqs)
  {
    assert v.live.Keys == w.live.Keys;
    forall d | d in v.live && d != c ensures MirrorsStack(config, v.reqs, stacks[d], v.live[d]) {
      assert MirrorsStack(config, w.reqs, stacks[d], w.live[d]);
    }
  }

  /** The end of a request that another handler is at work on is not published by this step. */
  predicate OthersStay(w: World, v: World, c: Conn) {
    && |w.reqs| <= |v.reqs|
    && forall d | d in w.live && d != c && w.live[d].Ending? ::
         w.live[d].ref < |w.reqs| ==> w.reqs[w.live[d].ref].published == v.reqs[w.live[d].ref].published
  }

  lemma CountsMove(connections: set<Conn>, slots: nat, running: nat, w: World, c: Conn, phase: Phase)
    requires ShowsCounts(connections, slots, running, w.pending, w.live, w.ended) && c in w.live
    ensures ShowsCounts(connections, slots, running, w.pending, w.live[c := phase], w.ended)
  {
    SameSize(w, c, phase);
  }

  lemma CountsAccept(connections: set<Conn>, slots: nat, running: nat, w: World, c: Conn)
    requires ShowsCounts(connections, slots, running, w.pending, w.live, w.ended) && c !in w.pending
    ensures ShowsCounts(connections, slots + 1, running, w.pending + {c}, w.live, w.ended)
  {
  }

  lemma CountsReject(connections: set<Conn>, slots: nat, running: nat, w: World, c: Conn)
    requires ShowsCounts(connections, slots, running, w.pending, w.live, w.ended) && c in w.pending
    ensures slots > 0 && ShowsCounts(connections, slots - 1, running, w.pending - {c}, w.live, w.ended)
  {
  }

  lemma CountsRegister(connections: set<Conn>, slots: nat, running: nat, w: World, c: Conn)
    requires ShowsCounts(connections, slots, running, w.pending, w.live, w.ended) && c in w.pending && c !in w.live
    ensures ShowsCounts(connections + {c}, slots, running + 1, w.pending - {c}, w.live[c := Greeting], w.ended)
  {
    LiveGrows(w.live, c);
  }

  lemma CountsUnregister(connections: set<Conn>, slots: nat, running: nat, w: World, c: Conn)
    requires ShowsCounts(connections, slots, running, w.pending, w.live, w.ended) && c in w.live && c !in w.ended
    ensures ShowsCounts(connections - {c}, slots, running, w.pending, w.live - {c}, w.ended + {c})
  {
    LiveShrinks(w.live, c);
  }

  lemma CountsFree(connections: set<Conn>, slots: nat, running: nat, w: World, c: Conn)
    requires ShowsCounts(connections, slots, running, w.pending, w.live, w.ended) && c in w.ended
    ensures slots > 0 && running > 0 && ShowsCounts(connections, slots - 1, running - 1, w.pending, w.live, w.ended - {c})
  {
  }

  // ---------------------------------------------------------------- a program and its history

  function Start(config: Config): State {
    State(config, map[], [], {}, 0, 0, false, map[], [], false, multiset{}, multiset{}, multiset{})
  }

  /** A state of the program with the steps of the broker that led to it. */
  datatype Past = Past(state: State, run: seq<World>, steps: seq<Step>)

  ghost predicate Led(t: Past) {
    t.run != [] && Chain(Next(), Initial(t.state.config), t.run, t.steps) && Shows(t.state, Last(t.run))
  }

  /** Looking into a trace; only then its definition is used. */
  predicate Opened(t: Past, look: bool) {
    true
  }

  ghost predicate Sealed(t: Past) {
    forall look {:trigger Opened(t, look)} :: Opened(t, look) ==> Led(t)
  }

  type Trace = t: Past | |t.run| == |t.steps| + 1 && Sealed(t)
    ghost witness Past(Start(Config(true, true)), [Initial(Config(true, true))], [])

  /** The later trace goes on where the earlier one ended. */
  predicate Continues(t: Past, u: Past) {
    && |t.run| <= |u.run| && u.run[..|t.run|] == t.run
    && |t.steps| <= |u.steps| && u.steps[..|t.steps|] == t.steps
  }

  lemma ContinuesFurther(t: Past, u: Past, v: Past)
    requires Continues(t, u) && Continues(u, v)
    ensures Continues(t, v)
  {
    assert v.run[..|t.run|] == v.run[..|u.run|][..|t.run|];
    assert v.steps[..|t.steps|] == v.steps[..|u.steps|][..|t.steps|];
  }

  lemma Seals(s: State, run: seq<World>, steps: seq<Step>, w: World)
    requires Chain(Next(), Initial(s.config), run + [w], steps) && Shows(s, w)
    ensures Sealed(Past(s, run + [w], steps))
  {
    assert Last(run + [w]) == w;
    assert Led(Past(s, run + [w], steps));
  }

  lemma TraceChain(t: Trace)
    ensures Chain(Next(), Initial(t.state.config), t.run, t.steps)
  {
    assert Opened(t, true);
  }

  /** One more step, to a state that stands for the world after it. */
  lemma Extend(t: Trace, step: Step, w: World, s: State) returns (u: Trace)
    requires t.run != [] && Next()(Last(t.run), step, w) && Shows(s, w) && s.config == t.state.config
    ensures u == Past(s, t.run + [w], t.steps + [step]) && Continues(t, u)
  {
    TraceChain(t);
    ChainGrows(Next(), Initial(s.config), t.run, t.steps, step, w);
    Seals(s, t.run, t.steps + [step], w);
    u := Past(s, t.run + [w], t.steps + [step]);
  }

  lemma TraceOrderly(t: Trace)
    ensures t.run != [] && Orderly(Last(t.run)) && Shows(t.state, Last(t.run))
  {
    assert Opened(t, true);
    ChainOrderly(t.state.config, t.run, t.steps);
  }

  // ---------------------------------------------------------------- every section is a step

  lemma AcceptStep(t: Trace, c: Conn) returns (u: Trace)
    requires c !in t.state.stacks && t.state.slots < MAX_CONNECTIONS
    ensures u.state == t.state.(slots := t.state.slots + 1, stacks := t.state.stacks[c := AtStart])
    ensures Continues(t, u) && u.steps == t.steps + [Accept(c)]
  {
    TraceOrderly(t);
    var s, w := t.state, Last(t.run);
    StacksAccept(s.config, s.stacks, w, c);
    CountsAccept(s.connections, s.slots, s.running, w, c);
    IsNext(w, Accept(c), w.(pending := w.pending + {c}));
    u := Extend(t, Accept(c), w.(pending := w.pending + {c}), s.(slots := s.slots + 1, stacks := s.stacks[c := AtStart]));
  }

  lemma RegisterStep(t: Trace, c: Conn) returns (u: Trace)
    requires c in t.state.stacks && t.state.stacks[c].AtStart? && !t.state.closing
    ensures u.state == t.state.(connections := t.state.connections + {c}, running := t.state.running + 1,
                                stacks := t.state.stacks[c := AtGreeting])
    ensures Continues(t, u) && u.steps == t.steps + [Register(c)]
  {
    TraceOrderly(t);
    var s, w := t.state, Last(t.run);
    StacksRegister(s.config, s.stacks, w, c);
    CountsRegister(s.connections, s.slots, s.running, w, c);
    IsNext(w, Register(c), w.(pending := w.pending - {c}, live := w.live[c := Greeting]));
    u := Extend(t, Register(c), w.(pending := w.pending - {c}, live := w.live[c := Greeting]),
                s.(connections := s.connections + {c}, running := s.running + 1, stacks := s.stacks[c := AtGreeting]));
  }

  lemma TurnAwayStep(t: Trace, c: Conn) returns (u: Trace)
    requires c in t.state.stacks && t.state.stacks[c].AtStart? && t.state.closing
    ensures t.state.slots > 0 && u.state == t.state.(slots := t.state.slots - 1, stacks := Without(t.state.stacks, c))
    ensures Continues(t, u) && u.steps == t.steps + [Register(c)]
  {
    TraceOrderly(t);
    var s, w := t.state, Last(t.run);
    StacksReject(s.config, s.stacks, w, c);
    CountsReject(s.connections, s.slots, s.running, w, c);
    IsNext(w, Register(c), w.(pending := w.pending - {c}));
    u := Extend(t, Register(c), w.(pending := w.pending - {c}), s.(slots := s.slots - 1, stacks := Without(s.stacks, c)));
  }

  lemma UnregisterStep(t: Trace, c: Conn) returns (u: Trace)
    requires c in t.state.stacks && t.state.stacks[c].AtExit?
    ensures u.state == t.state.(connections := t.state.connections - {c}, stacks := t.state.stacks[c := AtFree])
    ensures Continues(t, u) && u.steps == t.steps + [Unregister(c)]
  {
    TraceOrderly(t);
    var s, w := t.state, Last(t.run);
    StacksUnregister(s.config, s.stacks, w, c);
    CountsUnregister(s.connections, s.slots, s.running, w, c);
    IsNext(w, Unregister(c), w.(live := w.live - {c}, ended := w.ended + {c}));
    u := Extend(t, Unregister(c), w.(live := w.live - {c}, ended := w.ended + {c}),
                s.(connections := s.connections - {c}, stacks := s.stacks[c := AtFree]));
  }

  lemma FreeStep(t: Trace, c: Conn) returns (u: Trace)
    requires c in t.state.stacks && t.state.stacks[c].AtFree?
    ensures t.state.slots > 0 && t.state.running > 0
    ensures u.state == t.state.(slots := t.state.slots - 1, running := t.state.running - 1, stacks := Without(t.state.stacks, c))
    ensures Continues(t, u) && u.steps == t.steps + [Free(c)]
  {
    TraceOrderly(t);
    var s, w := t.state, Last(t.run);
    StacksFree(s.config, s.stacks, w, c);
    CountsFree(s.connections, s.slots, s.running, w, c);
    IsNext(w, Free(c), w.(ended := w.ended - {c}));
    u := Extend(t, Free(c), w.(ended := w.ended - {c}),
                s.(slots := s.slots - 1, running := s.running - 1, stacks := Without(s.stacks, c)));
  }

  // ---------------------------------------------------------------- the steps of handlers

  /** The parts of the world no handler's section touches. */
  predicate RestSame(w: World, v: World) {
    && v.pending == w.pending && v.ended == w.ended && v.sweep == w.sweep && v.closing == w.closing
    && v.returned == w.returned && v.config == w.config
  }

  predicate InHandler(t: Trace, c: Conn) {
    c in t.state.stacks && !t.state.stacks[c].AtStart? && !t.state.stacks[c].AtFree?
  }

  lemma MoveStep(t: Trace, step: Step, c: Conn, v: World, stack: Stack, s: State) returns (u: Trace)
    requires t.run != [] && InHandler(t, c) && c in Last(t.run).live && Next()(Last(t.run), step, v) && RestSame(Last(t.run), v)
    requires c in v.live && v.live == Last(t.run).live[c := v.live[c]]
    requires MirrorsStack(s.config, v.reqs, stack, v.live[c]) && OthersStay(Last(t.run), v, c)
    requires ShowsTable(s.requests, s.memory, v.table, v.reqs) && ShowsEffects(s.openings, s.closings, s.told, v.reqs)
    requires s == t.state.(requests := s.requests, memory := s.memory, openings := s.openings, closings := s.closings,
                           told := s.told, stacks := t.state.stacks[c := stack])
    ensures u == Past(s, t.run + [v], t.steps + [step]) && Continues(t, u)
  {
    TraceOrderly(t);
    var w := Last(t.run);
    StacksMove(s.config, t.state.stacks, w, v, c, stack);
    CountsMove(s.connections, s.slots, s.running, w, c, v.live[c]);
    u := Extend(t, step, v, s);
  }

  /** Where a handler is in the world. */
  lemma PhaseOf(t: Trace, c: Conn) returns (w: World)
    requires InHandler(t, c)
    ensures t.run != [] && w == Last(t.run) && c in w.live && MirrorsStack(t.state.config, w.reqs, t.state.stacks[c], w.live[c])
    ensures ShowsTable(t.state.requests, t.state.memory, w.table, w.reqs)
    ensures ShowsEffects(t.state.openings, t.state.closings, t.state.told, w.reqs) && w.config == t.state.config
    ensures forall id | id in w.table :: w.table[id] < |w.reqs| && w.reqs[w.table[id]].id == id
  {
    TraceOrderly(t);
    w := Last(t.run);
    StackOf(t.state.config, t.state.stacks, w, c);
  }

  /** The handler stops without touching anything: it is done, or it waits for its pane. */
  lemma TurnStep(t: Trace, step: Step, c: Conn, stack: Stack) returns (u: Trace)
    requires InHandler(t, c) && (stack.AtExit? || stack.AtPane?) && t.run != []
    requires var w := Last(t.run);
             c in w.live ==> Next()(w, step, Moved(w, c, if stack.AtExit? then Done else Pane(stack.id)))
    ensures u.state == t.state.(stacks := t.state.stacks[c := stack]) && Continues(t, u) && u.steps == t.steps + [step]
  {
    var w := PhaseOf(t, c);
    u := MoveStep(t, step, c, Moved(w, c, if stack.AtExit? then Done else Pane(stack.id)), stack,
                  t.state.(stacks := t.state.stacks[c := stack]));
  }

  lemma AdmitStep(t: Trace, c: Conn, id: string, inRate: bool) returns (u: Trace)
    requires InHandler(t, c) && t.state.stacks[c].AtGreeting?
    ensures Continues(t, u) && u.steps == t.steps + [Admit(c, id, inRate)]
    ensures var s := t.state;
            u.state == if !inRate || |s.requests| >= MAX_PANES || id in s.requests then s.(stacks := s.stacks[c := AtExit])
                       else s.(requests := s.requests[id := |s.memory|], memory := s.memory + [RequestObject(id, c, None)],
                               stacks := s.stacks[c := AtOpen(|s.memory|)])
  {
    var w := PhaseOf(t, c);
    var s := t.state;
    if !inRate || |s.requests| >= MAX_PANES || id in s.requests {
      IsNext(w, Admit(c, id, inRate), Moved(w, c, Done));
      u := TurnStep(t, Admit(c, id, inRate), c, AtExit);
    } else {
      var v := Admitted(w, c, id, inRate);
      EffectsAdmit(s.openings, s.closings, s.told, w.reqs, v.reqs[|w.reqs|]);
      IsNext(w, Admit(c, id, inRate), v);
      u := MoveStep(t, Admit(c, id, inRate), c, v, AtOpen(|s.memory|),
                    s.(requests := s.requests[id := |s.memory|], memory := s.memory + [RequestObject(id, c, None)],
                       stacks := s.stacks[c := AtOpen(|s.memory|)]));
    }
  }

  lemma EffectsAdmit(openings: multiset<Handle>, closings: multiset<Handle>, told: multiset<Ptr>, reqs: seq<Request>, q: Request)
    requires ShowsEffects(openings, closings, told, reqs) && !q.handle && q.closes == 0 && q.mails == 0
    ensures ShowsEffects(openings, closings, told, reqs + [q])
  {
    assert Handle(|reqs|) !in openings && Handle(|reqs|) !in closings && |reqs| !in told;
  }

  /** One request's part of the effects changes. */
  lemma EffectsChange(openings: multiset<Handle>, closings: multiset<Handle>, told: multiset<Ptr>, reqs: seq<Request>, r: Ptr,
                      q: Request, openings': multiset<Handle>, closings': multiset<Handle>, told': multiset<Ptr>)
    requires ShowsEffects(openings, closings, told, reqs) && r < |reqs|
    requires openings' == openings[Handle(r) := if q.handle then 1 else 0]
    requires closings' == closings[Handle(r) := q.closes] && told' == told[r := q.mails]
    ensures ShowsEffects(openings', closings', told', reqs[r := q])
  {
  }

  /** What the broker knows about a handler's own request. */
  lemma OwnRequest(t: Trace, c: Conn) returns (w: World)
    requires InHandler(t, c)
    ensures t.run != [] && w == Last(t.run) && c in w.live && PhaseInv(w, c)
    ensures PhaseRef(w.live[c]).Some? ==> PhaseRef(w.live[c]).value < |w.reqs| && RequestInv(w, PhaseRef(w.live[c]).value)
  {
    w := PhaseOf(t, c);
    assert Opened(t, true);
    ChainKeeps(t.state.config, t.run, t.steps);
  }

  /** The provider has opened a terminal. */
  lemma OpenStep(t: Trace, c: Conn) returns (u: Trace)
    requires InHandler(t, c) && t.state.stacks[c].AtOpen?
    ensures Continues(t, u) && u.steps == t.steps + [OpenSuccess(c)]
    ensures var s, r := t.state, t.state.stacks[c].req;
            u.state == s.(openings := s.openings + multiset{Handle(r)}, stacks := s.stacks[c := AtPublish(r, Handle(r))])
  {
    var w := PhaseOf(t, c);
    var o := OwnRequest(t, c);
    var s, r := t.state, t.state.stacks[c].req;
    var q := w.reqs[r].(handle := true);
    EffectsChange(s.openings, s.closings, s.told, w.reqs, r, q, s.openings + multiset{Handle(r)}, s.closings, s.told);
    IsNext(w, OpenSuccess(c), w.(reqs := w.reqs[r := q], live := w.live[c := Holding(r)]));
    u := MoveStep(t, OpenSuccess(c), c, w.(reqs := w.reqs[r := q], live := w.live[c := Holding(r)]), AtPublish(r, Handle(r)),
                  s.(openings := s.openings + multiset{Handle(r)}, stacks := s.stacks[c := AtPublish(r, Handle(r))]));
  }

  /** The handle is stored in a request that still stands. */
  lemma PublishStep(t: Trace, c: Conn) returns (u: Trace)
    requires InHandler(t, c) && t.state.stacks[c].AtPublish?
    ensures t.state.stacks[c].req < |t.state.memory|
    ensures Continues(t, u) && u.steps == t.steps + [Step.Publish(c)]
    ensures var s, r, h := t.state, t.state.stacks[c].req, t.state.stacks[c].handle;
            u.state == if s.memory[r].id in s.requests && s.requests[s.memory[r].id] == r
                       then s.(memory := s.memory[r := s.memory[r].(handle := Some(h))], stacks := s.stacks[c := AtServe(r)])
                       else s.(stacks := s.stacks[c := AtDiscard(h)])
  {
    var w := PhaseOf(t, c);
    var o := OwnRequest(t, c);
    var s, r, h := t.state, t.state.stacks[c].req, t.state.stacks[c].handle;
    assert MirrorsObject(s.memory[r], w.reqs[r], r);
    if Standing(w, r) {
      var q := w.reqs[r].(published := true);
      var v := w.(reqs := w.reqs[r := q], live := w.live[c := Serving(r)]);
      NoneEndsStanding(t, w, r);
      EffectsChange(s.openings, s.closings, s.told, w.reqs, r, q, s.openings, s.closings, s.told);
      IsNext(w, Step.Publish(c), v);
      u := MoveStep(t, Step.Publish(c), c, v, AtServe(r),
                    s.(memory := s.memory[r := s.memory[r].(handle := Some(h))], stacks := s.stacks[c := AtServe(r)]));
    } else {
      IsNext(w, Step.Publish(c), Moved(w, c, Discarding(r)));
      u := MoveStep(t, Step.Publish(c), c, Moved(w, c, Discarding(r)), AtDiscard(h), s.(stacks := s.stacks[c := AtDiscard(h)]));
    }
  }

  /** A request that stands has not been taken by any handler. */
  lemma NoneEndsStanding(t: Trace, w: World, r: Ref)
    requires t.run != [] && w == Last(t.run) && r < |w.reqs| && Standing(w, r)
    ensures forall d | d in w.live && w.live[d].Ending? :: w.live[d].ref != r
  {
    assert Opened(t, true);
    ChainKeeps(t.state.config, t.run, t.steps);
    forall d | d in w.live && w.live[d].Ending? ensures w.live[d].ref != r {
      assert PhaseInv(w, d) && RequestInv(w, r);
    }
  }

  /** A handle whose request is gone is closed by the handler that opened it. */
  lemma DiscardStep(t: Trace, c: Conn) returns (u: Trace)
    requires InHandler(t, c) && t.state.stacks[c].AtDiscard?
    ensures Continues(t, u) && u.steps == t.steps + [Discard(c)]
    ensures u.state == t.state.(closings := t.state.closings + multiset{t.state.stacks[c].handle},
                                stacks := t.state.stacks[c := AtExit])
  {
    var w := PhaseOf(t, c);
    var o := OwnRequest(t, c);
    var s, r := t.state, t.state.stacks[c].handle.owner;
    var q := Closed(w.reqs[r]);
    EffectsChange(s.openings, s.closings, s.told, w.reqs, r, q, s.openings, s.closings + multiset{Handle(r)}, s.told);
    IsNext(w, Discard(c), Moved(w, c, Done).(reqs := w.reqs[r := q]));
    u := MoveStep(t, Discard(c), c, Moved(w, c, Done).(reqs := w.reqs[r := q]), AtExit,
                  s.(closings := s.closings + multiset{Handle(r)}, stacks := s.stacks[c := AtExit]));
  }

  /** finish, cancel and fail in the world. */
  function Outcome(w: World, c: Conn, id: string, mail: Mail, code: int): World {
    match mail
    case ExitedMail => Finish(w, c, id, code)
    case CancelMail => Cancel(w, c, id)
    case ErrorMail => Fail(w, c, id)
  }

  function WithoutId(requests: map<string, Ptr>, id: string): map<string, Ptr> {
    map x | x in requests && x != id :: requests[x]
  }

  /** What the three have in common, and in what they differ. */
  lemma OutcomeIs(w: World, c: Conn, id: string, mail: Mail, code: int)
    requires id in w.table && w.table[id] < |w.reqs|
    ensures var v, r := Outcome(w, c, id, mail, code), w.table[id];
            && RestSame(w, v) && v.table == w.table - {id} && |v.reqs| == |w.reqs| && v.reqs == w.reqs[r := v.reqs[r]]
            && v.reqs[r].id == w.reqs[r].id && v.reqs[r].wrapper == w.reqs[r].wrapper && v.reqs[r].handle == w.reqs[r].handle
            && v.reqs[r].published == w.reqs[r].published && v.reqs[r].closes == w.reqs[r].closes
            && v.reqs[r].mails == w.reqs[r].mails
            && v.live == w.live[c := Ending(r, mail, w.reqs[r].published && ClosesAfter(w.config, mail, code))]
  {
  }

  lemma TableTaken(requests: map<string, Ptr>, memory: seq<RequestObject>, table: map<string, Ref>, reqs: seq<Request>,
                   id: string, reqs': seq<Request>)
    requires ShowsTable(requests, memory, table, reqs) && LooksSame(reqs, reqs')
    ensures ShowsTable(WithoutId(requests, id), memory, table - {id}, reqs')
  {
    forall r | 0 <= r < |memory| ensures MirrorsObject(memory[r], reqs'[r], r) {
      assert MirrorsObject(memory[r], reqs[r], r);
    }
  }

  function TakenState(s: State, c: Conn, id: string, mail: Mail, code: int): State {
    if id !in s.requests then s.(stacks := s.stacks[c := AtExit])
    else s.(requests := WithoutId(s.requests, id), stacks := s.stacks[c := AtEnd(s.requests[id], mail, code)])
  }

  /** The request object a handler points to, as the broker knows it. */
  lemma OwnObject(t: Trace, c: Conn) returns (w: World)
    requires InHandler(t, c) && (t.state.stacks[c].AtOpen? || t.state.stacks[c].AtServe?)
    ensures t.run != [] && w == Last(t.run) && c in w.live
    ensures MirrorsStack(t.state.config, w.reqs, t.state.stacks[c], w.live[c])
    ensures t.state.stacks[c].req < |t.state.memory| == |w.reqs|
    ensures t.state.memory[t.state.stacks[c].req].id == w.reqs[t.state.stacks[c].req].id
  {
    w := PhaseOf(t, c);
    var o := OwnRequest(t, c);
    assert MirrorsObject(t.state.memory[t.state.stacks[c].req], w.reqs[t.state.stacks[c].req], t.state.stacks[c].req);
  }

  lemma OpenFailStep(t: Trace, c: Conn) returns (u: Trace)
    requires InHandler(t, c) && t.state.stacks[c].AtOpen?
    ensures t.state.stacks[c].req < |t.state.memory| && Continues(t, u) && u.steps == t.steps + [OpenFail(c)]
    ensures u.state == TakenState(t.state, c, t.state.memory[t.state.stacks[c].req].id, ErrorMail, 0)
  {
    var w := OwnObject(t, c);
    IsNext(w, OpenFail(c), Outcome(w, c, t.state.memory[t.state.stacks[c].req].id, ErrorMail, 0));
    u := TakeStep(t, OpenFail(c), c, t.state.memory[t.state.stacks[c].req].id, ErrorMail, 0);
  }

  lemma ParentGoneStep(t: Trace, c: Conn) returns (u: Trace)
    requires InHandler(t, c) && t.state.stacks[c].AtServe?
    ensures t.state.stacks[c].req < |t.state.memory| && Continues(t, u) && u.steps == t.steps + [ParentGone(c)]
    ensures u.state == TakenState(t.state, c, t.state.memory[t.state.stacks[c].req].id, CancelMail, 0)
  {
    var w := OwnObject(t, c);
    IsNext(w, ParentGone(c), Outcome(w, c, t.state.memory[t.state.stacks[c].req].id, CancelMail, 0));
    u := TakeStep(t, ParentGone(c), c, t.state.memory[t.state.stacks[c].req].id, CancelMail, 0);
  }

  lemma PaneEndStep(t: Trace, c: Conn, exited: bool, code: int) returns (u: Trace)
    requires InHandler(t, c) && t.state.stacks[c].AtPane?
    ensures Continues(t, u) && u.steps == t.steps + [if exited then PaneExited(c, code) else PaneGone(c)]
    ensures u.state == TakenState(t.state, c, t.state.stacks[c].id, if exited then ExitedMail else CancelMail, code)
  {
    var w := PhaseOf(t, c);
    if exited {
      IsNext(w, PaneExited(c, code), Outcome(w, c, t.state.stacks[c].id, ExitedMail, code));
      u := TakeStep(t, PaneExited(c, code), c, t.state.stacks[c].id, ExitedMail, code);
    } else {
      IsNext(w, PaneGone(c), Outcome(w, c, t.state.stacks[c].id, CancelMail, code));
      u := TakeStep(t, PaneGone(c), c, t.state.stacks[c].id, CancelMail, code);
    }
  }

  lemma ExitedFirstStep(t: Trace, c: Conn, id: string, code: int) returns (u: Trace)
    requires InHandler(t, c) && t.state.stacks[c].AtGreeting?
    ensures Continues(t, u) && u.steps == t.steps + [ExitedFirst(c, id, code)] && u.state == TakenState(t.state, c, id, ExitedMail, code)
  {
    var w := PhaseOf(t, c);
    IsNext(w, ExitedFirst(c, id, code), Outcome(w, c, id, ExitedMail, code));
    u := TakeStep(t, ExitedFirst(c, id, code), c, id, ExitedMail, code);
  }

  lemma AnswerStep(t: Trace, c: Conn) returns (u: Trace)
    requires InHandler(t, c) && t.state.stacks[c].AtGreeting?
    ensures u.state == t.state.(stacks := t.state.stacks[c := AtExit]) && Continues(t, u) && u.steps == t.steps + [Reject(c)]
  {
    var w := PhaseOf(t, c);
    IsNext(w, Reject(c), Moved(w, c, Done));
    u := TurnStep(t, Reject(c), c, AtExit);
  }

  lemma PaneStartStep(t: Trace, c: Conn, id: string) returns (u: Trace)
    requires InHandler(t, c) && t.state.stacks[c].AtGreeting?
    ensures Continues(t, u) && u.steps == t.steps + [PaneStarted(c, id)]
    ensures u.state == t.state.(stacks := t.state.stacks[c := if id in t.state.requests then AtPane(id) else AtExit])
  {
    var w := PhaseOf(t, c);
    IsNext(w, PaneStarted(c, id), Moved(w, c, if id in w.table then Pane(id) else Done));
    u := TurnStep(t, PaneStarted(c, id), c, if id in t.state.requests then AtPane(id) else AtExit);
  }

  /** The request under the id is taken out of the table, if there is one. */
  lemma TakeStep(t: Trace, step: Step, c: Conn, id: string, mail: Mail, code: int) returns (u: Trace)
    requires InHandler(t, c) && t.run != []
    requires c in Last(t.run).live ==> Next()(Last(t.run), step, Outcome(Last(t.run), c, id, mail, code))
    ensures Continues(t, u) && u.steps == t.steps + [step]
    ensures u.state == TakenState(t.state, c, id, mail, code)
  {
    var w := PhaseOf(t, c);
    var s := t.state;
    if id !in s.requests {
      u := TurnStep(t, step, c, AtExit);
    } else {
      var r, v := s.requests[id], Outcome(w, c, id, mail, code);
      OutcomeIs(w, c, id, mail, code);
      TableTaken(s.requests, s.memory, w.table, w.reqs, id, v.reqs);
      EffectsChange(s.openings, s.closings, s.told, w.reqs, r, v.reqs[r], s.openings, s.closings, s.told);
      u := MoveStep(t, step, c, v, AtEnd(r, mail, code),
                    s.(requests := WithoutId(s.requests, id), stacks := s.stacks[c := AtEnd(r, mail, code)]));
    }
  }

  /** The wrapper is told, and the terminal closed if that is due: the request is off the table, so nobody
      stores a handle in it any more. */
  lemma EndStep(t: Trace, c: Conn) returns (u: Trace)
    requires InHandler(t, c) && t.state.stacks[c].AtEnd?
    ensures t.state.stacks[c].req < |t.state.memory| && Continues(t, u) && u.steps == t.steps + [Act(c)]
    ensures var s, e := t.state, t.state.stacks[c];
            var h := s.memory[e.req].handle;
            u.state == s.(told := s.told + multiset{e.req}, stacks := s.stacks[c := AtExit],
                          closings := if h.Some? && ClosesAfter(s.config, e.mail, e.code) then s.closings + multiset{h.value}
                                      else s.closings)
  {
    var w := PhaseOf(t, c);
    var s, r := t.state, t.state.stacks[c].req;
    assert MirrorsObject(s.memory[r], w.reqs[r], r);
    var v := Acted(w, c);
    var closings := if w.live[c].close then s.closings + multiset{Handle(r)} else s.closings;
    EffectsChange(s.openings, s.closings, s.told, w.reqs, r, v.reqs[r], s.openings, closings, s.told + multiset{r});
    IsNext(w, Act(c), v);
    u := MoveStep(t, Act(c), c, v, AtExit, s.(told := s.told + multiset{r}, stacks := s.stacks[c := AtExit], closings := closings));
  }

  // ---------------------------------------------------------------- the steps of Close

  /** No request changes what the program shows of it. */
  predicate LooksSame(reqs: seq<Request>, reqs': seq<Request>) {
    |reqs'| == |reqs| && forall r | 0 <= r < |reqs| ::
      reqs'[r].id == reqs[r].id && reqs'[r].wrapper == reqs[r].wrapper && reqs'[r].published == reqs[r].published
  }

  lemma StacksLook(config: Config, stacks: map<Conn, Stack>, w: World, reqs: seq<Request>)
    requires ShowsStacks(config, stacks, w.pending, w.live, w.ended, w.reqs) && LooksSame(w.reqs, reqs)
    ensures ShowsStacks(config, stacks, w.pending, w.live, w.ended, reqs)
  {
    forall c | c in w.live ensures MirrorsStack(config, reqs, stacks[c], w.live[c]) {
      assert MirrorsStack(config, w.reqs, stacks[c], w.live[c]);
    }
  }

  /** The values of the table have different keys, and keys different values. */
  lemma TableOneToOne(t: Trace)
    ensures var q := t.state.requests; forall i, j | i in q && j in q && i != j :: q[i] != q[j]
  {
    TraceOrderly(t);
  }

  lemma BeginCloseStep(t: Trace, taken: seq<Ptr>) returns (u: Trace)
    requires !t.state.closing && Unrepeated(taken) && forall r :: r in taken <==> r in t.state.requests.Values
    ensures u.state == t.state.(closing := true, requests := map[], sweep := taken) && Continues(t, u) && u.steps == t.steps + [BeginClose]
  {
    TraceOrderly(t);
    var s, w := t.state, Last(t.run);
    assert Opened(t, true);
    ChainKeeps(s.config, t.run, t.steps);
    TakenStand(w);
    StacksLook(s.config, s.stacks, w, Swept(w).reqs);
    IsNext(w, BeginClose, Swept(w));
    u := Extend(t, BeginClose, Swept(w), s.(closing := true, requests := map[], sweep := taken));
  }

  /** One round of closeRequests. */
  lemma CloseOneStep(t: Trace) returns (u: Trace)
    requires t.state.sweep != []
    ensures t.state.sweep[0] < |t.state.memory| && Continues(t, u) && u.steps == t.steps + [SweepOne(t.state.sweep[0])]
    ensures var s := t.state;
            var h := s.memory[s.sweep[0]].handle;
            u.state == s.(sweep := s.sweep[1..], closings := if h.Some? then s.closings + multiset{h.value} else s.closings)
  {
    TraceOrderly(t);
    assert Opened(t, true);
    var s, w, r := t.state, Last(t.run), t.state.sweep[0];
    ChainKeeps(s.config, t.run, t.steps);
    assert r in s.sweep && r in w.sweep && SweepInv(w, r) && MirrorsObject(s.memory[r], w.reqs[r], r);
    var v := w.(sweep := w.sweep - {r}, reqs := if w.reqs[r].published then w.reqs[r := Closed(w.reqs[r])] else w.reqs);
    var closings := if w.reqs[r].published then s.closings + multiset{Handle(r)} else s.closings;
    EffectsChange(s.openings, s.closings, s.told, w.reqs, r, v.reqs[r], s.openings, closings, s.told);
    assert v.reqs == w.reqs[r := v.reqs[r]];
    StacksLook(s.config, s.stacks, w, v.reqs);
    SweepShrinks(s.sweep, w.sweep);
    IsNext(w, SweepOne(r), v);
    u := Extend(t, SweepOne(r), v, s.(sweep := s.sweep[1..], closings := closings));
  }

  lemma SweepShrinks(sweep: seq<Ptr>, w: set<Ref>)
    requires ShowsSweep(sweep, w) && sweep != []
    ensures ShowsSweep(sweep[1..], w - {sweep[0]})
  {
    assert sweep == [sweep[0]] + sweep[1..];
  }

  lemma ReturnStep(t: Trace) returns (u: Trace)
    requires t.state.closing && !t.state.returned && t.state.sweep == [] && t.state.running == 0
    ensures u.state == t.state.(returned := true) && Continues(t, u) && u.steps == t.steps + [Return]
  {
    TraceOrderly(t);
    var s, w := t.state, Last(t.run);
    assert |w.live| == 0 && |w.ended| == 0 && w.sweep == {};
    assert w.live == map[] && w.ended == {};
    IsNext(w, Return, w.(returned := true));
    u := Extend(t, Return, w.(returned := true), s.(returned := true));
  }

  class Server {
    const config: Config
    const rate: RateWindow
    var requests: map<string, Ptr>
    var memory: seq<RequestObject>
    var connections: set<Conn>
    var slots: nat
    var running: nat
    var closing: bool
    var stacks: map<Conn, Stack>
    var sweep: seq<Ptr>
    var returned: bool
    var clock: int
    ghost var openings: multiset<Handle>
    ghost var closings: multiset<Handle>
    ghost var told: multiset<Ptr>
    ghost var trace: Trace

    constructor (config: Config)
      ensures Valid() && fresh(rate) && trace.steps == [] && stacks == map[] && !closing && !returned
      ensures this.config == config
    {
      this.config := config;
      rate := new RateWindow();
      requests, memory, connections, slots, running := map[], [], {}, 0, 0;
      closing, stacks, sweep, returned, clock := false, map[], [], false, 0;
      openings, closings, told := multiset{}, multiset{}, multiset{};
      trace := Past(Start(config), [Initial(config)], []);
    }

    ghost function View(): State
      reads this
    {
      State(config, requests, memory, connections, slots, running, closing, stacks, sweep, returned, openings, closings, told)
    }

    ghost predicate Valid()
      reads this, rate
    {
      trace.state == View() && OnTime()
    }

    /** What a section of connection c leaves alone. */
    twostate predicate Beside(c: Conn)
      reads this
    {
      && (forall d | d != c :: d in stacks <==> d in old(stacks))
      && (forall d | d != c && d in stacks && d in old(stacks) :: stacks[d] == old(stacks[d]))
      && closing == old(closing) && sweep == old(sweep) && returned == old(returned)
      && Continues(old(trace), trace)
    }

    // -------------------------------------------------------------- connections

    /** Takes a slot, or turns the connection away when all are taken. */
    method AcceptConnection(c: Conn) returns (ok: bool)
      requires Valid() && c !in stacks
      modifies this
      ensures Valid() && Beside(c) && (ok <==> old(slots) < 32)
      ensures if ok then c in stacks && stacks[c] == AtStart && trace.steps == old(trace).steps + [Accept(c)]
              else c !in stacks && trace == old(trace)
    {
      ok := slots < MAX_CONNECTIONS;
      if ok {
        trace := AcceptStep(trace, c);
        slots, stacks := slots + 1, stacks[c := AtStart];
      }
    }

    /** Under the mutex: a connection is registered unless the broker is closing. */
    method RegisterConnection(c: Conn)
      requires Valid() && c in stacks && stacks[c].AtStart?
      modifies this
      ensures Valid() && Beside(c) && trace.steps == old(trace).steps + [Register(c)]
      ensures if closing then c !in stacks else c in stacks && stacks[c].AtGreeting?
    {
      if closing {
        trace := TurnAwayStep(trace, c);
        slots, stacks := slots - 1, Without(stacks, c);
      } else {
        trace := RegisterStep(trace, c);
        connections, running, stacks := connections + {c}, running + 1, stacks[c := AtGreeting];
      }
    }

    /** The deferred part of a handler: first it leaves the set of connections. */
    method UnregisterConnection(c: Conn)
      requires Valid() && c in stacks && stacks[c].AtExit?
      modifies this
      ensures Valid() && Beside(c) && c in stacks && stacks[c].AtFree?
      ensures trace.steps == old(trace).steps + [Unregister(c)]
    {
      trace := UnregisterStep(trace, c);
      connections, stacks := connections - {c}, stacks[c := AtFree];
    }

    /** Then it gives its slot back, and Close no longer waits for it. */
    method FreeSlot(c: Conn)
      requires Valid() && c in stacks && stacks[c].AtFree?
      modifies this
      ensures Valid() && Beside(c) && c !in stacks && trace.steps == old(trace).steps + [Free(c)]
    {
      trace := FreeStep(trace, c);
      slots, running, stacks := slots - 1, running - 1, Without(stacks, c);
    }

    // -------------------------------------------------------------- sections of the handlers

    /** A first message that is refused, answered, or none at all. */
    method Answer(c: Conn)
      requires Valid() && c in stacks && stacks[c].AtGreeting?
      modifies this
      ensures Valid() && Beside(c) && c in stacks && stacks[c].AtExit? && trace.steps == old(trace).steps + [Reject(c)]
    {
      trace := AnswerStep(trace, c);
      stacks := stacks[c := AtExit];
    }

    ghost predicate OnTime()
      reads this, rate
    {
      rate.Valid() && (rate.attempts != [] ==> rate.attempts[|rate.attempts| - 1] <= clock)
    }

    /** The clock never runs backwards. */
    method PassesRate() returns (inRate: bool)
      requires OnTime()
      modifies `clock, rate
      ensures OnTime() && |rate.attempts| == |old(rate.attempts)| + 1 && old(rate.attempts) <= rate.attempts
      ensures inRate <==> InRate(rate.attempts, |rate.attempts| - 1)
    {
      var passed :| passed >= 0;
      clock := clock + passed;
      inRate := rate.Check(clock);
    }

    /** Rate window, pane limit and duplicates, under the mutex at one moment. */
    method AdmitOpen(c: Conn, id: string)
      requires Valid() && c in stacks && stacks[c].AtGreeting?
      modifies this, rate
      ensures Valid() && Beside(c) && c in stacks && (stacks[c].AtOpen? || stacks[c].AtExit?)
      ensures |rate.attempts| == |old(rate.attempts)| + 1 && old(rate.attempts) <= rate.attempts
      ensures stacks[c].AtOpen? <==>
                InRate(rate.attempts, |rate.attempts| - 1) && |old(requests)| < 8 && id !in old(requests)
      ensures stacks[c].AtOpen? ==> requests == old(requests)[id := stacks[c].req]
    {
      var inRate := PassesRate();
      trace := AdmitStep(trace, c, id, inRate);
      if !inRate || |requests| >= MAX_PANES || id in requests {
        stacks := stacks[c := AtExit];
      } else {
        requests, stacks := requests[id := |memory|], stacks[c := AtOpen(|memory|)];
        memory := memory + [RequestObject(id, c, None)];
      }
    }

    /** The provider opens a terminal for the request. */
    method ProviderOpen(c: Conn)
      requires Valid() && c in stacks && stacks[c].AtOpen?
      modifies this
      ensures Valid() && Beside(c) && c in stacks && stacks[c].AtPublish? && trace.steps == old(trace).steps + [OpenSuccess(c)]
      ensures openings == old(openings) + multiset{stacks[c].handle} && closings == old(closings)
    {
      var req := stacks[c].req;
      trace := OpenStep(trace, c);
      openings := openings + multiset{Handle(req)};
      stacks := stacks[c := AtPublish(req, Handle(req))];
    }

    /** The second section of handleWrapper: pointers are compared. */
    method PublishHandle(c: Conn)
      requires Valid() && c in stacks && stacks[c].AtPublish?
      modifies this
      ensures Valid() && Beside(c) && c in stacks && (stacks[c].AtServe? || stacks[c].AtDiscard?)
      ensures trace.steps == old(trace).steps + [Step.Publish(c)] && requests == old(requests)
    {
      var AtPublish(req, handle) := stacks[c];
      trace := PublishStep(trace, c);
      var id := memory[req].id;
      if id in requests && requests[id] == req {
        memory := memory[req := memory[req].(handle := Some(handle))];
        stacks := stacks[c := AtServe(req)];
      } else {
        stacks := stacks[c := AtDiscard(handle)];
      }
    }

    method DiscardHandle(c: Conn)
      requires Valid() && c in stacks && stacks[c].AtDiscard?
      modifies this
      ensures Valid() && Beside(c) && c in stacks && stacks[c].AtExit? && trace.steps == old(trace).steps + [Discard(c)]
      ensures closings == old(closings) + multiset{old(stacks[c]).handle}
    {
      var handle := stacks[c].handle;
      trace := DiscardStep(trace, c);
      closings := closings + multiset{handle};
      stacks := stacks[c := AtExit];
    }

    /** The section that finish, cancel and fail share. */
    method TakeOut(c: Conn, id: string, mail: Mail, code: int, ghost u: Trace)
      requires Valid() && c in stacks
      requires u.state == TakenState(View(), c, id, mail, code) && Continues(trace, u)
      modifies this
      ensures Valid() && Beside(c) && trace == u && c in stacks && id !in requests
      ensures if id in old(requests) then stacks[c] == AtEnd(old(requests)[id], mail, code) else stacks[c].AtExit?
    {
      trace := u;
      if id in requests {
        var req := requests[id];
        requests, stacks := WithoutId(requests, id), stacks[c := AtEnd(req, mail, code)];
      } else {
        stacks := stacks[c := AtExit];
      }
    }

    /** The barrier, the choice of a provider or its Open failed: fail. */
    method OpenFails(c: Conn)
      requires Valid() && c in stacks && stacks[c].AtOpen?
      modifies this
      ensures Valid() && Beside(c) && c in stacks && (stacks[c].AtEnd? || stacks[c].AtExit?)
      ensures trace.steps == old(trace).steps + [OpenFail(c)]
    {
      ghost var u := OpenFailStep(trace, c);
      TakeOut(c, memory[stacks[c].req].id, ErrorMail, 0, u);
    }

    /** The wrapper's connection ended, or it asked to cancel: cancel. */
    method ParentGone(c: Conn)
      requires Valid() && c in stacks && stacks[c].AtServe?
      modifies this
      ensures Valid() && Beside(c) && c in stacks && (stacks[c].AtEnd? || stacks[c].AtExit?)
      ensures trace.steps == old(trace).steps + [Step.ParentGone(c)]
    {
      ghost var u := ParentGoneStep(trace, c);
      TakeOut(c, memory[stacks[c].req].id, CancelMail, 0, u);
    }

    /** The section of handlePane. */
    method PaneStart(c: Conn, id: string)
      requires Valid() && c in stacks && stacks[c].AtGreeting?
      modifies this
      ensures Valid() && Beside(c) && c in stacks && stacks[c] == if id in old(requests) then AtPane(id) else AtExit
      ensures trace.steps == old(trace).steps + [PaneStarted(c, id)]
    {
      trace := PaneStartStep(trace, c, id);
      stacks := stacks[c := if id in requests then AtPane(id) else AtExit];
    }

    /** The pane told its exit code, or its connection ended: finish or cancel. */
    method PaneEnds(c: Conn, exited: bool, code: int)
      requires Valid() && c in stacks && stacks[c].AtPane?
      modifies this
      ensures Valid() && Beside(c) && c in stacks && (stacks[c].AtEnd? || stacks[c].AtExit?)
      ensures trace.steps == old(trace).steps + [if exited then PaneExited(c, code) else PaneGone(c)]
    {
      ghost var u := PaneEndStep(trace, c, exited, code);
      TakeOut(c, stacks[c].id, if exited then ExitedMail else CancelMail, code, u);
    }

    /** An exit code as the first message: finish. */
    method ExitedArrives(c: Conn, id: string, code: int)
      requires Valid() && c in stacks && stacks[c].AtGreeting?
      modifies this
      ensures Valid() && Beside(c) && c in stacks && (stacks[c].AtEnd? || stacks[c].AtExit?)
      ensures trace.steps == old(trace).steps + [ExitedFirst(c, id, code)]
    {
      ghost var u := ExitedFirstStep(trace, c, id, code);
      TakeOut(c, id, ExitedMail, code, u);
    }

    /** Outside the mutex: the wrapper is told, and the terminal closed if that is due. */
    method SendEnd(c: Conn)
      requires Valid() && c in stacks && stacks[c].AtEnd?
      modifies this
      ensures Valid() && Beside(c) && c in stacks && stacks[c].AtExit? && trace.steps == old(trace).steps + [Act(c)]
      ensures told == old(told) + multiset{old(stacks[c]).req}
      ensures var AtEnd(req, mail, code) := old(stacks[c]);
              var due := || mail.CancelMail?
                         || (mail.ExitedMail? && ((code == 0 && config.closeOnSuccess) || (code != 0 && !config.holdOnFailure)));
              req < |memory| && memory == old(memory)
              && closings == if memory[req].handle.Some? && due then old(closings) + multiset{memory[req].handle.value}
                             else old(closings)
    {
      var AtEnd(req, mail, code) := stacks[c];
      trace := EndStep(trace, c);
      told := told + multiset{req};
      if memory[req].handle.Some? && ClosesAfter(config, mail, code) {
        closings := closings + multiset{memory[req].handle.value};
      }
      stacks := stacks[c := AtExit];
    }

    // -------------------------------------------------------------- sections of Close

    /** Under the mutex: closing is set, the requests are collected and the table is emptied. */
    method BeginClosing()
      requires Valid() && !closing
      modifies this
      ensures Valid() && closing && requests == map[] && stacks == old(stacks) && returned == old(returned)
      ensures trace.steps == old(trace).steps + [BeginClose] && Continues(old(trace), trace)
      ensures forall r :: r in sweep <==> r in old(requests).Values
    {
      TableOneToOne(trace);
      var taken := Collect(requests);
      trace := BeginCloseStep(trace, taken);
      closing, sweep, requests := true, taken, map[];
    }

    /** One round of closeRequests. */
    method CloseOne()
      requires Valid() && sweep != []
      modifies this
      ensures Valid() && stacks == old(stacks) && closing == old(closing) && returned == old(returned)
      ensures sweep == old(sweep)[1..] && trace.steps == old(trace).steps + [SweepOne(old(sweep)[0])] && Continues(old(trace), trace)
    {
      trace := CloseOneStep(trace);
      var handle := memory[sweep[0]].handle;
      if handle.Some? {
        closings := closings + multiset{handle.value};
      }
      sweep := sweep[1..];
    }

    /** The wait for the handlers is over. */
    method CloseReturns()
      requires Valid() && closing && !returned && sweep == [] && running == 0
      modifies this
      ensures Valid() && returned && stacks == old(stacks) && trace.steps == old(trace).steps + [Return] && Continues(old(trace), trace)
      ensures closing && sweep == []
    {
      trace := ReturnStep(trace);
      returned := true;
    }

    // -------------------------------------------------------------- what others may do meanwhile

    /** Everything of one's own is as it was: a handler's stack, or what Close works on. */
    twostate predicate Kept(self: Option<Conn>)
      reads this
    {
      && Continues(old(trace), trace)
      && match self
         case Some(c) => c in old(stacks) ==> c in stacks && stacks[c] == old(stacks[c])
         case None => closing == old(closing) && sweep == old(sweep) && returned == old(returned)
    }

    /** The mutex is free, or a call is out: any number of sections of other goroutines run. */
    method Yield(self: Option<Conn>)
      requires Valid()
      modifies this, rate
      ensures Valid() && Kept(self)
    {
      var rounds: nat :| true;
      for k := 0 to rounds
        invariant Valid() && Kept(self)
      {
        ghost var before := trace;
        Other(self);
        ContinuesFurther(old(trace), before, trace);
      }
    }

    /** One section of any other goroutine. */
    method Other(self: Option<Conn>)
      requires Valid()
      modifies this, rate
      ensures Valid() && Kept(self)
    {
      var closer: bool := *;
      var c: Conn :| true;
      if closer && self.Some? {
        if !closing {
          BeginClosing();
        } else if sweep != [] {
          CloseOne();
        } else if !returned && running == 0 {
          CloseReturns();
        }
      } else if self != Some(c) {
        if c in stacks {
          Advance(c);
        } else {
          var _ := AcceptConnection(c);
        }
      }
    }

    /** The next section of a handler, whatever its peers and the providers do. */
    method Advance(c: Conn)
      requires Valid() && c in stacks
      modifies this, rate
      ensures Valid() && Beside(c)
    {
      var choice: bool := *;
      var code: int := *;
      var message: Message :| true;
      match stacks[c]
      case AtStart => RegisterConnection(c);
      case AtGreeting => FirstMessage(c, message);
      case AtOpen(_) =>
        if choice {
          ProviderOpen(c);
        } else {
          OpenFails(c);
        }
      case AtPublish(_, _) => PublishHandle(c);
      case AtDiscard(_) => DiscardHandle(c);
      case AtServe(_) => ParentGone(c);
      case AtPane(_) => PaneEnds(c, choice, code);
      case AtEnd(_, _, _) => SendEnd(c);
      case AtExit => UnregisterConnection(c);
      case AtFree => FreeSlot(c);
    }

    /** The first section after the handshake. */
    method FirstMessage(c: Conn, message: Message)
      requires Valid() && c in stacks && stacks[c].AtGreeting?
      modifies this, rate
      ensures Valid() && Beside(c) && c in stacks
    {
      match message
      case OpenMessage(id) => AdmitOpen(c, id);
      case PaneMessage(id) => PaneStart(c, id);
      case ExitedMessage(id, code) => ExitedArrives(c, id, code);
      case OtherMessage => Answer(c);
    }

    // -------------------------------------------------------------- whole goroutines

    /** An open request from its admission to its end.  When the handler is done, none of its requests
        stands. */
    method HandleWrapper(c: Conn, id: string)
      requires Valid() && c in stacks && stacks[c].AtGreeting?
      modifies this, rate
      ensures Valid() && c in stacks && stacks[c].AtExit? && NoneStands(c)
    {
      AdmitOpen(c, id);
      if stacks[c].AtOpen? {
        Yield(Some(c));
        var ok: bool := *;
        if ok {
          ProviderOpen(c);
          Yield(Some(c));
          PublishHandle(c);
        } else {
          OpenFails(c);
        }
        Yield(Some(c));
        if stacks[c].AtServe? {
          ParentGone(c);
          Yield(Some(c));
        }
        EndHandler(c);
      }
      DoneStandsNowhere(trace, c);
    }

    /** What is left outside the mutex: a handle to discard, or an end to be told. */
    method EndHandler(c: Conn)
      requires Valid() && c in stacks && (stacks[c].AtDiscard? || stacks[c].AtEnd? || stacks[c].AtExit?)
      modifies this
      ensures Valid() && c in stacks && stacks[c].AtExit? && Continues(old(trace), trace)
    {
      if stacks[c].AtDiscard? {
        DiscardHandle(c);
      } else if stacks[c].AtEnd? {
        SendEnd(c);
      }
    }

    /** A pane's connection: it waits for the exit code or for the pane to go, if there is such a request at
        all.  `moment` is the state it then finds, in which it takes out the request under the id, and `handle` that
        request's terminal; at the end that terminal was closed exactly when the pane went without a code, or
        its code is zero and closeOnSuccess is set, or it is not and holdOnFailure is not. */
    method HandlePane(c: Conn, id: string)
        returns (exited: bool, code: int, handle: Option<Handle>, ghost moment: Option<Trace>)
      requires Valid() && c in stacks && stacks[c].AtGreeting?
      modifies this, rate
      ensures Valid() && c in stacks && stacks[c].AtExit?
      ensures moment.Some? <==> id in old(requests)
      ensures moment.Some? ==>
                && Continues(old(trace), moment.value) && Continues(moment.value, trace) && |moment.value.steps| < |trace.steps|
                && trace.steps[|moment.value.steps|] == (if exited then PaneExited(c, code) else PaneGone(c))
      ensures handle == if moment.Some? then TerminalUnder(moment.value.state, id) else None
      ensures handle.Some? ==>
                (closings[handle.value] == 1 <==>
                 !exited || (code == 0 && config.closeOnSuccess) || (code != 0 && !config.holdOnFailure))
    {
      exited, code, handle, moment := false, 0, None, None;
      PaneStart(c, id);
      if stacks[c].AtPane? {
        ghost var started := trace;
        Yield(Some(c));
        ghost var before := trace;
        exited, code, handle := PaneGoes(c, id);
        moment := Some(before);
        ContinuesFurther(old(trace), started, before);
      }
    }

    /** The end of a pane, whichever it is, and what follows outside the mutex. */
    method PaneGoes(c: Conn, id: string) returns (exited: bool, code: int, handle: Option<Handle>)
      requires Valid() && c in stacks && stacks[c] == AtPane(id)
      modifies this, rate
      ensures Valid() && c in stacks && stacks[c].AtExit?
      ensures Continues(old(trace), trace) && |old(trace).steps| < |trace.steps|
      ensures trace.steps[|old(trace).steps|] == (if exited then PaneExited(c, code) else PaneGone(c))
      ensures handle == TerminalUnder(old(trace).state, id)
      ensures handle.Some? ==>
                (closings[handle.value] == 1 <==>
                 !exited || (code == 0 && config.closeOnSuccess) || (code != 0 && !config.holdOnFailure))
    {
      exited, code, handle := *, *, None;
      TableInMemory(trace);
      if id in requests {
        handle := memory[requests[id]].handle;
      }
      PaneEnds(c, exited, code);
      ghost var ended := trace;
      Yield(Some(c));
      ghost var later := trace;
      EndHandler(c);
      ContinuesFurther(ended, later, trace);
      ContinuesFurther(old(trace), ended, trace);
      assert trace.steps[..|ended.steps|] == ended.steps;
      if handle.Some? {
        PaneSettled(old(trace), ended, trace, c, exited, code, handle.value);
      }
    }

    /** A connection from its acceptance to the release of its slot. */
    method Serve(c: Conn, message: Message)
      requires Valid() && c !in stacks
      modifies this, rate
      ensures Valid() && c !in stacks
    {
      var ok := AcceptConnection(c);
      if !ok { return; }
      Yield(Some(c));
      RegisterConnection(c);
      if c !in stacks { return; }
      Yield(Some(c));
      match message {
        case OpenMessage(id) => HandleWrapper(c, id);
        case PaneMessage(id) =>
          var _, _, _, _ := HandlePane(c, id);
        case ExitedMessage(id, code) =>
          ExitedArrives(c, id, code);
          Yield(Some(c));
          EndHandler(c);
        case OtherMessage => Answer(c);
      }
      Yield(Some(c));
      UnregisterConnection(c);
      Yield(Some(c));
      FreeSlot(c);
    }

    /** Close as a whole; it returns once its sweep is over and no handler is left. */
    method Close() returns (done: bool)
      requires Valid() && !closing && !returned
      modifies this, rate
      ensures Valid() && closing && sweep == [] && returned == done
      ensures done ==> connections == {} && requests == map[]
      ensures done ==> (EveryHandleClosed() <==> NoHits(trace.run, trace.steps, |trace.steps|))
    {
      BeginClosing();
      Yield(None);
      while sweep != []
        invariant Valid() && closing && !returned
        decreases |sweep|
      {
        CloseOne();
        Yield(None);
      }
      done := running == 0;
      if done {
        CloseReturns();
        Accounts();
        AtReturn();
      }
    }

    // -------------------------------------------------------------- what that comes to on the outside

    ghost predicate NoneStands(c: Conn)
      reads this
    {
      forall id | id in requests :: requests[id] < |memory| && memory[requests[id]].wrapper != c
    }

    /** Handles are opened once for a request and closed at most once, and only after they were opened; a
        wrapper hears of its request's end at most once; the limits hold. */
    lemma Accounts()
      requires Valid()
      ensures forall h :: closings[h] <= openings[h] <= 1
      ensures forall r :: told[r] <= 1
      ensures |requests| <= 8 && slots <= 32 && running <= slots
    {
      TraceAccounts(trace);
    }

    /** Some step finished the request with an exit code whose policy leaves the terminal to the user. */
    ghost predicate LeftOpen(h: Handle)
      reads this
    {
      LeftAlone(trace, h)
    }

    /** Every terminal that was opened and not left to the user was closed. */
    ghost predicate EveryHandleClosed()
      reads this
    {
      forall h | h in openings && !LeftOpen(h) :: closings[h] == 1
    }

    lemma AtReturn()
      requires Valid() && returned
      ensures connections == {} && requests == map[]
      ensures EveryHandleClosed() <==> NoHits(trace.run, trace.steps, |trace.steps|)
    {
      TraceReturned(trace);
    }
  }

  /** The terminal of the request that stands under an id. */
  function TerminalUnder(s: State, id: string): Option<Handle> {
    if id in s.requests && s.requests[id] < |s.memory| then s.memory[s.requests[id]].handle else None
  }

  lemma TableInMemory(t: Trace)
    ensures forall id | id in t.state.requests :: t.state.requests[id] < |t.state.memory|
  {
    TraceOrderly(t);
  }

  /** From the moment a pane's handler takes a request out to its end. */
  lemma PaneSettled(t: Trace, ended: Trace, u: Trace, c: Conn, exited: bool, code: int, h: Handle)
    requires InHandler(t, c) && t.state.stacks[c].AtPane? && t.state.stacks[c].id in t.state.requests
    requires var r := t.state.requests[t.state.stacks[c].id]; r < |t.state.memory| && t.state.memory[r].handle == Some(h)
    requires Continues(t, ended) && Continues(ended, u)
    requires ended.steps == t.steps + [if exited then PaneExited(c, code) else PaneGone(c)]
    requires InHandler(u, c) && u.state.stacks[c].AtExit?
    ensures u.state.config == t.state.config
    ensures u.state.closings[h] == 1 <==>
            !exited || (code == 0 && t.state.config.closeOnSuccess) || (code != 0 && !t.state.config.holdOnFailure)
  {
    var w := PhaseOf(t, c);
    var x := PhaseOf(u, c);
    var k, r := |t.steps|, t.state.requests[t.state.stacks[c].id];
    ContinuesFurther(t, ended, u);
    TraceChain(t);
    TraceChain(u);
    ChainIsRun(u.state.config, u.run, u.steps);
    assert u.run[..|t.run|][k] == w && u.run[..|t.run|][0] == t.run[0];
    assert u.steps[..|ended.steps|][k] == u.steps[k];
    assert MirrorsObject(t.state.memory[r], w.reqs[r], r);
    if exited {
      assert Finishes(w, u.steps[k], r, c, code);
      FinishCloses(u.state.config, u.run, u.steps, k, |u.steps|, r, c, code);
    } else {
      CancelCloses(u.state.config, u.run, u.steps, k, |u.steps|, r, c);
    }
  }

  lemma TraceAccounts(t: Trace)
    ensures forall h :: t.state.closings[h] <= t.state.openings[h] <= 1
    ensures forall r :: t.state.told[r] <= 1
    ensures |t.state.requests| <= 8 && t.state.running <= t.state.slots <= 32
  {
    TraceOrderly(t);
    assert Opened(t, true);
    var s, w := t.state, Last(t.run);
    ChainKeeps(s.config, t.run, t.steps);
    forall h: Handle ensures s.closings[h] <= s.openings[h] <= 1 {
      if h.owner < |w.reqs| {
        assert RequestInv(w, h.owner) && h == Handle(h.owner);
      } else {
        assert h !in s.closings && h !in s.openings;
      }
    }
    forall r: Ptr ensures s.told[r] <= 1 {
      if r < |w.reqs| {
        assert RequestInv(w, r);
      } else {
        assert r !in s.told;
      }
    }
  }

  /** A handler that is done has no request in the table. */
  lemma DoneStandsNowhere(t: Trace, c: Conn)
    requires InHandler(t, c) && t.state.stacks[c].AtExit?
    ensures forall id | id in t.state.requests ::
              t.state.requests[id] < |t.state.memory| && t.state.memory[t.state.requests[id]].wrapper != c
  {
    var w := PhaseOf(t, c);
    assert Opened(t, true);
    ChainKeeps(t.state.config, t.run, t.steps);
    forall id | id in t.state.requests
      ensures t.state.requests[id] < |t.state.memory| && t.state.memory[t.state.requests[id]].wrapper != c
    {
      var r := w.table[id];
      assert RequestInv(w, r) && Standing(w, r) && MirrorsObject(t.state.memory[r], w.reqs[r], r);
    }
  }

  ghost predicate LeftAlone(t: Trace, h: Handle) {
    exists j {:trigger t.steps[j]} :: 0 <= j < |t.steps| && LeavesOpen(t.state.config, t.run[j], t.steps[j], h.owner)
  }

  lemma TraceReturned(t: Trace)
    requires t.state.returned
    ensures t.state.connections == {} && t.state.requests == map[]
    ensures (forall h: Handle | h in t.state.openings && !LeftAlone(t, h) :: t.state.closings[h] == 1)
            <==> NoHits(t.run, t.steps, |t.steps|)
  {
    TraceOrderly(t);
    assert Opened(t, true);
    var s, w := t.state, Last(t.run);
    ChainIsRun(s.config, t.run, t.steps);
    AllClosedIff(s.config, t.run, t.steps, |t.steps|);
    forall r | 0 <= r < |w.reqs| ensures w.reqs[r].left <==> LeftAlone(t, Handle(r)) {
      LeftIff(s.config, t.run, t.steps, |t.steps|, r);
    }
    forall r | 0 <= r < |w.reqs| && w.reqs[r].handle && !w.reqs[r].left ensures Handle(r) in s.openings {
      assert s.openings[Handle(r)] == 1;
    }
    forall h | h in s.openings ensures h.owner < |w.reqs| && h == Handle(h.owner) && w.reqs[h.owner].handle {
      assert s.openings[h] > 0 && s.openings[Handle(h.owner)] == if w.reqs[h.owner].handle then 1 else 0;
    }
    ChainKeeps(s.config, t.run, t.steps);
    TableLives(w);
  }

  /** Whatever stands in the table has its handler at work. */
  lemma TableLives(w: World)
    requires Inv(w)
    ensures w.table != map[] ==> w.live != map[]
  {
    if id :| id in w.table {
      assert RequestInv(w, w.table[id]) && Standing(w, w.table[id]);
    }
  }
}
