/** The debugger broker: connection handlers, pane messages and Close interleave over one table of
    requests.  Every region under the broker's mutex is one step, and so is every call to a
    terminal provider. */
module Broker {
  import opened Common

  const MAX_PANES := 8
  const MAX_CONNECTIONS := 32

  type Conn = nat
  type Ref = nat

  /** Who took a request out of the table. */
  datatype Taker = Handler(conn: Conn) | Closer

  /** One admitted request; its terminal handle goes with it.  The counters are history. */
  datatype Request = Request(
    id: string,
    wrapper: Conn,
    handle: bool,
    published: bool,
    taker: Option<Taker>,
    closes: nat,
    exits: nat,
    mails: nat,
    left: bool,
    dropped: bool)

  datatype Mail = ExitedMail | CancelMail | ErrorMail

  /** Where a connection's handler is. */
  datatype Phase =
    | Greeting
    | Opening(ref: Ref)
    | Holding(ref: Ref)
    | Discarding(ref: Ref)
    | Serving(ref: Ref)
    | Pane(id: string)
    | Ending(ref: Ref, mail: Mail, close: bool)
    | Done

  datatype Config = Config(closeOnSuccess: bool, holdOnFailure: bool)

  /** `pending` connections hold a slot but are not registered; `ended` ones are no longer
      registered but still hold their slot and are waited for. */
  datatype World = World(
    config: Config,
    table: map<string, Ref>,
    reqs: seq<Request>,
    pending: set<Conn>,
    live: map<Conn, Phase>,
    ended: set<Conn>,
    closing: bool,
    sweep: set<Ref>,
    returned: bool)

  datatype Step =
    | Accept(c: Conn)
    | Register(c: Conn)
    | Reject(c: Conn)
    | Admit(c: Conn, id: string, inRate: bool)
    | OpenFail(c: Conn)
    | OpenSuccess(c: Conn)
    | Publish(c: Conn)
    | Discard(c: Conn)
    | ParentGone(c: Conn)
    | PaneStarted(c: Conn, id: string)
    | PaneGone(c: Conn)
    | PaneExited(c: Conn, code: int)
    | ExitedFirst(c: Conn, id: string, code: int)
    | Act(c: Conn)
    | Unregister(c: Conn)
    | Free(c: Conn)
    | BeginClose
    | SweepOne(ref: Ref)
    | Return

  function Initial(config: Config): World {
    World(config, map[], [], {}, map[], {}, false, {}, false)
  }

  /** finish closes the terminal on success or on failure, as configured. */
  predicate ClosesOnExit(config: Config, code: int) {
    if code == 0 then config.closeOnSuccess else !config.holdOnFailure
  }

  // ---------------------------------------------------------------- critical sections

  function Moved(w: World, c: Conn, phase: Phase): World {
    w.(live := w.live[c := phase])
  }

  /** finish, cancel and fail: the request stored under the id is taken out, whoever admitted it. */
  function Taken(w: World, c: Conn, id: string, mail: Mail, close: bool, left: bool, dropped: bool): World
    requires id in w.table && w.table[id] < |w.reqs|
  {
    var r := w.table[id];
    var q := w.reqs[r];
    w.(table := w.table - {id},
       reqs := w.reqs[r := q.(taker := Some(Handler(c)), exits := q.exits + 1, left := left, dropped := dropped)],
       live := w.live[c := Ending(r, mail, close)])
  }

  predicate InTable(w: World, id: string) {
    id in w.table && w.table[id] < |w.reqs|
  }

  function Finish(w: World, c: Conn, id: string, code: int): World {
    if !InTable(w, id) then Moved(w, c, Done)
    else
      var shown := w.reqs[w.table[id]].published;
      Taken(w, c, id, ExitedMail, shown && ClosesOnExit(w.config, code), shown && !ClosesOnExit(w.config, code), false)
  }

  function Cancel(w: World, c: Conn, id: string): World {
    if !InTable(w, id) then Moved(w, c, Done)
    else Taken(w, c, id, CancelMail, w.reqs[w.table[id]].published, false, false)
  }

  /** fail never closes a terminal: it expects the request to be its own, which has none yet. */
  function Fail(w: World, c: Conn, id: string): World {
    if !InTable(w, id) then Moved(w, c, Done)
    else Taken(w, c, id, ErrorMail, false, false, w.reqs[w.table[id]].published)
  }

  function Admitted(w: World, c: Conn, id: string, inRate: bool): World {
    if !inRate || |w.table| >= MAX_PANES || id in w.table then Moved(w, c, Done)
    else
      w.(table := w.table[id := |w.reqs|],
         reqs := w.reqs + [Request(id, c, false, false, None, 0, 0, 0, false, false)],
         live := w.live[c := Opening(|w.reqs|)])
  }

  function Closed(q: Request): Request {
    q.(closes := q.closes + 1)
  }

  /** The ids under which requests still stand are emptied in one step. */
  function Swept(w: World): World {
    w.(closing := true,
       sweep := (set r | 0 <= r < |w.reqs| && Standing(w, r)),
       table := map[],
       reqs := seq(|w.reqs|, r requires 0 <= r < |w.reqs| =>
         if Standing(w, r) then w.reqs[r].(taker := Some(Closer), exits := w.reqs[r].exits + 1) else w.reqs[r]))
  }

  predicate Standing(w: World, r: Ref)
    requires r < |w.reqs|
  {
    w.reqs[r].id in w.table && w.table[w.reqs[r].id] == r
  }

  ghost predicate Took(w: World, step: Step, w': World) {
    match step
    case Accept(c) =>
      && c !in w.pending && c !in w.live && c !in w.ended
      && |w.pending| + |w.live| + |w.ended| < MAX_CONNECTIONS
      && w' == w.(pending := w.pending + {c})
    case Register(c) =>
      && c in w.pending
      && w' == if w.closing then w.(pending := w.pending - {c})
               else w.(pending := w.pending - {c}, live := w.live[c := Greeting])
    case Reject(c) => c in w.live && w.live[c].Greeting? && w' == Moved(w, c, Done)
    case Admit(c, id, inRate) => c in w.live && w.live[c].Greeting? && w' == Admitted(w, c, id, inRate)
    case OpenFail(c) =>
      && c in w.live && w.live[c].Opening? && w.live[c].ref < |w.reqs|
      && w' == Fail(w, c, w.reqs[w.live[c].ref].id)
    case OpenSuccess(c) =>
      && c in w.live && w.live[c].Opening? && w.live[c].ref < |w.reqs|
      && var r := w.live[c].ref;
         w' == w.(reqs := w.reqs[r := w.reqs[r].(handle := true)], live := w.live[c := Holding(r)])
    case Publish(c) =>
      && c in w.live && w.live[c].Holding? && w.live[c].ref < |w.reqs|
      && var r := w.live[c].ref;
         w' == if Standing(w, r)
               then w.(reqs := w.reqs[r := w.reqs[r].(published := true)], live := w.live[c := Serving(r)])
               else Moved(w, c, Discarding(r))
    case Discard(c) =>
      && c in w.live && w.live[c].Discarding? && w.live[c].ref < |w.reqs|
      && var r := w.live[c].ref; w' == Moved(w, c, Done).(reqs := w.reqs[r := Closed(w.reqs[r])])
    case ParentGone(c) =>
      && c in w.live && w.live[c].Serving? && w.live[c].ref < |w.reqs|
      && w' == Cancel(w, c, w.reqs[w.live[c].ref].id)
    case PaneStarted(c, id) =>
      && c in w.live && w.live[c].Greeting?
      && w' == Moved(w, c, if id in w.table then Pane(id) else Done)
    case PaneGone(c) => c in w.live && w.live[c].Pane? && w' == Cancel(w, c, w.live[c].id)
    case PaneExited(c, code) => c in w.live && w.live[c].Pane? && w' == Finish(w, c, w.live[c].id, code)
    case ExitedFirst(c, id, code) => c in w.live && w.live[c].Greeting? && w' == Finish(w, c, id, code)
    case Act(c) =>
      c in w.live && w.live[c].Ending? && w.live[c].ref < |w.reqs| && w' == Acted(w, c)
    case Unregister(c) => c in w.live && w.live[c].Done? && w' == w.(live := w.live - {c}, ended := w.ended + {c})
    case Free(c) => c in w.ended && w' == w.(ended := w.ended - {c})
    case BeginClose => !w.closing && w' == Swept(w)
    case SweepOne(r) =>
      && r in w.sweep && r < |w.reqs|
      && w' == w.(sweep := w.sweep - {r}, reqs := if w.reqs[r].published then w.reqs[r := Closed(w.reqs[r])] else w.reqs)
    case Return =>
      && w.closing && !w.returned && w.sweep == {} && w.live == map[] && w.ended == {}
      && w' == w.(returned := true)
  }

  // ---------------------------------------------------------------- what every step keeps

  /** The handler that admitted the request still is at work for it. */
  predicate Home(w: World, r: Ref)
    requires r < |w.reqs|
  {
    var c := w.reqs[r].wrapper;
    c in w.live && (w.live[c] == Opening(r) || w.live[c] == Holding(r) || w.live[c] == Serving(r))
  }

  /** Somebody is going to close the handle. */
  predicate Kept(w: World, r: Ref)
    requires r < |w.reqs|
  {
    var q := w.reqs[r];
    || (q.wrapper in w.live && (w.live[q.wrapper] == Holding(r) || w.live[q.wrapper] == Discarding(r)))
    || (q.exits == 0 && q.published)
    || (q.published && q.taker.Some? && q.taker.value.Handler? && q.taker.value.conn in w.live
        && w.live[q.taker.value.conn].Ending? && w.live[q.taker.value.conn].ref == r && w.live[q.taker.value.conn].close)
    || (q.published && r in w.sweep)
  }

  predicate RequestInv(w: World, r: Ref)
    requires r < |w.reqs|
  {
    var q := w.reqs[r];
    && q.exits <= 1 && q.mails <= q.exits && q.closes <= 1
    && (q.published ==> q.handle) && (q.closes == 1 ==> q.handle && q.exits == 1)
    && (q.exits == 0 <==> Standing(w, r))
    && (q.exits == 0 ==> Home(w, r) && q.taker.None? && !q.left && !q.dropped)
    && (q.exits == 0 ==> (q.published <==> w.live[q.wrapper].Serving?))
    && (q.exits == 1 ==> q.taker.Some?) && (q.taker == Some(Closer) ==> q.mails == 0)
    && (q.left || q.dropped ==> q.published && q.closes == 0)
    && !(q.left && q.dropped)
    && (q.handle && q.closes == 0 && !q.left && !q.dropped ==> Kept(w, r))
  }

  predicate Unclosed(q: Request) {
    q.closes == 0 && !q.left && !q.dropped
  }

  predicate PhaseInv(w: World, c: Conn)
    requires c in w.live
  {
    match w.live[c]
    case Opening(r) => r < |w.reqs| && w.reqs[r].wrapper == c && !w.reqs[r].handle
    case Holding(r) => r < |w.reqs| && w.reqs[r].wrapper == c && w.reqs[r].handle && !w.reqs[r].published && Unclosed(w.reqs[r])
    case Discarding(r) =>
      && r < |w.reqs| && w.reqs[r].wrapper == c && w.reqs[r].handle && !w.reqs[r].published
      && Unclosed(w.reqs[r]) && w.reqs[r].exits == 1
    case Serving(r) => r < |w.reqs| && w.reqs[r].wrapper == c && w.reqs[r].published
    case Ending(r, _, close) =>
      && r < |w.reqs| && w.reqs[r].exits == 1 && w.reqs[r].taker == Some(Handler(c)) && w.reqs[r].mails == 0
      && (close ==> w.reqs[r].published && Unclosed(w.reqs[r]))
    case _ => true
  }

  predicate SweepInv(w: World, r: Ref) {
    && r < |w.reqs| && w.reqs[r].exits == 1 && w.reqs[r].taker == Some(Closer)
    && (w.reqs[r].published ==> Unclosed(w.reqs[r]))
  }

  predicate CountInv(w: World) {
    && |w.table| <= MAX_PANES
    && |w.pending| + |w.live| + |w.ended| <= MAX_CONNECTIONS
    && w.pending !! w.live.Keys && w.ended !! w.live.Keys && w.pending !! w.ended
    && (w.sweep != {} ==> w.closing)
    && (w.returned ==> w.closing && w.sweep == {} && w.live == map[] && w.ended == {})
  }

  ghost predicate Inv(w: World) {
    && CountInv(w)
    && (forall id | id in w.table :: w.table[id] < |w.reqs| && w.reqs[w.table[id]].id == id)
    && (forall r | 0 <= r < |w.reqs| :: RequestInv(w, r))
    && (forall c | c in w.live :: PhaseInv(w, c))
    && (forall r | r in w.sweep :: SweepInv(w, r))
  }

  lemma SameSize(w: World, c: Conn, phase: Phase)
    requires c in w.live
    ensures |w.live[c := phase]| == |w.live| && w.live[c := phase].Keys == w.live.Keys
  {
    assert w.live[c := phase].Keys == w.live.Keys;
    assert |w.live[c := phase]| == |w.live[c := phase].Keys| && |w.live| == |w.live.Keys|;
  }

  /** A handler that owes nothing moves on. */
  lemma MoveKeeps(w: World, c: Conn, phase: Phase)
    requires Inv(w) && c in w.live && (phase.Done? || phase.Pane?)
    requires match w.live[c]
             case Greeting => true
             case Pane(_) => true
             case Opening(r) => w.reqs[r].exits == 1
             case Serving(r) => w.reqs[r].exits == 1
             case _ => false
    ensures Inv(Moved(w, c, phase))
  {
    var w' := Moved(w, c, phase);
    SameSize(w, c, phase);
    forall r | 0 <= r < |w'.reqs| ensures RequestInv(w', r) {
      assert RequestInv(w, r);
    }
    forall x | x in w'.live ensures PhaseInv(w', x) {
      if x != c { assert PhaseInv(w, x); }
    }
    forall r | r in w'.sweep ensures SweepInv(w', r) {
      assert SweepInv(w, r);
    }
  }

  /** Taking a request out of the table: the taker alone now owes it a message, and its handle goes
      to the taker, to the user by policy, or to nobody. */
  lemma TakenKeeps(w: World, c: Conn, id: string, mail: Mail, close: bool, left: bool, dropped: bool)
    requires Inv(w) && c in w.live && InTable(w, id)
    requires w.live[c].Greeting? || w.live[c].Pane? || w.live[c].Opening? || w.live[c].Serving?
    requires w.reqs[w.table[id]].published <==> (close || left || dropped)
    requires !(close && left) && !(close && dropped) && !(left && dropped)
    requires w.live[c].Opening? || w.live[c].Serving? ==> w.reqs[w.live[c].ref].id == id
    ensures Inv(Taken(w, c, id, mail, close, left, dropped))
  {
    var r := w.table[id];
    var w' := Taken(w, c, id, mail, close, left, dropped);
    SameSize(w, c, Ending(r, mail, close));
    TableShrinks(w.table, id);
    assert RequestInv(w, r) && Standing(w, r);
    forall x | 0 <= x < |w'.reqs| ensures RequestInv(w', x) {
      TakenRequest(w, c, id, mail, close, left, dropped, x);
    }
    forall x | x in w'.live ensures PhaseInv(w', x) {
      assert PhaseInv(w, x);
    }
    forall x | x in w'.sweep ensures SweepInv(w', x) {
      assert SweepInv(w, x);
    }
  }

  lemma TakenRequest(w: World, c: Conn, id: string, mail: Mail, close: bool, left: bool, dropped: bool, x: Ref)
    requires Inv(w) && c in w.live && InTable(w, id) && x < |w.reqs|
    requires w.live[c].Greeting? || w.live[c].Pane? || w.live[c].Opening? || w.live[c].Serving?
    requires w.reqs[w.table[id]].published <==> (close || left || dropped)
    requires !(close && left) && !(close && dropped) && !(left && dropped)
    requires w.live[c].Opening? || w.live[c].Serving? ==> w.reqs[w.live[c].ref].id == id
    ensures RequestInv(Taken(w, c, id, mail, close, left, dropped), x)
  {
    var r := w.table[id];
    var w' := Taken(w, c, id, mail, close, left, dropped);
    assert RequestInv(w, x) && PhaseInv(w, c);
    if x == r {
      assert Standing(w, r);
    } else {
      assert Standing(w', x) <==> Standing(w, x);
    }
  }

  lemma TableShrinks(table: map<string, Ref>, id: string)
    requires id in table
    ensures |table - {id}| == |table| - 1
  {
    assert (table - {id}).Keys == table.Keys - {id};
    assert |table - {id}| == |(table - {id}).Keys| && |table| == |table.Keys|;
  }

  lemma AdmitKeeps(w: World, c: Conn, id: string, inRate: bool)
    requires Inv(w) && c in w.live && w.live[c].Greeting?
    ensures Inv(Admitted(w, c, id, inRate))
  {
    if !inRate || |w.table| >= MAX_PANES || id in w.table {
      MoveKeeps(w, c, Done);
    } else {
      var w' := Admitted(w, c, id, inRate);
      AdmittedCounts(w, c, id);
      forall r | 0 <= r < |w'.reqs| ensures RequestInv(w', r) {
        AdmittedRequest(w, c, id, r);
      }
      forall x | x in w'.live ensures PhaseInv(w', x) {
        AdmittedPhase(w, c, id, x);
      }
      forall x | x in w'.sweep ensures SweepInv(w', x) {
        assert SweepInv(w, x);
      }
    }
  }

  lemma AdmittedCounts(w: World, c: Conn, id: string)
    requires Inv(w) && c in w.live && w.live[c].Greeting? && id !in w.table && |w.table| < MAX_PANES
    ensures CountInv(Admitted(w, c, id, true))
  {
    var w' := Admitted(w, c, id, true);
    SameSize(w, c, Opening(|w.reqs|));
    assert w'.table.Keys == w.table.Keys + {id} && |w'.table| == |w'.table.Keys| && |w.table| == |w.table.Keys|;
  }

  lemma AdmittedPhase(w: World, c: Conn, id: string, x: Conn)
    requires Inv(w) && c in w.live && w.live[c].Greeting? && id !in w.table && |w.table| < MAX_PANES && x in w.live
    ensures PhaseInv(Admitted(w, c, id, true), x)
  {
    assert PhaseInv(w, x);
  }

  lemma AdmittedRequest(w: World, c: Conn, id: string, r: Ref)
    requires Inv(w) && c in w.live && w.live[c].Greeting? && id !in w.table && |w.table| < MAX_PANES && r <= |w.reqs|
    ensures RequestInv(Admitted(w, c, id, true), r)
  {
    if r < |w.reqs| {
      assert RequestInv(w, r);
      assert Standing(Admitted(w, c, id, true), r) <==> Standing(w, r);
    }
  }

  /** A step that changes one request and moves one handler on. */
  lemma LocalKeeps(w: World, w': World, c: Conn, r: Ref)
    requires Inv(w) && c in w.live && r < |w.reqs| && PhaseRef(w.live[c]) == Some(r)
    requires c in w'.live && |w'.reqs| == |w.reqs|
    requires w' == w.(reqs := w.reqs[r := w'.reqs[r]], live := w.live[c := w'.live[c]])
    requires w'.reqs[r].id == w.reqs[r].id && w'.reqs[r].wrapper == w.reqs[r].wrapper
    requires w'.reqs[r].taker == w.reqs[r].taker && w'.reqs[r].exits == w.reqs[r].exits
    requires PhaseRef(w'.live[c]) == Some(r) || w'.live[c].Done?
    requires RequestInv(w', r) && PhaseInv(w', c) && (r in w.sweep ==> SweepInv(w', r))
    requires forall x | x in w.live && x != c && PhaseRef(w.live[x]) == Some(r) :: PhaseInv(w', x)
    ensures Inv(w')
  {
    SameSize(w, c, w'.live[c]);
    forall x | 0 <= x < |w'.reqs| && x != r ensures RequestInv(w', x) {
      LocalRequest(w, w', c, r, x);
    }
    forall x | x in w'.live && x != c && PhaseRef(w.live[x]) != Some(r) ensures PhaseInv(w', x) {
      assert PhaseInv(w, x);
    }
    forall x | x in w'.sweep ensures SweepInv(w', x) {
      assert SweepInv(w, x);
    }
  }

  function PhaseRef(p: Phase): Option<Ref> {
    match p
    case Opening(r) => Some(r)
    case Holding(r) => Some(r)
    case Discarding(r) => Some(r)
    case Serving(r) => Some(r)
    case Ending(r, _, _) => Some(r)
    case _ => None
  }

  lemma LocalRequest(w: World, w': World, c: Conn, r: Ref, x: Ref)
    requires Inv(w) && c in w.live && r < |w.reqs| && PhaseRef(w.live[c]) == Some(r)
    requires c in w'.live && |w'.reqs| == |w.reqs| && x < |w.reqs| && x != r
    requires w' == w.(reqs := w.reqs[r := w'.reqs[r]], live := w.live[c := w'.live[c]])
    requires PhaseRef(w'.live[c]) == Some(r) || w'.live[c].Done?
    ensures RequestInv(w', x)
  {
    assert RequestInv(w, x) && w'.reqs[x] == w.reqs[x];
    assert Standing(w', x) <==> Standing(w, x);
  }

  /** The provider answered Open with a handle. */
  lemma OpenKeeps(w: World, c: Conn)
    requires Inv(w) && c in w.live && w.live[c].Opening?
    ensures forall w' | Took(w, OpenSuccess(c), w') :: Inv(w')
  {
    var r := w.live[c].ref;
    var w' := w.(reqs := w.reqs[r := w.reqs[r].(handle := true)], live := w.live[c := Holding(r)]);
    assert PhaseInv(w, c) && RequestInv(w, r);
    assert Standing(w', r) <==> Standing(w, r);
    OthersElsewhere(w, w', c, r);
    LocalKeeps(w, w', c, r);
  }

  /** Handlers that refer to one request either admitted it or took it, and each such handler is one. */
  lemma OthersElsewhere(w: World, w': World, c: Conn, r: Ref)
    requires Inv(w) && c in w.live && r < |w.reqs| && PhaseRef(w.live[c]) == Some(r) && |w'.reqs| == |w.reqs|
    requires forall x | x in w.live && x != c :: x in w'.live && w'.live[x] == w.live[x]
    requires w.reqs[r].wrapper == w'.reqs[r].wrapper && w.reqs[r].taker == w'.reqs[r].taker && w.reqs[r].exits == w'.reqs[r].exits
    requires !w.live[c].Ending? && w'.reqs[r].mails == w.reqs[r].mails
    requires w.reqs[r].wrapper == c && !w.reqs[r].published
    ensures forall x | x in w.live && x != c && PhaseRef(w.live[x]) == Some(r) :: PhaseInv(w', x)
    ensures r in w.sweep ==> w.reqs[r].exits == 1
  {
    forall x | x in w.live && x != c && PhaseRef(w.live[x]) == Some(r) ensures PhaseInv(w', x) {
      assert PhaseInv(w, x);
    }
    if r in w.sweep {
      assert SweepInv(w, r);
    }
  }

  lemma PublishKeeps(w: World, c: Conn)
    requires Inv(w) && c in w.live && w.live[c].Holding?
    ensures forall w' | Took(w, Step.Publish(c), w') :: Inv(w')
  {
    var r := w.live[c].ref;
    assert PhaseInv(w, c) && RequestInv(w, r);
    var w' := if Standing(w, r)
      then w.(reqs := w.reqs[r := w.reqs[r].(published := true)], live := w.live[c := Serving(r)])
      else Moved(w, c, Discarding(r));
    assert w'.reqs == w.reqs[r := w'.reqs[r]];
    assert Standing(w', r) <==> Standing(w, r);
    OthersElsewhere(w, w', c, r);
    LocalKeeps(w, w', c, r);
  }

  lemma DiscardKeeps(w: World, c: Conn)
    requires Inv(w) && c in w.live && w.live[c].Discarding?
    ensures forall w' | Took(w, Discard(c), w') :: Inv(w')
  {
    var r := w.live[c].ref;
    assert PhaseInv(w, c) && RequestInv(w, r);
    var w' := Moved(w, c, Done).(reqs := w.reqs[r := Closed(w.reqs[r])]);
    assert Standing(w', r) <==> Standing(w, r);
    OthersElsewhere(w, w', c, r);
    LocalKeeps(w, w', c, r);
  }

  lemma ActKeeps(w: World, c: Conn)
    requires Inv(w) && c in w.live && w.live[c].Ending?
    ensures forall w' | Took(w, Act(c), w') :: Inv(w')
  {
    var r := w.live[c].ref;
    assert PhaseInv(w, c);
    ActRequest(w, Acted(w, c), c, r);
    ActOthers(w, Acted(w, c), c, r);
    LocalKeeps(w, Acted(w, c), c, r);
  }

  /** The message is sent, and the handle closed if that fell to this handler. */
  function Acted(w: World, c: Conn): World
    requires c in w.live && w.live[c].Ending? && w.live[c].ref < |w.reqs|
  {
    var q := w.reqs[w.live[c].ref];
    Moved(w, c, Done).(reqs := w.reqs[w.live[c].ref :=
      q.(mails := q.mails + 1, closes := q.closes + if w.live[c].close then 1 else 0)])
  }

  lemma ActOthers(w: World, w': World, c: Conn, r: Ref)
    requires Inv(w) && c in w.live && w.live[c].Ending? && w.live[c].ref == r && r < |w.reqs| && w' == Acted(w, c)
    ensures forall x | x in w.live && x != c && PhaseRef(w.live[x]) == Some(r) :: PhaseInv(w', x)
  {
    forall x | x in w.live && x != c && PhaseRef(w.live[x]) == Some(r) ensures PhaseInv(w', x) {
      BesidesEnding(w, c, r, x);
    }
  }

  lemma ActRequest(w: World, w': World, c: Conn, r: Ref)
    requires Inv(w) && c in w.live && w.live[c].Ending? && w.live[c].ref == r && r < |w.reqs|
    requires w' == Acted(w, c)
    ensures RequestInv(w', r) && r !in w.sweep
  {
    assert PhaseInv(w, c) && RequestInv(w, r);
    assert Standing(w', r) <==> Standing(w, r);
  }

  /** Beside the handler that ends a request only the one that admitted it may refer to it. */
  lemma BesidesEnding(w: World, c: Conn, r: Ref, x: Conn)
    requires Inv(w) && c in w.live && w.live[c].Ending? && w.live[c].ref == r
    requires x in w.live && x != c && PhaseRef(w.live[x]) == Some(r)
    ensures r < |w.reqs| && w.reqs[r].wrapper == x && !w.live[x].Ending? && PhaseInv(w, x)
    ensures w.live[c].close ==> w.live[x].Serving?
  {
    assert PhaseInv(w, x) && PhaseInv(w, c);
    assert RequestInv(w, r);
  }

  /** BeginClose hands every standing request to the closer. */
  lemma SweptKeeps(w: World)
    requires Inv(w) && !w.closing
    ensures Inv(Swept(w))
  {
    var w' := Swept(w);
    forall r | 0 <= r < |w'.reqs| ensures RequestInv(w', r) {
      assert RequestInv(w, r) && !Standing(w', r);
    }
    forall x | x in w'.live ensures PhaseInv(w', x) {
      assert PhaseInv(w, x);
      if PhaseRef(w.live[x]).Some? {
        assert RequestInv(w, PhaseRef(w.live[x]).value);
      }
    }
    forall r | r in w'.sweep ensures SweepInv(w', r) {
      assert RequestInv(w, r) && Standing(w, r);
    }
  }

  lemma SweepKeeps(w: World, r: Ref)
    requires Inv(w) && r in w.sweep
    ensures forall w' | Took(w, SweepOne(r), w') :: Inv(w')
  {
    assert SweepInv(w, r) && RequestInv(w, r);
    var w' := w.(sweep := w.sweep - {r}, reqs := if w.reqs[r].published then w.reqs[r := Closed(w.reqs[r])] else w.reqs);
    forall x | 0 <= x < |w'.reqs| ensures RequestInv(w', x) {
      assert RequestInv(w, x);
      assert Standing(w', x) <==> Standing(w, x);
    }
    forall x | x in w'.live ensures PhaseInv(w', x) {
      assert PhaseInv(w, x);
    }
    forall x | x in w'.sweep ensures SweepInv(w', x) {
      assert SweepInv(w, x);
    }
  }

  predicate ConnectionStep(step: Step) {
    step.Accept? || step.Register? || step.Unregister? || step.Free? || step.Return?
  }

  lemma ConnectionKeeps(w: World, step: Step, w': World)
    requires Inv(w) && ConnectionStep(step) && Took(w, step, w')
    ensures Inv(w')
  {
    ConnectionCounts(w, step, w');
    ConnectionFrame(w, w');
  }

  /** Handlers that start or have finished owe nothing. */
  lemma ConnectionFrame(w: World, w': World)
    requires Inv(w) && CountInv(w')
    requires w'.reqs == w.reqs && w'.table == w.table && w'.sweep == w.sweep
    requires forall c | c in w'.live && c !in w.live :: w'.live[c].Greeting?
    requires forall c | c in w'.live && c in w.live :: w'.live[c] == w.live[c]
    requires forall c | c in w.live && c !in w'.live :: w.live[c].Done?
    ensures Inv(w')
  {
    forall x | 0 <= x < |w'.reqs| ensures RequestInv(w', x) {
      assert RequestInv(w, x);
    }
    forall x | x in w'.live ensures PhaseInv(w', x) {
      if x in w.live {
        assert PhaseInv(w, x);
      }
    }
    forall x | x in w'.sweep ensures SweepInv(w', x) {
      assert SweepInv(w, x);
    }
  }

  lemma ConnectionCounts(w: World, step: Step, w': World)
    requires Inv(w) && ConnectionStep(step) && Took(w, step, w')
    ensures CountInv(w')
    ensures w'.reqs == w.reqs && w'.table == w.table && w'.sweep == w.sweep
    ensures forall c | c in w'.live && c !in w.live :: w'.live[c].Greeting?
    ensures forall c | c in w'.live && c in w.live :: w'.live[c] == w.live[c]
    ensures forall c | c in w.live && c !in w'.live :: w.live[c].Done?
  {
    if step.Register? && !w.closing {
      LiveGrows(w.live, step.c);
    } else if step.Unregister? {
      LiveShrinks(w.live, step.c);
    }
  }

  lemma LiveGrows(live: map<Conn, Phase>, c: Conn)
    requires c !in live
    ensures |live[c := Greeting]| == |live| + 1 && live[c := Greeting].Keys == live.Keys + {c}
  {
    assert live[c := Greeting].Keys == live.Keys + {c};
    assert |live| == |live.Keys| && |live[c := Greeting]| == |live[c := Greeting].Keys|;
  }

  lemma LiveShrinks(live: map<Conn, Phase>, c: Conn)
    requires c in live
    ensures |live - {c}| == |live| - 1 && (live - {c}).Keys == live.Keys - {c}
  {
    assert (live - {c}).Keys == live.Keys - {c};
    assert |live| == |live.Keys| && |live - {c}| == |(live - {c}).Keys|;
  }

  /** Every step of every handler, of Close and of the providers keeps the invariant. */
  lemma StepKeeps(w: World, step: Step, w': World)
    requires Inv(w) && Took(w, step, w')
    ensures Inv(w')
  {
    match step
    case Reject(c) => MoveKeeps(w, c, Done);
    case Admit(c, id, inRate) => AdmitKeeps(w, c, id, inRate);
    case OpenFail(c) =>
      TakeOutKeeps(w, c, w.reqs[w.live[c].ref].id, ErrorMail, 0);
    case OpenSuccess(c) => OpenKeeps(w, c);
    case Publish(c) => PublishKeeps(w, c);
    case Discard(c) => DiscardKeeps(w, c);
    case ParentGone(c) =>
      TakeOutKeeps(w, c, w.reqs[w.live[c].ref].id, CancelMail, 0);
    case PaneStarted(c, id) => MoveKeeps(w, c, if id in w.table then Pane(id) else Done);
    case PaneGone(c) => TakeOutKeeps(w, c, w.live[c].id, CancelMail, 0);
    case PaneExited(c, code) => TakeOutKeeps(w, c, w.live[c].id, ExitedMail, code);
    case ExitedFirst(c, id, code) => TakeOutKeeps(w, c, id, ExitedMail, code);
    case Act(c) => ActKeeps(w, c);
    case BeginClose => SweptKeeps(w);
    case SweepOne(r) => SweepKeeps(w, r);
    case _ => ConnectionKeeps(w, step, w');
  }

  /** finish, cancel and fail keep the invariant, whichever request stands under the id. */
  lemma TakeOutKeeps(w: World, c: Conn, id: string, mail: Mail, code: int)
    requires Inv(w) && c in w.live
    requires w.live[c].Greeting? || w.live[c].Pane? || w.live[c].Opening? || w.live[c].Serving?
    requires w.live[c].Opening? || w.live[c].Serving? ==> w.live[c].ref < |w.reqs| && w.reqs[w.live[c].ref].id == id
    ensures mail.ExitedMail? ==> Inv(Finish(w, c, id, code))
    ensures mail.CancelMail? ==> Inv(Cancel(w, c, id))
    ensures mail.ErrorMail? ==> Inv(Fail(w, c, id))
  {
    if InTable(w, id) {
      var shown := w.reqs[w.table[id]].published;
      match mail
      case ExitedMail =>
        TakenKeeps(w, c, id, mail, shown && ClosesOnExit(w.config, code), shown && !ClosesOnExit(w.config, code), false);
      case CancelMail => TakenKeeps(w, c, id, mail, shown, false, false);
      case ErrorMail => TakenKeeps(w, c, id, mail, false, false, shown);
    } else {
      if PhaseRef(w.live[c]).Some? {
        assert RequestInv(w, w.live[c].ref);
      }
      MoveKeeps(w, c, Done);
    }
  }

  // ---------------------------------------------------------------- whole runs

  ghost predicate IsRun(config: Config, run: seq<World>, steps: seq<Step>) {
    && |run| == |steps| + 1 && run[0] == Initial(config)
    && forall k {:trigger steps[k]} | 0 <= k < |steps| :: Took(run[k], steps[k], run[k + 1])
  }

  lemma {:induction false} RunKeeps(config: Config, run: seq<World>, steps: seq<Step>, k: nat)
    requires IsRun(config, run, steps) && k < |run|
    ensures Inv(run[k])
  {
    if k > 0 {
      RunKeeps(config, run, steps, k - 1);
      StepKeeps(run[k - 1], steps[k - 1], run[k]);
    }
  }

  /** In every interleaving each handle is closed at most once, each request leaves the table at most
      once and its wrapper hears of its end at most once. */
  lemma {:induction false} AtMostOnce(config: Config, run: seq<World>, steps: seq<Step>, k: nat, r: Ref)
    requires IsRun(config, run, steps) && k < |run| && r < |run[k].reqs|
    ensures run[k].reqs[r].closes <= 1 && run[k].reqs[r].exits <= 1 && run[k].reqs[r].mails <= run[k].reqs[r].exits
    ensures run[k].reqs[r].exits == 0 <==> Standing(run[k], r)
  {
    RunKeeps(config, run, steps, k);
    assert RequestInv(run[k], r);
  }

  lemma {:induction false} WithinBounds(config: Config, run: seq<World>, steps: seq<Step>, k: nat)
    requires IsRun(config, run, steps) && k < |run|
    ensures |run[k].table| <= 8
    ensures |run[k].pending| + |run[k].live| + |run[k].ended| <= 32
  {
    RunKeeps(config, run, steps, k);
  }

  /** Once closing is set no handler starts; once Close has returned none is running or will. */
  lemma {:induction false} NoHandlerAfterClosing(config: Config, run: seq<World>, steps: seq<Step>, k: nat, j: nat)
    requires IsRun(config, run, steps) && k <= j < |run| && run[k].closing
    ensures run[j].closing && run[j].live.Keys <= run[k].live.Keys
    ensures run[k].returned ==> run[j].returned && run[j].live == map[] && run[j].ended == {}
  {
    ClosingThroughout(config, run, steps, k, j);
    RunKeeps(config, run, steps, j);
  }

  lemma {:induction false} ClosingThroughout(config: Config, run: seq<World>, steps: seq<Step>, k: nat, j: nat)
    requires IsRun(config, run, steps) && k <= j < |run| && run[k].closing
    ensures run[j].closing && run[j].live.Keys <= run[k].live.Keys && (run[k].returned ==> run[j].returned)
  {
    if k < j {
      ClosingThroughout(config, run, steps, k, j - 1);
      ClosingStays(run[j - 1], steps[j - 1], run[j]);
    }
  }

  lemma ClosingStays(w: World, step: Step, w': World)
    requires w.closing && Took(w, step, w')
    ensures w'.closing && w'.live.Keys <= w.live.Keys && (w.returned ==> w'.returned)
  {
  }

  /** When Close has returned, every request is out of the table, and a handle is unclosed only when
      the exit policy left its terminal to the user or fail took a published request. */
  lemma {:induction false} ClosedAtReturn(config: Config, run: seq<World>, steps: seq<Step>, k: nat, r: Ref)
    requires IsRun(config, run, steps) && k < |run| && run[k].returned && r < |run[k].reqs| && run[k].reqs[r].handle
    ensures run[k].reqs[r].exits == 1
    ensures run[k].reqs[r].closes == 1 <==> !run[k].reqs[r].left && !run[k].reqs[r].dropped
  {
    RunKeeps(config, run, steps, k);
    assert RequestInv(run[k], r);
  }

  // ---------------------------------------------------------------- what the exit policy decides

  /** This step finishes the published request r with this exit code, and c is the handler that does it. */
  predicate Finishes(w: World, step: Step, r: Ref, c: Conn, code: int) {
    && (step == PaneExited(c, code) || (step.ExitedFirst? && step.c == c && step.code == code))
    && c in w.live && (step.PaneExited? ==> w.live[c].Pane?)
    && var id := if step.PaneExited? then w.live[c].id else step.id;
       InTable(w, id) && w.table[id] == r && w.reqs[r].published
  }

  lemma ConfigStep(w: World, step: Step, w': World)
    requires Took(w, step, w')
    ensures w'.config == w.config
  {
    match step
    case OpenFail(_) =>
    case ParentGone(_) =>
    case PaneGone(_) =>
    case PaneExited(_, _) =>
    case ExitedFirst(_, _, _) =>
    case Admit(_, _, _) =>
    case Act(_) =>
    case _ =>
  }

  lemma {:induction false} ConfigSame(config: Config, run: seq<World>, steps: seq<Step>, k: nat)
    requires IsRun(config, run, steps) && k < |run|
    ensures run[k].config == config
  {
    if k > 0 {
      ConfigSame(config, run, steps, k - 1);
      ConfigStep(run[k - 1], steps[k - 1], run[k]);
    }
  }

  /** What is recorded of a request's end, and whether it was published. */
  predicate EndSame(q: Request, q': Request) {
    q'.exits == q.exits && q'.taker == q.taker && q'.left == q.left && q'.dropped == q.dropped && q'.published == q.published
  }

  /** Once a request has left the table its end is settled. */
  lemma EndSettled(w: World, step: Step, w': World, r: Ref)
    requires Inv(w) && Took(w, step, w') && r < |w.reqs| && w.reqs[r].exits == 1
    ensures r < |w'.reqs| && EndSame(w.reqs[r], w'.reqs[r])
  {
    assert RequestInv(w, r);
    match step
    case OpenFail(_) =>
    case ParentGone(_) =>
    case PaneGone(_) =>
    case PaneExited(_, _) =>
    case ExitedFirst(_, _, _) =>
    case Admit(_, _, _) =>
    case OpenSuccess(_) =>
    case Publish(_) =>
    case Discard(_) =>
    case Act(_) =>
    case BeginClose =>
    case SweepOne(_) =>
    case _ =>
  }

  lemma {:induction false} EndStays(config: Config, run: seq<World>, steps: seq<Step>, k: nat, j: nat, r: Ref)
    requires IsRun(config, run, steps) && k <= j < |run| && r < |run[k].reqs| && run[k].reqs[r].exits == 1
    ensures r < |run[j].reqs| && EndSame(run[k].reqs[r], run[j].reqs[r])
  {
    if k < j {
      EndStays(config, run, steps, k, j - 1, r);
      RunKeeps(config, run, steps, j - 1);
      EndSettled(run[j - 1], steps[j - 1], run[j], r);
    }
  }

  /** The step that finishes a request decides: on success the terminal is to be closed if closeOnSuccess
      is set, on failure unless holdOnFailure is. */
  lemma FinishDecides(w: World, step: Step, w': World, r: Ref, c: Conn, code: int)
    requires Inv(w) && Took(w, step, w') && Finishes(w, step, r, c, code)
    ensures r < |w'.reqs| && w'.reqs[r].published && w'.reqs[r].exits == 1 && w'.reqs[r].taker == Some(Handler(c))
    ensures !w'.reqs[r].dropped
    ensures w'.reqs[r].left <==>
            !((code == 0 && w.config.closeOnSuccess) || (code != 0 && !w.config.holdOnFailure))
  {
    assert RequestInv(w, r);
  }

  /** A published request that is finished with this code: its handler closes the terminal exactly when
      the code is zero and closeOnSuccess is set, or it is not and holdOnFailure is not; otherwise the
      terminal is not closed in any later state. */
  lemma {:induction false} FinishCloses(config: Config, run: seq<World>, steps: seq<Step>, k: nat, j: nat, r: Ref, c: Conn,
                                        code: int)
    requires IsRun(config, run, steps) && k < |steps| && k < j < |run| && Finishes(run[k], steps[k], r, c, code)
    ensures r < |run[j].reqs|
    ensures (code == 0 && config.closeOnSuccess) || (code != 0 && !config.holdOnFailure) ==>
              || run[j].reqs[r].closes == 1
              || (c in run[j].live && run[j].live[c].Ending? && run[j].live[c].ref == r && run[j].live[c].close)
    ensures !((code == 0 && config.closeOnSuccess) || (code != 0 && !config.holdOnFailure)) ==>
              run[j].reqs[r].closes == 0 && run[j].reqs[r].left
  {
    RunKeeps(config, run, steps, k);
    ConfigSame(config, run, steps, k);
    FinishDecides(run[k], steps[k], run[k + 1], r, c, code);
    EndStays(config, run, steps, k + 1, j, r);
    RunKeeps(config, run, steps, j);
    assert RequestInv(run[j], r);
    if !run[k + 1].reqs[r].left {
      OwedIsClosed(config, run, steps, k + 1, j, r, c);
    }
  }

  /** A published request taken by a handler and neither left open nor dropped: its terminal is closed, or that
      handler is about to close it. */
  lemma {:induction false} OwedIsClosed(config: Config, run: seq<World>, steps: seq<Step>, k: nat, j: nat, r: Ref, c: Conn)
    requires IsRun(config, run, steps) && k <= j < |run| && r < |run[k].reqs|
    requires var q := run[k].reqs[r]; q.published && q.exits == 1 && q.taker == Some(Handler(c)) && !q.left && !q.dropped
    ensures r < |run[j].reqs|
    ensures || run[j].reqs[r].closes == 1
            || (c in run[j].live && run[j].live[c].Ending? && run[j].live[c].ref == r && run[j].live[c].close)
  {
    EndStays(config, run, steps, k, j, r);
    RunKeeps(config, run, steps, j);
    var w := run[j];
    assert RequestInv(w, r);
    var x := w.reqs[r].wrapper;
    assert x in w.live ==> PhaseInv(w, x);
    assert r in w.sweep ==> SweepInv(w, r);
  }

  /** A pane that goes without an exit code: the terminal is closed, or its handler is about to close it. */
  lemma {:induction false} CancelCloses(config: Config, run: seq<World>, steps: seq<Step>, k: nat, j: nat, r: Ref, c: Conn)
    requires IsRun(config, run, steps) && k < |steps| && k < j < |run| && steps[k] == PaneGone(c)
    requires var w := run[k];
             c in w.live && w.live[c].Pane? && InTable(w, w.live[c].id) && w.table[w.live[c].id] == r && w.reqs[r].published
    ensures r < |run[j].reqs|
    ensures || run[j].reqs[r].closes == 1
            || (c in run[j].live && run[j].live[c].Ending? && run[j].live[c].ref == r && run[j].live[c].close)
  {
    RunKeeps(config, run, steps, k);
    assert RequestInv(run[k], r) && Took(run[k], steps[k], run[k + 1]);
    OwedIsClosed(config, run, steps, k + 1, j, r, c);
  }

  /** This step finishes the request and leaves its terminal to the user. */
  ghost predicate LeavesOpen(config: Config, w: World, step: Step, r: Ref) {
    exists c, code ::
      && Finishes(w, step, r, c, code)
      && !((code == 0 && config.closeOnSuccess) || (code != 0 && !config.holdOnFailure))
  }

  lemma LeftStep(w: World, step: Step, w': World, r: Ref)
    requires Inv(w) && Took(w, step, w') && r < |w'.reqs| && w'.reqs[r].left && !(r < |w.reqs| && w.reqs[r].left)
    ensures LeavesOpen(w.config, w, step, r)
  {
    match step
    case OpenFail(_) =>
    case ParentGone(_) =>
    case PaneGone(_) =>
    case PaneExited(c, code) => assert Finishes(w, step, r, c, code);
    case ExitedFirst(c, _, code) => assert Finishes(w, step, r, c, code);
    case Admit(_, _, _) =>
    case OpenSuccess(_) =>
    case Publish(_) =>
    case Discard(_) =>
    case Act(_) =>
    case BeginClose =>
    case SweepOne(_) =>
    case _ =>
  }

  /** A terminal counts as left to the user exactly when some earlier step finished its request so. */
  lemma {:induction false} LeftIff(config: Config, run: seq<World>, steps: seq<Step>, k: nat, r: Ref)
    requires IsRun(config, run, steps) && k < |run| && r < |run[k].reqs|
    ensures run[k].reqs[r].left <==> exists j {:trigger steps[j]} :: 0 <= j < k && LeavesOpen(config, run[j], steps[j], r)
  {
    if exists j {:trigger steps[j]} :: 0 <= j < k && LeavesOpen(config, run[j], steps[j], r) {
      var j :| 0 <= j < k && LeavesOpen(config, run[j], steps[j], r);
      var c, code :| Finishes(run[j], steps[j], r, c, code)
                     && !((code == 0 && config.closeOnSuccess) || (code != 0 && !config.holdOnFailure));
      FinishCloses(config, run, steps, j, k, r, c, code);
    }
    if run[k].reqs[r].left {
      LeftComesFrom(config, run, steps, k, r);
    }
  }

  lemma {:induction false} LeftComesFrom(config: Config, run: seq<World>, steps: seq<Step>, k: nat, r: Ref)
    requires IsRun(config, run, steps) && k < |run| && r < |run[k].reqs| && run[k].reqs[r].left
    ensures exists j {:trigger steps[j]} :: 0 <= j < k && LeavesOpen(config, run[j], steps[j], r)
  {
    RunKeeps(config, run, steps, k - 1);
    ConfigSame(config, run, steps, k - 1);
    if r < |run[k - 1].reqs| && run[k - 1].reqs[r].left {
      LeftComesFrom(config, run, steps, k - 1, r);
    } else {
      LeftStep(run[k - 1], steps[k - 1], run[k], r);
      assert LeavesOpen(config, run[k - 1], steps[k - 1], r);
    }
  }

  /** At Close's return a terminal is unclosed exactly when the request was finished with an exit code whose
      policy leaves it open, or a fail dropped it. */
  lemma {:induction false} PolicyAtReturn(config: Config, run: seq<World>, steps: seq<Step>, k: nat, r: Ref)
    requires IsRun(config, run, steps) && k < |run| && run[k].returned && r < |run[k].reqs| && run[k].reqs[r].handle
    ensures run[k].reqs[r].closes == 0 <==>
            run[k].reqs[r].dropped || exists j {:trigger steps[j]} :: 0 <= j < k && LeavesOpen(config, run[j], steps[j], r)
  {
    ClosedAtReturn(config, run, steps, k, r);
    LeftIff(config, run, steps, k, r);
    AtMostOnce(config, run, steps, k, r);
  }

  /** A fail whose own request is gone and which finds a later request under the same id, already published. */
  predicate FailHitsPublished(w: World, step: Step) {
    && step.OpenFail? && step.c in w.live && w.live[step.c].Opening? && w.live[step.c].ref < |w.reqs|
    && InTable(w, w.reqs[w.live[step.c].ref].id)
    && w.reqs[w.table[w.reqs[w.live[step.c].ref].id]].published
  }

  /** Only a fail that hits a published request drops a handle. */
  lemma DropStep(w: World, step: Step, w': World, r: Ref)
    requires Took(w, step, w') && r < |w'.reqs|
    ensures w'.reqs[r].dropped && !(r < |w.reqs| && w.reqs[r].dropped) ==> FailHitsPublished(w, step)
  {
    match step
    case OpenFail(_) =>
    case ParentGone(_) =>
    case PaneGone(_) =>
    case PaneExited(_, _) =>
    case ExitedFirst(_, _, _) =>
    case Admit(_, _, _) =>
    case OpenSuccess(_) =>
    case Publish(_) =>
    case Discard(_) =>
    case Act(_) =>
    case BeginClose =>
    case SweepOne(_) =>
    case _ =>
  }

  lemma DropStays(w: World, step: Step, w': World, r: Ref)
    requires Took(w, step, w') && r < |w.reqs| && w.reqs[r].dropped
    requires forall id | id in w.table :: w.table[id] != r
    ensures r < |w'.reqs| && w'.reqs[r].dropped
  {
    match step
    case OpenFail(_) =>
    case ParentGone(_) =>
    case PaneGone(_) =>
    case PaneExited(_, _) =>
    case ExitedFirst(_, _, _) =>
    case Admit(_, _, _) =>
    case OpenSuccess(_) =>
    case Publish(_) =>
    case Discard(_) =>
    case Act(_) =>
    case BeginClose =>
    case SweepOne(_) =>
    case _ =>
  }

  lemma DroppedAbsent(w: World, r: Ref)
    requires Inv(w) && r < |w.reqs| && w.reqs[r].dropped
    ensures forall id | id in w.table :: w.table[id] != r
  {
    assert RequestInv(w, r);
  }

  lemma {:induction false} DropsComeFromFail(config: Config, run: seq<World>, steps: seq<Step>, k: nat, r: Ref) returns (j: nat)
    requires IsRun(config, run, steps) && k < |run| && r < |run[k].reqs| && run[k].reqs[r].dropped
    ensures j < k && FailHitsPublished(run[j], steps[j])
  {
    j := k - 1;
    DropStep(run[k - 1], steps[k - 1], run[k], r);
    if r < |run[k - 1].reqs| && run[k - 1].reqs[r].dropped {
      j := DropsComeFromFail(config, run, steps, k - 1, r);
    }
  }

  lemma {:induction false} DropsStay(config: Config, run: seq<World>, steps: seq<Step>, j: nat, k: nat, r: Ref)
    requires IsRun(config, run, steps) && j <= k < |run| && r < |run[j].reqs| && run[j].reqs[r].dropped
    ensures r < |run[k].reqs| && run[k].reqs[r].dropped
  {
    if j < k {
      DropsStay(config, run, steps, j, k - 1, r);
      RunKeeps(config, run, steps, k - 1);
      DroppedAbsent(run[k - 1], r);
      DropStays(run[k - 1], steps[k - 1], run[k], r);
    }
  }

  /** Every handle that the exit policy did not leave to the user has been closed, once. */
  predicate AllClosed(w: World) {
    forall r | 0 <= r < |w.reqs| && w.reqs[r].handle && !w.reqs[r].left :: w.reqs[r].closes == 1
  }

  ghost predicate NoHits(run: seq<World>, steps: seq<Step>, k: nat)
    requires k <= |steps| && |run| == |steps| + 1
  {
    forall j {:trigger steps[j]} | 0 <= j < k :: !FailHitsPublished(run[j], steps[j])
  }

  /** The exact condition for "Close closes every terminal the policy does not leave open": it holds
      in a run exactly when no fail hits a published request. */
  lemma {:induction false} AllClosedIff(config: Config, run: seq<World>, steps: seq<Step>, k: nat)
    requires IsRun(config, run, steps) && k < |run| && run[k].returned
    ensures AllClosed(run[k]) <==> NoHits(run, steps, k)
  {
    if !NoHits(run, steps, k) {
      var j :| 0 <= j < k && FailHitsPublished(run[j], steps[j]);
      var r := HitDrops(config, run, steps, j);
      DropsStay(config, run, steps, j + 1, k, r);
      DroppedUnclosed(config, run, steps, k, r);
    } else {
      NoHitsAllClosed(config, run, steps, k);
    }
  }

  lemma {:induction false} NoHitsAllClosed(config: Config, run: seq<World>, steps: seq<Step>, k: nat)
    requires IsRun(config, run, steps) && k < |run| && run[k].returned && NoHits(run, steps, k)
    ensures AllClosed(run[k])
  {
    var w := run[k];
    forall r | 0 <= r < |w.reqs| && w.reqs[r].handle && !w.reqs[r].left ensures w.reqs[r].closes == 1 {
      ClosedAtReturn(config, run, steps, k, r);
      if w.reqs[r].dropped {
        var j := DropsComeFromFail(config, run, steps, k, r);
      }
    }
  }

  lemma {:induction false} HitDrops(config: Config, run: seq<World>, steps: seq<Step>, j: nat) returns (r: Ref)
    requires IsRun(config, run, steps) && j < |steps| && FailHitsPublished(run[j], steps[j])
    ensures r < |run[j + 1].reqs| && run[j + 1].reqs[r].dropped
  {
    r := run[j].table[run[j].reqs[run[j].live[steps[j].c].ref].id];
  }

  lemma {:induction false} DroppedUnclosed(config: Config, run: seq<World>, steps: seq<Step>, k: nat, r: Ref)
    requires IsRun(config, run, steps) && k < |run| && r < |run[k].reqs| && run[k].reqs[r].dropped
    ensures run[k].reqs[r].handle && !run[k].reqs[r].left && run[k].reqs[r].closes == 0
  {
    RunKeeps(config, run, steps, k);
    assert RequestInv(run[k], r);
  }

  /** A caller that never uses a request id twice is safe. */
  lemma {:induction false} DistinctIdsNeverHit(config: Config, run: seq<World>, steps: seq<Step>, k: nat)
    requires IsRun(config, run, steps) && k < |steps|
    requires forall r, q | 0 <= r < q < |run[k].reqs| :: run[k].reqs[r].id != run[k].reqs[q].id
    ensures !FailHitsPublished(run[k], steps[k])
  {
    RunKeeps(config, run, steps, k);
    if FailHitsPublished(run[k], steps[k]) {
      var own, other := HitsAnother(run[k], steps[k]);
    }
  }

  lemma HitsAnother(w: World, step: Step) returns (own: Ref, other: Ref)
    requires Inv(w) && FailHitsPublished(w, step)
    ensures own < |w.reqs| && other < |w.reqs| && own != other && w.reqs[own].id == w.reqs[other].id
  {
    own := w.live[step.c].ref;
    other := w.table[w.reqs[own].id];
    assert PhaseInv(w, step.c);
    assert RequestInv(w, own) && RequestInv(w, other);
  }

  ghost predicate Reachable(config: Config, w: World) {
    exists run, steps :: IsRun(config, run, steps) && run[|steps|] == w
  }

  lemma ReachStep(config: Config, w: World, step: Step, w': World)
    requires Reachable(config, w) && Took(w, step, w')
    ensures Reachable(config, w')
  {
    var run, steps :| IsRun(config, run, steps) && run[|steps|] == w;
    var run', steps' := run + [w'], steps + [step];
    forall k | 0 <= k < |steps'| ensures Took(run'[k], steps'[k], run'[k + 1]) {
      if k < |steps| {
        assert steps'[k] == steps[k];
      }
    }
    assert IsRun(config, run', steps') && run'[|steps'|] == w';
  }

  lemma Connect(config: Config, w: World, c: Conn) returns (w': World)
    requires Reachable(config, w) && !w.closing && c !in w.pending && c !in w.live && c !in w.ended
    requires w.pending == {} && |w.live| + |w.ended| < MAX_CONNECTIONS
    ensures Reachable(config, w') && w' == w.(live := w.live[c := Greeting])
  {
    ReachStep(config, w, Accept(c), w.(pending := {c}));
    w' := w.(pending := {c} - {c}, live := w.live[c := Greeting]);
    ReachStep(config, w.(pending := {c}), Register(c), w');
  }

  /** The failing run exists: a request is finished while its barrier still runs, its id is used
      again, the second terminal opens, and then the first barrier fails. */
  lemma LeakIsReal(config: Config) returns (w: World)
    ensures Reachable(config, w) && FailHitsPublished(w, OpenFail(0))
    ensures w.live.Keys == {0, 1, 2} && w.live[0] == Opening(0) && w.live[1] == Serving(1)
    ensures w.live[2] == Ending(0, ExitedMail, false)
    ensures w.table == map["x" := 1] && |w.reqs| == 2 && w.reqs[0].id == "x" && w.reqs[1].id == "x"
    ensures w.reqs[1].handle && !w.reqs[1].left && w.reqs[1].closes == 0
    ensures w.pending == {} && w.ended == {} && w.sweep == {} && !w.closing && !w.returned
  {
    w := Initial(config);
    var run, steps: seq<Step> := [w], [];
    assert IsRun(config, run, steps) && run[|steps|] == w;
    w := Connect(config, w, 0);
    w := Connect(config, w, 1);
    w := Connect(config, w, 2);
    w := IdUsedTwice(config, w);
    var w1 := w.(reqs := w.reqs[1 := w.reqs[1].(handle := true)], live := w.live[1 := Holding(1)]);
    ReachStep(config, w, OpenSuccess(1), w1);
    w := w1.(reqs := w1.reqs[1 := w1.reqs[1].(published := true)], live := w1.live[1 := Serving(1)]);
    ReachStep(config, w1, Step.Publish(1), w);
  }

  lemma IdUsedTwice(config: Config, w: World) returns (w': World)
    requires Reachable(config, w) && w.live == map[0 := Greeting, 1 := Greeting, 2 := Greeting] && w.reqs == [] && w.table == map[]
    ensures Reachable(config, w') && w'.live.Keys == {0, 1, 2} && w'.live[0] == Opening(0) && w'.live[1] == Opening(1)
    ensures w'.live[2] == Ending(0, ExitedMail, false) && w'.live[1] == Opening(1)
    ensures w'.table == map["x" := 1] && |w'.reqs| == 2 && w'.reqs[0].id == "x" && w'.reqs[1].id == "x"
    ensures !w'.reqs[1].left && w'.reqs[1].closes == 0
    ensures w' == w.(live := w'.live, table := w'.table, reqs := w'.reqs)
  {
    var w1 := Admitted(w, 0, "x", true);
    ReachStep(config, w, Admit(0, "x", true), w1);
    var w2 := Finish(w1, 2, "x", 0);
    ReachStep(config, w1, ExitedFirst(2, "x", 0), w2);
    w' := Admitted(w2, 1, "x", true);
    ReachStep(config, w2, Admit(1, "x", true), w');
  }
  /** The fail drops the second terminal. */
  lemma LeakDropped(config: Config) returns (w: World)
    ensures Reachable(config, w)
    ensures w.live == map[0 := Ending(1, ErrorMail, false), 1 := Serving(1), 2 := Ending(0, ExitedMail, false)]
    ensures LeakedOpen(w)
  {
    var w0 := LeakIsReal(config);
    w := Goes(config, w0, OpenFail(0), Fail(w0, 0, "x"));
  }

  /** The terminal of request 1 is open, and nobody is going to close it. */
  predicate LeakedOpen(w: World) {
    && w.table == map[] && |w.reqs| == 2 && w.reqs[1].id == "x" && w.reqs[1].handle && !w.reqs[1].left && w.reqs[1].closes == 0
    && w.pending == {} && w.ended == {} && w.sweep == {} && !w.closing && !w.returned
  }

  lemma LeakSettled(config: Config) returns (w: World)
    ensures Reachable(config, w) && w.live == map[0 := Done, 1 := Done, 2 := Done] && LeakedOpen(w)
  {
    var w0 := LeakDropped(config);
    var w1 := Goes(config, w0, Act(0), Acted(w0, 0));
    var w2 := Goes(config, w1, Act(2), Acted(w1, 2));
    w := Goes(config, w2, ParentGone(1), Cancel(w2, 1, "x"));
  }

  /** Carried on to the end: Close returns, and the second terminal is still open. */
  lemma LeakAtReturn(config: Config) returns (w: World)
    ensures Reachable(config, w) && w.returned && !AllClosed(w)
  {
    var w0 := LeakSettled(config);
    var w1 := Leave(config, w0, 0);
    var w2 := Leave(config, w1, 1);
    var w3 := Leave(config, w2, 2);
    assert w3.live == map[];
    var w4 := Goes(config, w3, BeginClose, Swept(w3));
    w := Goes(config, w4, Return, w4.(returned := true));
    assert w.reqs[1].handle && !w.reqs[1].left && w.reqs[1].closes == 0;
  }

  lemma Goes(config: Config, w: World, step: Step, w': World) returns (v: World)
    requires Reachable(config, w) && Took(w, step, w')
    ensures v == w' && Reachable(config, v)
  {
    v := w';
    ReachStep(config, w, step, v);
  }

  /** A handler that is done leaves and frees its slot. */
  lemma Leave(config: Config, w: World, c: Conn) returns (w': World)
    requires Reachable(config, w) && c in w.live && w.live[c].Done? && w.ended == {}
    ensures Reachable(config, w') && w' == w.(live := w.live - {c})
  {
    var w1 := w.(live := w.live - {c}, ended := w.ended + {c});
    ReachStep(config, w, Unregister(c), w1);
    w' := w1.(ended := w1.ended - {c});
    ReachStep(config, w1, Free(c), w');
  }
}
