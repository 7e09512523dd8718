/** Processes that add, choose, use and remove hosts and run sessions on them.  They share the
    configuration file, the project bindings, the workspace states and the session records, and meet
    only through file locks; any of them may die at any step, which frees its locks. */
module HostLifecycle {
  import opened Common

  type Proc = nat
  type Host = string
  type Project = string
  type Sid = nat

  /** A workspace identity is the hash of its project and its host. */
  datatype Workspace = Workspace(project: Project, host: Host)

  datatype Config = Config(hosts: map<Host, int>, dflt: Option<Host>)

  datatype Update =
    | AddHost(host: Host, setup: int, makeDefault: bool, replace: bool)
    | ChooseDefault(host: Host)
    | Reconfigure(host: Host, setup: int)

  datatype Stage = ReadingBindings | ReadingStates | ListingSessions | ReadingSessions

  /** How far an inspection has come and what it has found. */
  datatype Scan = Scan(
    stage: Stage,
    bindings: set<Project>,
    bound: bool,
    states: set<Workspace>,
    sessions: set<Sid>,
    active: bool)

  datatype Phase =
    | Idle
    | UseLocked(project: Project, host: Host)
    | UseChecked(project: Project, host: Host)
    | StartLocked(project: Project, host: Host)
    | StartChecked(project: Project, host: Host)
    | StartSaved(project: Project, host: Host)
    | StartLeased(project: Project, host: Host, sid: Sid)
    | StartPublished(project: Project, host: Host, sid: Sid)
    | Aborting(host: Host, sid: Sid)
    | Running(sid: Sid)
    | Closing(sid: Sid)
    | UpdateLocked(update: Update)
    | UpdateLoaded(update: Update, copy: Config)
    | RemoveHostLocked(host: Host, force: bool)
    | RemoveLocked(host: Host, force: bool)
    | RemoveLoaded(host: Host, force: bool, copy: Config, scan: Scan)
    | Unlocking(hostLocked: Option<Host>, globalLocked: bool)

  /** `forced` records that some removal used --force. */
  datatype World = World(
    config: Config,
    bindings: map<Project, Option<Host>>,
    states: set<Workspace>,
    records: map<Sid, Workspace>,
    leases: map<Sid, Proc>,
    used: set<Sid>,
    hostLocks: map<Host, Proc>,
    globalLock: Option<Proc>,
    procs: map<Proc, Phase>,
    forced: bool)

  datatype Step =
    | Spawn(p: Proc)
    | Begin(p: Proc, first: Phase)
    | UseCheck(p: Proc)
    | UseBind(p: Proc)
    | FollowDefault(project: Project)
    | StartCheck(p: Proc, seen: int)
    | SaveState(ws: Workspace)
    | StartSave(p: Proc)
    | StartLease(p: Proc, sid: Sid)
    | StartPublish(p: Proc)
    | StartRelease(p: Proc)
    | StartAbort(p: Proc)
    | StopSession(p: Proc)
    | ReleaseLease(p: Proc)
    | Load(p: Proc)
    | SaveUpdate(p: Proc)
    | TakeGlobal(p: Proc)
    | ScanBinding(p: Proc, project: Project)
    | ScanStates(p: Proc)
    | ListSessions(p: Proc)
    | ScanSession(p: Proc, sid: Sid, spurious: bool)
    | SaveRemoval(p: Proc, blocked: bool)
    | Refuse(p: Proc)
    | Unlock(p: Proc)
    | CleanStale(sid: Sid)
    | Die(p: Proc)

  function To(w: World, p: Proc, phase: Phase): World {
    w.(procs := w.procs[p := phase])
  }

  // ---------------------------------------------------------------- which locks a phase holds

  function HostLockOf(phase: Phase): Option<Host> {
    match phase
    case UseLocked(_, h) => Some(h)
    case UseChecked(_, h) => Some(h)
    case StartLocked(_, h) => Some(h)
    case StartChecked(_, h) => Some(h)
    case StartSaved(_, h) => Some(h)
    case StartLeased(_, h, _) => Some(h)
    case StartPublished(_, h, _) => Some(h)
    case Aborting(h, _) => Some(h)
    case RemoveHostLocked(h, _) => Some(h)
    case RemoveLocked(h, _) => Some(h)
    case RemoveLoaded(h, _, _, _) => Some(h)
    case Unlocking(h, _) => h
    case _ => None
  }

  predicate HoldsGlobal(phase: Phase) {
    || phase.UpdateLocked? || phase.UpdateLoaded? || phase.RemoveLocked? || phase.RemoveLoaded?
    || (phase.Unlocking? && phase.globalLocked)
  }

  function LeaseOf(phase: Phase): Option<Sid> {
    match phase
    case StartLeased(_, _, sid) => Some(sid)
    case StartPublished(_, _, sid) => Some(sid)
    case Aborting(_, sid) => Some(sid)
    case Running(sid) => Some(sid)
    case Closing(sid) => Some(sid)
    case _ => None
  }

  /** The first lock of each command. */
  predicate MayBegin(w: World, first: Phase) {
    match first
    case UseLocked(_, h) => h !in w.hostLocks
    case StartLocked(_, h) => h !in w.hostLocks
    case RemoveHostLocked(h, _) => h !in w.hostLocks
    case UpdateLocked(_) => w.globalLock.None?
    case _ => false
  }

  function Begun(w: World, p: Proc, first: Phase): World {
    var locked := if HostLockOf(first).Some? then w.(hostLocks := w.hostLocks[HostLockOf(first).value := p])
                  else w.(globalLock := Some(p));
    To(locked, p, first)
  }

  // ---------------------------------------------------------------- the locked read-modify-write

  /** The callback on the copy just loaded; None when it refuses. */
  function Applied(u: Update, copy: Config): Option<Config> {
    match u
    case AddHost(h, setup, makeDefault, replace) =>
      if h in copy.hosts && !replace then None
      else Some(Config(copy.hosts[h := setup], if copy.dflt.None? || makeDefault then Some(h) else copy.dflt))
    case ChooseDefault(h) => if h in copy.hosts then Some(copy.(dflt := Some(h))) else None
    case Reconfigure(h, setup) => if h in copy.hosts then Some(copy.(hosts := copy.hosts[h := setup])) else None
  }

  function Without(copy: Config, h: Host): Config {
    Config(copy.hosts - {h}, if copy.dflt == Some(h) then None else copy.dflt)
  }

  /** A finished inspection: a live session, and anything else that refers to the host (it is the
      default, a project binds to it, a workspace or a recovery root retains something). */
  datatype Report = Report(live: bool, referenced: bool, force: bool)

  datatype Refusal = LiveSession | StillReferenced | NotAllowed

  predicate Safe(r: Report) {
    !r.live && !r.referenced
  }

  predicate Allowed(r: Report) {
    !r.live && (Safe(r) || r.force)
  }

  function Guard(r: Report): Option<Refusal> {
    if r.live then Some(LiveSession)
    else if !Safe(r) && !r.force then Some(StillReferenced)
    else if !Allowed(r) then Some(NotAllowed)
    else None
  }

  /** The guard passes exactly when nothing is live and either nothing refers to the host or the
      removal is forced; its last check never decides. */
  lemma GuardExact(r: Report)
    ensures Guard(r).None? <==> !r.live && (r.force || !r.referenced)
    ensures Guard(r) != Some(NotAllowed)
  {
  }

  predicate MayRemove(h: Host, force: bool, copy: Config, scan: Scan, blocked: bool) {
    h in copy.hosts && Guard(Report(scan.active, copy.dflt == Some(h) || scan.bound || blocked, force)).None?
  }

  /** What one session record adds to the inspection: a live session counts when its workspace belongs
      to the host or to no listed workspace.  (A dead one may look alive while its lease is probed.) */
  function Counted(w: World, scan: Scan, h: Host, sid: Sid): bool
    requires sid in w.records
  {
    sid in w.leases && (w.records[sid] !in scan.states || w.records[sid].host == h)
  }

  function WithoutProc(w: World, p: Proc): World {
    w.(leases := map sid | sid in w.leases && w.leases[sid] != p :: w.leases[sid],
       hostLocks := map h | h in w.hostLocks && w.hostLocks[h] != p :: w.hostLocks[h],
       globalLock := if w.globalLock == Some(p) then None else w.globalLock,
       procs := w.procs[p := Idle])
  }

  // ---------------------------------------------------------------- steps

  function Bound(w: World, p: Proc, project: Project, h: Host): World {
    To(w.(bindings := w.bindings[project := Some(h)]), p, Unlocking(Some(h), false))
  }

  function StateSaved(w: World, p: Proc, project: Project, h: Host): World {
    To(w.(states := w.states + {Workspace(project, h)}), p, StartSaved(project, h))
  }

  function Leased(w: World, p: Proc, project: Project, h: Host, sid: Sid): World {
    To(w.(leases := w.leases[sid := p], used := w.used + {sid}), p, StartLeased(project, h, sid))
  }

  function Published(w: World, p: Proc, project: Project, h: Host, sid: Sid): World {
    To(w.(records := w.records[sid := Workspace(project, h)]), p, StartPublished(project, h, sid))
  }

  function Released(w: World, p: Proc, h: Host, sid: Sid): World {
    To(w.(hostLocks := w.hostLocks - {h}), p, Running(sid))
  }

  function Unpublished(w: World, p: Proc, sid: Sid, next: Phase): World {
    To(w.(records := w.records - {sid}), p, next)
  }

  function LeaseReleased(w: World, p: Proc, sid: Sid, next: Phase): World {
    To(w.(leases := w.leases - {sid}), p, next)
  }

  function GlobalTaken(w: World, p: Proc, h: Host, force: bool): World {
    To(w.(globalLock := Some(p)), p, RemoveLocked(h, force))
  }

  function Unlocked(w: World, p: Proc, h: Option<Host>, global: bool): World {
    To(w.(hostLocks := if h.Some? then w.hostLocks - {h.value} else w.hostLocks,
          globalLock := if global then None else w.globalLock), p, Idle)
  }

  function Saved(w: World, p: Proc, next: Option<Config>): World {
    To(if next.Some? then w.(config := next.value) else w, p, Unlocking(None, true))
  }

  function Removed(w: World, p: Proc, h: Host, force: bool, copy: Config): World {
    To(w.(config := Without(copy, h), forced := w.forced || force), p, Unlocking(Some(h), true))
  }

  /** The next phase of a step that only reads. */
  function Read(w: World, ph: Phase, step: Step): Option<Phase> {
    match step
    case UseCheck(_) =>
      if !ph.UseLocked? then None
      else Some(if ph.host in w.config.hosts then UseChecked(ph.project, ph.host) else Unlocking(Some(ph.host), false))
    case StartCheck(_, seen) =>
      if !ph.StartLocked? then None
      else Some(if ph.host in w.config.hosts && w.config.hosts[ph.host] == seen
                then StartChecked(ph.project, ph.host) else Unlocking(Some(ph.host), false))
    case Load(_) =>
      if ph.UpdateLocked? then Some(UpdateLoaded(ph.update, w.config))
      else if ph.RemoveLocked?
      then Some(RemoveLoaded(ph.host, ph.force, w.config, Scan(ReadingBindings, w.bindings.Keys, false, {}, {}, false)))
      else None
    case ScanBinding(_, project) =>
      if !(ph.RemoveLoaded? && ph.scan.stage.ReadingBindings? && project in ph.scan.bindings && project in w.bindings) then None
      else Some(ph.(scan := ph.scan.(bindings := ph.scan.bindings - {project},
                                     bound := ph.scan.bound || w.bindings[project] == Some(ph.host))))
    case ScanStates(_) =>
      if !(ph.RemoveLoaded? && ph.scan.stage.ReadingBindings? && ph.scan.bindings == {}) then None
      else Some(ph.(scan := ph.scan.(stage := ListingSessions, states := w.states)))
    case ListSessions(_) =>
      if !(ph.RemoveLoaded? && ph.scan.stage.ListingSessions?) then None
      else Some(ph.(scan := ph.scan.(stage := ReadingSessions, sessions := w.records.Keys)))
    case ScanSession(_, sid, spurious) =>
      if !(ph.RemoveLoaded? && ph.scan.stage.ReadingSessions? && sid in ph.scan.sessions && sid in w.records) then None
      else Some(ph.(scan := ph.scan.(sessions := ph.scan.sessions - {sid},
                                     active := ph.scan.active || spurious || Counted(w, ph.scan, ph.host, sid))))
    case Refuse(_) =>
      if (HostLockOf(ph).Some? || HoldsGlobal(ph)) && LeaseOf(ph).None? then Some(Unlocking(HostLockOf(ph), HoldsGlobal(ph)))
      else None
    case _ => None
  }

  predicate Reads(step: Step) {
    || step.UseCheck? || step.StartCheck? || step.Load? || step.ScanBinding? || step.ScanStates? || step.ListSessions?
    || step.ScanSession? || step.Refuse?
  }

  ghost predicate Took(w: World, step: Step, w': World) {
    match step
    case Spawn(p) => p !in w.procs && w' == To(w, p, Idle)
    case Begin(p, first) => p in w.procs && w.procs[p].Idle? && MayBegin(w, first) && w' == Begun(w, p, first)
    case FollowDefault(project) => w' == w.(bindings := w.bindings[project := None])
    case SaveState(ws) => w' == w.(states := w.states + {ws})
    case CleanStale(sid) => sid !in w.leases && w' == w.(records := w.records - {sid})
    case Die(p) => p in w.procs && w' == WithoutProc(w, p)
    case _ =>
      && step.p in w.procs
      && if Reads(step)
         then Read(w, w.procs[step.p], step).Some? && w' == To(w, step.p, Read(w, w.procs[step.p], step).value)
         else Wrote(w, step, w.procs[step.p], w')
  }

  /** The steps of one process that change shared files or give locks away. */
  predicate Wrote(w: World, step: Step, ph: Phase, w': World) {
    match step
    case UseBind(p) => ph.UseChecked? && w' == Bound(w, p, ph.project, ph.host)
    case StartSave(p) => ph.StartChecked? && w' == StateSaved(w, p, ph.project, ph.host)
    case StartLease(p, sid) => ph.StartSaved? && sid !in w.used && w' == Leased(w, p, ph.project, ph.host, sid)
    case StartPublish(p) => ph.StartLeased? && w' == Published(w, p, ph.project, ph.host, ph.sid)
    case StartRelease(p) => ph.StartPublished? && w' == Released(w, p, ph.host, ph.sid)
    case StartAbort(p) =>
      (ph.StartLeased? || ph.StartPublished?) && w' == Unpublished(w, p, ph.sid, Aborting(ph.host, ph.sid))
    case StopSession(p) => ph.Running? && w' == Unpublished(w, p, ph.sid, Closing(ph.sid))
    case ReleaseLease(p) =>
      && (ph.Closing? || ph.Aborting?)
      && w' == LeaseReleased(w, p, ph.sid, if ph.Closing? then Idle else Unlocking(Some(ph.host), false))
    case TakeGlobal(p) => ph.RemoveHostLocked? && w.globalLock.None? && w' == GlobalTaken(w, p, ph.host, ph.force)
    case SaveUpdate(p) => ph.UpdateLoaded? && w' == Saved(w, p, Applied(ph.update, ph.copy))
    case SaveRemoval(p, blocked) =>
      && ph.RemoveLoaded? && ph.scan.stage.ReadingSessions? && ph.scan.sessions == {}
      && MayRemove(ph.host, ph.force, ph.copy, ph.scan, blocked) && w' == Removed(w, p, ph.host, ph.force, ph.copy)
    case Unlock(p) => ph.Unlocking? && w' == Unlocked(w, p, ph.hostLocked, ph.globalLocked)
    case _ => false
  }

  // ---------------------------------------------------------------- what every step keeps

  /** Published and held by a living process. */
  predicate Live(w: World, sid: Sid) {
    sid in w.records && sid in w.leases
  }

  /** The locks and the lease a process holds are the ones its phase says. */
  ghost predicate OwnLocks(w: World, p: Proc)
    requires p in w.procs
  {
    var ph := w.procs[p];
    && (forall h | h in w.hostLocks && w.hostLocks[h] == p :: HostLockOf(ph) == Some(h))
    && (HostLockOf(ph).Some? ==> HostLockOf(ph).value in w.hostLocks && w.hostLocks[HostLockOf(ph).value] == p)
    && (w.globalLock == Some(p) <==> HoldsGlobal(ph))
    && (forall sid | sid in w.leases && w.leases[sid] == p :: LeaseOf(ph) == Some(sid))
    && (LeaseOf(ph).Some? ==> LeaseOf(ph).value in w.leases && w.leases[LeaseOf(ph).value] == p)
  }

  ghost predicate LocksInv(w: World) {
    && (forall h | h in w.hostLocks :: w.hostLocks[h] in w.procs)
    && (w.globalLock.Some? ==> w.globalLock.value in w.procs)
    && (forall sid | sid in w.leases :: w.leases[sid] in w.procs)
    && (forall p {:trigger OwnLocks(w, p)} | p in w.procs :: OwnLocks(w, p))
  }

  /** Only locks of `p` change hands: what others hold they keep, and get no more. */
  ghost predicate OthersLocks(w: World, w': World, p: Proc) {
    && w'.procs.Keys == w.procs.Keys && (forall q | q in w.procs && q != p :: w'.procs[q] == w.procs[q])
    && (forall h | h in w'.hostLocks && w'.hostLocks[h] != p :: h in w.hostLocks && w.hostLocks[h] == w'.hostLocks[h])
    && (forall h | h in w.hostLocks && w.hostLocks[h] != p :: h in w'.hostLocks && w'.hostLocks[h] == w.hostLocks[h])
    && (forall q | q != p :: w'.globalLock == Some(q) <==> w.globalLock == Some(q))
    && (forall sid | sid in w'.leases && w'.leases[sid] != p :: sid in w.leases && w.leases[sid] == w'.leases[sid])
    && (forall sid | sid in w.leases && w.leases[sid] != p :: sid in w'.leases && w'.leases[sid] == w.leases[sid])
  }

  lemma LocksStep(w: World, w': World, p: Proc)
    requires LocksInv(w) && p in w'.procs && OthersLocks(w, w', p) && OwnLocks(w', p)
    ensures LocksInv(w')
  {
    forall q | q in w'.procs && q != p ensures OwnLocks(w', q) {
      assert OwnLocks(w, q);
    }
    assert w'.globalLock.Some? ==> w'.globalLock.value in w'.procs by {
      if w'.globalLock.Some? && w'.globalLock.value != p {
        assert w.globalLock == Some(w'.globalLock.value);
      }
    }
  }

  /** The inspection has seen, or is still going to see, whatever selects its host. */
  ghost predicate ScanInv(w: World, h: Host, scan: Scan) {
    && (forall project | project in w.bindings && w.bindings[project] == Some(h) :: scan.bound || project in scan.bindings)
    && (!scan.stage.ReadingBindings? ==> scan.bindings == {})
    && (scan.stage.ListingSessions? || scan.stage.ReadingSessions? ==>
          forall sid | Live(w, sid) && w.records[sid].host == h :: w.records[sid] in scan.states)
    && (scan.stage.ReadingSessions? ==>
          forall sid | Live(w, sid) && w.records[sid].host == h :: scan.active || sid in scan.sessions)
  }

  ghost predicate ProcInv(w: World, p: Proc)
    requires p in w.procs
  {
    match w.procs[p]
    case UseChecked(_, h) => h in w.config.hosts
    case StartChecked(_, h) => h in w.config.hosts
    case StartSaved(project, h) => h in w.config.hosts && Workspace(project, h) in w.states
    case StartLeased(project, h, sid) => h in w.config.hosts && Workspace(project, h) in w.states && sid !in w.records
    case StartPublished(project, h, sid) => sid in w.records ==> w.records[sid] == Workspace(project, h)
    case Closing(sid) => sid !in w.records
    case Aborting(_, sid) => sid !in w.records
    case UpdateLoaded(_, copy) => copy == w.config
    case RemoveLoaded(h, _, copy, scan) => copy == w.config && ScanInv(w, h, scan)
    case _ => true
  }

  ghost predicate SharedInv(w: World) {
    && (w.config.dflt.Some? ==> w.config.dflt.value in w.config.hosts)
    && (forall sid | Live(w, sid) :: w.records[sid].host in w.config.hosts && w.records[sid] in w.states)
    && (forall sid | sid in w.records || sid in w.leases :: sid in w.used)
    && (!w.forced ==> forall project | project in w.bindings && w.bindings[project].Some? ::
          w.bindings[project].value in w.config.hosts)
  }

  ghost predicate Inv(w: World) {
    LocksInv(w) && SharedInv(w) && forall p {:trigger ProcInv(w, p)} | p in w.procs :: ProcInv(w, p)
  }

  function Initial(): World {
    World(Config(map[], None), map[], {}, map[], map[], {}, map[], None, map[], false)
  }

  // ---------------------------------------------------------------- proofs, step by step

  /** Two processes never hold one lock. */
  lemma Exclusive(w: World, p: Proc, q: Proc)
    requires LocksInv(w) && p in w.procs && q in w.procs && p != q
    ensures HostLockOf(w.procs[p]).Some? ==> HostLockOf(w.procs[q]) != HostLockOf(w.procs[p])
    ensures HoldsGlobal(w.procs[p]) ==> !HoldsGlobal(w.procs[q])
    ensures LeaseOf(w.procs[p]).Some? ==> LeaseOf(w.procs[q]) != LeaseOf(w.procs[p])
  {
    assert OwnLocks(w, p) && OwnLocks(w, q);
  }

  /** What a step of `p` may do to the shared files without disturbing any other process: bindings and
      sessions of a host appear only under that host's lock. */
  ghost predicate Modest(w: World, w': World, p: Proc)
    requires p in w.procs
  {
    && w'.config == w.config && w.states <= w'.states
    && (forall project | project in w'.bindings && w'.bindings[project].Some? ::
          || (project in w.bindings && w.bindings[project] == w'.bindings[project])
          || HostLockOf(w.procs[p]) == w'.bindings[project])
    && (forall sid | sid in w'.records ::
          || (sid in w.records && w'.records[sid] == w.records[sid])
          || (LeaseOf(w.procs[p]) == Some(sid) && HostLockOf(w.procs[p]) == Some(w'.records[sid].host)))
    && (forall sid | sid in w'.leases :: sid in w.leases || sid !in w'.records)
  }

  lemma OtherKeeps(w: World, w': World, p: Proc, q: Proc)
    requires LocksInv(w) && p in w.procs && Modest(w, w', p) && p != q && q in w.procs && ProcInv(w, q)
    requires q in w'.procs && w'.procs[q] == w.procs[q]
    ensures ProcInv(w', q)
  {
    Exclusive(w, p, q);
    if w.procs[q].RemoveLoaded? {
      var h, scan := w.procs[q].host, w.procs[q].scan;
      forall sid | Live(w', sid) && w'.records[sid].host == h ensures Live(w, sid) && w.records[sid] == w'.records[sid] {
      }
      forall project | project in w'.bindings && w'.bindings[project] == Some(h)
        ensures project in w.bindings && w.bindings[project] == Some(h)
      {
      }
    }
  }

  /** A step of `p` keeps the invariant when it is modest, touches only its own locks, and leaves the
      shared files and its own phase in order. */
  lemma Keeps(w: World, w': World, p: Proc)
    requires Inv(w) && p in w.procs && Modest(w, w', p) && OthersLocks(w, w', p)
    requires OwnLocks(w', p) && ProcInv(w', p) && SharedInv(w')
    ensures Inv(w')
  {
    LocksStep(w, w', p);
    forall q | q in w'.procs && q != p ensures ProcInv(w', q) {
      OtherKeeps(w, w', p, q);
    }
  }

  lemma OthersLocksMove(w: World, p: Proc, phase: Phase)
    requires p in w.procs
    ensures OthersLocks(w, To(w, p, phase), p)
  {
  }

  /** A process that only moves on, with the same locks and the same shared files. */
  lemma MoveKeeps(w: World, p: Proc, phase: Phase)
    requires Inv(w) && p in w.procs
    requires HostLockOf(phase) == HostLockOf(w.procs[p]) && HoldsGlobal(phase) == HoldsGlobal(w.procs[p])
    requires LeaseOf(phase) == LeaseOf(w.procs[p])
    requires ProcInv(To(w, p, phase), p)
    ensures Inv(To(w, p, phase))
  {
    var w' := To(w, p, phase);
    assert OwnLocks(w, p);
    OthersLocksMove(w, p, phase);
    SameShared(w, w');
    Keeps(w, w', p);
  }

  lemma SameShared(w: World, w': World)
    requires SharedInv(w) && w'.config == w.config && w'.bindings == w.bindings && w.states <= w'.states
    requires forall sid | sid in w'.records :: sid in w.records && w'.records[sid] == w.records[sid]
    requires forall sid | sid in w'.leases :: sid in w.leases || sid !in w'.records
    requires w.used <= w'.used && (forall sid | sid in w'.leases :: sid in w'.used) && w'.forced == w.forced
    ensures SharedInv(w')
  {
    forall sid | Live(w', sid) ensures w'.records[sid].host in w'.config.hosts && w'.records[sid] in w'.states {
      assert Live(w, sid);
    }
  }

  lemma BeginKeeps(w: World, p: Proc, first: Phase)
    requires Inv(w) && p in w.procs && w.procs[p].Idle? && MayBegin(w, first)
    ensures Inv(Begun(w, p, first))
  {
    var w' := Begun(w, p, first);
    assert OwnLocks(w, p);
    BeginLocks(w, p, first);
    SameShared(w, w');
    Keeps(w, w', p);
  }

  lemma BeginLocks(w: World, p: Proc, first: Phase)
    requires p in w.procs && w.procs[p].Idle? && MayBegin(w, first) && OwnLocks(w, p)
    ensures OthersLocks(w, Begun(w, p, first), p) && OwnLocks(Begun(w, p, first), p)
  {
  }

  /** Reading: a check finds the host, and the inspection keeps having seen, or still to see,
      everything that selects its host. */
  lemma ReadKeeps(w: World, p: Proc, step: Step)
    requires Inv(w) && Reads(step) && p in w.procs && Read(w, w.procs[p], step).Some?
    ensures Inv(To(w, p, Read(w, w.procs[p], step).value))
  {
    ReadOwn(w, p, step);
    MoveKeeps(w, p, Read(w, w.procs[p], step).value);
  }

  lemma ReadOwn(w: World, p: Proc, step: Step)
    requires Inv(w) && Reads(step) && p in w.procs && Read(w, w.procs[p], step).Some?
    ensures var phase := Read(w, w.procs[p], step).value;
            && HostLockOf(phase) == HostLockOf(w.procs[p]) && HoldsGlobal(phase) == HoldsGlobal(w.procs[p])
            && LeaseOf(phase) == LeaseOf(w.procs[p]) && ProcInv(To(w, p, phase), p)
  {
    assert ProcInv(w, p);
    var phase := Read(w, w.procs[p], step).value;
    if phase.RemoveLoaded? {
      ReadScan(w, p, step);
      var w' := To(w, p, phase);
      forall sid ensures Live(w', sid) <==> Live(w, sid) {
      }
    }
  }

  lemma ReadScan(w: World, p: Proc, step: Step)
    requires Inv(w) && Reads(step) && p in w.procs && Read(w, w.procs[p], step).Some?
    requires Read(w, w.procs[p], step).value.RemoveLoaded?
    ensures var phase := Read(w, w.procs[p], step).value; phase.copy == w.config && ScanInv(w, phase.host, phase.scan)
  {
    assert ProcInv(w, p);
    if step.ScanStates? {
      forall sid | Live(w, sid) ensures w.records[sid] in w.states {
      }
    }
  }

  lemma BindKeeps(w: World, p: Proc)
    requires Inv(w) && p in w.procs && w.procs[p].UseChecked?
    ensures Inv(Bound(w, p, w.procs[p].project, w.procs[p].host))
  {
    assert ProcInv(w, p) && OwnLocks(w, p);
    var w' := Bound(w, p, w.procs[p].project, w.procs[p].host);
    forall sid ensures Live(w', sid) <==> Live(w, sid) {
    }
    Keeps(w, w', p);
  }

  lemma StateSavedKeeps(w: World, p: Proc)
    requires Inv(w) && p in w.procs && w.procs[p].StartChecked?
    ensures Inv(StateSaved(w, p, w.procs[p].project, w.procs[p].host))
  {
    assert ProcInv(w, p) && OwnLocks(w, p);
    var w' := StateSaved(w, p, w.procs[p].project, w.procs[p].host);
    SameShared(w, w');
    Keeps(w, w', p);
  }

  lemma LeasedKeeps(w: World, p: Proc, sid: Sid)
    requires Inv(w) && p in w.procs && w.procs[p].StartSaved? && sid !in w.used
    ensures Inv(Leased(w, p, w.procs[p].project, w.procs[p].host, sid))
  {
    assert ProcInv(w, p) && OwnLocks(w, p) && sid !in w.leases && sid !in w.records;
    var w' := Leased(w, p, w.procs[p].project, w.procs[p].host, sid);
    LeasedLocks(w, p, w.procs[p].project, w.procs[p].host, sid);
    SameShared(w, w');
    Keeps(w, w', p);
  }

  lemma LeasedLocks(w: World, p: Proc, project: Project, h: Host, sid: Sid)
    requires p in w.procs && OwnLocks(w, p) && w.procs[p] == StartSaved(project, h) && sid !in w.leases
    ensures OthersLocks(w, Leased(w, p, project, h, sid), p) && OwnLocks(Leased(w, p, project, h, sid), p)
  {
  }

  /** Publication: the host is configured now, and its lock is held. */
  lemma PublishedKeeps(w: World, p: Proc)
    requires Inv(w) && p in w.procs && w.procs[p].StartLeased?
    ensures Inv(Published(w, p, w.procs[p].project, w.procs[p].host, w.procs[p].sid))
  {
    assert ProcInv(w, p) && OwnLocks(w, p);
    var w' := Published(w, p, w.procs[p].project, w.procs[p].host, w.procs[p].sid);
    forall sid | Live(w', sid) ensures w'.records[sid].host in w'.config.hosts && w'.records[sid] in w'.states {
      assert sid != w.procs[p].sid ==> Live(w, sid);
    }
    Keeps(w, w', p);
  }

  lemma ReleasedKeeps(w: World, p: Proc)
    requires Inv(w) && p in w.procs && w.procs[p].StartPublished?
    ensures Inv(Released(w, p, w.procs[p].host, w.procs[p].sid))
  {
    assert OwnLocks(w, p);
    var w' := Released(w, p, w.procs[p].host, w.procs[p].sid);
    SameShared(w, w');
    Keeps(w, w', p);
  }

  lemma UnpublishedKeeps(w: World, p: Proc, sid: Sid, next: Phase)
    requires Inv(w) && p in w.procs && LeaseOf(w.procs[p]) == Some(sid) && !HoldsGlobal(w.procs[p])
    requires (next == Closing(sid) && HostLockOf(w.procs[p]).None?)
          || (next.Aborting? && next.sid == sid && HostLockOf(w.procs[p]) == Some(next.host))
    ensures Inv(Unpublished(w, p, sid, next))
  {
    assert OwnLocks(w, p);
    var w' := Unpublished(w, p, sid, next);
    SameShared(w, w');
    Keeps(w, w', p);
  }

  lemma LeaseReleasedKeeps(w: World, p: Proc)
    requires Inv(w) && p in w.procs && (w.procs[p].Closing? || w.procs[p].Aborting?)
    ensures Inv(LeaseReleased(w, p, w.procs[p].sid,
                              if w.procs[p].Closing? then Idle else Unlocking(Some(w.procs[p].host), false)))
  {
    assert ProcInv(w, p) && OwnLocks(w, p);
    var next := if w.procs[p].Closing? then Idle else Unlocking(Some(w.procs[p].host), false);
    var w' := LeaseReleased(w, p, w.procs[p].sid, next);
    LeaseReleasedLocks(w, p, w.procs[p].sid, next);
    SameShared(w, w');
    Keeps(w, w', p);
  }

  lemma LeaseReleasedLocks(w: World, p: Proc, sid: Sid, next: Phase)
    requires p in w.procs && OwnLocks(w, p) && LeaseOf(w.procs[p]) == Some(sid) && LeaseOf(next).None?
    requires HostLockOf(next) == HostLockOf(w.procs[p]) && HoldsGlobal(next) == HoldsGlobal(w.procs[p])
    ensures OthersLocks(w, LeaseReleased(w, p, sid, next), p) && OwnLocks(LeaseReleased(w, p, sid, next), p)
  {
  }

  lemma GlobalTakenKeeps(w: World, p: Proc)
    requires Inv(w) && p in w.procs && w.procs[p].RemoveHostLocked? && w.globalLock.None?
    ensures Inv(GlobalTaken(w, p, w.procs[p].host, w.procs[p].force))
  {
    assert OwnLocks(w, p);
    var w' := GlobalTaken(w, p, w.procs[p].host, w.procs[p].force);
    SameShared(w, w');
    Keeps(w, w', p);
  }

  lemma UnlockedKeeps(w: World, p: Proc)
    requires Inv(w) && p in w.procs && w.procs[p].Unlocking?
    ensures Inv(Unlocked(w, p, w.procs[p].hostLocked, w.procs[p].globalLocked))
  {
    assert OwnLocks(w, p);
    var w' := Unlocked(w, p, w.procs[p].hostLocked, w.procs[p].globalLocked);
    SameShared(w, w');
    Keeps(w, w', p);
  }

  lemma DieKeeps(w: World, p: Proc)
    requires Inv(w) && p in w.procs
    ensures Inv(WithoutProc(w, p))
  {
    var w' := WithoutProc(w, p);
    SameShared(w, w');
    Keeps(w, w', p);
  }

  // ---------------------------------------------------------------- the two configuration writers

  function Configured(w: World, p: Proc, c: Config, forced: bool, host: Option<Host>): World {
    To(w.(config := c, forced := forced), p, Unlocking(host, true))
  }

  /** Others need nothing of the configuration but the hosts they hold the lock of. */
  lemma ConfigKeeps(w: World, p: Proc, c: Config, forced: bool, host: Option<Host>)
    requires Inv(w) && p in w.procs && HoldsGlobal(w.procs[p]) && LeaseOf(w.procs[p]).None?
    requires HostLockOf(w.procs[p]) == host
    requires forall h | h in w.config.hosts && host != Some(h) :: h in c.hosts
    requires SharedInv(Configured(w, p, c, forced, host))
    ensures Inv(Configured(w, p, c, forced, host))
  {
    var w' := Configured(w, p, c, forced, host);
    assert OwnLocks(w, p);
    LocksStep(w, w', p);
    forall q | q in w'.procs && q != p ensures ProcInv(w', q) {
      assert ProcInv(w, q);
      Exclusive(w, p, q);
    }
  }

  lemma SavedKeeps(w: World, p: Proc)
    requires Inv(w) && p in w.procs && w.procs[p].UpdateLoaded?
    ensures Inv(Saved(w, p, Applied(w.procs[p].update, w.procs[p].copy)))
  {
    assert ProcInv(w, p);
    var next := Applied(w.procs[p].update, w.config);
    if next.Some? {
      AppliedKeeps(w.procs[p].update, w.config);
      GrownShared(w, p, next.value);
      ConfigKeeps(w, p, next.value, w.forced, None);
    } else {
      MoveKeeps(w, p, Unlocking(None, true));
    }
  }

  lemma AppliedKeeps(u: Update, c: Config)
    requires Applied(u, c).Some? && (c.dflt.Some? ==> c.dflt.value in c.hosts)
    ensures var next := Applied(u, c).value;
            c.hosts.Keys <= next.hosts.Keys && (next.dflt.Some? ==> next.dflt.value in next.hosts)
  {
  }

  lemma GrownShared(w: World, p: Proc, c: Config)
    requires SharedInv(w) && w.config.hosts.Keys <= c.hosts.Keys && (c.dflt.Some? ==> c.dflt.value in c.hosts)
    ensures SharedInv(Configured(w, p, c, w.forced, None))
  {
    var w' := Configured(w, p, c, w.forced, None);
    forall sid | Live(w', sid) ensures w'.records[sid].host in w'.config.hosts && w'.records[sid] in w'.states {
      assert Live(w, sid);
    }
  }

  /** The removal: nothing live is on the host, and unless forced nothing binds to it. */
  lemma RemovedKeeps(w: World, p: Proc, blocked: bool)
    requires Inv(w) && p in w.procs && w.procs[p].RemoveLoaded? && w.procs[p].scan.stage.ReadingSessions?
    requires w.procs[p].scan.sessions == {}
    requires MayRemove(w.procs[p].host, w.procs[p].force, w.procs[p].copy, w.procs[p].scan, blocked)
    ensures Inv(Removed(w, p, w.procs[p].host, w.procs[p].force, w.procs[p].copy))
  {
    assert ProcInv(w, p);
    var h, force := w.procs[p].host, w.procs[p].force;
    RemovedShared(w, p, h, force, w.procs[p].scan, blocked);
    ConfigKeeps(w, p, Without(w.config, h), w.forced || force, Some(h));
  }

  lemma RemovedShared(w: World, p: Proc, h: Host, force: bool, scan: Scan, blocked: bool)
    requires SharedInv(w) && ScanInv(w, h, scan) && scan.stage.ReadingSessions? && scan.sessions == {}
    requires MayRemove(h, force, w.config, scan, blocked)
    ensures SharedInv(Configured(w, p, Without(w.config, h), w.forced || force, Some(h)))
  {
    var w' := Configured(w, p, Without(w.config, h), w.forced || force, Some(h));
    forall sid | Live(w', sid) ensures w'.records[sid].host in w'.config.hosts && w'.records[sid] in w'.states {
      assert Live(w, sid) && w.records[sid].host != h;
    }
  }

  // ---------------------------------------------------------------- steps that need no lock

  lemma SpawnKeeps(w: World, p: Proc)
    requires Inv(w) && p !in w.procs
    ensures Inv(To(w, p, Idle))
  {
    var w' := To(w, p, Idle);
    SameShared(w, w');
    forall q | q in w'.procs ensures ProcInv(w', q) && OwnLocks(w', q) {
      if q != p {
        assert ProcInv(w, q) && OwnLocks(w, q);
        forall sid | Live(w', sid) ensures Live(w, sid) {
        }
      }
    }
  }

  lemma FreeKeeps(w: World, w': World)
    requires Inv(w) && w'.config == w.config && w.states <= w'.states && w'.forced == w.forced && w'.used == w.used
    requires w'.procs == w.procs && w'.leases == w.leases && w'.hostLocks == w.hostLocks && w'.globalLock == w.globalLock
    requires forall project | project in w'.bindings && w'.bindings[project].Some? ::
               project in w.bindings && w.bindings[project] == w'.bindings[project]
    requires forall sid | sid in w'.records :: sid in w.records && w'.records[sid] == w.records[sid]
    ensures Inv(w')
  {
    forall q | q in w'.procs ensures ProcInv(w', q) && OwnLocks(w', q) {
      assert ProcInv(w, q) && OwnLocks(w, q);
      forall sid | Live(w', sid) ensures Live(w, sid) {
      }
    }
    forall sid | Live(w', sid) ensures w'.records[sid].host in w'.config.hosts && w'.records[sid] in w'.states {
      assert Live(w, sid);
    }
  }

  lemma FreeStepKeeps(w: World, step: Step, w': World)
    requires Inv(w) && (step.FollowDefault? || step.SaveState? || step.CleanStale?) && Took(w, step, w')
    ensures Inv(w')
  {
    FreeKeeps(w, w');
  }

  /** Every step of every process keeps the invariant. */
  lemma StepKeeps(w: World, step: Step, w': World)
    requires Inv(w) && Took(w, step, w')
    ensures Inv(w')
  {
    if Reads(step) {
      ReadKeeps(w, step.p, step);
    } else if step.FollowDefault? || step.SaveState? || step.CleanStale? {
      FreeStepKeeps(w, step, w');
    } else if step.Spawn? {
      SpawnKeeps(w, step.p);
    } else if step.Begin? {
      BeginKeeps(w, step.p, step.first);
    } else if step.Die? {
      DieKeeps(w, step.p);
    } else {
      WroteKeeps(w, step, w');
    }
  }

  lemma WroteKeeps(w: World, step: Step, w': World)
    requires Inv(w) && !Reads(step) && !step.FollowDefault? && !step.SaveState? && !step.CleanStale?
    requires step.p in w.procs && Wrote(w, step, w.procs[step.p], w')
    ensures Inv(w')
  {
    var ph := w.procs[step.p];
    match step
    case UseBind(p) => BindKeeps(w, p);
    case StartSave(p) => StateSavedKeeps(w, p);
    case StartLease(p, sid) => LeasedKeeps(w, p, sid);
    case StartPublish(p) => PublishedKeeps(w, p);
    case StartRelease(p) => ReleasedKeeps(w, p);
    case StartAbort(p) => UnpublishedKeeps(w, p, ph.sid, Aborting(ph.host, ph.sid));
    case StopSession(p) => UnpublishedKeeps(w, p, ph.sid, Closing(ph.sid));
    case ReleaseLease(p) => LeaseReleasedKeeps(w, p);
    case TakeGlobal(p) => GlobalTakenKeeps(w, p);
    case SaveUpdate(p) => SavedKeeps(w, p);
    case SaveRemoval(p, blocked) => RemovedKeeps(w, p, blocked);
    case Unlock(p) => UnlockedKeeps(w, p);
  }

  // ---------------------------------------------------------------- whole runs

  ghost predicate IsRun(run: seq<World>, steps: seq<Step>) {
    && |run| == |steps| + 1 && run[0] == Initial()
    && forall k {:trigger steps[k]} | 0 <= k < |steps| :: Took(run[k], steps[k], run[k + 1])
  }

  lemma {:induction false} RunKeeps(run: seq<World>, steps: seq<Step>, k: nat)
    requires IsRun(run, steps) && k < |run|
    ensures Inv(run[k])
  {
    if k > 0 {
      RunKeeps(run, steps, k - 1);
      StepKeeps(run[k - 1], steps[k - 1], run[k]);
    }
  }

  /** In every run a live published session names a configured host, whatever was forced. */
  lemma {:induction false} LiveSessionConfigured(run: seq<World>, steps: seq<Step>, k: nat, sid: Sid)
    requires IsRun(run, steps) && k < |run| && Live(run[k], sid)
    ensures run[k].records[sid].host in run[k].config.hosts && run[k].records[sid] in run[k].states
  {
    RunKeeps(run, steps, k);
  }

  /** As long as no removal was forced, every project that selects a host selects a configured one. */
  lemma {:induction false} BindingsConfigured(run: seq<World>, steps: seq<Step>, k: nat, project: Project)
    requires IsRun(run, steps) && k < |run| && !run[k].forced
    requires project in run[k].bindings && run[k].bindings[project].Some?
    ensures run[k].bindings[project].value in run[k].config.hosts
  {
    RunKeeps(run, steps, k);
  }

  lemma {:induction false} DefaultConfigured(run: seq<World>, steps: seq<Step>, k: nat)
    requires IsRun(run, steps) && k < |run|
    ensures run[k].config.dflt.Some? ==> run[k].config.dflt.value in run[k].config.hosts
  {
    RunKeeps(run, steps, k);
  }

  /** No update is lost: what is saved was computed from the configuration it replaces. */
  lemma {:induction false} NoLostUpdate(run: seq<World>, steps: seq<Step>, k: nat, p: Proc)
    requires IsRun(run, steps) && k < |steps| && steps[k] == SaveUpdate(p)
    ensures p in run[k].procs && run[k].procs[p].UpdateLoaded?
    ensures match run[k].procs[p].update
            case AddHost(h, setup, makeDefault, replace) =>
              if h in run[k].config.hosts && !replace then run[k + 1].config == run[k].config
              else
                && run[k + 1].config.hosts == run[k].config.hosts[h := setup]
                && run[k + 1].config.dflt == if makeDefault || run[k].config.dflt.None? then Some(h) else run[k].config.dflt
            case ChooseDefault(h) =>
              && run[k + 1].config.hosts == run[k].config.hosts
              && run[k + 1].config.dflt == if h in run[k].config.hosts then Some(h) else run[k].config.dflt
            case Reconfigure(h, setup) =>
              && run[k + 1].config.dflt == run[k].config.dflt
              && run[k + 1].config.hosts ==
                 if h in run[k].config.hosts then run[k].config.hosts[h := setup] else run[k].config.hosts
  {
    RunKeeps(run, steps, k);
    assert ProcInv(run[k], p);
  }

  /** Who writes what: a binding is set by `use` to the host it was checked for, or cleared; a state is added;
      a record is published by the session that starts, under its own lease, for the workspace whose state
      it saved; leases are taken and released by their session or die with their process. */
  lemma {:induction false} SharedChanges(run: seq<World>, steps: seq<Step>, k: nat)
    requires IsRun(run, steps) && k < |steps|
    ensures var w, w' := run[k], run[k + 1];
            match steps[k]
            case UseBind(p) => p in w.procs && w.procs[p].UseChecked? && w.procs[p].host in w.config.hosts
                               && w'.bindings == w.bindings[w.procs[p].project := Some(w.procs[p].host)]
            case FollowDefault(project) => w'.bindings == w.bindings[project := None]
            case _ => w'.bindings == w.bindings
    ensures var w, w' := run[k], run[k + 1];
            match steps[k]
            case StartSave(p) => p in w.procs && w.procs[p].StartChecked?
                                 && w'.states == w.states + {Workspace(w.procs[p].project, w.procs[p].host)}
            case SaveState(ws) => w'.states == w.states + {ws}
            case _ => w'.states == w.states
    ensures var w, w' := run[k], run[k + 1];
            match steps[k]
            case StartPublish(p) =>
              && p in w.procs && w.procs[p].StartLeased? && w.procs[p].sid in w.leases && w.leases[w.procs[p].sid] == p
              && var ws := Workspace(w.procs[p].project, w.procs[p].host);
                 ws in w.states && w'.records == w.records[w.procs[p].sid := ws]
            case StartAbort(p) =>
              p in w.procs && LeaseOf(w.procs[p]).Some? && w'.records == w.records - {LeaseOf(w.procs[p]).value}
            case StopSession(p) => p in w.procs && w.procs[p].Running? && w'.records == w.records - {w.procs[p].sid}
            case CleanStale(sid) => sid !in w.leases && w'.records == w.records - {sid}
            case _ => w'.records == w.records
    ensures var w, w' := run[k], run[k + 1];
            match steps[k]
            case StartLease(p, sid) => sid !in w.leases && sid !in w.records && w'.leases == w.leases[sid := p]
            case ReleaseLease(p) =>
              p in w.procs && LeaseOf(w.procs[p]).Some? && w'.leases == w.leases - {LeaseOf(w.procs[p]).value}
            case Die(p) => w'.leases == map sid | sid in w.leases && w.leases[sid] != p :: w.leases[sid]
            case _ => w'.leases == w.leases
  {
    RunKeeps(run, steps, k);
    var w := run[k];
    assert Took(w, steps[k], run[k + 1]);
    if steps[k].UseBind? || steps[k].StartPublish? {
      assert ProcInv(w, steps[k].p) && OwnLocks(w, steps[k].p);
    }
  }

  /** A session goes on to start exactly when its host is still configured as the process saw it. */
  lemma {:induction false} StartSeesCurrent(run: seq<World>, steps: seq<Step>, k: nat, p: Proc, seen: int)
    requires IsRun(run, steps) && k < |steps| && steps[k] == StartCheck(p, seen)
    ensures p in run[k].procs && run[k].procs[p].StartLocked? && p in run[k + 1].procs
    ensures var h := run[k].procs[p].host;
            run[k + 1].procs[p] ==
            if h in run[k].config.hosts && run[k].config.hosts[h] == seen then StartChecked(run[k].procs[p].project, h)
            else Unlocking(Some(h), false)
  {
    assert Took(run[k], steps[k], run[k + 1]);
  }

  /** Each session record that is read counts against the removal exactly when its lease is held and it is on
      the host, or on no workspace that was read. */
  lemma {:induction false} SessionCounts(run: seq<World>, steps: seq<Step>, k: nat, p: Proc, sid: Sid)
    requires IsRun(run, steps) && k < |steps| && steps[k] == ScanSession(p, sid, false)
    ensures p in run[k].procs && p in run[k + 1].procs && run[k].procs[p].RemoveLoaded? && run[k + 1].procs[p].RemoveLoaded?
    ensures sid in run[k].records
    ensures var ph := run[k].procs[p];
            run[k + 1].procs[p].scan.active <==>
            || ph.scan.active
            || (sid in run[k].leases && (run[k].records[sid].host == ph.host || run[k].records[sid] !in ph.scan.states))
  {
    assert Took(run[k], steps[k], run[k + 1]);
  }

  /** A finished inspection may be followed by the removal exactly when the host is configured, no live session
      was counted, and the removal is forced or the host is not the default, no project was seen to bind to
      it and nothing retained blocks it. */
  lemma RemovalEnabled(w: World, p: Proc, blocked: bool)
    requires Inv(w) && p in w.procs && w.procs[p].RemoveLoaded? && w.procs[p].scan.stage.ReadingSessions?
    requires w.procs[p].scan.sessions == {}
    ensures (exists w' :: Took(w, SaveRemoval(p, blocked), w')) <==>
            var ph := w.procs[p];
            && ph.host in w.config.hosts && !ph.scan.active
            && (ph.force || (w.config.dflt != Some(ph.host) && !ph.scan.bound && !blocked))
  {
    assert ProcInv(w, p);
    var ph := w.procs[p];
    if MayRemove(ph.host, ph.force, ph.copy, ph.scan, blocked) {
      assert Took(w, SaveRemoval(p, blocked), Removed(w, p, ph.host, ph.force, ph.copy));
    }
  }

  /** In every run: a removal takes away one configured host and, when it is the default, the default; no
      live session is on that host.  A removal that is not forced is of a host that is not the default, that no
      project selects and that nothing retained refers to. */
  lemma {:induction false} RemovalSound(run: seq<World>, steps: seq<Step>, k: nat, p: Proc, blocked: bool)
    requires IsRun(run, steps) && k < |steps| && steps[k] == SaveRemoval(p, blocked)
    ensures p in run[k].procs && run[k].procs[p].RemoveLoaded?
    ensures var w, w', h := run[k], run[k + 1], run[k].procs[p].host;
            && h in w.config.hosts && w'.config.hosts == w.config.hosts - {h}
            && w'.config.dflt == (if w.config.dflt == Some(h) then None else w.config.dflt)
            && w'.bindings == w.bindings && w'.states == w.states && w'.records == w.records
            && (forall sid | Live(w, sid) :: w.records[sid].host != h)
    ensures !run[k].procs[p].force ==>
              && !blocked && run[k].config.dflt != Some(run[k].procs[p].host)
              && forall project | project in run[k].bindings :: run[k].bindings[project] != Some(run[k].procs[p].host)
  {
    RunKeeps(run, steps, k);
    assert ProcInv(run[k], p) && Took(run[k], steps[k], run[k + 1]);
  }
}
