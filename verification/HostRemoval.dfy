/** The inspection behind `host remove`: loops over the stored bindings, workspace states, recovery
    roots and session records fill the report that the guard decides on. */
module HostRemoval {
  import opened Common
  import opened HostLifecycle

  type WorkspaceId = string

  /** A project binding; no host means it follows the machine default. */
  datatype Binding = Binding(project: Project, host: Option<Host>)

  datatype State = State(id: WorkspaceId, host: Host, remoteRetained: bool, synchronized: bool, runtime: bool)

  datatype SessionRecord = SessionRecord(id: Sid, workspace: WorkspaceId, leaseHeld: bool, ownerAlive: bool)

  /** One name in the session catalog: a temporary file or a lease, something that cannot be a record or
      cannot be read, or a record. */
  datatype SessionEntry = Skipped | Unusable | Session(record: SessionRecord)

  predicate IsWorkspaceId(id: WorkspaceId) {
    |id| == 16 && forall k | 0 <= k < |id| :: '0' <= id[k] <= '9' || 'a' <= id[k] <= 'f'
  }

  lemma IdExact(id: WorkspaceId)
    ensures IsWorkspaceId(id) <==> |id| == 16 && forall k | 0 <= k < |id| :: id[k] in "0123456789abcdef"
  {
    var digits := "0123456789abcdef";
    assert forall d | 0 <= d < 10 :: digits[d] == '0' + d as char;
    assert forall d | 10 <= d < 16 :: digits[d] == 'a' + (d - 10) as char;
    forall k | 0 <= k < |id| ensures '0' <= id[k] <= '9' || 'a' <= id[k] <= 'f' <==> id[k] in digits {
      if '0' <= id[k] <= '9' {
        assert digits[(id[k] - '0') as int] == id[k];
      } else if 'a' <= id[k] <= 'f' {
        assert digits[10 + (id[k] - 'a') as int] == id[k];
      }
    }
  }

  predicate Stored(states: seq<State>, id: WorkspaceId) {
    exists k | 0 <= k < |states| :: states[k].id == id
  }

  predicate StoredFor(states: seq<State>, id: WorkspaceId, name: Host) {
    exists k | 0 <= k < |states| :: states[k].id == id && states[k].host == name
  }

  predicate ActiveAt(e: SessionEntry, id: WorkspaceId) {
    e.Session? && e.record.leaseHeld && e.record.workspace == id
  }

  predicate ActiveIn(entries: seq<SessionEntry>, id: WorkspaceId) {
    exists k | 0 <= k < |entries| :: ActiveAt(entries[k], id)
  }

  /** What makes the inventory fail: an entry that cannot be used, or a session that holds its lease
      although its owner cannot be found or it names no workspace. */
  predicate Spoils(e: SessionEntry) {
    || e.Unusable?
    || (e.Session? && e.record.leaseHeld && (!e.record.ownerAlive || !IsWorkspaceId(e.record.workspace)))
  }

  predicate Retains(s: State, recovery: set<WorkspaceId>, active: set<WorkspaceId>) {
    s.remoteRetained || s.synchronized || s.runtime || s.id in recovery || s.id in active
  }

  /** The workspaces with a live session. */
  method ReadActiveSessions(entries: seq<SessionEntry>) returns (r: Result<set<WorkspaceId>>)
    ensures r.Err? <==> exists k | 0 <= k < |entries| :: Spoils(entries[k])
    ensures r.Ok? ==> forall id :: id in r.value <==> ActiveIn(entries, id)
  {
    var active: set<WorkspaceId> := {};
    for k := 0 to |entries|
      invariant forall j | 0 <= j < k :: !Spoils(entries[j])
      invariant forall id :: id in active <==> ActiveIn(entries[..k], id)
    {
      assert entries[..k + 1] == entries[..k] + [entries[k]];
      match entries[k] {
        case Skipped =>
        case Unusable =>
          return Err;
        case Session(record) =>
          if record.leaseHeld {
            if !record.ownerAlive || !IsWorkspaceId(record.workspace) {
              return Err;
            }
            active := active + {record.workspace};
          }
      }
      forall id ensures ActiveIn(entries[..k + 1], id) <==> ActiveIn(entries[..k], id) || ActiveAt(entries[k], id) {
        ActiveStep(entries, k, id);
      }
    }
    assert entries[..|entries|] == entries;
    r := Ok(active);
  }

  lemma ActiveStep(entries: seq<SessionEntry>, k: nat, id: WorkspaceId)
    requires k < |entries|
    ensures ActiveIn(entries[..k + 1], id) <==> ActiveIn(entries[..k], id) || ActiveAt(entries[k], id)
  {
    var all := entries[..k + 1];
    if ActiveIn(entries[..k], id) {
      var j :| 0 <= j < k && ActiveAt(entries[..k][j], id);
      assert all[j] == entries[j];
    }
    if ActiveAt(entries[k], id) {
      assert all[k] == entries[k];
    }
    if ActiveIn(all, id) {
      var j :| 0 <= j < k + 1 && ActiveAt(all[j], id);
      assert j < k ==> entries[..k][j] == all[j];
    }
  }

  method Binds(bindings: seq<Binding>, name: Host) returns (bound: bool)
    ensures bound <==> exists k | 0 <= k < |bindings| :: bindings[k].host == Some(name)
  {
    bound := false;
    for k := 0 to |bindings|
      invariant bound <==> exists j | 0 <= j < k :: bindings[j].host == Some(name)
    {
      if bindings[k].host == Some(name) {
        bound := true;
      }
    }
  }

  /** The states of one host: does one have a live session, does one retain anything? */
  method OwnStates(states: seq<State>, name: Host, recovery: set<WorkspaceId>, active: set<WorkspaceId>)
      returns (live: bool, retains: bool)
    ensures live <==> exists k | 0 <= k < |states| :: states[k].host == name && states[k].id in active
    ensures retains <==> exists k | 0 <= k < |states| :: states[k].host == name && Retains(states[k], recovery, active)
  {
    live, retains := false, false;
    for k := 0 to |states|
      invariant live <==> exists j | 0 <= j < k :: states[j].host == name && states[j].id in active
      invariant retains <==> exists j | 0 <= j < k :: states[j].host == name && Retains(states[j], recovery, active)
    {
      if states[k].host == name {
        live := live || states[k].id in active;
        retains := retains || Retains(states[k], recovery, active);
      }
    }
  }

  method StateIds(states: seq<State>) returns (ids: set<WorkspaceId>)
    ensures forall id :: id in ids <==> Stored(states, id)
  {
    ids := set k | 0 <= k < |states| :: states[k].id;
  }

  predicate Keeps(s: State, recovery: set<WorkspaceId>, entries: seq<SessionEntry>) {
    s.remoteRetained || s.synchronized || s.runtime || s.id in recovery || ActiveIn(entries, s.id)
  }

  /** Everything that refers to a host, live or not. */
  ghost predicate Referenced(config: Config, name: Host, bindings: seq<Binding>, states: seq<State>,
                             recovery: set<WorkspaceId>, entries: seq<SessionEntry>)
  {
    || config.dflt == Some(name)
    || (exists k | 0 <= k < |bindings| :: bindings[k].host == Some(name))
    || (exists k | 0 <= k < |states| :: states[k].host == name && Keeps(states[k], recovery, entries))
    || (exists id :: id in recovery && !Stored(states, id))
  }

  /** The whole inspection.  It reports a live session for the host also when a live session's
      workspace is stored nowhere, and a reference also when a recovery root is.  A list that cannot be
      read ends it. */
  method Inspect(config: Config, name: Host, bindings: Result<seq<Binding>>, states: Result<seq<State>>,
                 recovery: Result<set<WorkspaceId>>, entries: seq<SessionEntry>, force: bool)
      returns (r: Result<Report>)
    ensures r.Err? <==> name !in config.hosts || bindings.Err? || states.Err? || recovery.Err?
                        || exists k | 0 <= k < |entries| :: Spoils(entries[k])
    ensures r.Ok? ==> r.value.force == force
    ensures r.Ok? ==> (r.value.live <==>
                         exists id :: ActiveIn(entries, id) && (!Stored(states.value, id) || StoredFor(states.value, id, name)))
    ensures r.Ok? ==> (r.value.referenced <==>
                         Referenced(config, name, bindings.value, states.value, recovery.value, entries))
  {
    if name !in config.hosts || bindings.Err? || states.Err? || recovery.Err? {
      return Err;
    }
    var stored, roots := states.value, recovery.value;
    var bound := Binds(bindings.value, name);
    var ids := StateIds(stored);
    var sessions := ReadActiveSessions(entries);
    if sessions.Err? {
      return Err;
    }
    var active := sessions.value;
    var live, retains := OwnStates(stored, name, roots, active);
    var unattributed := active - ids;
    var lost := roots - ids;
    r := Ok(Report(live || unattributed != {}, config.dflt == Some(name) || bound || retains || lost != {}, force));
    LiveExact(stored, name, entries, active, live, unattributed);
    assert lost != {} <==> exists id :: id in roots && !Stored(stored, id) by {
      forall id ensures id in lost <==> id in roots && !Stored(stored, id) {
      }
    }
    assert forall k | 0 <= k < |stored| :: Retains(stored[k], roots, active) <==> Keeps(stored[k], roots, entries);
  }

  lemma LiveExact(states: seq<State>, name: Host, entries: seq<SessionEntry>, active: set<WorkspaceId>, live: bool,
                  unattributed: set<WorkspaceId>)
    requires forall id :: id in active <==> ActiveIn(entries, id)
    requires live <==> exists k | 0 <= k < |states| :: states[k].host == name && states[k].id in active
    requires forall id :: id in unattributed <==> id in active && !Stored(states, id)
    ensures live || unattributed != {} <==>
            exists id :: ActiveIn(entries, id) && (!Stored(states, id) || StoredFor(states, id, name))
  {
    if live {
      var k :| 0 <= k < |states| && states[k].host == name && states[k].id in active;
      assert ActiveIn(entries, states[k].id) && StoredFor(states, states[k].id, name);
    }
    if unattributed != {} {
      var id :| id in unattributed;
      assert ActiveIn(entries, id);
    }
  }

  /** Retained resources: of the host's own workspaces, or of a recovery root nobody can attribute. */
  predicate Blocks(name: Host, states: seq<State>, recovery: set<WorkspaceId>, entries: seq<SessionEntry>) {
    || (exists k | 0 <= k < |states| :: states[k].host == name && Keeps(states[k], recovery, entries))
    || (exists id :: id in recovery && !Stored(states, id))
  }

  /** A scan that has seen these lists. */
  ghost predicate Found(scan: Scan, name: Host, bindings: seq<Binding>, states: seq<State>, entries: seq<SessionEntry>) {
    && (scan.bound <==> exists k | 0 <= k < |bindings| :: bindings[k].host == Some(name))
    && (scan.active <==> exists id :: ActiveIn(entries, id) && (!Stored(states, id) || StoredFor(states, id, name)))
  }

  /** The callback of the locked update: inspection, guard, and the host taken out.  It goes through exactly
      when the lists can be read, the host is configured, no session counts as live on it, and it is
      forced or nothing refers to the host. */
  method Decide(config: Config, name: Host, bindings: Result<seq<Binding>>, states: Result<seq<State>>,
                recovery: Result<set<WorkspaceId>>, entries: seq<SessionEntry>, force: bool)
      returns (r: Result<Config>)
    ensures r.Ok? ==> bindings.Ok? && states.Ok? && recovery.Ok?
    ensures r.Ok? <==>
            && name in config.hosts && bindings.Ok? && states.Ok? && recovery.Ok?
            && (forall k | 0 <= k < |entries| :: !Spoils(entries[k]))
            && !(exists id :: ActiveIn(entries, id) && (!Stored(states.value, id) || StoredFor(states.value, id, name)))
            && (force || (config.dflt != Some(name) && !Blocks(name, states.value, recovery.value, entries)
                          && !exists k | 0 <= k < |bindings.value| :: bindings.value[k].host == Some(name)))
    ensures r.Ok? ==> r.value.hosts == config.hosts - {name}
                      && r.value.dflt == if config.dflt == Some(name) then None else config.dflt
  {
    var report := Inspect(config, name, bindings, states, recovery, entries, force);
    if report.Err? {
      return Err;
    }
    if Guard(report.value).Some? {
      return Err;
    }
    r := Ok(Without(config, name));
  }

  /** The protocol's removal step decides as the guard does on the report of an inspection that saw the same
      lists. */
  lemma StepDecides(config: Config, name: Host, bindings: seq<Binding>, states: seq<State>, recovery: set<WorkspaceId>,
                    entries: seq<SessionEntry>, report: Report, scan: Scan)
    requires report.live <==> exists id :: ActiveIn(entries, id) && (!Stored(states, id) || StoredFor(states, id, name))
    requires report.referenced <==> Referenced(config, name, bindings, states, recovery, entries)
    requires Found(scan, name, bindings, states, entries)
    ensures MayRemove(name, report.force, config, scan, Blocks(name, states, recovery, entries)) <==>
            name in config.hosts && Guard(report).None?
  {
    GuardExact(report);
  }
}
