/** Pruning old recovery archives: hide by rename, make the hiding durable, then reclaim. */
module Prune {
  import opened Common
  import opened Disk
  import opened FileTree

  type Id = nat

  /** Names in the recovery root: an archive under its own name, one hidden for pruning, anything else. */
  datatype EntryName = Own(archive: string) | Tomb(archive: string, nonce: nat) | Other(name: string)

  /** One directory of the root.  `maybe` holds every name a power loss may show it under, None for
      not at all; `left` is what has not been removed from its `content`. */
  datatype Folder = Folder(now: Option<EntryName>, maybe: set<Option<EntryName>>, left: set<Path>, content: set<Path>)

  type Shelf = map<Id, Folder>

  predicate Valid(s: Shelf) {
    && (forall id | id in s :: s[id].now in s[id].maybe && s[id].left <= s[id].content)
    && (forall i, j | i in s && j in s && i != j && s[i].now.Some? :: s[i].now != s[j].now)
  }

  predicate Listed(n: Option<EntryName>) {
    n.Some? && n.value.Own?
  }

  predicate Hidden(n: Option<EntryName>) {
    n.Some? && n.value.Tomb?
  }

  predicate MayBeListed(d: Folder) {
    exists n | n in d.maybe :: Listed(n)
  }

  // ---------------------------------------------------------------- safety of one state

  /** What a power loss in this state may leave of one directory: removals inside it are never synced. */
  predicate MayBecome(d: Folder, n: Option<EntryName>, paths: set<Path>) {
    n in d.maybe && d.left <= paths <= d.content
  }

  predicate FolderSafe(d: Folder) {
    MayBeListed(d) ==> d.left == d.content
  }

  predicate CrashSafe(s: Shelf) {
    forall id | id in s :: FolderSafe(s[id])
  }

  /** Safe means: whatever a crash or a power loss leaves, an archive the catalog lists is whole. */
  lemma CrashSafeMeans(s: Shelf)
    requires Valid(s)
    ensures CrashSafe(s) <==>
            forall id, n, paths | id in s && MayBecome(s[id], n, paths) && Listed(n) :: paths == s[id].content
  {
    if forall id, n, paths | id in s && MayBecome(s[id], n, paths) && Listed(n) :: paths == s[id].content {
      forall id | id in s && MayBeListed(s[id]) ensures s[id].left == s[id].content {
        var n :| n in s[id].maybe && Listed(n);
        assert MayBecome(s[id], n, s[id].left);
      }
    }
  }

  /** A hidden directory whose hiding is durable: no power loss can list it again. */
  predicate Reclaimable(d: Folder) {
    Hidden(d.now) ==> !MayBeListed(d)
  }

  predicate AllReclaimable(s: Shelf) {
    forall id | id in s :: Reclaimable(s[id])
  }

  // ---------------------------------------------------------------- steps

  function SettledFolder(d: Folder): Folder {
    d.(maybe := {d.now})
  }

  function Synced(s: Shelf): Shelf {
    map id | id in s :: SettledFolder(s[id])
  }

  function Renamed(s: Shelf, id: Id, n: EntryName): Shelf
    requires id in s
  {
    s[id := s[id].(now := Some(n), maybe := s[id].maybe + {Some(n)})]
  }

  /** At most some of the content, and finally the directory itself, is gone. */
  predicate Erasing(d: Folder, e: Folder) {
    && e.content == d.content && e.left <= d.left
    && e.maybe <= d.maybe + {None} && d.maybe <= e.maybe
    && (e.now == d.now || (e.now.None? && e.left == {} && None in e.maybe))
  }

  /** The directory is as it was, perhaps settled. */
  predicate Kept(d: Folder, e: Folder) {
    e == d || e == SettledFolder(d)
  }

  /** What a call has done to one directory once the archives in `done` are pruned. */
  predicate Progress(d: Folder, e: Folder, done: seq<string>) {
    if Hidden(d.now) then e.now.None? || e.now == d.now
    else if Listed(d.now) && d.now.value.archive in done then e.now.None? && e.maybe == {None}
    else Kept(d, e)
  }

  ghost predicate Progressed(s: Shelf, t: Shelf, done: seq<string>) {
    t.Keys == s.Keys && forall x | x in s :: Progress(s[x], t[x], done)
  }

  ghost predicate OthersKept(s: Shelf, t: Shelf, id: Id) {
    t.Keys == s.Keys && forall x | x in s && x != id :: Kept(s[x], t[x])
  }

  lemma CleanStep(s: Shelf, t: Shelf, u: Shelf, id: Id)
    requires Progressed(s, t, []) && OthersKept(t, u, id) && id in t && Hidden(t[id].now)
    requires u[id].now.None? || u[id].now == t[id].now
    ensures Progressed(s, u, [])
  {
    forall x | x in s ensures Progress(s[x], u[x], []) {
      assert Progress(s[x], t[x], []);
    }
  }

  lemma PruneStep(s: Shelf, t: Shelf, u: Shelf, done: seq<string>, archive: string, id: Id)
    requires Valid(t) && Progressed(s, t, done) && OthersKept(t, u, id)
    requires id in t && t[id].now == Some(Own(archive)) && u[id].now.None? && u[id].maybe == {None}
    ensures Progressed(s, u, done + [archive])
  {
    forall x | x in s ensures Progress(s[x], u[x], done + [archive]) {
      assert Progress(s[x], t[x], done);
    }
  }

  predicate OnlyErasing(s: Shelf, t: Shelf, id: Id)
    requires id in s
  {
    t.Keys == s.Keys && Erasing(s[id], t[id]) && forall x | x in s && x != id :: t[x] == s[x]
  }

  /** Taking one path out of a whole hidden directory is safe exactly when its hiding is durable. */
  lemma ReclaimSafeIff(s: Shelf, id: Id, q: Path)
    requires Valid(s) && CrashSafe(s) && id in s && Hidden(s[id].now) && q in s[id].left
    ensures CrashSafe(s[id := s[id].(left := s[id].left - {q})]) <==> Reclaimable(s[id])
  {
    var t := s[id := s[id].(left := s[id].left - {q})];
    assert q !in t[id].left && q in t[id].content;
    if CrashSafe(t) {
      assert FolderSafe(t[id]);
    } else {
      var x :| x in t && !FolderSafe(t[x]);
      assert FolderSafe(s[x]);
    }
  }

  /** Reclaiming this one may leave a damaged archive in the catalog. */
  predicate Endangered(d: Folder) {
    !Reclaimable(d) && d.left != {}
  }

  predicate NoneHidden(s: Shelf) {
    forall id | id in s :: !Hidden(s[id].now)
  }

  predicate AllSettled(s: Shelf) {
    forall id | id in s :: s[id].maybe == {s[id].now}
  }

  // ---------------------------------------------------------------- the order of names

  /** The order in which a directory listing gives hidden names: archive names all have one length, and so
      have the numbers behind them. */
  predicate Earlier(a: EntryName, b: EntryName)
    requires a.Tomb? && b.Tomb?
  {
    Less(a.archive, b.archive) || (a.archive == b.archive && a.nonce < b.nonce)
  }

  function HiddenOnes(s: Shelf): set<Id> {
    set x | x in s && Hidden(s[x].now)
  }

  /** The first of some hidden directories. */
  predicate IsFirstOf(s: Shelf, ids: set<Id>, id: Id)
    requires ids <= HiddenOnes(s)
  {
    id in ids && forall x | x in ids && x != id :: Earlier(s[id].now.value, s[x].now.value)
  }

  lemma {:induction false} FirstOfExists(s: Shelf, ids: set<Id>)
    requires Valid(s) && ids <= HiddenOnes(s) && ids != {}
    ensures exists id :: IsFirstOf(s, ids, id)
  {
    var m :| m in ids;
    var rest := ids - {m};
    if rest == {} {
      assert ids == {m};
      assert IsFirstOf(s, ids, m);
    } else {
      FirstOfExists(s, rest);
      var n :| IsFirstOf(s, rest, n);
      var a, b := s[m].now.value, s[n].now.value;
      LessTotal(a.archive, b.archive);
      if Earlier(a, b) {
        forall x | x in ids && x != m ensures Earlier(a, s[x].now.value) {
          if x != n {
            EarlierTransitive(a, b, s[x].now.value);
          }
        }
        assert IsFirstOf(s, ids, m);
      } else {
        assert s[m].now != s[n].now;
        assert IsFirstOf(s, ids, n);
      }
    }
  }

  lemma EarlierTransitive(a: EntryName, b: EntryName, c: EntryName)
    requires a.Tomb? && b.Tomb? && c.Tomb? && Earlier(a, b) && Earlier(b, c)
    ensures Earlier(a, c)
  {
    if Less(a.archive, b.archive) && Less(b.archive, c.archive) {
      LessTransitive(a.archive, b.archive, c.archive);
    }
  }

  lemma FirstOfUnique(s: Shelf, ids: set<Id>, m: Id, n: Id)
    requires Valid(s) && ids <= HiddenOnes(s) && IsFirstOf(s, ids, m) && IsFirstOf(s, ids, n)
    ensures m == n
  {
    LessTotal(s[m].now.value.archive, s[n].now.value.archive);
  }

  /** The tombstone that a cleaning takes first is one whose reclaiming may damage a listed archive. */
  ghost predicate Exposed(s: Shelf) {
    exists id :: IsFirstOf(s, HiddenOnes(s), id) && Endangered(s[id])
  }

  // ---------------------------------------------------------------- what a root went through

  /** What led to a state.  `Hide` renames an archive to a hidden name, `Unhide` renames it back. */
  datatype Op = Begin | Hide | Unhide | RenameFails | Sync | SyncFails | Erase

  datatype Moment = Moment(op: Op, shelf: Shelf)

  predicate ValidLog(log: seq<Moment>) {
    log != [] ==> ValidLog(log[..|log| - 1]) && Valid(log[|log| - 1].shelf)
  }

  /** Every state was safe. */
  predicate SafeLog(log: seq<Moment>) {
    log != [] ==> SafeLog(log[..|log| - 1]) && CrashSafe(log[|log| - 1].shelf)
  }

  /** The last state lies after a hiding rename and before a sync that worked or the rename back. */
  predicate Unsettled(log: seq<Moment>) {
    && log != []
    && match log[|log| - 1].op
       case Hide => true
       case RenameFails => Unsettled(log[..|log| - 1])
       case SyncFails => Unsettled(log[..|log| - 1])
       case _ => false
  }

  /** One directory is hidden, and a power loss may list it again. */
  predicate OneOpen(s: Shelf) {
    exists id :: id in s && HiddenOnes(s) == {id} && !Reclaimable(s[id])
  }

  predicate Fits(log: seq<Moment>)
    requires log != []
  {
    if Unsettled(log) then OneOpen(log[|log| - 1].shelf) else AllReclaimable(log[|log| - 1].shelf)
  }

  /** A hidden directory that a power loss may list again was there exactly in the unsettled states, and
      then it was the only hidden one. */
  predicate Told(log: seq<Moment>) {
    log != [] ==> Told(log[..|log| - 1]) && Fits(log)
  }

  lemma Appended(log: seq<Moment>, m: Moment)
    ensures ValidLog(log + [m]) <==> ValidLog(log) && Valid(m.shelf)
    ensures SafeLog(log + [m]) <==> SafeLog(log) && CrashSafe(m.shelf)
    ensures Told(log + [m]) <==> Told(log) && Fits(log + [m])
    ensures Unsettled(log + [m]) <==> m.op.Hide? || ((m.op.RenameFails? || m.op.SyncFails?) && Unsettled(log))
    ensures (log + [m])[|log|] == m
  {
    assert (log + [m])[..|log|] == log;
  }

  /** The recursive predicates speak of every state on the way. */
  lemma {:induction false} EachMoment(log: seq<Moment>, k: nat)
    requires k < |log|
    ensures ValidLog(log) ==> Valid(log[k].shelf)
    ensures SafeLog(log) ==> CrashSafe(log[k].shelf)
    ensures Told(log) ==> Fits(log[..k + 1])
  {
    if k < |log| - 1 {
      EachMoment(log[..|log| - 1], k);
      assert log[..|log| - 1][..k + 1] == log[..k + 1];
    } else {
      assert log[..k + 1] == log;
    }
  }

  datatype PruneResult = PruneResult(archive: string, cleanupPending: bool)

  /** How the attempt at one archive ends.  `Stuck`: neither its hiding nor its rollback went through. */
  datatype Attempt = NotHidden | Stuck | HalfReclaimed | NotSettled | Gone

  /** What may go wrong: a look, a rename, a sync or a removal fails, no fresh name is found, the call is
      cancelled, or the archive was changed. */
  datatype Fault = LookFault | NameFault | RenameFault | SyncFault | RemoveFault | Cancelled | Changed

  /** Which faults lead to which end of an attempt. */
  predicate Explains(before: seq<Fault>, after: seq<Fault>, attempt: Attempt) {
    match attempt
    case NotHidden =>
      || after == before + [LookFault] || after == before + [NameFault] || after == before + [RenameFault]
      || after == before + [SyncFault] || after == before + [SyncFault, SyncFault]
    case Stuck => after == before + [SyncFault, RenameFault]
    case HalfReclaimed => after == before + [RemoveFault]
    case NotSettled => after == before + [SyncFault]
    case Gone => after == before
  }

  /** The faults tell a stuck archive and one that is gone from every other end. */
  lemma FaultsTell(before: seq<Fault>, after: seq<Fault>, attempt: Attempt)
    requires Explains(before, after, attempt)
    ensures attempt.Gone? <==> after == before
    ensures attempt.Stuck? <==> after == before + [SyncFault, RenameFault]
  {
    var n := |before|;
    if |after| == n + 2 {
      assert attempt.NotHidden? ==> after[n + 1] == SyncFault;
      assert (before + [SyncFault, RenameFault])[n + 1] == RenameFault;
    }
  }

  lemma OtherFault(before: seq<Fault>, f: Fault)
    requires f != SyncFault
    ensures before + [f] != before + [SyncFault]
  {
    assert (before + [f])[|before|] != (before + [SyncFault])[|before|];
  }

  /** The undoing comes after one failed sync. */
  lemma AfterSyncFault(before: seq<Fault>, after: seq<Fault>, attempt: Attempt)
    requires attempt.NotHidden? ==> after == before + [SyncFault] || after == before + [SyncFault] + [SyncFault]
    requires attempt.Stuck? ==> after == before + [SyncFault] + [RenameFault]
    requires attempt.NotHidden? || attempt.Stuck?
    ensures Explains(before, after, attempt)
    ensures attempt.NotHidden? ==> (after == before + [SyncFault] <==> |after| == |before| + 1)
  {
    assert before + [SyncFault] + [SyncFault] == before + [SyncFault, SyncFault];
    assert before + [SyncFault] + [RenameFault] == before + [SyncFault, RenameFault];
  }

  predicate InUse(s: Shelf, n: EntryName) {
    exists x :: x in s && s[x].now == Some(n)
  }

  predicate AllListed(s: Shelf, selected: seq<string>) {
    forall a | a in selected :: exists x :: x in s && s[x].now == Some(Own(a))
  }

  /** The held recovery root; `log` holds every state it went through, `faults` what went wrong. */
  class RecoveryRoot {
    var shelf: Shelf
    var log: seq<Moment>
    ghost var faults: seq<Fault>

    constructor (shelf: Shelf)
      requires Valid(shelf)
      ensures this.shelf == shelf && log == [Moment(Begin, shelf)] && Ready() && faults == []
      ensures (SafeLog(log) <==> CrashSafe(shelf)) && (Told(log) <==> AllReclaimable(shelf))
    {
      this.shelf, log, faults := shelf, [Moment(Begin, shelf)], [];
      Appended([], Moment(Begin, shelf));
      assert [] + [Moment(Begin, shelf)] == [Moment(Begin, shelf)];
    }

    ghost predicate Ready()
      reads this
    {
      Valid(shelf) && log != [] && log[|log| - 1].shelf == shelf && ValidLog(log)
    }

    /** Any call may fail. */
    method Fails(f: Fault) returns (hit: bool)
      modifies `faults
      ensures faults == if hit then old(faults) + [f] else old(faults)
    {
      hit := *;
      if hit {
        faults := faults + [f];
      }
    }

    method Lstat(n: EntryName) returns (ok: bool, id: Option<Id>)
      modifies `faults
      ensures faults == if ok then old(faults) else old(faults) + [LookFault]
      ensures id.Some? ==> ok && id.value in shelf && shelf[id.value].now == Some(n)
      ensures ok && id.None? ==> forall x | x in shelf :: shelf[x].now != Some(n)
    {
      var hit := Fails(LookFault);
      if hit {
        return false, None;
      }
      ok := true;
      if x :| x in shelf && shelf[x].now == Some(n) {
        id := Some(x);
      } else {
        id := None;
      }
    }

    method Rename(id: Id, n: EntryName) returns (ok: bool)
      requires Ready() && id in shelf && Valid(Renamed(shelf, id, n))
      modifies this
      ensures Ready() && shelf == if ok then Renamed(old(shelf), id, n) else old(shelf)
      ensures log == old(log) + [Moment(if !ok then RenameFails else if n.Tomb? then Op.Hide else Unhide, shelf)]
      ensures SafeLog(log) <==> old(SafeLog(log)) && CrashSafe(shelf)
      ensures Told(log) <==> old(Told(log)) && Fits(log)
      ensures Unsettled(log) <==> if ok then n.Tomb? else old(Unsettled(log))
      ensures faults == if ok then old(faults) else old(faults) + [RenameFault]
    {
      var hit := Fails(RenameFault);
      ok := !hit;
      if ok {
        shelf := Renamed(shelf, id, n);
      }
      Note(if !ok then RenameFails else if n.Tomb? then Op.Hide else Unhide);
    }

    method Note(op: Op)
      requires Valid(shelf) && ValidLog(log)
      modifies `log
      ensures Ready() && log == old(log) + [Moment(op, shelf)]
      ensures SafeLog(log) <==> old(SafeLog(log)) && CrashSafe(shelf)
      ensures Told(log) <==> old(Told(log)) && Fits(log)
      ensures Unsettled(log) <==> op.Hide? || ((op.RenameFails? || op.SyncFails?) && old(Unsettled(log)))
    {
      Appended(log, Moment(op, shelf));
      log := log + [Moment(op, shelf)];
    }

    method SyncRoot() returns (ok: bool)
      requires Ready()
      modifies this
      ensures Ready() && shelf == if ok then Synced(old(shelf)) else old(shelf)
      ensures log == old(log) + [Moment(if ok then Sync else SyncFails, shelf)]
      ensures SafeLog(log) == old(SafeLog(log))
      ensures old(Told(log)) ==> Told(log)
      ensures Unsettled(log) <==> !ok && old(Unsettled(log))
      ensures faults == if ok then old(faults) else old(faults) + [SyncFault]
    {
      ghost var before := log;
      var hit := Fails(SyncFault);
      ok := !hit;
      SyncSafe(shelf);
      if ok {
        shelf := Synced(shelf);
      }
      Note(if ok then Sync else SyncFails);
      assert before[..|before| - 1] + [before[|before| - 1]] == before;
    }

    /** Removes a hidden tree piece by piece; a fault or a cancelled call may stop it anywhere. */
    method RemoveTree(id: Id) returns (ok: bool)
      requires Ready() && id in shelf
      modifies this
      ensures Ready() && OnlyErasing(old(shelf), shelf, id) && old(log) <= log
      ensures shelf[id].now == if ok then None else old(shelf)[id].now
      ensures old(SafeLog(log)) && !(MayBeListed(old(shelf)[id]) && old(shelf)[id].left != {}) ==> SafeLog(log)
      ensures ok && MayBeListed(old(shelf)[id]) && old(shelf)[id].left != {} ==> !SafeLog(log)
      ensures !old(SafeLog(log)) ==> !SafeLog(log)
      ensures AllReclaimable(old(shelf)) ==> AllReclaimable(shelf) && (old(Told(log)) ==> Told(log))
      ensures faults == if ok then old(faults) else old(faults) + [RemoveFault]
    {
      while shelf[id].left != {}
        invariant Ready() && OnlyErasing(old(shelf), shelf, id) && shelf[id].now == old(shelf)[id].now && old(log) <= log
        invariant old(SafeLog(log)) && !(MayBeListed(old(shelf)[id]) && old(shelf)[id].left != {}) ==> SafeLog(log)
        invariant MayBeListed(old(shelf)[id]) && shelf[id].left != old(shelf)[id].left ==> !SafeLog(log)
        invariant !old(SafeLog(log)) ==> !SafeLog(log)
        invariant AllReclaimable(old(shelf)) ==> AllReclaimable(shelf) && (old(Told(log)) ==> Told(log))
        invariant faults == old(faults)
        decreases shelf[id].left
      {
        var hit := Fails(RemoveFault);
        if hit {
          return false;
        }
        var q :| q in shelf[id].left;
        RemovePiece(id, q);
      }
      var hit := Fails(RemoveFault);
      if hit {
        return false;
      }
      RemoveEmpty(id);
      return true;
    }

    method RemovePiece(id: Id, q: Path)
      requires Ready() && id in shelf && q in shelf[id].left
      modifies `shelf, `log
      ensures Ready() && shelf == old(shelf)[id := old(shelf)[id].(left := old(shelf)[id].left - {q})] && old(log) <= log
      ensures SafeLog(log) <==> old(SafeLog(log)) && !MayBeListed(old(shelf)[id])
      ensures AllReclaimable(old(shelf)) ==> AllReclaimable(shelf) && (old(Told(log)) ==> Told(log))
    {
      ghost var before, past := shelf, log;
      EachMoment(log, |log| - 1);
      shelf := shelf[id := shelf[id].(left := shelf[id].left - {q})];
      PieceSafe(before, id, q);
      ErasedReclaimable(before, shelf, id);
      Note(Erase);
    }

    /** The directory itself, once it is empty. */
    method RemoveEmpty(id: Id)
      requires Ready() && id in shelf && shelf[id].left == {}
      modifies `shelf, `log
      ensures Ready() && shelf == old(shelf)[id := old(shelf)[id].(now := None, maybe := old(shelf)[id].maybe + {None})]
      ensures old(log) <= log && SafeLog(log) == old(SafeLog(log))
      ensures AllReclaimable(old(shelf)) ==> AllReclaimable(shelf) && (old(Told(log)) ==> Told(log))
    {
      ghost var before := shelf;
      EachMoment(log, |log| - 1);
      shelf := shelf[id := shelf[id].(now := None, maybe := shelf[id].maybe + {None})];
      RemovedSafe(before, id);
      ErasedReclaimable(before, shelf, id);
      Note(Erase);
    }

    /** Reclaims what earlier calls left hidden, in the order of the names.  Nothing is synced before the
        first removal, so a call that completes is safe exactly when the first hiding was durable. */
    method CleanTombstones() returns (ok: bool)
      requires Ready()
      modifies this
      ensures Ready() && Progressed(old(shelf), shelf, []) && old(log) <= log
      ensures ok ==> NoneHidden(shelf)
      ensures old(SafeLog(log)) && !Exposed(old(shelf)) ==> SafeLog(log)
      ensures ok ==> (SafeLog(log) <==> old(SafeLog(log)) && !Exposed(old(shelf)))
      ensures AllReclaimable(old(shelf)) ==> AllReclaimable(shelf) && (old(Told(log)) ==> Told(log))
      ensures if ok then faults == old(faults)
              else exists f :: f in {Cancelled, RemoveFault, SyncFault} && faults == old(faults) + [f]
    {
      var entries := HiddenOnes(shelf);
      ghost var exposed, start := Exposed(shelf), SafeLog(log);
      while entries != {}
        invariant Ready() && Progressed(old(shelf), shelf, []) && old(log) <= log
        invariant entries == HiddenOnes(shelf)
        invariant (shelf == old(shelf) && log == old(log))
                  || (!Exposed(shelf) && (SafeLog(log) <==> start && !exposed))
        invariant AllReclaimable(old(shelf)) ==> AllReclaimable(shelf) && (old(Told(log)) ==> Told(log))
        invariant faults == old(faults)
        decreases entries
      {
        var cancelled := Fails(Cancelled);
        if cancelled {
          return false;
        }
        var id;
        ok, id := ReclaimFirst(entries, old(shelf));
        if !ok { return; }
        entries := entries - {id};
      }
      assert NoneHidden(shelf) by {
        forall x | x in shelf ensures !Hidden(shelf[x].now) {
          assert x !in HiddenOnes(shelf);
        }
      }
      ok := true;
    }

    /** One round: the first of the hidden directories that are left. */
    method ReclaimFirst(entries: set<Id>, ghost s0: Shelf) returns (ok: bool, id: Id)
      requires Ready() && entries == HiddenOnes(shelf) && entries != {} && Progressed(s0, shelf, [])
      modifies this
      ensures Ready() && Progressed(s0, shelf, []) && old(log) <= log && id in entries
      ensures ok ==> HiddenOnes(shelf) == entries - {id} && !Exposed(shelf)
      ensures old(SafeLog(log)) && !Exposed(old(shelf)) ==> SafeLog(log)
      ensures ok ==> (SafeLog(log) <==> old(SafeLog(log)) && !Exposed(old(shelf)))
      ensures AllReclaimable(old(shelf)) ==> AllReclaimable(shelf) && (old(Told(log)) ==> Told(log))
      ensures if ok then faults == old(faults)
              else faults == old(faults) + [RemoveFault] || faults == old(faults) + [SyncFault]
    {
      FirstOfExists(shelf, entries);
      id :| IsFirstOf(shelf, entries, id);
      ghost var before := shelf;
      ExposedIff(before, id);
      ok := ReclaimOne(id);
      CleanStep(s0, before, shelf, id);
      if ok {
        OneLessHidden(before, shelf, id);
      }
    }

    /** One hidden directory: remove it, then sync the root. */
    method ReclaimOne(id: Id) returns (ok: bool)
      requires Ready() && id in shelf && Hidden(shelf[id].now)
      modifies this
      ensures Ready() && OthersKept(old(shelf), shelf, id)
      ensures shelf[id].now.None? || shelf[id].now == old(shelf)[id].now
      ensures ok ==> shelf[id].now.None? && AllSettled(shelf)
      ensures old(log) <= log && (old(SafeLog(log)) && !Endangered(old(shelf)[id]) ==> SafeLog(log))
      ensures ok ==> (SafeLog(log) <==> old(SafeLog(log)) && !Endangered(old(shelf)[id]))
      ensures AllReclaimable(old(shelf)) ==> AllReclaimable(shelf) && (old(Told(log)) ==> Told(log))
      ensures if ok then faults == old(faults)
              else faults == old(faults) + [RemoveFault] || faults == old(faults) + [SyncFault]
    {
      ok := RemoveTree(id);
      if !ok { return; }
      ok := SyncRoot();
    }

    /** Chooses an unused hidden name; after eight used ones it gives up. */
    method NewTombstone(archive: string) returns (n: Option<EntryName>, ghost taken: seq<EntryName>)
      modifies `faults
      ensures n.Some? ==> n.value.Tomb? && n.value.archive == archive && forall x | x in shelf :: shelf[x].now != n
      ensures if n.Some? then faults == old(faults)
              else faults == old(faults) + [LookFault] || (faults == old(faults) + [NameFault] && |taken| == 8)
      ensures |taken| <= 8 && forall t | t in taken :: t.Tomb? && t.archive == archive && InUse(shelf, t)
    {
      taken := [];
      for tries := 0 to 8
        invariant faults == old(faults) && |taken| == tries
        invariant forall t | t in taken :: t.Tomb? && t.archive == archive && InUse(shelf, t)
      {
        var nonce: nat :| true;
        var ok, used := Lstat(Tomb(archive, nonce));
        if !ok {
          return None, taken;
        }
        if used.None? {
          return Some(Tomb(archive, nonce)), taken;
        }
        taken := taken + [Tomb(archive, nonce)];
      }
      faults := faults + [NameFault];
      return None, taken;
    }

    /** One selected archive: hide, sync, reclaim, sync; a hiding that cannot be synced is undone. */
    method PruneOne(archive: string, id: Id) returns (attempt: Attempt)
      requires Ready() && id in shelf && shelf[id].now == Some(Own(archive))
      modifies this
      ensures Ready() && OthersKept(old(shelf), shelf, id) && old(log) <= log && SafeLog(log) == old(SafeLog(log))
      ensures Attempted(old(shelf)[id], shelf[id], attempt)
      ensures Explains(old(faults), faults, attempt)
      ensures attempt.NotHidden? && faults == old(faults) + [SyncFault] ==> AllSettled(shelf)
      ensures NoneHidden(old(shelf)) && old(Told(log)) ==> Told(log)
      ensures attempt.Gone? ==> |old(log)| < |log| && log[|old(log)|].op.Hide?
    {
      ghost var s0 := shelf;
      var hidden;
      hidden, attempt := Hide(archive, id);
      if hidden {
        ghost var s1 := shelf;
        attempt := Reclaim(id);
        KeptTwice(s0, s1, shelf, id);
      }
    }

    /** Renames the archive to a fresh hidden name and syncs the root, or undoes the renaming. */
    method Hide(archive: string, id: Id) returns (hidden: bool, attempt: Attempt)
      requires Ready() && id in shelf && shelf[id].now == Some(Own(archive))
      modifies this
      ensures Ready() && OthersKept(old(shelf), shelf, id) && old(log) <= log && SafeLog(log) == old(SafeLog(log))
      ensures hidden ==> Hidden(shelf[id].now) && Reclaimable(shelf[id])
      ensures !hidden ==> (attempt.NotHidden? || attempt.Stuck?) && Attempted(old(shelf)[id], shelf[id], attempt)
      ensures hidden ==> faults == old(faults)
      ensures !hidden ==> Explains(old(faults), faults, attempt)
      ensures !hidden && attempt.NotHidden? && faults == old(faults) + [SyncFault] ==> AllSettled(shelf)
      ensures NoneHidden(old(shelf)) ==> (old(Told(log)) ==> Told(log)) && (hidden ==> AllReclaimable(shelf))
      ensures hidden ==> |old(log)| < |log| && log[|old(log)|].op.Hide?
    {
      ghost var s0 := shelf;
      hidden, attempt := false, NotHidden;
      var renamed := Conceal(archive, id);
      if !renamed { return; }
      ghost var s1 := shelf;
      hidden, attempt := SettleHiding(archive, id);
      KeptTwice(s0, s1, shelf, id);
    }

    /** What follows the hiding rename. */
    method SettleHiding(archive: string, id: Id) returns (hidden: bool, attempt: Attempt)
      requires Ready() && id in shelf && Hidden(shelf[id].now) && Some(Own(archive)) in shelf[id].maybe && Unsettled(log)
      requires forall x | x in shelf :: shelf[x].now != Some(Own(archive))
      modifies this
      ensures Ready() && OthersKept(old(shelf), shelf, id) && old(log) <= log && SafeLog(log) == old(SafeLog(log))
      ensures if hidden then shelf == Synced(old(shelf)) && faults == old(faults)
              else (attempt.NotHidden? || attempt.Stuck?) && Explains(old(faults), faults, attempt)
      ensures !hidden && attempt.NotHidden? ==> shelf[id].now == Some(Own(archive)) && shelf[id].left == old(shelf)[id].left
      ensures !hidden && attempt.Stuck? ==> shelf == old(shelf) && !Reclaimable(shelf[id])
      ensures !hidden && attempt.NotHidden? && faults == old(faults) + [SyncFault] ==> AllSettled(shelf)
      ensures HiddenOnes(old(shelf)) == {id} && old(Told(log)) ==> Told(log)
    {
      attempt := NotHidden;
      hidden := SyncRoot();
      if hidden { return; }
      attempt := Undo(archive, id);
      AfterSyncFault(old(faults), faults, attempt);
    }

    /** The rename alone. */
    method Conceal(archive: string, id: Id) returns (renamed: bool)
      requires Ready() && id in shelf && shelf[id].now == Some(Own(archive))
      modifies this
      ensures Ready() && OthersKept(old(shelf), shelf, id) && old(log) <= log && SafeLog(log) == old(SafeLog(log))
      ensures if renamed then faults == old(faults) && Hidden(shelf[id].now) && Some(Own(archive)) in shelf[id].maybe
                              && shelf[id].left == old(shelf)[id].left && Unsettled(log)
                              && log[|old(log)|..] == [Moment(Op.Hide, shelf)]
              else shelf == old(shelf) && Explains(old(faults), faults, NotHidden) && faults != old(faults) + [SyncFault]
      ensures renamed ==> forall x | x in shelf :: shelf[x].now != Some(Own(archive))
      ensures NoneHidden(old(shelf)) ==> (old(Told(log)) ==> Told(log)) && (renamed ==> HiddenOnes(shelf) == {id})
    {
      ghost var s0 := shelf;
      EachMoment(log, |log| - 1);
      assert Valid(s0) && s0[id].now in s0[id].maybe;
      renamed := false;
      var tombstone, _ := NewTombstone(archive);
      OtherFault(old(faults), LookFault);
      OtherFault(old(faults), NameFault);
      OtherFault(old(faults), RenameFault);
      if tombstone.None? { return; }
      assert shelf == s0 && forall x | x in s0 :: s0[x].now != Some(tombstone.value);
      ListedRenamed(s0, id, tombstone.value);
      NowOpen(s0, id, tombstone.value);
      renamed := Rename(id, tombstone.value);
    }

    /** Renames a hidden archive back after its hiding could not be synced. */
    method Undo(archive: string, id: Id) returns (attempt: Attempt)
      requires Ready() && id in shelf && Hidden(shelf[id].now) && Some(Own(archive)) in shelf[id].maybe
      requires forall x | x in shelf :: shelf[x].now != Some(Own(archive))
      modifies this
      ensures Ready() && OthersKept(old(shelf), shelf, id) && old(log) <= log && SafeLog(log) == old(SafeLog(log))
      ensures attempt.NotHidden? || attempt.Stuck?
      ensures attempt.NotHidden? ==> shelf[id].now == Some(Own(archive)) && shelf[id].left == old(shelf)[id].left
      ensures attempt.Stuck? ==> shelf == old(shelf) && !Reclaimable(shelf[id]) && faults == old(faults) + [RenameFault]
      ensures attempt.NotHidden? ==> faults == old(faults) || faults == old(faults) + [SyncFault]
      ensures attempt.NotHidden? && faults == old(faults) ==> AllSettled(shelf)
      ensures attempt.Stuck? ==> log == old(log) + [Moment(RenameFails, shelf)]
      ensures attempt.NotHidden? ==>
                log == old(log) + [Moment(Unhide, Renamed(old(shelf), id, Own(archive))),
                                   Moment(if faults == old(faults) then Sync else SyncFails, shelf)]
      ensures HiddenOnes(old(shelf)) == {id} && old(Unsettled(log)) && old(Told(log)) ==> Told(log)
    {
      ListedRenamed(shelf, id, Own(archive));
      ghost var before := log;
      var ok := Rename(id, Own(archive));
      assert before[..|before| - 1] + [before[|before| - 1]] == before;
      if !ok {
        return Stuck;
      }
      NoneOpen(old(shelf), id, Own(archive));
      var _ := SyncRoot();
      return NotHidden;
    }

    method Reclaim(id: Id) returns (attempt: Attempt)
      requires Ready() && id in shelf && Hidden(shelf[id].now) && Reclaimable(shelf[id])
      modifies this
      ensures Ready() && OthersKept(old(shelf), shelf, id) && old(log) <= log && SafeLog(log) == old(SafeLog(log))
      ensures !attempt.NotHidden? && !attempt.Stuck? && Attempted(old(shelf)[id], shelf[id], attempt)
      ensures Explains(old(faults), faults, attempt)
      ensures AllReclaimable(old(shelf)) && old(Told(log)) ==> Told(log)
    {
      var ok := RemoveTree(id);
      if !ok {
        return HalfReclaimed;
      }
      ok := SyncRoot();
      return if ok then Gone else NotSettled;
    }

    /** Prunes the selected archives in order.  `stuck` says that the last one is hidden by a rename
        that neither was synced nor could be undone. */
    method PruneArchives(selected: seq<string>) returns (results: seq<PruneResult>, ok: bool, ghost stuck: bool)
      requires Ready()
      modifies this
      ensures Ready() && old(log) <= log && Reported(old(shelf), shelf, selected, results)
      ensures ok ==> Completed(old(shelf), shelf, selected, results)
      ensures old(SafeLog(log)) && !Exposed(old(shelf)) ==> SafeLog(log)
      ensures ok ==> (SafeLog(log) <==> old(SafeLog(log)) && !Exposed(old(shelf)))
      ensures AllReclaimable(old(shelf)) && old(Told(log)) ==> Told(log)
      ensures ok && selected != [] ==> exists k :: |old(log)| <= k < |log| && log[k].op.Hide?
      ensures AllReclaimable(old(shelf)) ==> (AllReclaimable(shelf) <==> !stuck)
      ensures old(faults) <= faults
      ensures ok <==> faults == old(faults) && Distinct(selected) && AllListed(old(shelf), selected)
      ensures stuck <==> faults == old(faults) + [SyncFault, RenameFault]
    {
      results, ok, stuck := [], false, false;
      ghost var s0 := shelf;
      var good := Selectable(selected);
      if !good {
        NothingReported(s0, selected);
        return;
      }
      ok := CleanTombstones();
      if ok {
        results, ok, stuck := PruneSelected(selected, s0);
      } else {
        assert selected[..0] == [];
        Verdict(s0, shelf, selected, 0, results);
      }
    }

    /** The loop over the selected archives. */
    method PruneSelected(selected: seq<string>, ghost s0: Shelf) returns (results: seq<PruneResult>, ok: bool, ghost stuck: bool)
      requires Ready() && Progressed(s0, shelf, []) && NoneHidden(shelf)
      requires Distinct(selected) && AllListed(s0, selected)
      modifies this
      ensures Ready() && old(log) <= log && SafeLog(log) == old(SafeLog(log)) && Reported(s0, shelf, selected, results)
      ensures ok ==> Completed(s0, shelf, selected, results)
      ensures AllReclaimable(shelf) <==> !stuck
      ensures old(Told(log)) ==> Told(log)
      ensures ok && selected != [] ==> exists k :: |old(log)| <= k < |log| && log[k].op.Hide?
      ensures old(faults) <= faults && (ok <==> faults == old(faults))
      ensures stuck <==> faults == old(faults) + [SyncFault, RenameFault]
    {
      results, ok, stuck := [], true, false;
      assert selected[..0] == [];
      while |results| < |selected|
        invariant ok && !stuck && |results| <= |selected| && results == Done(selected[..|results|])
        invariant Ready() && old(log) <= log && SafeLog(log) == old(SafeLog(log)) && Progressed(s0, shelf, selected[..|results|])
        invariant NoneHidden(shelf) && faults == old(faults) && (old(Told(log)) ==> Told(log))
        invariant |results| > 0 ==> exists k :: |old(log)| <= k < |log| && log[k].op.Hide?
      {
        ghost var n := |results|;
        ok, results, stuck := PruneAt(selected, results, s0);
        if !ok { return; }
        assert selected[..n + 1] == selected[..n] + [selected[n]];
      }
      assert selected[..|results|] == selected;
      Verdict(s0, shelf, selected, |results|, results);
    }

    /** One round of the loop. */
    method PruneAt(selected: seq<string>, done: seq<PruneResult>, ghost s0: Shelf)
        returns (ok: bool, results: seq<PruneResult>, ghost stuck: bool)
      requires Ready() && |done| < |selected| && done == Done(selected[..|done|])
      requires Progressed(s0, shelf, selected[..|done|]) && NoneHidden(shelf)
      requires Distinct(selected) && AllListed(s0, selected)
      modifies this
      ensures Ready() && old(log) <= log && SafeLog(log) == old(SafeLog(log))
      ensures ok ==> !stuck && results == done + [PruneResult(selected[|done|], false)] && NoneHidden(shelf)
                     && Progressed(s0, shelf, selected[..|done|] + [selected[|done|]])
      ensures !ok ==> Reported(s0, shelf, selected, results) && (AllReclaimable(shelf) <==> !stuck)
      ensures old(Told(log)) ==> Told(log)
      ensures ok ==> |old(log)| < |log| && log[|old(log)|].op.Hide?
      ensures old(faults) <= faults && (ok <==> faults == old(faults))
      ensures stuck <==> faults == old(faults) + [SyncFault, RenameFault]
    {
      var archive := selected[|done|];
      ghost var n, t := |done|, shelf;
      StillListed(s0, t, selected, n);
      var stopped, attempt;
      ghost var id;
      stopped, attempt, id := PruneNext(archive);
      if stopped {
        Verdict(s0, t, selected, n, done);
        return false, done, false;
      }
      FaultsTell(old(faults), faults, attempt);
      if !attempt.Gone? {
        StopStep(s0, t, shelf, selected, n, id, attempt);
        return false, done + LastResult(archive, attempt), attempt.Stuck?;
      }
      PruneStep(s0, t, shelf, selected[..n], archive, id);
      StillNoneHidden(t, shelf, id);
      return true, done + [PruneResult(archive, false)], false;
    }

    /** Looks at the next archive and prunes it, unless the call is cancelled or the look fails. */
    method PruneNext(archive: string) returns (stopped: bool, attempt: Attempt, ghost id: Id)
      requires Ready() && exists x :: x in shelf && shelf[x].now == Some(Own(archive))
      modifies this
      ensures Ready() && old(log) <= log && SafeLog(log) == old(SafeLog(log))
      ensures stopped ==> shelf == old(shelf)
                          && (faults == old(faults) + [Cancelled] || faults == old(faults) + [LookFault])
      ensures !stopped ==> id in shelf && OthersKept(old(shelf), shelf, id) && old(shelf)[id].now == Some(Own(archive))
      ensures !stopped ==> Attempted(old(shelf)[id], shelf[id], attempt) && Explains(old(faults), faults, attempt)
      ensures stopped ==> log == old(log)
      ensures NoneHidden(old(shelf)) && old(Told(log)) ==> Told(log)
      ensures !stopped && attempt.Gone? ==> |old(log)| < |log| && log[|old(log)|].op.Hide?
    {
      attempt, id := NotHidden, 0;
      stopped := Fails(Cancelled);
      if stopped { return; }
      var ok, found := Lstat(Own(archive));
      if !ok || found.None? {
        return true, attempt, id;
      }
      id := found.value;
      attempt := PruneOne(archive, found.value);
    }

    /** The selection still is what the catalog lists, without repetition. */
    method Selectable(selected: seq<string>) returns (good: bool)
      modifies `faults
      ensures good <==> faults == old(faults) && Distinct(selected) && AllListed(shelf, selected)
      ensures faults == old(faults) || faults == old(faults) + [Changed]
    {
      var changed := Fails(Changed);
      good := !changed && Distinct(selected) && AllListed(shelf, selected);
    }
  }

  /** What is not yet pruned is still listed. */
  lemma StillListed(s: Shelf, t: Shelf, selected: seq<string>, n: nat)
    requires n < |selected| && Progressed(s, t, selected[..n]) && Distinct(selected) && AllListed(s, selected)
    ensures exists x :: x in t && t[x].now == Some(Own(selected[n]))
  {
    assert selected[n] in selected && selected[n] !in selected[..n];
    var x :| x in s && s[x].now == Some(Own(selected[n]));
    assert Progress(s[x], t[x], selected[..n]);
  }

  lemma SyncSafe(s: Shelf)
    requires Valid(s)
    ensures Valid(Synced(s)) && (CrashSafe(s) ==> CrashSafe(Synced(s)))
  {
    if CrashSafe(s) {
      forall id | id in s ensures FolderSafe(Synced(s)[id]) {
        assert FolderSafe(s[id]) && s[id].now in s[id].maybe;
      }
    }
  }

  lemma PieceSafe(s: Shelf, id: Id, q: Path)
    requires Valid(s) && id in s && q in s[id].left
    ensures var t := s[id := s[id].(left := s[id].left - {q})];
            Valid(t) && (CrashSafe(s) && !MayBeListed(s[id]) ==> CrashSafe(t)) && (CrashSafe(t) ==> !MayBeListed(s[id]))
  {
    var t := s[id := s[id].(left := s[id].left - {q})];
    assert q !in t[id].left && q in t[id].content;
    assert MayBeListed(t[id]) <==> MayBeListed(s[id]);
    if CrashSafe(t) {
      assert FolderSafe(t[id]);
    }
    if CrashSafe(s) && !MayBeListed(s[id]) {
      forall x | x in t ensures FolderSafe(t[x]) {
        assert FolderSafe(s[x]);
      }
    }
  }

  lemma RemovedSafe(s: Shelf, id: Id)
    requires Valid(s) && id in s && s[id].left == {}
    ensures var t := s[id := s[id].(now := None, maybe := s[id].maybe + {None})];
            Valid(t) && (CrashSafe(s) ==> CrashSafe(t))
  {
    var t := s[id := s[id].(now := None, maybe := s[id].maybe + {None})];
    if CrashSafe(s) {
      forall x | x in t ensures FolderSafe(t[x]) {
        assert FolderSafe(s[x]);
      }
    }
  }

  /** Renaming one directory is safe while all its content is there. */
  lemma ListedRenamed(s: Shelf, id: Id, n: EntryName)
    requires Valid(s) && id in s && (n.Tomb? || n.Own?) && MayBeListed(s[id])
    requires forall x | x in s && x != id :: s[x].now != Some(n)
    ensures Valid(Renamed(s, id, n)) && (CrashSafe(s) ==> CrashSafe(Renamed(s, id, n)))
  {
    if CrashSafe(s) {
      forall x | x in s ensures FolderSafe(Renamed(s, id, n)[x]) {
        assert FolderSafe(s[x]);
      }
    }
  }

  lemma ErasedReclaimable(s: Shelf, t: Shelf, id: Id)
    requires id in s && OnlyErasing(s, t, id)
    ensures AllReclaimable(s) ==> AllReclaimable(t)
  {
  }

  /** After the hiding rename that archive is the one hidden, and not yet for good. */
  lemma NowOpen(s: Shelf, id: Id, n: EntryName)
    requires Valid(s) && id in s && Listed(s[id].now) && n.Tomb?
    ensures NoneHidden(s) ==> OneOpen(Renamed(s, id, n)) && HiddenOnes(Renamed(s, id, n)) == {id}
    ensures NoneHidden(s) ==> AllReclaimable(s)
  {
    var t := Renamed(s, id, n);
    if NoneHidden(s) {
      assert HiddenOnes(t) == {id};
      assert s[id].now in t[id].maybe;
    }
  }

  /** After the rename back nothing is hidden. */
  lemma NoneOpen(s: Shelf, id: Id, n: EntryName)
    requires id in s && n.Own?
    ensures HiddenOnes(s) == {id} ==> NoneHidden(Renamed(s, id, n))
  {
    var t := Renamed(s, id, n);
    if HiddenOnes(s) == {id} {
      forall x | x in t ensures !Hidden(t[x].now) {
        assert x in HiddenOnes(s) <==> Hidden(s[x].now);
      }
    }
  }

  lemma ExposedIff(s: Shelf, id: Id)
    requires Valid(s) && IsFirstOf(s, HiddenOnes(s), id)
    ensures Exposed(s) <==> Endangered(s[id])
  {
    if Exposed(s) {
      var x :| IsFirstOf(s, HiddenOnes(s), x) && Endangered(s[x]);
      FirstOfUnique(s, HiddenOnes(s), id, x);
    }
  }

  lemma OneLessHidden(s: Shelf, t: Shelf, id: Id)
    requires OthersKept(s, t, id) && id in s && t[id].now.None?
    ensures HiddenOnes(t) == HiddenOnes(s) - {id}
  {
    forall x | x in s && x != id ensures t[x].now == s[x].now {
      assert Kept(s[x], t[x]);
    }
  }

  lemma KeptTwice(s: Shelf, t: Shelf, u: Shelf, id: Id)
    requires OthersKept(s, t, id) && OthersKept(t, u, id)
    ensures OthersKept(s, u, id)
  {
    forall x | x in s && x != id ensures Kept(s[x], u[x]) {
      assert Kept(s[x], t[x]) && Kept(t[x], u[x]);
    }
  }

  lemma StillNoneHidden(t: Shelf, u: Shelf, id: Id)
    requires OthersKept(t, u, id) && id in t && u[id].now.None? && NoneHidden(t)
    ensures NoneHidden(u)
  {
    forall x | x in u && x != id ensures !Hidden(u[x].now) {
      assert Kept(t[x], u[x]);
    }
  }

  /** What is neither hidden nor selected is as it was. */
  ghost predicate OthersUntouched(s: Shelf, t: Shelf, selected: seq<string>) {
    forall x | x in s && x in t && !Hidden(s[x].now) && !(Listed(s[x].now) && s[x].now.value.archive in selected) ::
      Kept(s[x], t[x])
  }

  /** The results of archives pruned without trouble. */
  function Done(archives: seq<string>): seq<PruneResult> {
    seq(|archives|, k requires 0 <= k < |archives| => PruneResult(archives[k], false))
  }

  function LastResult(archive: string, attempt: Attempt): seq<PruneResult> {
    match attempt
    case NotHidden => []
    case Stuck => [PruneResult(archive, true)]
    case HalfReclaimed => [PruneResult(archive, true)]
    case NotSettled => [PruneResult(archive, false)]
    case Gone => [PruneResult(archive, false)]
  }

  ghost predicate Attempted(d: Folder, e: Folder, attempt: Attempt) {
    match attempt
    case NotHidden => e.now == d.now && e.left == d.left
    case Stuck => Hidden(e.now) && e.left == d.left && !Reclaimable(e)
    case HalfReclaimed => Hidden(e.now) && Reclaimable(e)
    case NotSettled => e.now.None? && !MayBeListed(e)
    case Gone => e.now.None? && e.maybe == {None}
  }

  /** The results name a prefix of the selection; they are true, and everything else is untouched. */
  ghost predicate Reported(s: Shelf, t: Shelf, selected: seq<string>, results: seq<PruneResult>) {
    && t.Keys == s.Keys && OthersUntouched(s, t, selected)
    && |results| <= |selected| && (forall k | 0 <= k < |results| :: results[k].archive == selected[k])
    && (forall k | 0 <= k < |results| :: Truthful(s, t, results[k]))
    && (forall k | |results| <= k < |selected| :: Intact(s, t, selected[k]))
  }

  /** Every selected archive is durably gone, and nothing hidden is left. */
  ghost predicate Completed(s: Shelf, t: Shelf, selected: seq<string>, results: seq<PruneResult>) {
    && results == Done(selected) && (forall k | 0 <= k < |selected| :: Vanished(s, t, selected[k]))
    && NoneHidden(t)
  }

  lemma NothingReported(s: Shelf, selected: seq<string>)
    ensures Reported(s, s, selected, [])
  {
  }

  /** The report when the call stops cleanly between two archives. */
  lemma Verdict(s: Shelf, t: Shelf, selected: seq<string>, n: nat, results: seq<PruneResult>)
    requires n <= |selected| && Progressed(s, t, selected[..n]) && results == Done(selected[..n])
    requires Distinct(selected)
    ensures Reported(s, t, selected, results)
    ensures forall k | 0 <= k < n :: Vanished(s, t, selected[k])
  {
    var done := selected[..n];
    forall k | 0 <= k < n ensures Truthful(s, t, results[k]) && Vanished(s, t, selected[k]) {
      assert selected[k] == done[k] && selected[k] in done;
      forall x | x in s && s[x].now == Some(Own(selected[k])) ensures t[x].now.None? && t[x].maybe == {None} {
        assert Progress(s[x], t[x], done);
      }
    }
    forall k | n <= k < |selected| ensures Intact(s, t, selected[k]) {
      assert selected[k] !in done;
      forall x | x in s && s[x].now == Some(Own(selected[k])) ensures t[x].now == s[x].now && t[x].left == s[x].left {
        assert Progress(s[x], t[x], done);
      }
    }
    forall x | x in s && x in t && !Hidden(s[x].now) && !(Listed(s[x].now) && s[x].now.value.archive in selected)
      ensures Kept(s[x], t[x])
    {
      assert Progress(s[x], t[x], done);
    }
  }

  /** The archive stands under its own name with all its content, wherever it stood so before. */
  ghost predicate Intact(s: Shelf, t: Shelf, archive: string) {
    forall x | x in s && x in t && s[x].now == Some(Own(archive)) :: t[x].now == s[x].now && t[x].left == s[x].left
  }

  ghost predicate Vanished(s: Shelf, t: Shelf, archive: string) {
    forall x | x in s && x in t && s[x].now == Some(Own(archive)) :: t[x].now.None? && t[x].maybe == {None}
  }

  /** A reported archive no longer is in the catalog; a pending one is hidden, another one is gone
      and no power loss can list it again. */
  ghost predicate Truthful(s: Shelf, t: Shelf, r: PruneResult) {
    forall x | x in s && x in t && s[x].now == Some(Own(r.archive)) ::
      if r.cleanupPending then Hidden(t[x].now) else t[x].now.None? && !MayBeListed(t[x])
  }

  /** The report when the attempt at archive n ends the call. */
  lemma StopStep(s: Shelf, t: Shelf, u: Shelf, selected: seq<string>, n: nat, id: Id, attempt: Attempt)
    requires Valid(t) && n < |selected| && Progressed(s, t, selected[..n]) && OthersKept(t, u, id)
    requires Distinct(selected)
    requires NoneHidden(t)
    requires id in t && t[id].now == Some(Own(selected[n])) && Attempted(t[id], u[id], attempt) && !attempt.Gone?
    ensures Reported(s, u, selected, Done(selected[..n]) + LastResult(selected[n], attempt))
    ensures AllReclaimable(u) <==> !attempt.Stuck?
  {
    var done, results := selected[..n], Done(selected[..n]) + LastResult(selected[n], attempt);
    Verdict(s, t, selected, n, Done(done));
    forall x | x in s ensures Progress(s[x], t[x], done) && (x != id ==> Kept(t[x], u[x])) {
    }
    forall k | 0 <= k < |results| ensures Truthful(s, u, results[k]) {
      if k < n {
        assert results[k] == Done(done)[k] && Truthful(s, t, Done(done)[k]);
        TruthfulLater(s, t, u, id, selected, n, k);
      } else {
        assert results[k].archive == selected[n];
      }
    }
    forall k | |results| <= k < |selected| ensures Intact(s, u, selected[k]) {
      assert Intact(s, t, selected[k]);
    }
    if attempt.Stuck? {
      assert !Reclaimable(u[id]);
    }
  }

  lemma TruthfulLater(s: Shelf, t: Shelf, u: Shelf, id: Id, selected: seq<string>, n: nat, k: nat)
    requires k < n < |selected| && selected[k] != selected[n] && OthersKept(t, u, id) && s.Keys == t.Keys
    requires id in t && t[id].now == Some(Own(selected[n])) && Truthful(s, t, PruneResult(selected[k], false))
    ensures Truthful(s, u, PruneResult(selected[k], false))
  {
    forall x | x in s && s[x].now == Some(Own(selected[k])) ensures u[x].now.None? && !MayBeListed(u[x]) {
      assert t[x].now.None? && !MayBeListed(t[x]) && Kept(t[x], u[x]);
    }
  }

  /** Two calls with a crash between them: the process of the first dies at any point `crash` of its run,
      and the second starts from what it left.  The first one is safe throughout.  It left an exposed
      tombstone exactly when it died after the rename that hides a non-empty archive and before a
      sync that worked or the rename back, and then a second call that completes is not safe. */
  method PruneAfterCrash(shelf: Shelf, first: seq<string>, crash: nat, second: seq<string>)
      returns (before: RecoveryRoot, k: nat, after: RecoveryRoot, ok: bool)
    requires Valid(shelf) && CrashSafe(shelf) && AllReclaimable(shelf)
    ensures SafeLog(before.log) && k < |before.log| && (crash < |before.log| ==> k == crash)
    ensures after.log != [] && after.log[0].shelf == before.log[k].shelf
    ensures Exposed(before.log[k].shelf) <==> Unsettled(before.log[..k + 1]) && SomethingHidden(before.log[k].shelf)
    ensures !Exposed(before.log[k].shelf) ==> SafeLog(after.log)
    ensures ok ==> (SafeLog(after.log) <==> !Exposed(before.log[k].shelf))
  {
    var firstResults, firstOk;
    before, k, firstResults, firstOk := Interrupted(shelf, first, crash);
    after := new RecoveryRoot(before.log[k].shelf);
    ghost var start := after.log;
    var results, done, stuck := after.PruneArchives(second);
    assert start <= after.log;
    ok := done;
  }

  /** A call whose process dies after k of its steps. */
  method Interrupted(shelf: Shelf, selected: seq<string>, crash: nat)
      returns (root: RecoveryRoot, k: nat, results: seq<PruneResult>, ok: bool)
    requires Valid(shelf) && CrashSafe(shelf) && AllReclaimable(shelf)
    ensures fresh(root) && root.Ready() && SafeLog(root.log) && k < |root.log| && (crash < |root.log| ==> k == crash)
    ensures Valid(root.log[k].shelf) && CrashSafe(root.log[k].shelf)
    ensures Exposed(root.log[k].shelf) <==> Unsettled(root.log[..k + 1]) && SomethingHidden(root.log[k].shelf)
    ensures Reported(shelf, root.shelf, selected, results) && (ok ==> Completed(shelf, root.shelf, selected, results))
    ensures ok <==> root.faults == [] && Distinct(selected) && AllListed(shelf, selected)
  {
    root := new RecoveryRoot(shelf);
    ghost var stuck;
    results, ok, stuck := root.PruneArchives(selected);
    k := if crash < |root.log| then crash else |root.log| - 1;
    EachMoment(root.log, k);
    assert root.log[..k + 1][k] == root.log[k];
    ExposedWhen(root.log[..k + 1]);
  }

  /** Some hidden directory still holds something. */
  predicate SomethingHidden(s: Shelf) {
    exists id :: id in s && Hidden(s[id].now) && s[id].left != {}
  }

  lemma ExposedWhen(log: seq<Moment>)
    requires log != [] && Fits(log) && Valid(log[|log| - 1].shelf)
    ensures var s := log[|log| - 1].shelf; Exposed(s) <==> Unsettled(log) && SomethingHidden(s)
  {
    var s := log[|log| - 1].shelf;
    if Unsettled(log) {
      var id :| id in s && HiddenOnes(s) == {id} && !Reclaimable(s[id]);
      assert IsFirstOf(s, HiddenOnes(s), id);
      ExposedIff(s, id);
      forall x | x in s && Hidden(s[x].now) ensures x == id {
        assert x in HiddenOnes(s);
      }
    }
  }
}
