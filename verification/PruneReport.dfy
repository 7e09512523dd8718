/** Which archives `recovery prune` selects, and the report it gives. */
module PruneReport {
  import opened Common
  import opened FileTree
  import opened Prune

  const MAX_INT64: int := 0x7fff_ffff_ffff_ffff

  datatype Archive = Archive(id: string, created: int, size: nat)

  datatype Status = WouldPrune | NotRun | Pruned | PendingCleanup

  datatype Line = Line(archive: Archive, status: Status)

  /** The catalog's order: newest first. */
  predicate NewestFirst(all: seq<Archive>) {
    forall i, j | 0 <= i < j < |all| :: all[i].created >= all[j].created
  }

  predicate DistinctIds(all: seq<Archive>) {
    forall i, j | 0 <= i < j < |all| :: all[i].id != all[j].id
  }

  function Select(all: seq<Archive>, keepLast: nat): seq<Archive> {
    if keepLast >= |all| then [] else all[keepLast..]
  }

  function Ids(archives: seq<Archive>): seq<string> {
    seq(|archives|, k requires 0 <= k < |archives| => archives[k].id)
  }

  function Bytes(archives: seq<Archive>): nat {
    if archives == [] then 0 else Bytes(archives[..|archives| - 1]) + archives[|archives| - 1].size
  }

  function CountOf(lines: seq<Line>, status: Status): nat {
    if lines == [] then 0
    else CountOf(lines[..|lines| - 1], status) + if lines[|lines| - 1].status == status then 1 else 0
  }

  lemma {:induction false} CountUpdated(lines: seq<Line>, k: nat, status: Status, counted: Status)
    requires k < |lines|
    ensures CountOf(lines[k := lines[k].(status := status)], counted) ==
            CountOf(lines, counted) - (if lines[k].status == counted then 1 else 0) + (if status == counted then 1 else 0)
  {
    var after := lines[k := lines[k].(status := status)];
    if k < |lines| - 1 {
      assert after[..|after| - 1] == lines[..|lines| - 1][k := lines[k].(status := status)];
      CountUpdated(lines[..|lines| - 1], k, status, counted);
    } else {
      assert after[..|after| - 1] == lines[..|lines| - 1];
    }
  }

  lemma {:induction false} CountSplit(lines: seq<Line>)
    ensures CountOf(lines, WouldPrune) + CountOf(lines, NotRun) + CountOf(lines, Pruned) + CountOf(lines, PendingCleanup) == |lines|
  {
    if lines != [] {
      CountSplit(lines[..|lines| - 1]);
    }
  }

  predicate AllHave(lines: seq<Line>, status: Status) {
    forall k | 0 <= k < |lines| :: lines[k].status == status
  }

  lemma {:induction false} CountUniform(lines: seq<Line>, status: Status, counted: Status)
    requires AllHave(lines, status)
    ensures CountOf(lines, counted) == if status == counted then |lines| else 0
  {
    if lines != [] {
      CountUniform(lines[..|lines| - 1], status, counted);
    }
  }

  lemma {:induction false} BytesGrow(archives: seq<Archive>, n: nat)
    requires n <= |archives|
    ensures Bytes(archives[..n]) <= Bytes(archives)
  {
    if n < |archives| {
      BytesGrow(archives[..|archives| - 1], n);
      assert archives[..|archives| - 1][..n] == archives[..n];
    } else {
      assert archives[..n] == archives;
    }
  }

  /** The result for an archive; a later result for the same archive replaces an earlier one. */
  function ResultFor(results: seq<PruneResult>, id: string): Option<PruneResult> {
    if results == [] then None
    else if results[|results| - 1].archive == id then Some(results[|results| - 1])
    else ResultFor(results[..|results| - 1], id)
  }

  function StatusAfter(results: seq<PruneResult>, id: string): Status {
    var r := ResultFor(results, id);
    if r.None? then NotRun else if r.value.cleanupPending then PendingCleanup else Pruned
  }

  class Report {
    var archives: seq<Line>
    const keepLast: nat
    const kept: int
    const selected: nat
    var pruned: int
    var pendingCleanup: int
    var notRun: int
    const logicalBytes: nat
    const dryRun: bool
    var complete: bool

    constructor (archives: seq<Line>, keepLast: nat, kept: int, selected: nat, notRun: int, logicalBytes: nat, dryRun: bool)
      ensures this.archives == archives && this.keepLast == keepLast && this.kept == kept && this.selected == selected
      ensures this.notRun == notRun && pruned == 0 && pendingCleanup == 0 && this.logicalBytes == logicalBytes
      ensures this.dryRun == dryRun && !complete
    {
      this.archives, this.keepLast, this.kept, this.selected := archives, keepLast, kept, selected;
      this.notRun, pruned, pendingCleanup, complete := notRun, 0, 0, false;
      this.logicalBytes, this.dryRun := logicalBytes, dryRun;
    }

    /** Every counter is the number of lines with that status, and together they are the selection. */
    ghost predicate Balanced()
      reads this
    {
      && selected == |archives| && !dryRun && CountOf(archives, WouldPrune) == 0
      && notRun == CountOf(archives, NotRun) && pruned == CountOf(archives, Pruned)
      && pendingCleanup == CountOf(archives, PendingCleanup)
    }

    lemma Conserved()
      requires Balanced()
      ensures pruned + pendingCleanup + notRun == selected
    {
      CountSplit(archives);
    }

    /** Takes over the results: afterwards each line says what became of its own archive. */
    method Apply(results: seq<PruneResult>)
      requires Balanced() && AllHave(archives, NotRun)
      modifies this
      ensures Balanced() && |archives| == |old(archives)|
      ensures forall k | 0 <= k < |archives| :: archives[k].archive == old(archives[k].archive)
      ensures forall k | 0 <= k < |archives| :: archives[k].status == StatusAfter(results, archives[k].archive.id)
      ensures complete == old(complete)
    {
      for index := 0 to |archives|
        invariant Balanced() && |archives| == |old(archives)| && complete == old(complete)
        invariant forall k | 0 <= k < |archives| :: archives[k].archive == old(archives[k].archive)
        invariant forall k | 0 <= k < index :: archives[k].status == StatusAfter(results, archives[k].archive.id)
        invariant forall k | index <= k < |archives| :: archives[k].status == NotRun
      {
        var result := ResultFor(results, archives[index].archive.id);
        if result.Some? {
          var status := if result.value.cleanupPending then PendingCleanup else Pruned;
          CountUpdated(archives, index, status, WouldPrune);
          CountUpdated(archives, index, status, NotRun);
          CountUpdated(archives, index, status, Pruned);
          CountUpdated(archives, index, status, PendingCleanup);
          notRun := notRun - 1;
          archives := archives[index := archives[index].(status := status)];
          if result.value.cleanupPending {
            pendingCleanup := pendingCleanup + 1;
          } else {
            pruned := pruned + 1;
          }
        }
      }
    }
  }

  /** Adds up the selection; fails exactly when the byte total passes the 64-bit range. */
  method NewReport(all: seq<Archive>, selected: seq<Archive>, keepLast: nat, dryRun: bool) returns (r: Result<Report>)
    ensures r.Err? <==> Bytes(selected) >= 0x8000_0000_0000_0000
    ensures r.Ok? ==> fresh(r.value) && r.value.logicalBytes == Bytes(selected) && r.value.kept == |all| - |selected|
    ensures r.Ok? ==> |r.value.archives| == |selected| && r.value.dryRun == dryRun && r.value.keepLast == keepLast
    ensures r.Ok? ==> forall k | 0 <= k < |selected| :: r.value.archives[k].archive == selected[k]
    ensures r.Ok? ==> AllHave(r.value.archives, if dryRun then WouldPrune else NotRun)
    ensures r.Ok? && !dryRun ==> r.value.Balanced()
  {
    var status := if dryRun then WouldPrune else NotRun;
    var bytes, lines := 0, [];
    for index := 0 to |selected|
      invariant |lines| == index && bytes == Bytes(selected[..index]) <= MAX_INT64
      invariant forall k | 0 <= k < index :: lines[k] == Line(selected[k], status)
    {
      assert selected[..index + 1][..index] == selected[..index];
      if selected[index].size > MAX_INT64 - bytes {
        BytesGrow(selected, index + 1);
        return Err;
      }
      bytes := bytes + selected[index].size;
      lines := lines + [Line(selected[index], status)];
    }
    assert selected[..|selected|] == selected;
    var report := new Report(lines, keepLast, |all| - |selected|, |selected|, if dryRun then 0 else |selected|, bytes, dryRun);
    forall s ensures CountOf(lines, s) == if status == s then |lines| else 0 {
      CountUniform(lines, status, s);
    }
    r := Ok(report);
  }

  // ---------------------------------------------------------------- the command

  /** A listed archive that is kept: still under its own name, with all it held. */
  ghost predicate Untouched(s: Shelf, t: Shelf, id: string) {
    forall x | x in s && x in t && s[x].now == Some(Own(id)) :: Kept(s[x], t[x])
  }

  lemma {:induction false} ResultsOf(results: seq<PruneResult>, selected: seq<string>, k: nat)
    requires |results| <= |selected| && k < |selected|
    requires Distinct(selected)
    requires forall i | 0 <= i < |results| :: results[i].archive == selected[i]
    ensures ResultFor(results, selected[k]) == if k < |results| then Some(results[k]) else None
  {
    if results != [] && k != |results| - 1 {
      ResultsOf(results[..|results| - 1], selected, k);
    }
  }

  /** `recovery prune --keep-last N`: nothing older is kept instead of something newer, the newest N
      are untouched, every line of the report is true of the disk, and a complete report means
      that the selected archives are durably gone and nothing hidden is left. */
  method PruneCommand(root: RecoveryRoot, all: seq<Archive>, keepLast: int, dryRun: bool) returns (r: Result<Report>)
    requires root.Ready() && NewestFirst(all) && DistinctIds(all)
    modifies root
    ensures r.Err? <==> keepLast < 1 || Bytes(Select(all, keepLast)) >= 0x8000_0000_0000_0000
    ensures root.Ready() && root.shelf.Keys == old(root.shelf).Keys
    ensures forall k | 0 <= k < |all| && k < keepLast :: Untouched(old(root.shelf), root.shelf, all[k].id)
    ensures r.Ok? ==> var lines := r.value.archives;
                      && keepLast >= 1
                      && (forall k | 0 <= k < |lines| :: keepLast + k < |all| && lines[k].archive == all[keepLast + k])
                      && (forall k, j | 0 <= k < |lines| && 0 <= j < |all| - |lines| :: all[j].created >= lines[k].archive.created)
                      && |lines| == (if keepLast >= |all| then 0 else |all| - keepLast)
    ensures r.Ok? && !dryRun ==> r.value.Balanced()
    ensures r.Ok? && !dryRun ==> forall k | 0 <= k < |r.value.archives| ::
                LineTrue(old(root.shelf), root.shelf, r.value.archives[k])
    ensures r.Ok? && !dryRun && r.value.complete ==>
              NoneHidden(root.shelf) && forall k | 0 <= k < |r.value.archives| ::
                Vanished(old(root.shelf), root.shelf, r.value.archives[k].archive.id)
    ensures dryRun || r.Err? ==> root.shelf == old(root.shelf)
    ensures r.Ok? ==> (r.value.complete <==> dryRun || (root.faults == old(root.faults)
                                                        && AllListed(old(root.shelf), Ids(Select(all, keepLast)))))
  {
    if keepLast < 1 {
      return Err;
    }
    ghost var s0 := root.shelf;
    var selected := Select(all, keepLast);
    r := NewReport(all, selected, keepLast, dryRun);
    if r.Err? { return; }
    var report := r.value;
    if dryRun {
      report.complete := true;
      return;
    }
    Execute(root, report, Ids(selected));
    KeptAreOthers(s0, root.shelf, all, keepLast);
  }

  method Execute(root: RecoveryRoot, report: Report, ids: seq<string>)
    requires root.Ready() && report.Balanced() && AllHave(report.archives, NotRun)
    requires |ids| == |report.archives| && forall k | 0 <= k < |ids| :: ids[k] == report.archives[k].archive.id
    requires Distinct(ids)
    modifies root, report
    ensures root.Ready() && root.shelf.Keys == old(root.shelf).Keys && report.Balanced()
    ensures OthersUntouched(old(root.shelf), root.shelf, ids)
    ensures |report.archives| == |ids| && forall k | 0 <= k < |ids| :: report.archives[k].archive == old(report.archives[k].archive)
    ensures forall k | 0 <= k < |ids| :: LineTrue(old(root.shelf), root.shelf, report.archives[k])
    ensures report.complete <==> root.faults == old(root.faults) && AllListed(old(root.shelf), ids)
    ensures report.complete ==>
              NoneHidden(root.shelf) && forall k | 0 <= k < |ids| :: Vanished(old(root.shelf), root.shelf, ids[k])
  {
    ghost var s0 := root.shelf;
    var results, ok;
    ghost var stuck;
    results, ok, stuck := root.PruneArchives(ids);
    report.Apply(results);
    LinesTrue(s0, root.shelf, ids, results, report.archives);
    var cancelled := root.Fails(Cancelled);
    if ok {
      AllPruned(ids, report.archives);
    }
    report.complete := ok && !cancelled && report.pruned == report.selected && report.pendingCleanup == 0;
  }

  /** When every archive was pruned, every line and the counter say so. */
  lemma {:induction false} AllPruned(ids: seq<string>, lines: seq<Line>)
    requires Distinct(ids) && |lines| == |ids|
    requires forall k | 0 <= k < |ids| :: lines[k].archive.id == ids[k] && lines[k].status == StatusAfter(Done(ids), ids[k])
    ensures CountOf(lines, Pruned) == |lines| && CountOf(lines, PendingCleanup) == 0
  {
    forall k | 0 <= k < |ids| ensures lines[k].status == Pruned {
      ResultsOf(Done(ids), ids, k);
    }
    CountUniform(lines, Pruned, Pruned);
    CountUniform(lines, Pruned, PendingCleanup);
  }

  ghost predicate LineTrue(s: Shelf, t: Shelf, line: Line) {
    match line.status
    case NotRun => Intact(s, t, line.archive.id)
    case Pruned => Truthful(s, t, PruneResult(line.archive.id, false))
    case PendingCleanup => Truthful(s, t, PruneResult(line.archive.id, true))
    case WouldPrune => false
  }

  lemma KeptAreOthers(s: Shelf, t: Shelf, all: seq<Archive>, keepLast: nat)
    requires DistinctIds(all) && OthersUntouched(s, t, Ids(Select(all, keepLast)))
    ensures forall k | 0 <= k < |all| && k < keepLast :: Untouched(s, t, all[k].id)
  {
    var ids := Ids(Select(all, keepLast));
    forall k | 0 <= k < |all| && k < keepLast ensures Untouched(s, t, all[k].id) {
      assert forall j | 0 <= j < |ids| :: ids[j] == all[keepLast + j].id;
    }
  }

  lemma LinesTrue(s: Shelf, t: Shelf, ids: seq<string>, results: seq<PruneResult>, lines: seq<Line>)
    requires Reported(s, t, ids, results) && |lines| == |ids|
    requires Distinct(ids)
    requires forall k | 0 <= k < |ids| :: lines[k].archive.id == ids[k] && lines[k].status == StatusAfter(results, ids[k])
    ensures forall k | 0 <= k < |lines| :: LineTrue(s, t, lines[k])
  {
    forall k | 0 <= k < |lines| ensures LineTrue(s, t, lines[k]) {
      ResultsOf(results, ids, k);
      if k < |results| {
        assert Truthful(s, t, results[k]);
      } else {
        assert Intact(s, t, ids[k]);
      }
    }
  }
}
