/** The recovery catalog: an extracted copy is described, compared and added to its manifest. */
module RecoveryCatalog {
  import opened Common
  import opened Disk
  import opened Directories
  import opened FileTree
  import opened ArchiveStream
  import opened Extract
  import opened RoundTrip
  import opened AtomicFile

  const MAX_MANIFEST: nat := 0x10_0000
  const MANIFEST: Name := "manifest.json"
  const TEMPORARY: Name := ".manifest-"

  datatype Winner = LocalWins | RemoteWins

  datatype Record = Record(path: Path, kind: Kind, size: nat, items: nat, mode: nat, digest: Digest)

  /** The archive's name stands for the time it is created at. */
  datatype Manifest = Manifest(archive: Name, winner: Winner, records: seq<Record>)

  /** The text form of a manifest. */
  datatype Codec = Codec(encode: Manifest -> seq<byte>, decode: seq<byte> -> Option<Manifest>)

  ghost predicate Faithful(c: Codec) {
    forall m :: c.decode(c.encode(m)) == Some(m)
  }

  function WinnerDirectory(w: Winner): Name {
    if w.LocalWins? then "local-winner" else "remote-winner"
  }

  function BackupId(archive: Name, w: Winner, relative: Path): Path {
    [archive, WinnerDirectory(w)] + relative
  }

  function ManifestPath(root: Path, archive: Name): Path {
    root + [archive, MANIFEST]
  }

  function RecordOf(relative: Path, s: Summary): Record {
    Record(relative, s.kind, s.size, s.items, s.mode, s.digest)
  }

  /** What a record says of a tree, field by field. */
  predicate Describes(rec: Record, relative: Path, t: Tree, digest: Digest) {
    && rec.path == relative && rec.digest == digest && rec.size == TreeBytes(t) && rec.items == TreeItems(t)
    && match t
       case Regular(_, mode) => rec.kind == RegularKind && rec.mode == mode
       case Directory(mode, _) => rec.kind == DirectoryKind && rec.mode == mode
       case Symlink(_, mode) => rec.kind == SymlinkKind && rec.mode == mode
       case SpecialFile => false
  }

  /** The manifest got one more record, for a path it had none for. */
  predicate AddsOne(before: Manifest, after: Manifest, relative: Path, t: Tree, digest: Digest) {
    var n := |before.records|;
    && after.archive == before.archive && after.winner == before.winner
    && |after.records| == n + 1 && after.records[..n] == before.records
    && (forall k | 0 <= k < n :: before.records[k].path != relative)
    && Describes(after.records[n], relative, t, digest)
  }

  /** The record of an accepted copy describes that copy. */
  lemma RecordDescribes(relative: Path, copy: Tree, summary: Summary)
    requires SummaryAccepted(copy, summary)
    ensures Describes(RecordOf(relative, summary), relative, copy, summary.digest)
  {
    WalkTotals([], copy);
    assert Walk([], copy)[0].obj == Head(copy);
  }

  lemma AddedOne(c: Codec, i: Image, root: Path, archive: Name, w: Winner, relative: Path, copy: Tree, summary: Summary)
    requires SummaryAccepted(copy, summary)
    requires Current(c, i, root, archive, w).Some? && !HasPath(Current(c, i, root, archive, w).value, relative)
    ensures exists before :: Reads(c, i, root, archive, w, before)
                             && AddsOne(before, With(Current(c, i, root, archive, w).value, relative, summary), relative, copy,
                                        summary.digest)
  {
    var now := Current(c, i, root, archive, w).value;
    RecordDescribes(relative, copy, summary);
    CurrentExact(c, i, root, archive, w, now);
    assert AddsOne(now, With(now, relative, summary), relative, copy, summary.digest);
  }

  /** The record of a streamed tree describes that tree. */
  lemma TreeDescribed(relative: Path, t: Tree)
    requires WithinLimits(t)
    ensures Describes(RecordOf(relative, SummaryOf(t)), relative, t, Digest(StreamOf(t)))
  {
    WalkTotals([], t);
    assert EntryFits(Walk([], t)[0]) && Walk([], t)[0].obj == Head(t);
  }

  /** What the catalog says before a call; an archive without a manifest has no records. */
  function Current(c: Codec, i: Image, root: Path, archive: Name, w: Winner): Option<Manifest> {
    var there := Now(i, ManifestPath(root, archive));
    if there.None? then Some(Manifest(archive, w, []))
    else if !there.value.File? || |there.value.content| > MAX_MANIFEST then None
    else
      var m := c.decode(there.value.content);
      if m.Some? && m.value.archive == archive && m.value.winner == w then m else None
  }

  /** What counts as the present manifest: a file of at most 1 MiB that decodes to one of this archive and
      winner, or an empty one where there is no file. */
  predicate Reads(c: Codec, i: Image, root: Path, archive: Name, w: Winner, m: Manifest) {
    var there := Now(i, root + [archive, "manifest.json"]);
    && m.archive == archive && m.winner == w
    && match there
       case None => m.records == []
       case Some(File(content, _)) => |content| <= 1048576 && c.decode(content) == Some(m)
       case Some(_) => false
  }

  lemma CurrentExact(c: Codec, i: Image, root: Path, archive: Name, w: Winner, m: Manifest)
    ensures Current(c, i, root, archive, w) == Some(m) <==> Reads(c, i, root, archive, w, m)
  {
    assert ManifestPath(root, archive) == root + [archive, "manifest.json"];
  }

  predicate HasPath(m: Manifest, relative: Path) {
    exists k | 0 <= k < |m.records| :: m.records[k].path == relative
  }

  function With(m: Manifest, relative: Path, s: Summary): Manifest {
    m.(records := m.records + [RecordOf(relative, s)])
  }

  /** The record is on the medium, in a manifest that is its archive's. */
  ghost predicate Catalogued(c: Codec, i: Image, root: Path, archive: Name, w: Winner, r: Record) {
    exists m: Manifest, mode: nat :: r in m.records && Kept(c, i, root, archive, w, m, mode)
  }

  /** This manifest is what is durable under the archive's manifest name. */
  ghost predicate Kept(c: Codec, i: Image, root: Path, archive: Name, w: Winner, m: Manifest, mode: nat) {
    && m.archive == archive && m.winner == w && |c.encode(m)| <= MAX_MANIFEST
    && Durable(i, ManifestPath(root, archive), File(c.encode(m), mode))
  }

  /** The volume shows this tree at the path, or nothing. */
  ghost predicate Shows(i: Image, base: Path, copy: Option<Tree>) {
    if copy.None? then Now(i, base).None?
    else forall q :: Now(i, base + q) == Lookup(copy.value, q)
  }

  lemma ManifestNames(root: Path, archive: Name, temporary: Name)
    requires TEMPORARY <= temporary
    ensures var path := ManifestPath(root, archive);
            var temp := Parent(path) + [temporary];
            && Parent(path) == root + [archive] && temp != path && !(temp <= path) && !(path <= root)
            && (forall w, relative, q ::
                  root + BackupId(archive, w, relative) + q != path && !(temp <= root + BackupId(archive, w, relative) + q))
  {
    var path := ManifestPath(root, archive);
    var temp := Parent(path) + [temporary];
    assert temporary[0] == '.' && temp[|root| + 1] == temporary && path[|root| + 1] == MANIFEST;
    forall w, relative, q
      ensures root + BackupId(archive, w, relative) + q != path && !(temp <= root + BackupId(archive, w, relative) + q)
    {
      assert (root + BackupId(archive, w, relative) + q)[|root| + 1] == WinnerDirectory(w);
    }
  }

  /** Adds one extracted copy to its archive's manifest.  The copy must match the summary of the
      stream; the manifest is replaced whole or not at all. */
  method RecordSummary(disk: Volume, c: Codec, root: Path, archive: Name, winner: Winner, relative: Path,
                       copy: Option<Tree>, summary: Summary, temporary: Name, calm: bool)
      returns (r: Result<Manifest>, mode: nat)
    requires disk.Valid()
    requires TEMPORARY <= temporary
    requires Shows(disk.img, root + BackupId(archive, winner, relative), copy)
    modifies disk
    ensures disk.Valid()
    ensures old(disk.log) <= disk.log
    ensures r.Ok? ==> copy.Some? && SummaryAccepted(copy.value, summary) && ValidRelative(relative)
    ensures var now := Current(c, old(disk.img), root, archive, winner);
            r.Ok? ==> now.Some? && !HasPath(now.value, relative) && r.value == With(now.value, relative, summary)
    ensures r.Ok? ==> exists before :: Reads(c, old(disk.img), root, archive, winner, before)
                                       && AddsOne(before, r.value, relative, copy.value, summary.digest)
    ensures r.Ok? ==> |c.encode(r.value)| <= MAX_MANIFEST
                      && Durable(disk.img, ManifestPath(root, archive), File(c.encode(r.value), mode))
    ensures var now := Current(c, old(disk.img), root, archive, winner);
            now.Some? ==>
              AlwaysOldOrNew(At(old(disk.img), ManifestPath(root, archive)), disk.log, |old(disk.log)|,
                             ManifestPath(root, archive), File(c.encode(With(now.value, relative, summary)), mode))
    ensures Standing(old(disk.img), root + [archive]) ==>
              FirmerBut(old(disk.img), disk.img, ManifestPath(root, archive), root + [archive, temporary])
    ensures var now := Current(c, old(disk.img), root, archive, winner);
            (calm && Standing(old(disk.img), root + [archive]) && Now(old(disk.img), root + [archive, temporary]).None?
             && ValidRelative(relative) && copy.Some? && summary.mode <= 0x1ff && SummaryAccepted(copy.value, summary)
             && now.Some? && !HasPath(now.value, relative)
             && |c.encode(With(now.value, relative, summary))| <= MAX_MANIFEST) ==> r.Ok?
  {
    mode := 0;
    var next := NextManifest(disk, c, root, archive, winner, relative, copy, summary, calm);
    if next.None? {
      return Err, mode;
    }
    var ok;
    ok, mode := StoreManifest(disk, root, archive, c.encode(next.value), temporary, calm);
    AddedOne(c, old(disk.img), root, archive, winner, relative, copy.value, summary);
    r := if ok then Ok(next.value) else Err;
  }

  /** Checks the copy and the present manifest; nothing of either changes. */
  method NextManifest(disk: Volume, c: Codec, root: Path, archive: Name, winner: Winner, relative: Path,
                      copy: Option<Tree>, summary: Summary, calm: bool)
      returns (next: Option<Manifest>)
    requires disk.Valid() && Shows(disk.img, root + BackupId(archive, winner, relative), copy)
    modifies disk
    ensures disk.Valid() && old(disk.log) <= disk.log
    ensures var path := ManifestPath(root, archive);
            At(disk.img, path) == At(old(disk.img), path)
            && forall k | |old(disk.log)| <= k < |disk.log| :: At(disk.log[k], path) == At(old(disk.img), path)
    ensures Standing(old(disk.img), root + [archive]) ==> forall q :: At(disk.img, q) == At(old(disk.img), q)
    ensures next.Some? ==> copy.Some? && SummaryAccepted(copy.value, summary) && ValidRelative(relative)
    ensures var now := Current(c, old(disk.img), root, archive, winner);
            next.Some? ==> now.Some? && !HasPath(now.value, relative) && next.value == With(now.value, relative, summary)
    ensures var now := Current(c, old(disk.img), root, archive, winner);
            (calm && Standing(old(disk.img), root + [archive]) && ValidRelative(relative) && copy.Some? && summary.mode <= 0x1ff
             && SummaryAccepted(copy.value, summary) && now.Some? && !HasPath(now.value, relative)) ==> next.Some?
  {
    if !ValidRelative(relative) || summary.items < 1 || summary.mode > 0x1ff {
      return None;
    }
    var ok := OpenRoot(disk, root, archive, calm);
    if !ok || copy.None? {
      return None;
    }
    ok := CheckSummary(copy.value, summary, calm);
    var now := Current(c, disk.img, root, archive, winner);
    if !ok || now.None? || HasPath(now.value, relative) {
      return None;
    }
    next := Some(With(now.value, relative, summary));
  }

  method StoreManifest(disk: Volume, root: Path, archive: Name, data: seq<byte>, temporary: Name, calm: bool)
      returns (ok: bool, mode: nat)
    requires disk.Valid()
    requires TEMPORARY <= temporary
    modifies disk
    ensures disk.Valid()
    ensures old(disk.log) <= disk.log
    ensures ok ==> |data| <= MAX_MANIFEST && Durable(disk.img, ManifestPath(root, archive), File(data, mode))
    ensures AlwaysOldOrNew(At(old(disk.img), ManifestPath(root, archive)), disk.log, |old(disk.log)|,
                           ManifestPath(root, archive), File(data, mode))
    ensures Standing(old(disk.img), root + [archive]) ==>
              FirmerBut(old(disk.img), disk.img, ManifestPath(root, archive), root + [archive, temporary])
    ensures (calm && Standing(old(disk.img), root + [archive]) && Now(old(disk.img), root + [archive, temporary]).None?
             && |data| <= MAX_MANIFEST && !IsDir(old(disk.img), ManifestPath(root, archive))) ==> ok
  {
    ManifestNames(root, archive, temporary);
    assert root + [archive, temporary] == Parent(ManifestPath(root, archive)) + [temporary];
    mode := 0;
    if |data| > MAX_MANIFEST {
      return false, mode;
    }
    assert Standing(disk.img, root + [archive]) ==> Openable(disk.img, root + [archive]);
    ghost var left;
    ok, mode, left := WriteManifest(disk, ManifestPath(root, archive), data, temporary, calm);
  }

  /** The root is opened, or created when it is missing; the manifest's name is not touched. */
  method OpenRoot(disk: Volume, root: Path, archive: Name, calm: bool) returns (ok: bool)
    requires disk.Valid()
    modifies disk
    ensures disk.Valid()
    ensures old(disk.log) <= disk.log
    ensures var path := ManifestPath(root, archive);
            At(disk.img, path) == At(old(disk.img), path)
            && forall k | |old(disk.log)| <= k < |disk.log| :: At(disk.log[k], path) == At(old(disk.img), path)
    ensures Standing(old(disk.img), root + [archive]) ==> forall q :: At(disk.img, q) == At(old(disk.img), q)
    ensures calm && Standing(old(disk.img), root + [archive]) ==> ok
  {
    ghost var i0, path := disk.img, ManifestPath(root, archive);
    if Standing(i0, root + [archive]) {
      PrefixStands(i0, root, archive);
    }
    assert !(path <= root);
    ok := MkdirAll(disk, root, calm);
    assert At(disk.img, path) == At(i0, path);
    if Standing(i0, root + [archive]) {
      StandingGrown(i0, disk.img, root);
    }
  }

  lemma PrefixStands(i: Image, root: Path, archive: Name)
    requires Standing(i, root + [archive])
    ensures Standing(i, root) && Openable(i, root)
  {
    forall n | 0 <= n <= |root| ensures IsDir(i, root[..n]) {
      assert root[..n] == (root + [archive])[..n];
    }
  }

  /** A stored copy stays what it is, and as durable as it is, while its record is written. */
  lemma CopyUndisturbed(i: Image, j: Image, root: Path, archive: Name, w: Winner, relative: Path, temporary: Name, t: Tree)
    requires TEMPORARY <= temporary && Holds(i, root + BackupId(archive, w, relative), t)
    requires FirmerBut(i, j, ManifestPath(root, archive), root + [archive, temporary])
    ensures Holds(j, root + BackupId(archive, w, relative), t)
  {
    var base := root + BackupId(archive, w, relative);
    ManifestNames(root, archive, temporary);
    assert root + [archive, temporary] == Parent(ManifestPath(root, archive)) + [temporary];
    forall q ensures Firmer(At(i, base + q), At(j, base + q)) {
    }
    forall q | Lookup(t, q).Some? ensures Durable(j, base + q, Lookup(t, q).value) {
      assert Durable(i, base + q, Lookup(t, q).value);
    }
  }

  lemma WayNames(root: Path, archive: Name, w: Winner, relative: Path, temporary: Name, n: nat)
    requires TEMPORARY <= temporary && n < |root + BackupId(archive, w, relative)|
    ensures var d := (root + BackupId(archive, w, relative))[..n];
            d != ManifestPath(root, archive) && !(root + [archive, temporary] <= d)
  {
    var d := (root + BackupId(archive, w, relative))[..n];
    if |root| + 2 <= n {
      assert d[|root| + 1] == WinnerDirectory(w);
      assert temporary[0] == '.' && (root + [archive, temporary])[|root| + 1] == temporary;
      assert ManifestPath(root, archive)[|root| + 1] == MANIFEST;
    }
  }

  /** So do the directories that lead to it. */
  lemma WayUndisturbed(i: Image, j: Image, root: Path, archive: Name, w: Winner, relative: Path, temporary: Name)
    requires TEMPORARY <= temporary && relative != []
    requires FirmerBut(i, j, ManifestPath(root, archive), root + [archive, temporary])
    ensures var base := root + BackupId(archive, w, relative);
            forall n | 0 < n < |base| :: KeptDir(i, base[..n]) ==> KeptDir(j, base[..n])
    ensures forall n | 0 <= n <= |root| :: At(j, root[..n]) == At(i, root[..n])
  {
    var base := root + BackupId(archive, w, relative);
    forall n | 0 < n < |base| && KeptDir(i, base[..n]) ensures KeptDir(j, base[..n]) {
      WayNames(root, archive, w, relative, temporary, n);
      assert Firmer(At(i, base[..n]), At(j, base[..n]));
    }
    forall n | 0 <= n <= |root| ensures At(j, root[..n]) == At(i, root[..n]) {
      WayNames(root, archive, w, relative, temporary, n);
      assert root[..n] == base[..n];
    }
  }

  /** The catalog, read now, lists the record. */
  ghost predicate Lists(c: Codec, i: Image, root: Path, archive: Name, w: Winner, r: Record) {
    var now := Current(c, i, root, archive, w);
    now.Some? && r in now.value.records
  }

  /** The catalog, read now, has a record that describes this tree. */
  ghost predicate ListsTree(c: Codec, i: Image, root: Path, archive: Name, w: Winner, relative: Path, t: Tree) {
    exists m, k :: Reads(c, i, root, archive, w, m) && 0 <= k < |m.records|
                   && Describes(m.records[k], relative, t, Digest(StreamOf(t)))
  }

  lemma ListedIsDescribed(c: Codec, i: Image, root: Path, archive: Name, w: Winner, relative: Path, t: Tree)
    requires WithinLimits(t) && Lists(c, i, root, archive, w, RecordOf(relative, SummaryOf(t)))
    ensures ListsTree(c, i, root, archive, w, relative, t)
  {
    TreeDescribed(relative, t);
    var now := Current(c, i, root, archive, w);
    var k :| 0 <= k < |now.value.records| && now.value.records[k] == RecordOf(relative, SummaryOf(t));
    CurrentExact(c, i, root, archive, w, now.value);
    assert Describes(now.value.records[k], relative, t, Digest(StreamOf(t)));
  }

  /** A durable manifest is read back as it was written. */
  lemma ReadsBack(c: Codec, i: Image, root: Path, archive: Name, w: Winner, m: Manifest, mode: nat)
    requires Faithful(c) && Kept(c, i, root, archive, w, m, mode)
    ensures Current(c, i, root, archive, w) == Some(m)
  {
    assert c.decode(c.encode(m)) == Some(m);
  }
}
