/** Crash-safe replacement of one file: atomicWrite and the recovery manifest's writer. */
module AtomicFile {
  import opened Common
  import opened Disk
  import opened Directories

  /** The name shows, and after any power loss will show, either what it could show before the call
      or the next file in full. */
  ghost predicate OldOrNew(before: Slot, s: Slot, next: Obj) {
    && (s.now == before.now || s.now == Some(next))
    && s.stale + Bound(s) <= before.stale + Bound(before) + {Some(next)}
  }

  predicate Holding(s: Slot, o: Obj) {
    s.now == Some(o) && s.settled == {o}
  }

  /** That was so in every image the volume went through since `start`. */
  ghost predicate AlwaysOldOrNew(before: Slot, log: seq<Image>, start: nat, path: Path, next: Obj) {
    forall k | start <= k < |log| :: OldOrNew(before, At(log[k], path), next)
  }

  lemma FirmerStep(before: Slot, s: Slot, t: Slot, next: Obj)
    requires OldOrNew(before, s, next) && Holding(s, next) && Firmer(s, t)
    ensures OldOrNew(before, t, next) && Holding(t, next)
  {
  }

  /** The longest part of the path that is a directory already; fails when something else is in the way. */
  method NearestExistingDirectory(disk: Volume, path: Path) returns (ok: bool, found: Path)
    ensures ok ==> found <= path && IsDir(disk.img, found)
    ensures ok ==> forall n | |found| < n <= |path| :: Now(disk.img, path[..n]).None?
    ensures !ok ==> exists n | 0 < n <= |path| :: Now(disk.img, path[..n]).Some? && !IsDir(disk.img, path[..n])
  {
    found := path;
    assert path == path[..|path|];
    while !IsDir(disk.img, found)
      invariant |found| <= |path| && found == path[..|found|]
      invariant forall n | |found| < n <= |path| :: Now(disk.img, path[..n]).None?
      decreases |found|
    {
      if Now(disk.img, found).Some? {
        return false, found;
      }
      assert Parent(found) == path[..|found| - 1];
      found := Parent(found);
    }
    ok := true;
  }

  /** Only names at or below `temp` changed, in the image and in every image on the way to it. */
  ghost predicate TouchedOnly(i: Image, j: Image, log: seq<Image>, start: nat, temp: Path) {
    && (forall p | !(temp <= p) :: At(j, p) == At(i, p))
    && (forall k, p | start <= k < |log| && !(temp <= p) :: At(log[k], p) == At(i, p))
  }

  /** Only a removal that failed too leaves the temporary name behind. */
  predicate Tidy(i: Image, j: Image, temp: Path, left: bool) {
    !left && Now(i, temp).None? ==> Now(j, temp).None?
  }

  /** Fills a fresh temporary file, sets its mode and makes its bytes durable. */
  method WriteTemporary(disk: Volume, temp: Path, data: seq<byte>, mode: nat, calm: bool) returns (ok: bool, ghost left: bool)
    requires disk.Valid()
    modifies disk
    ensures disk.Valid()
    ensures old(disk.log) <= disk.log
    ensures TouchedOnly(old(disk.img), disk.img, disk.log, |old(disk.log)|, temp)
    ensures ok ==> Holding(At(disk.img, temp), File(data, mode))
    ensures calm && temp != [] && Now(old(disk.img), temp).None? && IsDir(old(disk.img), Parent(temp)) ==> ok
    ensures !ok ==> Tidy(old(disk.img), disk.img, temp, left)
    ensures calm ==> !left
  {
    left := false;
    ghost var i0, n := disk.img, |disk.log|;
    var made, initial := disk.CreateFile(temp, calm);
    assert TouchedOnly(i0, disk.img, disk.log, n, temp);
    if !made { return false, false; }
    ok := FillTemporary(disk, temp, data, mode, i0, n, calm);
    if !ok {
      var removed := disk.RemoveAll(temp, calm);
      left := !removed;
      assert TouchedOnly(i0, disk.img, disk.log, n, temp);
    }
  }

  method FillTemporary(disk: Volume, temp: Path, data: seq<byte>, mode: nat, ghost i0: Image, ghost n: nat, calm: bool)
      returns (ok: bool)
    requires disk.Valid()
    requires Now(disk.img, temp).Some? && Now(disk.img, temp).value.File?
    requires TouchedOnly(i0, disk.img, disk.log, n, temp)
    modifies disk
    ensures disk.Valid()
    ensures old(disk.log) <= disk.log
    ensures TouchedOnly(i0, disk.img, disk.log, n, temp)
    ensures ok ==> Holding(At(disk.img, temp), File(data, mode))
    ensures calm ==> ok
  {
    ok := disk.Chmod(temp, mode, calm);
    assert TouchedOnly(i0, disk.img, disk.log, n, temp);
    if !ok { return; }
    var done: nat;
    ok, done := disk.Write(temp, data, calm);
    assert TouchedOnly(i0, disk.img, disk.log, n, temp);
    if !ok { return; }
    assert data[..done] == data;
    ok := disk.SyncFile(temp, calm);
    assert TouchedOnly(i0, disk.img, disk.log, n, temp);
  }

  /** The rename; when it fails, as it does on a directory, the temporary name is removed again. */
  method Publish(disk: Volume, temp: Path, path: Path, next: Obj, calm: bool) returns (ok: bool, ghost left: bool)
    requires disk.Valid()
    requires temp != [] && !(temp <= path) && next.File? && Holding(At(disk.img, temp), next)
    modifies disk
    ensures disk.Valid()
    ensures old(disk.log) <= disk.log && |old(disk.log)| < |disk.log|
    ensures AlwaysOldOrNew(At(old(disk.img), path), disk.log, |old(disk.log)|, path, next)
    ensures ok ==> OldOrNew(At(old(disk.img), path), At(disk.img, path), next) && Holding(At(disk.img, path), next)
    ensures !ok ==> At(disk.img, path) == At(old(disk.img), path)
    ensures forall p | p != path && !(temp <= p) :: At(disk.img, p) == At(old(disk.img), p)
    ensures calm && path != [] && IsDir(old(disk.img), Parent(path)) && !IsDir(old(disk.img), path) ==> ok
    ensures (Now(disk.img, temp).None? || left) && (calm || ok ==> !left)
  {
    left := false;
    ok := disk.Rename(temp, path, calm);
    if !ok {
      var removed := disk.RemoveAll(temp, calm);
      left := !removed;
    }
  }

  /** Replaces or creates one file.  At every step, also one where the power fails, the target is the
      old file or the whole new one.  After success the new file is durable, and so is every
      directory on the way from it up to the nearest one that existed before. */
  method AtomicWrite(disk: Volume, path: Path, data: seq<byte>, mode: nat, temporary: Name, calm: bool)
      returns (ok: bool, existing: Path, ghost left: bool)
    requires disk.Valid()
    requires path != [] && Parent(path) + [temporary] != path
    modifies disk
    ensures disk.Valid()
    ensures Tidy(old(disk.img), disk.img, Parent(path) + [temporary], left) && (calm || ok ==> !left)
    ensures old(disk.log) <= disk.log
    ensures AlwaysOldOrNew(At(old(disk.img), path), disk.log, |old(disk.log)|, path, File(data, mode))
    ensures ok ==> existing <= Parent(path) && IsDir(old(disk.img), existing)
    ensures ok ==> forall n | |existing| < n < |path| :: Now(old(disk.img), path[..n]).None?
    ensures ok ==> Durable(disk.img, path, File(data, mode))
    ensures ok ==> forall n | |existing| < n < |path| :: KeptDir(disk.img, path[..n])
    ensures (calm && Now(old(disk.img), Parent(path) + [temporary]).None? && Openable(old(disk.img), Parent(path))
             && !IsDir(old(disk.img), path)) ==> ok
  {
    left := false;
    var parent := Parent(path);
    var temp := parent + [temporary];
    assert Parent(temp) == parent && parent[..|parent|] == parent && !(temp <= path);
    assert !(path <= parent) && !(temp <= parent);
    assert forall n | 0 <= n < |path| :: path[..n] == parent[..n] && !(temp <= path[..n]);
    ghost var before, start := At(disk.img, path), |disk.log|;
    ok, existing := NearestExistingDirectory(disk, parent);
    if !ok { return; }
    ok := MkdirAll(disk, parent, calm);
    assert At(disk.img, path) == before && AlwaysOldOrNew(before, disk.log, start, path, File(data, mode));
    if !ok { return; }
    ok, left := WriteTemporary(disk, temp, data, mode, calm);
    assert At(disk.img, path) == before && AlwaysOldOrNew(before, disk.log, start, path, File(data, mode));
    if !ok { return; }
    ok, left := Publish(disk, temp, path, File(data, mode), calm);
    if !ok { return; }
    ok := FinishReplacing(disk, path, existing, before, File(data, mode), calm);
  }

  /** Syncs the directories from the parent up to the one that existed before. */
  method FinishReplacing(disk: Volume, path: Path, existing: Path, ghost before: Slot, next: Obj, calm: bool)
      returns (ok: bool)
    requires disk.Valid()
    requires path != [] && existing <= Parent(path)
    requires OldOrNew(before, At(disk.img, path), next) && Holding(At(disk.img, path), next)
    requires forall n | 0 <= n < |path| :: IsDir(disk.img, path[..n])
    modifies disk
    ensures disk.Valid()
    ensures old(disk.log) <= disk.log
    ensures AlwaysOldOrNew(before, disk.log, |old(disk.log)|, path, next)
    ensures ok ==> Durable(disk.img, path, next)
    ensures ok ==> forall n | |existing| < n < |path| :: KeptDir(disk.img, path[..n])
    ensures calm ==> ok
    ensures forall p :: Now(disk.img, p) == Now(old(disk.img), p)
  {
    var parent := Parent(path);
    ghost var i2 := disk.img;
    assert forall n | 0 <= n <= |parent| :: parent[..n] == path[..n];
    ok := SyncRootDirectoryChain(disk, existing, parent, calm);
    forall k | |old(disk.log)| <= k < |disk.log| ensures OldOrNew(before, At(disk.log[k], path), next) {
      assert AllFirmer(i2, disk.log[k], |existing|);
      FirmerStep(before, At(i2, path), At(disk.log[k], path), next);
    }
    if ok {
      ghost var i3 := disk.img;
      assert Firmer(At(i2, path), At(i3, path));
      ChainNames(i2, parent, |existing|, path);
      forall n | |existing| < n < |path| ensures KeptDir(i3, path[..n]) {
        assert Parent(path[..n]) == path[..n - 1] <= parent && path[..n] <= parent;
        ChainNames(i2, parent, |existing|, path[..n]);
        ChainModes(i2, parent, |existing|, path[..n]);
        assert Firmer(At(i2, path[..n]), At(i3, path[..n]));
      }
    }
  }

  ghost predicate Standing(i: Image, p: Path) {
    forall n | 0 <= n <= |p| :: IsDir(i, p[..n])
  }

  lemma StandingGrown(i: Image, j: Image, p: Path)
    requires Standing(i, p) && Grown(i, j, p)
    ensures forall q :: At(j, q) == At(i, q)
  {
    forall q ensures At(j, q) == At(i, q) {
      if q <= p {
        assert q == p[..|q|];
      }
    }
  }

  /** Nothing but these two names lost durability, and nothing above their directory changed at all. */
  ghost predicate FirmerBut(i: Image, j: Image, path: Path, temp: Path) {
    forall p | p != path && !(temp <= p) :: Firmer(At(i, p), At(j, p)) && (|p| + 1 < |path| ==> At(j, p) == At(i, p))
  }

  /** The recovery manifest's writer: the same discipline inside one directory, which it creates if
      need be.  When that directory stands already, nothing else loses durability. */
  method WriteManifest(disk: Volume, path: Path, data: seq<byte>, temporary: Name, calm: bool)
      returns (ok: bool, mode: nat, ghost left: bool)
    requires disk.Valid()
    requires path != [] && Parent(path) + [temporary] != path
    modifies disk
    ensures disk.Valid()
    ensures old(disk.log) <= disk.log
    ensures AlwaysOldOrNew(At(old(disk.img), path), disk.log, |old(disk.log)|, path, File(data, mode))
    ensures ok ==> Durable(disk.img, path, File(data, mode))
    ensures Standing(old(disk.img), Parent(path)) ==>
              FirmerBut(old(disk.img), disk.img, path, Parent(path) + [temporary])
    ensures (calm && Now(old(disk.img), Parent(path) + [temporary]).None? && Openable(old(disk.img), Parent(path))
             && !IsDir(old(disk.img), path)) ==> ok
    ensures Tidy(old(disk.img), disk.img, Parent(path) + [temporary], left) && (calm || ok ==> !left)
  {
    var parent := Parent(path);
    var temp := parent + [temporary];
    assert Parent(temp) == parent && parent[..|parent|] == parent && !(temp <= path) && !(path <= parent) && !(temp <= parent);
    ghost var i0 := disk.img;
    ok := MkdirAll(disk, parent, calm);
    mode, left := 0, false;
    if Standing(i0, parent) {
      StandingGrown(i0, disk.img, parent);
    }
    if !ok { return; }
    ghost var i1 := disk.img;
    ok, mode, left := ReplaceManifest(disk, path, temp, data, calm);
    assert Standing(i0, parent) ==> FirmerBut(i0, disk.img, path, temp) by {
      if Standing(i0, parent) {
        forall p | p != path && !(temp <= p) ensures Firmer(At(i0, p), At(disk.img, p)) {
          assert At(i1, p) == At(i0, p);
        }
      }
    }
  }

  method ReplaceManifest(disk: Volume, path: Path, temp: Path, data: seq<byte>, calm: bool)
      returns (ok: bool, mode: nat, ghost left: bool)
    requires disk.Valid()
    requires path != [] && temp != [] && Parent(temp) == Parent(path) && temp != path && !(temp <= path)
    requires IsDir(disk.img, Parent(path)) && !(temp <= Parent(path))
    modifies disk
    ensures disk.Valid()
    ensures old(disk.log) <= disk.log
    ensures AlwaysOldOrNew(At(old(disk.img), path), disk.log, |old(disk.log)|, path, File(data, mode))
    ensures ok ==> Durable(disk.img, path, File(data, mode))
    ensures FirmerBut(old(disk.img), disk.img, path, temp)
    ensures calm && Now(old(disk.img), temp).None? && !IsDir(old(disk.img), path) ==> ok
    ensures Tidy(old(disk.img), disk.img, temp, left) && (calm || ok ==> !left)
  {
    left := false;
    ghost var i1, n1 := disk.img, |disk.log|;
    ok, mode := disk.CreateFile(temp, calm);
    assert TouchedOnly(i1, disk.img, disk.log, n1, temp);
    if !ok { return; }
    ok := FillManifest(disk, temp, data, mode, i1, n1, calm);
    if !ok {
      var removed := disk.RemoveAll(temp, calm);
      left := !removed;
      assert TouchedOnly(i1, disk.img, disk.log, n1, temp);
      return;
    }
    assert At(disk.img, path) == At(i1, path) && FirmerBut(i1, disk.img, path, temp);
    ghost var i2 := disk.img;
    ok, left := PublishManifest(disk, path, temp, File(data, mode), calm);
    forall p | p != path && !(temp <= p) ensures Firmer(At(i1, p), At(disk.img, p)) {
      assert Firmer(At(i1, p), At(i2, p)) && Firmer(At(i2, p), At(disk.img, p));
    }
  }

  method PublishManifest(disk: Volume, path: Path, temp: Path, next: Obj, calm: bool) returns (ok: bool, ghost left: bool)
    requires disk.Valid()
    requires path != [] && temp != [] && Parent(temp) == Parent(path) && temp != path && !(temp <= path)
    requires IsDir(disk.img, Parent(path)) && !(temp <= Parent(path)) && next.File? && Holding(At(disk.img, temp), next)
    modifies disk
    ensures disk.Valid()
    ensures old(disk.log) <= disk.log
    ensures AlwaysOldOrNew(At(old(disk.img), path), disk.log, |old(disk.log)|, path, next)
    ensures ok ==> Durable(disk.img, path, next)
    ensures FirmerBut(old(disk.img), disk.img, path, temp)
    ensures calm && !IsDir(old(disk.img), path) ==> ok
    ensures (Now(disk.img, temp).None? || left) && (calm || ok ==> !left)
  {
    ghost var i1 := disk.img;
    ok, left := Publish(disk, temp, path, next, calm);
    if !ok { return; }
    ghost var i2 := disk.img;
    ok := disk.SyncDirectory(Parent(path), calm);
    SyncFirmer(i2, Parent(path), 0);
    FirmerStep(At(i1, path), At(i2, path), At(disk.img, path), next);
    forall p | p != path && !(temp <= p) ensures Firmer(At(i1, p), At(disk.img, p)) {
      assert At(i1, p) == At(i2, p);
    }
  }

  method FillManifest(disk: Volume, temp: Path, data: seq<byte>, mode: nat, ghost i0: Image, ghost n: nat, calm: bool)
      returns (ok: bool)
    requires disk.Valid()
    requires Now(disk.img, temp) == Some(File([], mode))
    requires TouchedOnly(i0, disk.img, disk.log, n, temp)
    modifies disk
    ensures disk.Valid()
    ensures old(disk.log) <= disk.log
    ensures TouchedOnly(i0, disk.img, disk.log, n, temp)
    ensures ok ==> Holding(At(disk.img, temp), File(data, mode))
    ensures calm ==> ok
  {
    var done: nat;
    ok, done := disk.Write(temp, data, calm);
    assert TouchedOnly(i0, disk.img, disk.log, n, temp);
    if !ok { return; }
    assert data[..done] == data;
    ok := disk.SyncFile(temp, calm);
    assert TouchedOnly(i0, disk.img, disk.log, n, temp);
  }

  /** Why the order matters: renaming before the bytes are synced may leave an empty file. */
  lemma RenameBeforeSyncIsUnsafe(path: Path, temp: Path, prior: Obj, next: Obj, mode: nat)
    requires path != temp && next.File? && next.content != [] && prior != File([], mode) && next != File([], mode)
    ensures var i0 := map[path := Slot(Some(prior), {prior}, {})];
            var i := Moved(Change(Put(i0, temp, File([], mode)), temp, next), temp, path);
            Now(i, path) == Some(next) && !OldOrNew(At(i0, path), At(i, path), next)
  {
    var i0: Image := map[path := Slot(Some(prior), {prior}, {})];
    var i := Moved(Change(Put(i0, temp, File([], mode)), temp, next), temp, path);
    assert File([], mode) in At(i, path).settled;
    assert Some(File([], mode)) in At(i, path).stale + Bound(At(i, path));
    assert Some(File([], mode)) !in At(i0, path).stale + Bound(At(i0, path)) + {Some(next)};
  }
}
