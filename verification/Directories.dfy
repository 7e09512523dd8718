/** Loops over directories: creating the missing ones on a path, and syncing them upwards. */
module Directories {
  import opened Common
  import opened Disk

  /** The slot kept its object and lost nothing that was durable about it. */
  predicate Firmer(s: Slot, t: Slot) {
    && t.now == s.now && t.stale <= s.stale
    && (t.settled == s.settled || t == Settle(s).(stale := t.stale))
  }

  /** Only directories above or at `p` were added; everything that existed is as it was. */
  ghost predicate Grown(i: Image, j: Image, p: Path) {
    forall q :: At(j, q) == At(i, q)
             || (Now(i, q).None? && q != [] && q <= p && IsDir(j, q) && At(j, q).stale == After(i, q))
  }

  /** That was so in every image the volume went through since `start`. */
  ghost predicate AlwaysGrown(i: Image, log: seq<Image>, start: nat, p: Path) {
    forall k | start <= k < |log| :: Grown(i, log[k], p)
  }

  lemma GrownStep(i: Image, j: Image, p: Path, n: nat, mode: nat)
    requires Grown(i, j, p) && n < |p| && Now(j, p[..n + 1]).None? && At(j, p[..n + 1]) == At(i, p[..n + 1])
    ensures Grown(i, Put(j, p[..n + 1], Dir(mode)), p)
  {
    var d := p[..n + 1];
    forall q ensures At(Put(j, d, Dir(mode)), q) == At(i, q)
                     || (Now(i, q).None? && q != [] && q <= p && IsDir(Put(j, d, Dir(mode)), q)
                         && At(Put(j, d, Dir(mode)), q).stale == After(i, q))
    {
      assert q != d ==> At(Put(j, d, Dir(mode)), q) == At(j, q);
    }
  }

  predicate Openable(i: Image, p: Path) {
    forall n | 0 < n <= |p| :: Now(i, p[..n]).None? || IsDir(i, p[..n])
  }

  /** Creates the missing directories on a path.  Nothing is synced. */
  method MkdirAll(disk: Volume, p: Path, calm: bool) returns (ok: bool)
    requires disk.Valid()
    modifies disk
    ensures disk.Valid()
    ensures Grown(old(disk.img), disk.img, p)
    ensures old(disk.log) <= disk.log
    ensures AlwaysGrown(old(disk.img), disk.log, |old(disk.log)|, p)
    ensures ok ==> forall n | 0 <= n <= |p| :: IsDir(disk.img, p[..n])
    ensures calm && Openable(old(disk.img), p) ==> ok
  {
    var n := 0;
    while n < |p|
      invariant disk.Valid()
      invariant 0 <= n <= |p|
      invariant Grown(old(disk.img), disk.img, p)
      invariant old(disk.log) <= disk.log
      invariant AlwaysGrown(old(disk.img), disk.log, |old(disk.log)|, p)
      invariant forall k | 0 <= k <= n :: IsDir(disk.img, p[..k])
      invariant forall k | n < k <= |p| :: At(disk.img, p[..k]) == At(old(disk.img), p[..k])
    {
      var d := p[..n + 1];
      assert d[..n] == p[..n];
      if Now(disk.img, d).None? {
        ghost var before := disk.img;
        var made, mode := disk.Mkdir(d, calm);
        if made {
          GrownStep(old(disk.img), before, p, n, mode);
        }
        if !made { return false; }
      } else if !IsDir(disk.img, d) {
        return false;
      }
      n := n + 1;
    }
    return true;
  }

  /** Nothing anywhere became less durable, and names no longer than `n` were not settled. */
  ghost predicate AllFirmer(i: Image, j: Image, n: nat) {
    && (forall p :: Firmer(At(i, p), At(j, p)))
    && (forall p | |p| <= n :: At(j, p).stale == At(i, p).stale)
  }

  /** That was so in every image the volume went through since `start`. */
  ghost predicate AlwaysFirmer(i: Image, log: seq<Image>, start: nat, n: nat) {
    forall k | start <= k < |log| :: AllFirmer(i, log[k], n)
  }

  lemma AllFirmerTransitive(i: Image, j: Image, k: Image, n: nat)
    requires AllFirmer(i, j, n) && AllFirmer(j, k, n)
    ensures AllFirmer(i, k, n)
  {
    forall p ensures Firmer(At(i, p), At(k, p)) {
      assert Firmer(At(i, p), At(j, p)) && Firmer(At(j, p), At(k, p));
    }
  }

  /** Syncs every directory from `from` up to the one of length `stop`. */
  function ChainSynced(i: Image, from: Path, stop: nat): Image
    requires stop <= |from|
    decreases |from|
  {
    if |from| == stop then SyncedDir(i, from) else ChainSynced(SyncedDir(i, from), Parent(from), stop)
  }

  lemma SyncFirmer(i: Image, d: Path, n: nat)
    requires n <= |d|
    ensures AllFirmer(i, SyncedDir(i, d), n)
    ensures Settled(At(SyncedDir(i, d), d))
  {
  }

  lemma {:induction false} ChainFirmer(i: Image, from: Path, stop: nat)
    requires stop <= |from|
    ensures AllFirmer(i, ChainSynced(i, from, stop), stop)
    decreases |from|
  {
    SyncFirmer(i, from, stop);
    if |from| > stop {
      ChainFirmer(SyncedDir(i, from), Parent(from), stop);
      AllFirmerTransitive(i, SyncedDir(i, from), ChainSynced(SyncedDir(i, from), Parent(from), stop), stop);
    }
  }

  /** The names in every synced directory are settled. */
  lemma {:induction false} ChainNames(i: Image, from: Path, stop: nat, p: Path)
    requires stop < |p| && Parent(p) <= from
    ensures At(ChainSynced(i, from, stop), p).stale == {}
    decreases |from|
  {
    if |from| > stop {
      if Parent(p) == from {
        ChainFirmer(SyncedDir(i, from), Parent(from), stop);
        assert Firmer(At(SyncedDir(i, from), p), At(ChainSynced(i, from, stop), p));
      } else {
        ChainNames(SyncedDir(i, from), Parent(from), stop, p);
      }
    }
  }

  /** So is every synced directory itself. */
  lemma {:induction false} ChainModes(i: Image, from: Path, stop: nat, p: Path)
    requires stop <= |p| && p <= from
    ensures Settled(At(ChainSynced(i, from, stop), p))
    decreases |from|
  {
    SyncFirmer(i, from, stop);
    if |from| > stop {
      if p == from {
        ChainFirmer(SyncedDir(i, from), Parent(from), stop);
        assert Firmer(At(SyncedDir(i, from), p), At(ChainSynced(i, from, stop), p));
      } else {
        ChainModes(SyncedDir(i, from), Parent(from), stop, p);
      }
    }
  }

  predicate Settled(s: Slot) {
    s.now.Some? ==> s.settled == {s.now.value}
  }

  /** The loop up the held root: it stops at the root, whose own name is never settled. */
  method SyncRootDirectoryChain(disk: Volume, root: Path, from: Path, calm: bool) returns (ok: bool)
    requires disk.Valid()
    requires root <= from
    modifies disk
    ensures disk.Valid()
    ensures AllFirmer(old(disk.img), disk.img, |root|)
    ensures old(disk.log) <= disk.log
    ensures AlwaysFirmer(old(disk.img), disk.log, |old(disk.log)|, |root|)
    ensures ok ==> disk.img == ChainSynced(old(disk.img), from, |root|)
    ensures calm && (forall n | |root| <= n <= |from| :: IsDir(old(disk.img), from[..n])) ==> ok
  {
    var d := from;
    assert d == from[..|d|];
    while true
      invariant disk.Valid()
      invariant |root| <= |d| <= |from| && d == from[..|d|]
      invariant AllFirmer(old(disk.img), disk.img, |root|)
      invariant old(disk.log) <= disk.log
      invariant AlwaysFirmer(old(disk.img), disk.log, |old(disk.log)|, |root|)
      invariant ChainSynced(old(disk.img), from, |root|) == ChainSynced(disk.img, d, |root|)
      decreases |d|
    {
      ghost var before := disk.img;
      assert Firmer(At(old(disk.img), d), At(before, d));
      ok := disk.SyncDirectory(d, calm);
      if !ok { return; }
      SyncFirmer(before, d, |root|);
      AllFirmerTransitive(old(disk.img), before, disk.img, |root|);
      if d == root { return; }
      assert |d| > |root| by { assert root == from[..|root|]; }
      assert Parent(d) == from[..|d| - 1];
      d := Parent(d);
    }
  }
}
