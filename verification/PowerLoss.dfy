/** What a volume may show after the power fails, and when an extracted copy outlives that. */
module PowerLoss {
  import opened Common
  import opened Disk
  import opened FileTree
  import opened RoundTrip
  import opened RecoveryCatalog

  /** Every directory above the name is there. */
  predicate Reachable(j: Image, p: Path) {
    forall n | 0 <= n < |p| :: IsDir(j, p[..n])
  }

  /** One image a power loss may leave: each name shows one of the states it may show, and a name
      whose directory is gone shows nothing. */
  ghost predicate MayLeave(i: Image, j: Image) {
    forall p | p != [] :: if Reachable(j, p) then Now(j, p) in After(i, p) else Now(j, p).None?
  }

  lemma {:induction false} KeptWayStands(i: Image, j: Image, p: Path, n: nat)
    requires MayLeave(i, j) && n <= |p|
    requires forall k | 0 < k <= n :: KeptDir(i, p[..k])
    ensures IsDir(j, p[..n])
    ensures n < |p| ==> Reachable(j, p[..n + 1])
  {
    if n > 0 {
      KeptWayStands(i, j, p, n - 1);
      assert KeptDir(i, p[..n]) && Now(j, p[..n]) in After(i, p[..n]);
    }
    if n < |p| {
      var d := p[..n + 1];
      forall k | 0 <= k < |d| ensures IsDir(j, d[..k]) {
        assert d[..k] == p[..k];
        if k < n {
          KeptWayStands(i, j, p, k);
        }
      }
    }
  }

  /** Below a copy that is still reachable, everything is as it was. */
  lemma {:induction false} CopyKept(i: Image, j: Image, base: Path, t: Tree, q: Path)
    requires MayLeave(i, j) && base != [] && Holds(i, base, t) && Reachable(j, base)
    ensures Now(j, base + q) == Lookup(t, q)
    decreases |q|
  {
    var p := base + q;
    if q == [] {
      assert p == base && Durable(i, base + [], Head(t));
    } else {
      CopyKept(i, j, base, t, Parent(q));
      assert base + Parent(q) == p[..|p| - 1];
      if Lookup(t, q).Some? {
        LookupParent(t, q);
      }
      if Lookup(t, Parent(q)).Some? && Lookup(t, Parent(q)).value.Dir? {
        forall n | 0 <= n < |p| ensures IsDir(j, p[..n]) {
          if n < |base| {
            assert p[..n] == base[..n];
          } else if n < |p| - 1 {
            var r := q[..n - |base|];
            assert p[..n] == base + r;
            CopyKept(i, j, base, t, r);
            AboveDirectory(t, Parent(q), |r|);
            assert Parent(q)[..|r|] == r;
          }
        }
        assert Now(j, p) in After(i, p);
        assert Now(i, p) == Lookup(t, q);
        assert InDirectory(t, q) && At(i, p).stale == {};
        if Lookup(t, q).Some? {
          assert Durable(i, p, Lookup(t, q).value);
        }
      } else {
        assert !IsDir(j, p[..|p| - 1]);
      }
    }
  }

  lemma {:induction false} LookupParent(t: Tree, q: Path)
    requires q != [] && Lookup(t, q).Some?
    ensures Lookup(t, Parent(q)).Some? && Lookup(t, Parent(q)).value.Dir?
    decreases |q|
  {
    if |q| > 1 {
      LookupParent(t.children[q[0]], q[1..]);
      assert Parent(q)[1..] == Parent(q[1..]);
    } else {
      assert Parent(q) == [];
    }
  }

  lemma {:induction false} AboveDirectory(t: Tree, q: Path, n: nat)
    requires n < |q| && Lookup(t, q).Some?
    ensures Lookup(t, q[..n]).Some? && Lookup(t, q[..n]).value.Dir?
    decreases |q|
  {
    LookupParent(t, q);
    if n < |q| - 1 {
      AboveDirectory(t, Parent(q), n);
      assert Parent(q)[..n] == q[..n];
    } else {
      assert q[..n] == Parent(q);
    }
  }

  // ---------------------------------------------------------------- a power loss that takes a directory

  /** An outcome in which `lost` shows `v`. */
  ghost function Outcome(i: Image, lost: Path, v: Option<Obj>, p: Path): Option<Obj>
    decreases |p|
  {
    if p == [] then None
    else if Parent(p) != [] && !(Outcome(i, lost, v, Parent(p)).Some? && Outcome(i, lost, v, Parent(p)).value.Dir?) then None
    else if p == lost then v
    else if After(i, p) != {} then Some0(After(i, p))
    else None
  }

  ghost function Some0(s: set<Option<Obj>>): (v: Option<Obj>)
    requires s != {}
    ensures v in s
  {
    var v :| v in s;
    v
  }

  lemma {:induction false} OutcomeReachable(i: Image, lost: Path, v: Option<Obj>, j: Image, p: Path)
    requires forall q | q != [] :: Now(j, q) == Outcome(i, lost, v, q)
    requires p != []
    ensures Reachable(j, p) <==> IsDir(j, Parent(p))
    decreases |p|
  {
    if IsDir(j, Parent(p)) {
      if Parent(p) != [] {
        OutcomeReachable(i, lost, v, j, Parent(p));
        assert Outcome(i, lost, v, Parent(p)).Some?;
      }
      forall n | 0 <= n < |p| ensures IsDir(j, p[..n]) {
        if n < |p| - 1 {
          assert Parent(p)[..n] == p[..n];
        }
      }
    }
  }

  /** A directory that may be missing after a power loss takes everything below it along. */
  lemma {:induction false} WayMayVanish(i: Image, d: Path, base: Path) returns (j: Image)
    requires Lawful(i) && d < base && !KeptDir(i, d) && IsDir(i, d)
    ensures MayLeave(i, j) && Now(j, base).None?
  {
    assert Opened(i, true);
    var v :| v in After(i, d) && !(v.Some? && v.value.Dir?);
    j := map p | p in i && p != [] :: Slot(Outcome(i, d, v, p), {}, {});
    forall p | p != [] ensures Now(j, p) == Outcome(i, d, v, p) {
      if p !in i {
        assert After(i, p) == {None} && p != d;
      }
    }
    forall p | p != [] ensures if Reachable(j, p) then Now(j, p) in After(i, p) else Now(j, p).None? {
      OutcomeReachable(i, d, v, j, p);
      if p in i && i[p].now.Some? {
        var o :| o in i[p].settled;
        assert Some(o) in After(i, p);
      } else {
        assert None in After(i, p);
      }
    }
    assert base[..|d|] == d && Now(j, d) == Outcome(i, d, v, d);
    assert !IsDir(j, d) && !Reachable(j, base);
  }

  /** The copy outlives every power loss exactly when the held root's own name, and those above it,
      were durable: extraction makes durable only what is below the root. */
  lemma {:induction false} SurvivesIff(i: Image, root: Path, dest: Path, t: Tree)
    requires Lawful(i) && dest != [] && Holds(i, root + dest, t)
    requires forall n | 0 <= n < |root + dest| :: IsDir(i, (root + dest)[..n])
    requires forall n | |root| < n < |root + dest| :: KeptDir(i, (root + dest)[..n])
    ensures (forall j | MayLeave(i, j) :: Shows(j, root + dest, Some(t))) <==>
            (forall n | 0 < n <= |root| :: KeptDir(i, root[..n]))
  {
    var base := root + dest;
    assert forall n | 0 < n <= |root| :: root[..n] == base[..n];
    if forall n | 0 < n <= |root| :: KeptDir(i, root[..n]) {
      forall j | MayLeave(i, j) ensures Shows(j, base, Some(t)) {
        SurvivesWhenKept(i, j, base, t);
      }
    } else {
      var n :| 0 < n <= |root| && !KeptDir(i, root[..n]);
      var j := WayMayVanish(i, base[..n], base);
      assert base + [] == base && Lookup(t, []).Some?;
      assert !Shows(j, base, Some(t));
    }
  }

  lemma {:induction false} SurvivesWhenKept(i: Image, j: Image, base: Path, t: Tree)
    requires MayLeave(i, j) && base != [] && Holds(i, base, t)
    requires forall n | 0 < n < |base| :: KeptDir(i, base[..n])
    ensures Shows(j, base, Some(t))
  {
    KeptWayStands(i, j, base, |base| - 1);
    assert base[..|base| - 1 + 1] == base;
    forall q ensures Now(j, base + q) == Lookup(t, q) {
      CopyKept(i, j, base, t, q);
    }
  }

  /** A catalogued record is still listed after a power loss, when the way to its archive is durable. */
  lemma RecordKept(c: Codec, i: Image, j: Image, root: Path, archive: Name, w: Winner, r: Record)
    requires MayLeave(i, j) && Faithful(c) && Catalogued(c, i, root, archive, w, r)
    requires forall n | 0 < n <= |root + [archive]| :: KeptDir(i, (root + [archive])[..n])
    ensures Lists(c, j, root, archive, w, r)
  {
    var path := ManifestPath(root, archive);
    var m: Manifest, mode: nat :| r in m.records && Kept(c, i, root, archive, w, m, mode);
    forall n | 0 < n < |path| ensures KeptDir(i, path[..n]) {
      assert path[..n] == (root + [archive])[..n];
    }
    KeptWayStands(i, j, path, |path| - 1);
    assert path[..|path|] == path && Now(j, path) in After(i, path);
    assert c.decode(c.encode(m)) == Some(m);
  }
}
