/** Copying a tree between two roots, as a restore does: each object is created, filled and synced in
    the order of the walk; a directory gets its mode and is synced after its children. */
module CopyTree {
  import opened Common
  import opened Disk
  import opened Directories
  import opened FileTree
  import opened ArchiveStream
  import opened TextNames
  import opened Extract
  import opened RoundTrip
  import opened PowerLoss

  /** At and below `p` stand exactly the objects of the tree, with their bytes and modes durable, and
      every name in its directories is settled; `p` itself may not be. */
  ghost predicate Below(i: Image, p: Path, t: Tree) {
    && (forall q :: Now(i, p + q) == Lookup(t, q))
    && (forall q | Lookup(t, q).Some? :: At(i, p + q).settled == {Lookup(t, q).value})
    && (forall q | InDirectory(t, q) :: At(i, p + q).stale == {})
  }

  ghost predicate Nothing(i: Image, p: Path) {
    forall q :: Now(i, p + q).None?
  }

  /** A directory whose children in `done` are copied; the others do not exist yet. */
  ghost predicate Partly(i: Image, p: Path, t: Tree, done: set<Name>) {
    && IsDir(i, p)
    && (forall n | n in done && t.Directory? && n in t.children :: Below(i, p + [n], t.children[n]))
    && (forall n | n !in done :: Nothing(i, p + [n]))
  }

  lemma AsideChild(i: Image, j: Image, p: Path, n: Name)
    requires Aside(i, j, p + [n])
    ensures Aside(i, j, p)
  {
    forall x | !(p <= x) ensures Firmer(At(i, x), At(j, x)) {
      DeeperPrefix(p, n, x);
    }
  }

  lemma DeeperPrefix(p: Path, n: Name, x: Path)
    ensures p + [n] <= x ==> p <= x
  {
    if p + [n] <= x {
      assert p == x[..|p|];
    }
  }

  lemma BelowAside(i: Image, j: Image, p: Path, m: Name, n: Name, t: Tree)
    requires m != n && Aside(i, j, p + [n])
    ensures Below(i, p + [m], t) ==> Below(j, p + [m], t)
    ensures Nothing(i, p + [m]) ==> Nothing(j, p + [m])
  {
    forall q ensures Firmer(At(i, p + [m] + q), At(j, p + [m] + q)) {
      assert (p + [m] + q)[|p|] == m && (p + [n])[|p|] == n;
      assert !(p + [n] <= p + [m] + q);
    }
    if Below(i, p + [m], t) {
      forall q | Lookup(t, q).Some? ensures At(j, p + [m] + q).settled == {Lookup(t, q).value} {
        assert Now(i, p + [m] + q) == Lookup(t, q);
      }
    }
  }

  lemma PartlyMore(i: Image, j: Image, p: Path, t: Tree, done: set<Name>, n: Name)
    requires t.Directory? && n in t.children && p != [] && Partly(i, p, t, done) && n !in done
    requires Aside(i, j, p + [n]) && Below(j, p + [n], t.children[n])
    ensures Partly(j, p, t, done + {n})
  {
    assert !(p + [n] <= p);
    assert Firmer(At(i, p), At(j, p));
    forall m | m in done && m in t.children ensures Below(j, p + [m], t.children[m]) {
      BelowAside(i, j, p, m, n, t.children[m]);
    }
    forall m | m !in done + {n} ensures Nothing(j, p + [m]) {
      BelowAside(i, j, p, m, n, t);
    }
  }

  /** The mode and the sync of a finished directory settle it and every name in it. */
  lemma DirectoryDone(i: Image, p: Path, t: Tree)
    requires t.Directory? && p != [] && Partly(i, p, t, t.children.Keys)
    ensures Below(SyncedDir(Change(i, p, Dir(t.mode)), p), p, t)
  {
    var j := SyncedDir(Change(i, p, Dir(t.mode)), p);
    forall q
      ensures Now(j, p + q) == Lookup(t, q)
      ensures Lookup(t, q).Some? ==> At(j, p + q).settled == {Lookup(t, q).value}
      ensures InDirectory(t, q) ==> At(j, p + q).stale == {}
    {
      DirectorySlot(i, p, t, q);
    }
  }

  lemma DirectorySlot(i: Image, p: Path, t: Tree, q: Path)
    requires t.Directory? && p != [] && Partly(i, p, t, t.children.Keys)
    ensures var j := SyncedDir(Change(i, p, Dir(t.mode)), p);
            && Now(j, p + q) == Lookup(t, q)
            && (Lookup(t, q).Some? ==> At(j, p + q).settled == {Lookup(t, q).value})
            && (InDirectory(t, q) ==> At(j, p + q).stale == {})
  {
    if q == [] {
      assert p + q == p && !IsChild(p, p);
    } else {
      var n, rest := q[0], q[1..];
      assert p + q == p + [n] + rest;
      ChildOnly(p, q);
      SlotBeside(i, p, Dir(t.mode), p + q);
      if n in t.children {
        ChildSlot(i, p, t, n, rest);
        assert q == [n] + rest;
      } else {
        assert Nothing(i, p + [n]) && Now(i, p + [n] + rest).None?;
        if rest != [] {
          assert Parent(q)[0] == n;
        }
      }
    }
  }

  /** The mode and the sync of `p` change no other slot but settle the names in `p`. */
  lemma SlotBeside(i: Image, p: Path, o: Obj, x: Path)
    requires x != p
    ensures var s, u := At(i, x), At(SyncedDir(Change(i, p, o), p), x);
            u.now == s.now && u.settled == s.settled && u.stale <= s.stale && (IsChild(p, x) ==> u.stale == {})
  {
  }

  lemma ChildSlot(i: Image, p: Path, t: Tree, n: Name, rest: Path)
    requires t.Directory? && n in t.children && Below(i, p + [n], t.children[n])
    ensures Now(i, p + [n] + rest) == Lookup(t, [n] + rest)
    ensures Lookup(t, [n] + rest).Some? ==> At(i, p + [n] + rest).settled == {Lookup(t, [n] + rest).value}
    ensures rest != [] && InDirectory(t, [n] + rest) ==> At(i, p + [n] + rest).stale == {}
  {
    var q := [n] + rest;
    assert q[1..] == rest && Now(i, p + [n] + rest) == Lookup(t.children[n], rest);
    if rest != [] {
      assert Parent(q) == [n] + Parent(rest) && Parent(q)[1..] == Parent(rest);
      assert InDirectory(t, q) ==> InDirectory(t.children[n], rest);
    }
  }

  lemma ChildOnly(p: Path, q: Path)
    requires q != []
    ensures IsChild(p, p + q) <==> |q| == 1
  {
    assert Parent(p + q) == (p + q)[..|p + q| - 1];
    if |q| == 1 {
      assert (p + q)[..|p|] == p;
    } else {
      assert |Parent(p + q)| > |p|;
    }
  }

  // ---------------------------------------------------------------- the walk

  lemma ConfinedIsAside(i: Image, j: Image, p: Path)
    requires ConfinedTo(i, j, p)
    ensures Aside(i, j, p)
  {
    forall x | !(p <= x) ensures Firmer(At(i, x), At(j, x)) {
    }
  }

  lemma LeafBelow(i: Image, j: Image, p: Path, t: Tree, lm: nat)
    requires t.Regular? || t.Symlink?
    requires p != [] && Nothing(i, p) && ConfinedTo(i, j, p)
    requires At(j, p).now == Some(LocalObj(Head(t), lm)) && At(j, p).settled == {LocalObj(Head(t), lm)}
    ensures Below(j, p, Localize(t, lm))
  {
    var u := Localize(t, lm);
    forall q ensures Now(j, p + q) == Lookup(u, q) {
      if q == [] {
        assert p + q == p;
      } else {
        assert p + q != p;
        assert Firmer(At(i, p + q), At(j, p + q));
      }
    }
    forall q | Lookup(u, q).Some? ensures At(j, p + q).settled == {Lookup(u, q).value} {
      assert q == [] && p + q == p;
    }
  }

  /** Copies one object and everything below it.  `created` says that its own name was made. */
  method CopyNode(disk: Volume, t: Tree, p: Path, calm: bool) returns (created: bool, ok: bool)
    requires disk.Valid()
    requires p != [] && Nothing(disk.img, p) && IsDir(disk.img, Parent(p))
    modifies disk
    ensures disk.Valid()
    ensures Aside(old(disk.img), disk.img, p)
    ensures ok ==> created && Below(disk.img, p, Localize(t, disk.linkMode)) && Copyable(t)
    ensures !created ==> Nothing(disk.img, p)
    ensures calm && Copyable(t) ==> ok
    decreases t, 1, 0
  {
    ghost var i := disk.img;
    assert p + [] == p;
    match t
    case Regular(content, mode) =>
      var m := MemberOf(Entry([], Head(t)));
      created, ok := ExtractFile(disk, p, m, calm);
      ConfinedIsAside(i, disk.img, p);
      if ok {
        LeafBelow(i, disk.img, p, t, disk.linkMode);
      }
    case Symlink(target, mode) =>
      var m := MemberOf(Entry([], Head(t)));
      created, ok := ExtractLink(disk, p, m, calm);
      ConfinedIsAside(i, disk.img, p);
      if ok {
        LeafBelow(i, disk.img, p, t, disk.linkMode);
      }
    case Directory(mode, children) =>
      created, ok := CopyDirectory(disk, t, p, calm);
    case SpecialFile =>
      return false, false;
  }

  method CopyDirectory(disk: Volume, t: Tree, p: Path, calm: bool) returns (created: bool, ok: bool)
    requires disk.Valid()
    requires t.Directory? && p != [] && Nothing(disk.img, p) && IsDir(disk.img, Parent(p))
    modifies disk
    ensures disk.Valid()
    ensures Aside(old(disk.img), disk.img, p)
    ensures ok ==> created && Below(disk.img, p, Localize(t, disk.linkMode)) && Copyable(t)
    ensures !created ==> Nothing(disk.img, p)
    ensures calm && Copyable(t) ==> ok
    decreases t, 0, 1
  {
    ghost var i := disk.img;
    assert p + [] == p;
    var mode: nat;
    created, mode := disk.Mkdir(p, calm);
    if !created { return false, false; }
    ghost var i1 := disk.img;
    MadeDirectory(i, i1, p, Localize(t, disk.linkMode), mode);
    var names := Listing(t.children.Keys);
    ListingDistinct(t.children.Keys);
    assert names[..0] == [] && names[0..] == names;
    ok := CopyChildren(disk, t, p, names, {}, calm);
    AsideTransitive(i, i1, disk.img, p);
    if !ok { return; }
    assert {} + Names(names) == t.children.Keys;
    ghost var i2 := disk.img;
    ok := FinishCopied(disk, t, p, calm);
    AsideTransitive(i, i2, disk.img, p);
  }

  /** Its mode, then its sync. */
  method FinishCopied(disk: Volume, t: Tree, p: Path, calm: bool) returns (ok: bool)
    requires disk.Valid()
    requires t.Directory? && p != [] && Partly(disk.img, p, Localize(t, disk.linkMode), t.children.Keys)
    modifies disk
    ensures disk.Valid()
    ensures Aside(old(disk.img), disk.img, p)
    ensures ok ==> Below(disk.img, p, Localize(t, disk.linkMode))
    ensures calm ==> ok
  {
    ghost var i := disk.img;
    var u := Localize(t, disk.linkMode);
    assert u.children.Keys == t.children.Keys && p + [] == p;
    ChangeAside(i, p, Dir(t.mode));
    ok := disk.Chmod(p, t.mode, calm);
    if ok {
      DirectoryDone(i, p, u);
      FinishAside(i, p, [], Dir(t.mode));
      ok := disk.SyncDirectory(p, calm);
    }
  }

  lemma ChangeAside(i: Image, p: Path, o: Obj)
    requires p != []
    ensures Aside(i, Change(i, p, o), p) && Aside(i, i, p)
  {
  }

  lemma MadeDirectory(i: Image, j: Image, p: Path, u: Tree, mode: nat)
    requires p != [] && Nothing(i, p) && j == Put(i, p, Dir(mode))
    ensures Aside(i, j, p) && Partly(j, p, u, {})
  {
    forall n ensures Nothing(j, p + [n]) {
      forall q ensures Now(j, p + [n] + q).None? {
        assert p + [n] + q == p + ([n] + q) && p + [n] + q != p;
      }
    }
  }

  /** The children in name order. */
  method CopyChildren(disk: Volume, t: Tree, p: Path, names: seq<Name>, ghost done: set<Name>, calm: bool) returns (ok: bool)
    requires disk.Valid()
    requires t.Directory? && p != [] && (forall n | n in names :: n in t.children && n !in done) && Distinct(names)
    requires Partly(disk.img, p, Localize(t, disk.linkMode), done)
    modifies disk
    ensures disk.Valid()
    ensures Aside(old(disk.img), disk.img, p)
    ensures ok ==> Partly(disk.img, p, Localize(t, disk.linkMode), done + Names(names))
    ensures ok ==> forall n | n in names :: TextName(n) && Copyable(t.children[n])
    ensures calm && (forall n | n in names :: TextName(n) && Copyable(t.children[n])) ==> ok
    decreases t, 0, 0, |names|
  {
    if names == [] {
      assert done + Names(names) == done;
      return true;
    }
    var n := names[0];
    if !TextName(n) {
      return false;
    }
    ghost var i := disk.img;
    assert Parent(p + [n]) == p && Nothing(i, p + [n]);
    var created;
    created, ok := CopyNode(disk, t.children[n], p + [n], calm);
    ghost var j := disk.img;
    AsideChild(i, j, p, n);
    if !ok { return; }
    PartlyMore(i, j, p, Localize(t, disk.linkMode), done, n);
    ok := CopyChildren(disk, t, p, names[1..], done + {n}, calm);
    AsideTransitive(i, j, disk.img, p);
    OneMoreName(names, done);
  }

  lemma OneMoreName(names: seq<Name>, done: set<Name>)
    requires names != []
    ensures done + {names[0]} + Names(names[1..]) == done + Names(names)
  {
    assert names == [names[0]] + names[1..];
  }

  ghost function Names(names: seq<Name>): set<Name> {
    set n | n in names
  }

  /** No special file, and below the root only names that are text. */
  predicate Copyable(t: Tree) {
    match t
    case Directory(_, children) => forall n | n in children :: TextName(n) && Copyable(children[n])
    case SpecialFile => false
    case _ => true
  }

  lemma {:induction false} CopyableLookup(t: Tree, q: Path)
    requires Copyable(t) && Lookup(t, q).Some?
    ensures !Lookup(t, q).value.Special? && TextPath(q)
    decreases |q|
  {
    if q != [] {
      assert q == [q[0]] + q[1..];
      CopyableLookup(t.children[q[0]], q[1..]);
    }
  }

  /** At this path stands no special file, and every name on the way spells some text. */
  ghost predicate SpelledAt(t: Tree, q: Path) {
    Lookup(t, q).Some? ==> !Lookup(t, q).value.Special? && forall n | n in q :: exists cs :: Spells(n, cs)
  }

  lemma CopyableExact(t: Tree)
    ensures Copyable(t) <==> forall q :: SpelledAt(t, q)
  {
    forall n ensures TextName(n) <==> exists cs :: Spells(n, cs) {
      TextNameExact(n);
    }
    if Copyable(t) {
      forall q ensures SpelledAt(t, q) {
        if Lookup(t, q).Some? {
          CopyableLookup(t, q);
          assert forall n | n in q :: TextName(n);
        }
      }
    }
    if forall q :: SpelledAt(t, q) {
      forall q | Lookup(t, q).Some? ensures !Lookup(t, q).value.Special? && TextPath(q) {
        assert SpelledAt(t, q);
      }
      CopyableFrom(t);
    }
  }

  lemma {:induction false} CopyableFrom(t: Tree)
    requires forall q | Lookup(t, q).Some? :: !Lookup(t, q).value.Special? && TextPath(q)
    ensures Copyable(t)
    decreases t
  {
    assert Lookup(t, []) == Some(Head(t));
    if t.Directory? {
      forall n | n in t.children ensures TextName(n) && Copyable(t.children[n]) {
        assert Lookup(t, [n]) == Lookup(t.children[n], [n][1..]) && n in [n];
        forall q | Lookup(t.children[n], q).Some? ensures !Lookup(t.children[n], q).value.Special? && TextPath(q) {
          assert ([n] + q)[1..] == q && Lookup(t, [n] + q) == Lookup(t.children[n], q);
          assert forall m | m in q :: m in [n] + q;
        }
        CopyableFrom(t.children[n]);
      }
    }
  }

  lemma CopyableIsPlain(t: Tree)
    requires Copyable(t)
    ensures NoSpecial(t)
  {
    forall k | 0 <= k < |Walk([], t)| ensures !Walk([], t)[k].obj.Special? {
      WalkSound([], t, k);
      CopyableLookup(t, Walk([], t)[k].path[0..]);
    }
  }

  // ---------------------------------------------------------------- the whole copy

  /** The objects of a tree by path, links taking the local mode. */
  function Objects(t: Tree, lm: nat): map<Path, Obj> {
    Collect(StreamOf(t).members, lm)
  }

  function DirectoriesOf(made: map<Path, Obj>): set<Path> {
    set q | q in made && made[q].Dir?
  }

  function Kinds(made: map<Path, Obj>): map<Path, Kind> {
    map q | q in made :: KindOf(made[q])
  }

  /** The directories of the copy have their modes, and every name in them is settled. */
  lemma {:induction false} BelowIsFinished(i: Image, base: Path, t: Tree, lm: nat)
    requires Below(i, base, Localize(t, lm)) && Copyable(t) && WellNamed(t)
    ensures Matches(Kinds(Objects(t, lm)), Objects(t, lm)) && Region(i, base, Objects(t, lm))
    ensures Finished(i, base, Objects(t, lm), DirectoriesOf(Objects(t, lm)))
  {
    var u, made := Localize(t, lm), Objects(t, lm);
    CopyableIsPlain(t);
    forall q ensures Lookup(u, q) == if q in made then Some(made[q]) else None {
      EmittedObjects(t, lm, q);
    }
    forall q | q in made ensures !made[q].Special? && GoodPath(q) {
      LocalizeLookup(t, lm, q);
      var k := WalkComplete([], t, q);
      assert [] + q == q && GoodPath(Walk([], t)[k].path) && !Walk([], t)[k].obj.Special?;
    }
    forall q {:trigger Parent(q)} | q in made && q != [] ensures Parent(q) in made && made[Parent(q)].Dir? {
      LookupParent(u, q);
    }
    assert Lookup(u, []).Some?;
    forall q ensures if q in made then Made(At(i, base + q), made[q]) else Now(i, base + q).None? {
      assert Now(i, base + q) == Lookup(u, q);
    }
    forall q {:trigger Parent(q)} | q != [] && Parent(q) in DirectoriesOf(made) ensures At(i, base + q).stale == {} {
      SettledBelow(i, base, u, made, q);
    }
  }

  lemma SettledBelow(i: Image, base: Path, u: Tree, made: map<Path, Obj>, q: Path)
    requires Below(i, base, u) && q != [] && Parent(q) in made
    requires forall r :: Lookup(u, r) == if r in made then Some(made[r]) else None
    ensures made[Parent(q)].Dir? ==> At(i, base + q).stale == {}
  {
  }

  /** Copies a tree to an exclusive destination.  A failure while copying leaves the destination as it
      was, unless the cleanup itself failed; when only the last syncs fail (`late`), the whole copy
      stays although an error is returned. */
  method Copy(disk: Volume, t: Tree, root: Path, dest: Path, calm: bool) returns (ok: bool, late: bool, cleaned: bool)
    requires disk.Valid()
    requires WellNamed(t)
    modifies disk
    ensures disk.Valid()
    ensures ok ==> ValidRelative(dest) && Now(old(disk.img), root + dest).None?
    ensures ok ==> Copied(old(disk.img), disk.img, root, dest, Objects(t, disk.linkMode))
    ensures !ok && !late && cleaned ==> BelowSame(old(disk.img), disk.img, root + dest)
    ensures !ok && late ==> forall q :: Now(disk.img, root + dest + q) == Lookup(Localize(t, disk.linkMode), q)
    ensures dest != [] ==> OnlyParents(old(disk.img), disk.img, root + dest)
    ensures (calm && Copyable(t) && ValidRelative(dest) && Now(old(disk.img), root + dest).None?
             && Openable(old(disk.img), Parent(root + dest))) ==> ok
  {
    late, cleaned := false, true;
    if !ValidRelative(dest) {
      return false, late, cleaned;
    }
    ghost var i0 := disk.img;
    var base := root + dest;
    ok := PrepareDestination(disk, root, dest, calm);
    if !ok { return; }
    ghost var ib := disk.img;
    assert Parent(base) == base[..|base| - 1];
    var created;
    created, ok := CopyNode(disk, t, base, calm);
    ghost var ic := disk.img;
    AsideNow(ib, ic, base);
    OnlyParentsThen(i0, ib, ic, base);
    if !ok {
      cleaned := Cleanup(disk, base, created, calm);
      OnlyParentsThen(i0, ic, disk.img, base);
      return;
    }
    ok := FinishCopy(disk, t, root, dest, i0, ib, calm);
    late := !ok;
    OnlyParentsThen(i0, ic, disk.img, base);
  }

  /** The chain of directory syncs up to the held root. */
  method FinishCopy(disk: Volume, t: Tree, root: Path, dest: Path, ghost i0: Image, ghost ib: Image, calm: bool)
      returns (ok: bool)
    requires disk.Valid()
    requires Lawful(i0) && dest != [] && Copyable(t) && WellNamed(t)
    requires Prepared(i0, ib, root, dest) && Aside(ib, disk.img, root + dest)
    requires Below(disk.img, root + dest, Localize(t, disk.linkMode))
    modifies disk
    ensures disk.Valid()
    ensures NowSameOutside(old(disk.img), disk.img, root + dest)
    ensures forall q :: Now(disk.img, root + dest + q) == Lookup(Localize(t, disk.linkMode), q)
    ensures ok ==> Copied(i0, disk.img, root, dest, Objects(t, disk.linkMode))
    ensures calm ==> ok
  {
    var base := root + dest;
    ghost var ic := disk.img;
    Committable(i0, ib, ic, root, dest, t, disk.linkMode);
    assert root <= Parent(base);
    ok := SyncRootDirectoryChain(disk, root, Parent(base), calm);
    StillShows(ic, disk.img, |root|, base, Localize(t, disk.linkMode));
  }

  lemma Committable(i0: Image, ib: Image, ic: Image, root: Path, dest: Path, t: Tree, lm: nat)
    requires Lawful(i0) && dest != [] && Copyable(t) && WellNamed(t)
    requires Prepared(i0, ib, root, dest) && Aside(ib, ic, root + dest) && Below(ic, root + dest, Localize(t, lm))
    ensures Copied(i0, ChainSynced(ic, Parent(root + dest), |root|), root, dest, Objects(t, lm))
    ensures forall n | |root| <= n <= |Parent(root + dest)| :: IsDir(ic, Parent(root + dest)[..n])
  {
    var base, made := root + dest, Objects(t, lm);
    BelowIsFinished(ic, base, t, lm);
    CopiedNow(i0, ib, ic, root, dest, made, Kinds(made), DirectoriesOf(made));
    AsideNow(ib, ic, base);
    forall n | |root| <= n <= |Parent(base)| ensures IsDir(ic, Parent(base)[..n]) {
      assert Parent(base)[..n] == base[..n] && !(base <= base[..n]);
      assert IsDir(ib, base[..n]);
    }
  }

  lemma StillShows(i: Image, j: Image, n: nat, base: Path, u: Tree)
    requires AllFirmer(i, j, n) && Below(i, base, u)
    ensures forall p :: Now(j, p) == Now(i, p)
    ensures forall q :: Now(j, base + q) == Lookup(u, q)
  {
    forall p ensures Now(j, p) == Now(i, p) {
      assert Firmer(At(i, p), At(j, p));
    }
    forall q ensures Now(j, base + q) == Lookup(u, q) {
      assert Now(i, base + q) == Lookup(u, q);
    }
  }
}
