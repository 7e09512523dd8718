/** Writing a tree and extracting it again: what is rebuilt, and when the catalog takes it. */
module RoundTrip {
  import opened Common
  import opened Disk
  import opened FileTree
  import opened ArchiveStream
  import opened TextNames
  import opened Extract

  // ---------------------------------------------------------------- the tree as it is rebuilt

  /** Extraction never sets a link's mode, so a rebuilt link has the mode its own platform gives. */
  function LocalObj(o: Obj, lm: nat): Obj {
    if o.Link? then Link(o.target, lm) else o
  }

  function Localize(t: Tree, lm: nat): Tree {
    match t
    case Directory(mode, children) => Directory(mode, map n | n in children :: Localize(children[n], lm))
    case Symlink(target, _) => Symlink(target, lm)
    case _ => t
  }

  lemma {:induction false} LocalizeLookup(t: Tree, lm: nat, q: Path)
    ensures Lookup(Localize(t, lm), q) ==
            if Lookup(t, q).Some? then Some(LocalObj(Lookup(t, q).value, lm)) else None
    decreases |q|
  {
    if q != [] && t.Directory? && q[0] in t.children {
      LocalizeLookup(t.children[q[0]], lm, q[1..]);
    }
  }

  ghost predicate LinksLocal(t: Tree, lm: nat) {
    forall q | Lookup(t, q).Some? && Lookup(t, q).value.Link? :: Lookup(t, q).value.mode == lm
  }

  lemma {:induction false} LocalizeFixed(t: Tree, lm: nat)
    ensures Localize(t, lm) == t <==> LinksLocal(t, lm)
  {
    forall q ensures Lookup(Localize(t, lm), q) ==
                     if Lookup(t, q).Some? then Some(LocalObj(Lookup(t, q).value, lm)) else None {
      LocalizeLookup(t, lm, q);
    }
    if LinksLocal(t, lm) {
      SameLookups(Localize(t, lm), t);
    }
  }

  /** The walk of the rebuilt tree visits the same paths in the same order. */
  lemma {:induction false} LocalizeWalk(p: Path, t: Tree, lm: nat, k: nat)
    ensures |Walk(p, Localize(t, lm))| == |Walk(p, t)|
    ensures k < |Walk(p, t)| ==> Walk(p, Localize(t, lm))[k] == Entry(Walk(p, t)[k].path, LocalObj(Walk(p, t)[k].obj, lm))
    decreases t
  {
    if t.Directory? {
      assert Localize(t, lm).children.Keys == t.children.Keys;
      LocalizeWalkAll(p, t, Listing(t.children.Keys), lm, if k > 0 then k - 1 else 0);
    }
  }

  lemma {:induction false} LocalizeWalkAll(p: Path, t: Tree, ns: seq<Name>, lm: nat, k: nat)
    requires t.Directory? && forall n | n in ns :: n in t.children
    ensures |WalkAll(p, Localize(t, lm), ns)| == |WalkAll(p, t, ns)|
    ensures k < |WalkAll(p, t, ns)| ==>
              WalkAll(p, Localize(t, lm), ns)[k] == Entry(WalkAll(p, t, ns)[k].path, LocalObj(WalkAll(p, t, ns)[k].obj, lm))
    decreases t, 0, |ns|
  {
    if ns != [] {
      var n := |Walk(p + [ns[0]], t.children[ns[0]])|;
      LocalizeWalk(p + [ns[0]], t.children[ns[0]], lm, k);
      LocalizeWalkAll(p, t, ns[1..], lm, if k < n then 0 else k - n);
    }
  }

  lemma {:induction false} SameWeights(es: seq<Entry>, fs: seq<Entry>)
    requires |es| == |fs| && forall k | 0 <= k < |es| :: Weight(es[k].obj) == Weight(fs[k].obj)
    ensures TotalWeight(es) == TotalWeight(fs)
  {
    if es != [] {
      SameWeights(es[..|es| - 1], fs[..|fs| - 1]);
    }
  }

  lemma {:induction false} LocalizeTotals(t: Tree, lm: nat)
    ensures |Walk([], Localize(t, lm))| == |Walk([], t)|
    ensures TotalWeight(Walk([], Localize(t, lm))) == TotalWeight(Walk([], t))
    ensures AllFit(Walk([], t)) ==> AllFit(Walk([], Localize(t, lm)))
    ensures NoSpecial(t) ==> NoSpecial(Localize(t, lm))
  {
    var es, fs := Walk([], Localize(t, lm)), Walk([], t);
    LocalizeWalk([], t, lm, 0);
    forall k: nat | k < |es| ensures es[k] == Entry(fs[k].path, LocalObj(fs[k].obj, lm)) {
      LocalizeWalk([], t, lm, k);
    }
    SameWeights(es, fs);
    if AllFit(fs) {
      forall k | 0 <= k < |es| ensures EntryFits(es[k]) {
        assert EntryFits(fs[k]);
      }
    }
  }

  // ---------------------------------------------------------------- the emitted stream is accepted

  predicate DistinctNames(ms: seq<Member>) {
    forall i, j | 0 <= i < j < |ms| :: ms[i].header.name != ms[j].header.name
  }

  lemma {:induction false} TypesAt(ms: seq<Member>, n: nat)
    requires n <= |ms| && DistinctNames(ms)
    ensures forall j | 0 <= j < n :: ms[j].header.name in Types(ms[..n]) && Types(ms[..n])[ms[j].header.name] == ms[j].header.kind
    ensures forall j | n <= j < |ms| :: ms[j].header.name !in Types(ms[..n])
  {
    if n > 0 {
      TypesAt(ms, n - 1);
      assert ms[..n][..n - 1] == ms[..n - 1];
    }
  }

  lemma {:induction false} CollectHas(ms: seq<Member>, lm: nat, j: nat)
    requires j < |ms| && DistinctNames(ms)
    ensures ms[j].header.name in Collect(ms, lm) && Collect(ms, lm)[ms[j].header.name] == ObjOf(ms[j], lm)
  {
    if j < |ms| - 1 {
      CollectHas(ms[..|ms| - 1], lm, j);
    }
  }

  lemma {:induction false} CollectOnly(ms: seq<Member>, lm: nat, q: Path) returns (j: nat)
    requires q in Collect(ms, lm)
    ensures j < |ms| && ms[j].header.name == q
  {
    j := |ms| - 1;
    if ms[j].header.name != q {
      j := CollectOnly(ms[..|ms| - 1], lm, q);
    }
  }

  lemma {:induction false} EmittedNames(t: Tree)
    ensures DistinctNames(StreamOf(t).members)
  {
    forall i, j | 0 <= i < j < |Walk([], t)| ensures Walk([], t)[i].path != Walk([], t)[j].path {
      WalkDistinct([], t, i, j);
    }
  }

  /** Whatever WriteArchive emits for a tree within the limits is an acceptable stream. */
  lemma {:induction false} EmittedAccepted(t: Tree)
    requires WithinLimits(t) && WellNamed(t)
    ensures Acceptable(StreamOf(t))
  {
    var walk := Walk([], t);
    var ms := StreamOf(t).members;
    EmittedNames(t);
    forall k | 0 <= k < |ms| ensures ValidMember(ms, k) {
      TypesAt(ms, k);
      assert EntryFits(walk[k]) && GoodPath(walk[k].path);
      if k > 0 {
        var j := WalkParentFirst([], t, k);
        assert ms[j].header.name == Parent(walk[k].path);
        WalkSound([], t, k);
      }
    }
  }

  lemma {:induction false} EmittedHas(t: Tree, lm: nat, q: Path)
    requires Lookup(t, q).Some?
    ensures var made := Collect(StreamOf(t).members, lm);
            q in made && made[q] == LocalObj(Lookup(t, q).value, lm)
  {
    var walk := Walk([], t);
    var ms := StreamOf(t).members;
    var k := WalkComplete([], t, q);
    assert [] + q == q && ms[k] == MemberOf(walk[k]);
    EmittedNames(t);
    CollectHas(ms, lm, k);
  }

  lemma {:induction false} EmittedOnly(t: Tree, lm: nat, q: Path)
    requires q in Collect(StreamOf(t).members, lm)
    ensures Lookup(t, q).Some?
  {
    var j := CollectOnly(StreamOf(t).members, lm, q);
    WalkSound([], t, j);
    assert Walk([], t)[j].path[0..] == q;
  }

  /** The objects it stands for are the objects of the tree, links taking the local mode. */
  lemma {:induction false} EmittedObjects(t: Tree, lm: nat, q: Path)
    ensures var made := Collect(StreamOf(t).members, lm);
            Lookup(Localize(t, lm), q) == if q in made then Some(made[q]) else None
  {
    LocalizeLookup(t, lm, q);
    if Lookup(t, q).Some? {
      EmittedHas(t, lm, q);
    } else if q in Collect(StreamOf(t).members, lm) {
      EmittedOnly(t, lm, q);
    }
  }

  predicate InDirectory(t: Tree, q: Path) {
    q != [] && Lookup(t, Parent(q)).Some? && Lookup(t, Parent(q)).value.Dir?
  }

  /** What a volume shows below a path is exactly this tree, its objects are durable, and no name in
      its directories can show anything else after a power loss. */
  ghost predicate Holds(i: Image, base: Path, t: Tree) {
    && (forall q :: Now(i, base + q) == Lookup(t, q))
    && (forall q | Lookup(t, q).Some? :: Durable(i, base + q, Lookup(t, q).value))
    && (forall q | InDirectory(t, q) :: At(i, base + q).stale == {})
  }

  /** Round trip: extracting what was written for a tree rebuilds that tree, durably. */
  lemma {:induction false} ExtractionRebuilds(before: Image, after: Image, root: Path, dest: Path, t: Tree, lm: nat)
    requires Copied(before, after, root, dest, Collect(StreamOf(t).members, lm))
    ensures Holds(after, root + dest, Localize(t, lm))
  {
    var base, u, made := root + dest, Localize(t, lm), Collect(StreamOf(t).members, lm);
    forall q ensures Lookup(u, q) == if q in made then Some(made[q]) else None {
      EmittedObjects(t, lm, q);
    }
    forall q | InDirectory(u, q) ensures At(after, base + q).stale == {} {
      assert Parent(q) in made && made[Parent(q)].Dir?;
    }
  }

  // ---------------------------------------------------------------- the summaries agree

  lemma {:induction false} EmittedSize(es: seq<Entry>)
    ensures StreamSize(Members(es)) == TotalWeight(es)
  {
    if es != [] {
      var front := es[..|es| - 1];
      assert Members(es)[..|es| - 1] == Members(front);
      EmittedSize(front);
    }
  }

  /** The receiver computes the sender's summary from the stream alone. */
  lemma {:induction false} SummariesAgree(t: Tree, received: Summary)
    requires Summarizes(StreamOf(t), received)
    ensures received == SummaryOf(t)
  {
    EmittedSize(Walk([], t));
    assert StreamOf(t).members[0] == MemberOf(Entry([], Head(t)));
  }

  ghost predicate SummaryAccepted(copy: Tree, summary: Summary) {
    && NoSpecial(copy) && summary.kind == KindOf(Head(copy)) && summary.size == TotalWeight(Walk([], copy))
    && summary.items == |Walk([], copy)| && summary.mode == ModeOf(Head(copy))
  }

  /** RecordSummary's comparison: the stored copy is described anew and must match the summary. */
  method CheckSummary(copy: Tree, summary: Summary, calm: bool) returns (accepted: bool)
    ensures accepted ==> SummaryAccepted(copy, summary)
    ensures calm ==> (accepted <==> SummaryAccepted(copy, summary))
  {
    var described := Describe(copy, calm);
    if described.Err? {
      return false;
    }
    var (kind, size, items, mode) := described.value;
    accepted := kind == summary.kind && size == summary.size && items == summary.items && mode == summary.mode;
  }

  /** The catalog takes the extracted copy, except in one case: the root of the tree is a symbolic
      link whose mode on the sending machine is not the mode links get on the receiving one. */
  lemma {:induction false} CatalogAccepts(t: Tree, lm: nat)
    requires WithinLimits(t)
    ensures SummaryAccepted(Localize(t, lm), SummaryOf(t)) <==> (t.Symlink? ==> t.mode == lm)
  {
    LocalizeTotals(t, lm);
    forall k | 0 <= k < |Walk([], t)| ensures !Walk([], t)[k].obj.Special? {
      assert EntryFits(Walk([], t)[k]);
    }
  }

  /** Hashing the extracted copy again gives the recorded digest exactly when every link of the
      source already had the receiving platform's link mode. */
  lemma {:induction false} RedigestMatches(t: Tree, lm: nat)
    requires WithinLimits(t)
    ensures SummaryOf(Localize(t, lm)).digest == SummaryOf(t).digest <==> LinksLocal(t, lm)
  {
    LocalizeTotals(t, lm);
    LocalizeFixed(t, lm);
    if SummaryOf(Localize(t, lm)).digest == SummaryOf(t).digest {
      StreamInjective(Localize(t, lm), t);
    }
  }

  /** The case is real: a link stored as rwxrwxrwx and rebuilt where links are rwxr-xr-x. */
  lemma LinkModeMismatch()
    ensures var t := Symlink("payload", 0x1ff);
            && WithinLimits(t) && Acceptable(StreamOf(t))
            && !SummaryAccepted(Localize(t, 0x1ed), SummaryOf(t))
            && SummaryOf(Localize(t, 0x1ed)).digest != SummaryOf(t).digest
  {
    var t := Symlink("payload", 0x1ff);
    assert Walk([], t) == [Entry([], Link("payload", 0x1ff))];
    assert WithinLimits(t) && WellNamed(t);
    EmittedAccepted(t);
    CatalogAccepts(t, 0x1ed);
    RedigestMatches(t, 0x1ed);
    assert Lookup(t, []).value.Link?;
  }
}
