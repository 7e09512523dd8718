/** Extraction of an entry stream into a volume: validation, rebuilding, cleanup, durability. */
module Extract {
  import opened Common
  import opened Disk
  import opened FileTree
  import opened ArchiveStream
  import opened TextNames
  import opened Directories

  // ---------------------------------------------------------------- which streams are accepted

  predicate Canonical(name: Path) {
    name != [] && TextPath(name)
  }

  predicate ValidHeader(h: Header, first: bool, types: map<Path, Kind>) {
    && NameLength(h.name) <= MAX_NAME
    && (if first then h.name == []
        else Canonical(h.name) && Parent(h.name) in types && types[Parent(h.name)].DirectoryKind?)
    && h.name !in types
    && h.plain && 0 <= h.mode <= 0x1ff
    && match h.kind {
         case RegularKind => h.size >= 0 && h.link == ""
         case DirectoryKind => h.size == 0 && h.link == ""
         case SymlinkKind => h.size == 0 && |h.link| <= MAX_LINK
         case OtherKind => false
       }
  }

  function Types(ms: seq<Member>): map<Path, Kind> {
    if ms == [] then map[]
    else Types(ms[..|ms| - 1])[ms[|ms| - 1].header.name := ms[|ms| - 1].header.kind]
  }

  /** Member k can follow the members before it, and its body is complete. */
  predicate ValidMember(ms: seq<Member>, k: nat)
    requires k < |ms|
  {
    ValidHeader(ms[k].header, k == 0, Types(ms[..k])) && |ms[k].body| == BodySize(ms[k].header)
  }

  function BodySize(h: Header): int {
    if h.kind.RegularKind? then h.size else 0
  }

  predicate Acceptable(s: Stream) {
    && s.ended && s.trailer == TRAILER
    && 0 < |s.members| <= MAX_ENTRIES
    && forall k | 0 <= k < |s.members| :: ValidMember(s.members, k)
  }

  /** A member in plain terms: its name, the directory that comes before it, and its metadata. */
  ghost predicate GoodMember(ms: seq<Member>, k: nat)
    requires k < |ms|
  {
    var h := ms[k].header;
    && |SlashText(h.name)| <= 4096 && (k == 0 <==> h.name == [])
    && (forall n | n in h.name :: exists cs :: Spells(n, cs))
    && (k > 0 ==> exists j :: 0 <= j < k && ms[j].header.name == Parent(h.name) && ms[j].header.kind.DirectoryKind?)
    && (forall j | 0 <= j < k :: ms[j].header.name != h.name)
    && h.plain && 0 <= h.mode <= 511
    && match h.kind
       case RegularKind => h.size == |ms[k].body| && h.link == ""
       case DirectoryKind => h.size == 0 && h.link == "" && ms[k].body == []
       case SymlinkKind => h.size == 0 && |h.link| <= 4096 && ms[k].body == []
       case OtherKind => false
  }

  lemma {:induction false} TypesHas(ms: seq<Member>, n: nat, name: Path)
    requires n <= |ms|
    ensures name in Types(ms[..n]) <==> exists j :: 0 <= j < n && ms[j].header.name == name
    ensures name in Types(ms[..n]) && (forall i, j | 0 <= i < j < n :: ms[i].header.name != ms[j].header.name) ==>
              forall j | 0 <= j < n && ms[j].header.name == name :: Types(ms[..n])[name] == ms[j].header.kind
  {
    if n > 0 {
      TypesHas(ms, n - 1, name);
      assert ms[..n][..n - 1] == ms[..n - 1] && ms[..n][n - 1] == ms[n - 1];
    }
  }

  lemma MemberExact(ms: seq<Member>, k: nat)
    requires k < |ms| && forall i, j | 0 <= i < j < k :: ms[i].header.name != ms[j].header.name
    ensures ValidMember(ms, k) <==> GoodMember(ms, k)
  {
    var h := ms[k].header;
    NameLengthIs(h.name);
    TypesHas(ms, k, h.name);
    TypesHas(ms, k, Parent(h.name));
    forall n ensures TextName(n) <==> exists cs :: Spells(n, cs) {
      TextNameExact(n);
    }
    assert TextPath(h.name) <==> forall n | n in h.name :: exists cs :: Spells(n, cs) by {
      if TextPath(h.name) {
        assert forall n | n in h.name :: TextName(n);
      }
    }
  }

  /** Which streams are accepted, in plain terms. */
  lemma AcceptableExact(s: Stream)
    ensures Acceptable(s) <==>
            && s.ended && s.trailer == "PWNBRIDGE-RECOVERY-ARCHIVE-V1\n" && 0 < |s.members| <= 1_000_000
            && forall k | 0 <= k < |s.members| :: GoodMember(s.members, k)
  {
    var ms := s.members;
    if forall k | 0 <= k < |ms| :: ValidMember(ms, k) {
      DistinctWhile(ms, |ms|);
      forall k | 0 <= k < |ms| ensures GoodMember(ms, k) {
        MemberExact(ms, k);
      }
    }
    if forall k | 0 <= k < |ms| :: GoodMember(ms, k) {
      forall i, j | 0 <= i < j < |ms| ensures ms[i].header.name != ms[j].header.name {
        assert GoodMember(ms, j);
      }
      forall k | 0 <= k < |ms| ensures ValidMember(ms, k) {
        MemberExact(ms, k);
      }
    }
  }

  lemma {:induction false} DistinctWhile(ms: seq<Member>, n: nat)
    requires n <= |ms| && forall k | 0 <= k < n :: ValidMember(ms, k)
    ensures forall i, j | 0 <= i < j < n :: ms[i].header.name != ms[j].header.name
  {
    if n > 0 {
      DistinctWhile(ms, n - 1);
      TypesHas(ms, n - 1, ms[n - 1].header.name);
      assert ValidMember(ms, n - 1);
    }
  }

  // ---------------------------------------------------------------- what they stand for

  function ObjOf(m: Member, linkMode: nat): Obj {
    var mode := if m.header.mode < 0 then 0 else m.header.mode;
    match m.header.kind
    case RegularKind => File(m.body, mode)
    case DirectoryKind => Dir(mode)
    case SymlinkKind => Link(m.header.link, linkMode)
    case OtherKind => Special
  }

  /** The objects a member list describes, by path below the destination. */
  function Collect(ms: seq<Member>, linkMode: nat): map<Path, Obj> {
    if ms == [] then map[]
    else
      var last := ms[|ms| - 1];
      Collect(ms[..|ms| - 1], linkMode)[last.header.name := ObjOf(last, linkMode)]
  }

  /** The names seen are the paths made; everything but the root stands below a made directory. */
  predicate Matches(types: map<Path, Kind>, made: map<Path, Obj>) {
    && types.Keys == made.Keys
    && (forall q | q in made :: KindOf(made[q]) == types[q] && !made[q].Special?)
    && (forall q | q in made :: GoodPath(q))
    && (forall q {:trigger Parent(q)} | q in made && q != [] :: Parent(q) in made && made[Parent(q)].Dir?)
    && (made != map[] ==> [] in made)
  }

  lemma MatchesStep(types: map<Path, Kind>, made: map<Path, Obj>, m: Member, lm: nat)
    requires Matches(types, made) && ValidHeader(m.header, made == map[], types)
    ensures Matches(types[m.header.name := m.header.kind], made[m.header.name := ObjOf(m, lm)])
  {
  }

  /** The invariant of the extraction loop, as a fact about any valid prefix. */
  lemma {:induction false} MatchesPrefix(ms: seq<Member>, n: nat, lm: nat)
    requires n <= |ms| && forall k | 0 <= k < n :: ValidMember(ms, k)
    ensures Matches(Types(ms[..n]), Collect(ms[..n], lm))
    ensures n == 0 <==> Collect(ms[..n], lm) == map[]
  {
    if n > 0 {
      MatchesPrefix(ms, n - 1, lm);
      assert ms[..n][..n - 1] == ms[..n - 1];
      assert ValidMember(ms, n - 1);
      MatchesStep(Types(ms[..n - 1]), Collect(ms[..n - 1], lm), ms[n - 1], lm);
    }
  }

  // ---------------------------------------------------------------- one member on the volume

  /** Between two images nothing became less durable, and only `target` shows another object. */
  ghost predicate ConfinedTo(i: Image, j: Image, target: Path) {
    && (forall p | p != target :: Firmer(At(i, p), At(j, p)))
    && (forall p | |p| < |target| :: At(j, p).stale == At(i, p).stale)
  }

  lemma SyncConfined(i: Image, target: Path, s: Slot)
    requires target != []
    ensures ConfinedTo(i, SyncedDir(i[target := s], Parent(target)), target)
    ensures At(SyncedDir(i[target := s], Parent(target)), target) == s.(stale := {})
  {
  }

  predicate Creatable(i: Image, target: Path) {
    target != [] && Now(i, target).None? && IsDir(i, Parent(target))
  }

  /** A file: create it exclusively, fill it, set its mode, sync it and the directory it is in. */
  method ExtractFile(disk: Volume, target: Path, m: Member, calm: bool) returns (created: bool, ok: bool)
    requires disk.Valid()
    requires m.header.mode >= 0 && m.header.kind.RegularKind?
    modifies disk
    ensures disk.Valid()
    ensures ok ==> created && |m.body| == m.header.size
    ensures created ==> target != [] && Now(old(disk.img), target).None?
    ensures !created ==> disk.img == old(disk.img)
    ensures ok ==> At(disk.img, target) == Slot(Some(ObjOf(m, disk.linkMode)), {ObjOf(m, disk.linkMode)}, {})
    ensures ConfinedTo(old(disk.img), disk.img, target)
    ensures calm && Creatable(old(disk.img), target) && |m.body| == m.header.size ==> ok
  {
    ghost var before := disk.img;
    var mode: nat;
    created, mode := disk.CreateFile(target, calm);
    if !created { return false, false; }
    ok := FillFile(disk, target, m, before, calm);
    if !ok { return true, false; }
    ghost var slot := Slot(Some(ObjOf(m, disk.linkMode)), {ObjOf(m, disk.linkMode)}, After(before, target));
    assert disk.img == before[target := slot];
    SyncConfined(before, target, slot);
    ok := disk.SyncDirectory(Parent(target), calm);
  }

  /** Content, mode and sync of a file just created. */
  method FillFile(disk: Volume, target: Path, m: Member, ghost before: Image, calm: bool) returns (ok: bool)
    requires disk.Valid() && m.header.mode >= 0 && m.header.kind.RegularKind?
    requires Now(disk.img, target).Some? && Now(disk.img, target).value.File?
    requires At(disk.img, target).stale == After(before, target)
    requires disk.img == before[target := At(disk.img, target)]
    modifies disk
    ensures disk.Valid()
    ensures ok ==> |m.body| == m.header.size
    ensures disk.img == before[target := At(disk.img, target)] && At(disk.img, target).stale == After(before, target)
    ensures ok ==> At(disk.img, target) == Slot(Some(ObjOf(m, disk.linkMode)), {ObjOf(m, disk.linkMode)}, After(before, target))
    ensures calm && |m.body| == m.header.size ==> ok
  {
    var done: nat;
    ok, done := disk.Write(target, m.body, calm);
    if !ok || |m.body| != m.header.size { return false; }
    assert m.body[..done] == m.body;
    ok := disk.Chmod(target, m.header.mode, calm);
    if !ok { return; }
    ok := disk.SyncFile(target, calm);
  }

  /** A link: create it and sync the directory it is in. */
  method ExtractLink(disk: Volume, target: Path, m: Member, calm: bool) returns (created: bool, ok: bool)
    requires disk.Valid()
    requires m.header.kind.SymlinkKind?
    modifies disk
    ensures disk.Valid()
    ensures ok ==> created && m.body == []
    ensures created ==> target != [] && Now(old(disk.img), target).None?
    ensures !created ==> disk.img == old(disk.img)
    ensures ok ==> At(disk.img, target) == Slot(Some(ObjOf(m, disk.linkMode)), {ObjOf(m, disk.linkMode)}, {})
    ensures ConfinedTo(old(disk.img), disk.img, target)
    ensures calm && Creatable(old(disk.img), target) && m.body == [] ==> ok
  {
    ghost var before := disk.img;
    created := disk.CreateLink(target, m.header.link, calm);
    if !created { return false, false; }
    ghost var slot := Slot(Some(ObjOf(m, disk.linkMode)), {ObjOf(m, disk.linkMode)}, After(before, target));
    assert disk.img == before[target := slot];
    SyncConfined(before, target, slot);
    ok := disk.SyncDirectory(Parent(target), calm);
    ok := ok && m.body == [];
  }

  /** Creates one object, as far as its header asks for it.  A directory is not synced yet. */
  method ExtractHeader(disk: Volume, target: Path, m: Member, calm: bool) returns (created: bool, ok: bool)
    requires disk.Valid()
    requires m.header.mode >= 0 && !m.header.kind.OtherKind?
    modifies disk
    ensures disk.Valid()
    ensures ok ==> created && |m.body| == BodySize(m.header)
    ensures created ==> target != [] && Now(old(disk.img), target).None?
    ensures !created ==> disk.img == old(disk.img)
    ensures ok ==> Made(At(disk.img, target), ObjOf(m, disk.linkMode))
    ensures ConfinedTo(old(disk.img), disk.img, target)
    ensures calm && Creatable(old(disk.img), target) && |m.body| == BodySize(m.header) ==> ok
  {
    match m.header.kind
    case RegularKind =>
      created, ok := ExtractFile(disk, target, m, calm);
    case DirectoryKind =>
      var mode: nat;
      created, mode := disk.Mkdir(target, calm);
      ok := created && m.body == [];
    case SymlinkKind =>
      created, ok := ExtractLink(disk, target, m, calm);
  }

  /** The slot holds the wanted object; a directory may still lack its final mode. */
  predicate Made(s: Slot, want: Obj) {
    if want.Dir? then s.now.Some? && s.now.value.Dir? && forall o | o in s.settled :: o.Dir?
    else s.now == Some(want) && s.settled == {want}
  }

  // ---------------------------------------------------------------- the copy below the destination

  lemma AppendCancels(base: Path, q: Path, r: Path)
    ensures base + q == base + r <==> q == r
  {
    assert (base + q)[|base|..] == q && (base + r)[|base|..] == r;
  }

  lemma AppendParent(base: Path, q: Path)
    requires q != []
    ensures Parent(base + q) == base + Parent(q) && base + q != []
  {
  }

  /** Below the destination stand exactly the objects made so far. */
  ghost predicate Region(i: Image, base: Path, made: map<Path, Obj>) {
    forall q :: if q in made then Made(At(i, base + q), made[q]) else Now(i, base + q).None?
  }

  lemma RegionStep(i: Image, j: Image, base: Path, made: map<Path, Obj>, name: Path, o: Obj)
    requires Region(i, base, made) && ConfinedTo(i, j, base + name)
    requires name !in made && Made(At(j, base + name), o)
    ensures Region(j, base, made[name := o])
  {
    var made' := made[name := o];
    forall q ensures if q in made' then Made(At(j, base + q), made'[q]) else Now(j, base + q).None? {
      if q != name {
        AppendCancels(base, q, name);
        assert Firmer(At(i, base + q), At(j, base + q));
      }
    }
  }

  predicate Exact(s: Slot, o: Obj) {
    s.now == Some(o) && s.settled == {o}
  }

  /** These directories have their final mode, and every name in them is settled, present or absent. */
  ghost predicate Finished(i: Image, base: Path, made: map<Path, Obj>, done: set<Path>) {
    && (forall q | q in done && q in made :: Exact(At(i, base + q), made[q]))
    && (forall q {:trigger Parent(q)} | q != [] && Parent(q) in done :: At(i, base + q).stale == {})
  }

  /** Away from the destination nothing became less durable, and nothing above it was settled. */
  ghost predicate Aside(i: Image, j: Image, base: Path) {
    && (forall p | !(base <= p) :: Firmer(At(i, p), At(j, p)))
    && (forall p | |p| < |base| :: At(j, p).stale == At(i, p).stale)
  }

  lemma AsideTransitive(i: Image, j: Image, k: Image, base: Path)
    requires Aside(i, j, base) && Aside(j, k, base)
    ensures Aside(i, k, base)
  {
    forall p | !(base <= p) ensures Firmer(At(i, p), At(k, p)) {
      assert Firmer(At(i, p), At(j, p)) && Firmer(At(j, p), At(k, p));
    }
  }

  /** What setting the mode of `d` and syncing it does to each slot of the copy. */
  lemma FinishSlot(i: Image, base: Path, d: Path, o: Obj, q: Path)
    requires base + d != []
    ensures var t := At(SyncedDir(Change(i, base + d, o), base + d), base + q);
            && t.stale <= At(i, base + q).stale
            && (q == d ==> Exact(t, o))
            && (q != d ==> Firmer(At(i, base + q), t))
            && (q != [] && Parent(q) == d ==> t.stale == {})
  {
    AppendCancels(base, q, d);
    if q != [] {
      AppendParent(base, q);
    }
  }

  lemma FinishOne(i: Image, base: Path, made: map<Path, Obj>, done: set<Path>, d: Path)
    requires base != [] && Region(i, base, made) && Finished(i, base, made, done)
    requires d in made && made[d].Dir?
    ensures var j := SyncedDir(Change(i, base + d, made[d]), base + d);
            Region(j, base, made) && Finished(j, base, made, done + {d}) && Aside(i, j, base)
  {
    var j := SyncedDir(Change(i, base + d, made[d]), base + d);
    forall q ensures if q in made then Made(At(j, base + q), made[q]) else Now(j, base + q).None? {
      FinishSlot(i, base, d, made[d], q);
    }
    forall q | q in done + {d} && q in made ensures Exact(At(j, base + q), made[q]) {
      FinishSlot(i, base, d, made[d], q);
    }
    forall q {:trigger Parent(q)} | q != [] && Parent(q) in done + {d} ensures At(j, base + q).stale == {} {
      FinishSlot(i, base, d, made[d], q);
    }
    FinishAside(i, base, d, made[d]);
  }

  lemma FinishAside(i: Image, base: Path, d: Path, o: Obj)
    requires base != []
    ensures Aside(i, SyncedDir(Change(i, base + d, o), base + d), base)
  {
  }

  datatype ExtractedDirectory = ExtractedDirectory(name: Path, mode: nat)

  /** Sets one directory's mode and syncs it. */
  method FinishDirectory(disk: Volume, base: Path, d: Path, mode: nat, ghost made: map<Path, Obj>, ghost done: set<Path>,
                         calm: bool)
      returns (ok: bool)
    requires disk.Valid()
    requires base != [] && Region(disk.img, base, made) && Finished(disk.img, base, made, done)
    requires d in made && made[d] == Dir(mode)
    modifies disk
    ensures disk.Valid()
    ensures Aside(old(disk.img), disk.img, base)
    ensures ok ==> Region(disk.img, base, made) && Finished(disk.img, base, made, done + {d})
    ensures calm ==> ok
  {
    ghost var before := disk.img;
    assert Made(At(before, base + d), made[d]);
    FinishOne(before, base, made, done, d);
    assert Aside(before, Change(before, base + d, made[d]), base);
    ok := disk.Chmod(base + d, mode, calm);
    if ok {
      assert disk.img == Change(before, base + d, made[d]);
      ok := disk.SyncDirectory(base + d, calm);
    }
  }

  /** The last loop: children before parents. */
  method FinishDirectories(disk: Volume, base: Path, directories: seq<ExtractedDirectory>, ghost made: map<Path, Obj>, calm: bool)
      returns (ok: bool, ghost done: set<Path>)
    requires disk.Valid()
    requires base != [] && Region(disk.img, base, made)
    requires forall x | x in directories :: x.name in made && made[x.name] == Dir(x.mode)
    modifies disk
    ensures disk.Valid()
    ensures Aside(old(disk.img), disk.img, base)
    ensures ok ==> Region(disk.img, base, made) && Finished(disk.img, base, made, done)
    ensures ok ==> forall x | x in directories :: x.name in done
    ensures calm ==> ok
  {
    var index := |directories|;
    done := {};
    while index > 0
      invariant disk.Valid()
      invariant 0 <= index <= |directories|
      invariant forall x | x in directories[index..] :: x.name in done
      invariant Region(disk.img, base, made) && Finished(disk.img, base, made, done)
      invariant Aside(old(disk.img), disk.img, base)
    {
      index := index - 1;
      var x := directories[index];
      assert x in directories && directories[index..] == [x] + directories[index + 1..];
      ghost var before := disk.img;
      ok := FinishDirectory(disk, base, x.name, x.mode, made, done, calm);
      AsideTransitive(old(disk.img), before, disk.img, base);
      if !ok { return; }
      done := done + {x.name};
    }
    assert directories[index..] == directories;
    ok := true;
  }

  // ---------------------------------------------------------------- the whole extraction

  lemma {:induction false} NothingBelow(i: Image, base: Path, q: Path)
    requires Lawful(i) && base != [] && Now(i, base).None?
    ensures Now(i, base + q).None?
    decreases |q|
  {
    assert Opened(i, true);
    if q == [] {
      assert base + q == base;
    } else {
      AppendParent(base, q);
      NothingBelow(i, base, Parent(q));
    }
  }

  function StreamSize(ms: seq<Member>): int {
    if ms == [] then 0
    else
      var h := ms[|ms| - 1].header;
      StreamSize(ms[..|ms| - 1]) + SizeOf(h)
  }

  /** The summary an accepted stream is given. */
  predicate Summarizes(s: Stream, summary: Summary) {
    && s.members != []
    && summary.digest == Digest(s)
    && summary.kind == s.members[0].header.kind
    && summary.size == StreamSize(s.members)
    && summary.items == |s.members|
    && summary.mode == s.members[0].header.mode
  }

  /** The copy is complete, nothing else stands below the destination, every object of it and every
      directory between it and the held root survives a power loss; the names of the held root and
      of what is above it are exactly as durable as they were before. */
  ghost predicate Copied(before: Image, after: Image, root: Path, dest: Path, made: map<Path, Obj>) {
    var base := root + dest;
    && (forall q :: Now(after, base + q) == if q in made then Some(made[q]) else None)
    && (forall q | q in made :: Durable(after, base + q, made[q]))
    && (forall q {:trigger Parent(q)} | q != [] && Parent(q) in made && made[Parent(q)].Dir? :: At(after, base + q).stale == {})
    && (forall n | 0 <= n < |base| :: IsDir(after, base[..n]))
    && (forall n | |root| < n < |base| :: KeptDir(after, base[..n]))
    && (forall n | 0 < n <= |root| :: KeptDir(after, root[..n]) <==> KeptDir(before, root[..n]))
    && BesideFirmer(before, after, base)
  }

  /** Nothing away from the destination became less durable, and nothing there changed but that the way
      to it was made. */
  ghost predicate BesideFirmer(i: Image, j: Image, base: Path) {
    forall p | !(base <= p) && (Now(i, p).Some? || !(p <= base)) :: Firmer(At(i, p), At(j, p))
  }

  /** Outside the destination at most directories on the way to it were added. */
  ghost predicate OnlyParents(before: Image, after: Image, base: Path) {
    forall p | !(base <= p) ::
      Now(after, p) == Now(before, p) || (Now(before, p).None? && p <= base && IsDir(after, p))
  }

  lemma KeptUnchanged(i: Image, j: Image, p: Path)
    requires Lawful(i) && p != []
    requires Firmer(At(i, p), At(j, p)) && At(j, p).stale == At(i, p).stale
    ensures KeptDir(i, p) <==> KeptDir(j, p)
  {
    assert Opened(i, true);
    if IsDir(i, p) {
      assert forall o | o in At(i, p).settled :: o.Dir?;
      assert forall o | o in At(j, p).settled :: o.Dir?;
      if KeptDir(i, p) {
        forall v | v in After(j, p) ensures v.Some? && v.value.Dir? {
          if v in At(j, p).stale { assert v in After(i, p); }
        }
      }
      if KeptDir(j, p) {
        forall v | v in After(i, p) ensures v.Some? && v.value.Dir? {
          if v in At(i, p).stale { assert v in After(j, p); }
        }
      }
    }
  }

  /** Every made directory is listed, with the mode it is to get. */
  ghost predicate Listed(directories: seq<ExtractedDirectory>, made: map<Path, Obj>) {
    && (forall x | x in directories :: x.name in made && made[x.name] == Dir(x.mode))
    && (forall q | q in made && made[q].Dir? :: ExtractedDirectory(q, made[q].mode) in directories)
  }

  lemma ConfinedAside(i: Image, j: Image, base: Path, name: Path)
    requires ConfinedTo(i, j, base + name)
    ensures Aside(i, j, base)
  {
    assert base <= base + name;
  }

  /** What the loop has read after `n` members. */
  ghost predicate Parsed(ms: seq<Member>, n: nat, types: map<Path, Kind>, size: int) {
    && n <= |ms| && n <= MAX_ENTRIES
    && (forall k | 0 <= k < n :: ValidMember(ms, k))
    && types == Types(ms[..n]) && size == StreamSize(ms[..n])
  }

  lemma ParsedStep(ms: seq<Member>, n: nat, types: map<Path, Kind>, size: int)
    requires Parsed(ms, n, types, size) && n < |ms| && n < MAX_ENTRIES && ValidMember(ms, n)
    ensures var h := ms[n].header;
            Parsed(ms, n + 1, types[h.name := h.kind], size + SizeOf(h))
  {
    assert ms[..n + 1][..n] == ms[..n];
  }

  /** What it has built. */
  ghost predicate Built(i0: Image, i: Image, base: Path, made: map<Path, Obj>, directories: seq<ExtractedDirectory>) {
    Region(i, base, made) && Listed(directories, made) && Aside(i0, i, base) && IsDir(i, Parent(base))
  }

  lemma ListedStep(directories: seq<ExtractedDirectory>, made: map<Path, Obj>, name: Path, o: Obj)
    requires Listed(directories, made) && name !in made
    ensures Listed(if o.Dir? then directories + [ExtractedDirectory(name, o.mode)] else directories, made[name := o])
  {
    var made', more := made[name := o], if o.Dir? then directories + [ExtractedDirectory(name, o.mode)] else directories;
    forall q | q in made' && made'[q].Dir? ensures ExtractedDirectory(q, made'[q].mode) in more {
      if q != name {
        assert ExtractedDirectory(q, made[q].mode) in directories;
      }
    }
  }

  function SizeOf(h: Header): int {
    if h.kind.RegularKind? then h.size else if h.kind.SymlinkKind? then |h.link| else 0
  }

  lemma BuiltStep(i0: Image, i: Image, j: Image, base: Path, made: map<Path, Obj>, directories: seq<ExtractedDirectory>,
                  name: Path, o: Obj)
    requires base != [] && Built(i0, i, base, made, directories) && name !in made
    requires ConfinedTo(i, j, base + name) && Made(At(j, base + name), o)
    ensures Built(i0, j, base, made[name := o], if o.Dir? then directories + [ExtractedDirectory(name, o.mode)] else directories)
  {
    ConfinedAside(i, j, base, name);
    AsideTransitive(i0, i, j, base);
    RegionStep(i, j, base, made, name, o);
    ListedStep(directories, made, name, o);
    assert !(base <= Parent(base));
    assert Firmer(At(i, Parent(base)), At(j, Parent(base)));
  }

  /** A header that passes validation names something that does not exist yet, below a directory that does. */
  lemma NextReady(i0: Image, i: Image, base: Path, ms: seq<Member>, n: nat, lm: nat, types: map<Path, Kind>,
                  directories: seq<ExtractedDirectory>, size: int)
    requires base != [] && n < |ms| && Parsed(ms, n, types, size) && Built(i0, i, base, Collect(ms[..n], lm), directories)
    requires ValidHeader(ms[n].header, n == 0, types)
    ensures ms[n].header.name !in Collect(ms[..n], lm) && Creatable(i, base + ms[n].header.name)
  {
    var name, made := ms[n].header.name, Collect(ms[..n], lm);
    MatchesPrefix(ms, n, lm);
    assert Region(i, base, made);
    if name == [] {
      assert base + name == base;
    } else {
      AppendParent(base, name);
      assert Made(At(i, base + Parent(name)), made[Parent(name)]);
    }
  }

  function Noted(directories: seq<ExtractedDirectory>, h: Header): seq<ExtractedDirectory> {
    if h.kind.DirectoryKind? && h.mode >= 0 then directories + [ExtractedDirectory(h.name, h.mode)] else directories
  }

  lemma CollectStep(ms: seq<Member>, n: nat, lm: nat)
    requires n < |ms|
    ensures Collect(ms[..n + 1], lm) == Collect(ms[..n], lm)[ms[n].header.name := ObjOf(ms[n], lm)]
  {
    assert ms[..n + 1][..n] == ms[..n];
  }

  lemma Advance(i0: Image, i: Image, j: Image, base: Path, ms: seq<Member>, n: nat, lm: nat, types: map<Path, Kind>,
                directories: seq<ExtractedDirectory>, size: int)
    requires base != [] && n < |ms| && n < MAX_ENTRIES && Parsed(ms, n, types, size) && ValidMember(ms, n)
    requires Built(i0, i, base, Collect(ms[..n], lm), directories) && ms[n].header.name !in Collect(ms[..n], lm)
    requires ConfinedTo(i, j, base + ms[n].header.name)
    requires Made(At(j, base + ms[n].header.name), ObjOf(ms[n], lm))
    ensures var h := ms[n].header;
            && Parsed(ms, n + 1, types[h.name := h.kind], size + SizeOf(h))
            && Built(i0, j, base, Collect(ms[..n + 1], lm), Noted(directories, h))
  {
    var o := ObjOf(ms[n], lm);
    CollectStep(ms, n, lm);
    ParsedStep(ms, n, types, size);
    assert Noted(directories, ms[n].header) ==
           if o.Dir? then directories + [ExtractedDirectory(ms[n].header.name, o.mode)] else directories;
    BuiltStep(i0, i, j, base, Collect(ms[..n], lm), directories, ms[n].header.name, o);
  }

  /** The loop over the members.  `owned` is set once the first object exists. */
  method ExtractMembers(disk: Volume, ms: seq<Member>, base: Path, calm: bool)
      returns (ok: bool, owned: bool, directories: seq<ExtractedDirectory>, size: int, items: nat)
    requires disk.Valid()
    requires base != [] && Region(disk.img, base, map[]) && IsDir(disk.img, Parent(base))
    modifies disk
    ensures disk.Valid()
    ensures Aside(old(disk.img), disk.img, base)
    ensures !owned ==> Region(disk.img, base, map[])
    ensures ok ==> |ms| <= MAX_ENTRIES && items == |ms| && size == StreamSize(ms) && (ms != [] ==> owned)
    ensures ok ==> forall k | 0 <= k < |ms| :: ValidMember(ms, k)
    ensures ok ==> Region(disk.img, base, Collect(ms, disk.linkMode)) && Listed(directories, Collect(ms, disk.linkMode))
    ensures calm && |ms| <= MAX_ENTRIES && (forall k | 0 <= k < |ms| :: ValidMember(ms, k)) ==> ok
  {
    var types: map<Path, Kind> := map[];
    ghost var i0 := disk.img;
    ghost var made: map<Path, Obj> := map[];
    directories, size, items, owned := [], 0, 0, false;
    assert ms[..0] == [];
    while items < |ms|
      invariant disk.Valid()
      invariant Parsed(ms, items, types, size) && made == Collect(ms[..items], disk.linkMode)
      invariant Built(i0, disk.img, base, made, directories)
      invariant owned <==> items > 0
    {
      var m := ms[items];
      if items >= MAX_ENTRIES || !ValidHeader(m.header, items == 0, types) {
        assert items < MAX_ENTRIES ==> !ValidMember(ms, items);
        return false, owned, directories, size, items;
      }
      NextReady(i0, disk.img, base, ms, items, disk.linkMode, types, directories, size);
      ghost var before := disk.img;
      var created, fine := ExtractHeader(disk, base + m.header.name, m, calm);
      if items == 0 && created {
        owned := true;
      }
      if !fine {
        ConfinedAside(before, disk.img, base, m.header.name);
        AsideTransitive(i0, before, disk.img, base);
        assert calm ==> !ValidMember(ms, items);
        return false, owned, directories, size, items;
      }
      Advance(i0, before, disk.img, base, ms, items, disk.linkMode, types, directories, size);
      directories := Noted(directories, m.header);
      types, size := types[m.header.name := m.header.kind], size + SizeOf(m.header);
      items := items + 1;
      made := Collect(ms[..items], disk.linkMode);
    }
    assert ms[..items] == ms;
    ok := true;
  }

  predicate ValidRelative(p: Path) {
    p != [] && GoodPath(p)
  }

  /** How a failed extraction ends: what was made is removed again, and the removal is synced if that works. */
  method Cleanup(disk: Volume, base: Path, owned: bool, calm: bool) returns (cleaned: bool)
    requires disk.Valid()
    requires base != []
    modifies disk
    ensures disk.Valid()
    ensures forall p | !(base <= p) :: Now(disk.img, p) == Now(old(disk.img), p)
    ensures cleaned && owned ==> Region(disk.img, base, map[])
    ensures calm && owned && IsDir(old(disk.img), Parent(base)) ==> After(disk.img, base) == {None}
    ensures !owned ==> cleaned && disk.img == old(disk.img)
    ensures calm ==> cleaned
  {
    if !owned {
      return true;
    }
    ghost var before := disk.img;
    cleaned := disk.RemoveAll(base, calm);
    ghost var removed := disk.img;
    if cleaned {
      forall q ensures Now(removed, base + q).None? {
        assert base <= base + q;
      }
      var _ := disk.SyncDirectory(Parent(base), calm);
      assert forall p :: Now(disk.img, p) == Now(removed, p);
    }
  }

  lemma MembersDurable(i: Image, j: Image, base: Path, made: map<Path, Obj>, done: set<Path>, types: map<Path, Kind>, stop: nat)
    requires base != [] && stop < |base| && Matches(types, made)
    requires Region(i, base, made) && Finished(i, base, made, done)
    requires forall q | q in made && made[q].Dir? :: q in done
    requires j == ChainSynced(i, Parent(base), stop)
    ensures forall q :: Now(j, base + q) == if q in made then Some(made[q]) else None
    ensures forall q | q in made :: Durable(j, base + q, made[q])
    ensures forall q {:trigger Parent(q)} | q != [] && Parent(q) in made && made[Parent(q)].Dir? :: At(j, base + q).stale == {}
  {
    ChainFirmer(i, Parent(base), stop);
    forall q ensures Now(j, base + q) == if q in made then Some(made[q]) else None
             ensures q in made ==> Durable(j, base + q, made[q])
    {
      assert Firmer(At(i, base + q), At(j, base + q));
      if q in made {
        assert Made(At(i, base + q), made[q]);
        if q == [] {
          assert base + q == base;
          ChainNames(i, Parent(base), stop, base);
        } else {
          assert Parent(q) in done;
        }
      }
    }
    forall q {:trigger Parent(q)} | q != [] && Parent(q) in made && made[Parent(q)].Dir? ensures At(j, base + q).stale == {} {
      assert Firmer(At(i, base + q), At(j, base + q));
    }
  }

  /** The directories between the held root and the copy survive; the root's own names are as before. */
  lemma ParentsKept(i0: Image, i1: Image, i2: Image, root: Path, dest: Path)
    requires Lawful(i0) && dest != []
    requires forall p | |p| < |root + dest| :: Firmer(At(i1, p), At(i2, p)) && At(i2, p).stale == At(i1, p).stale
    requires forall n | 0 <= n < |root + dest| :: IsDir(i1, (root + dest)[..n])
    requires forall n | 0 < n <= |root| :: At(i1, root[..n]) == At(i0, root[..n])
                                        || (Now(i0, root[..n]).None? && None in At(i1, root[..n]).stale)
    ensures var i3 := ChainSynced(i2, Parent(root + dest), |root|);
            && (forall n | |root| < n < |root + dest| :: KeptDir(i3, (root + dest)[..n]))
            && (forall n | 0 < n <= |root| :: KeptDir(i3, root[..n]) <==> KeptDir(i0, root[..n]))
  {
    var base := root + dest;
    var i3 := ChainSynced(i2, Parent(base), |root|);
    ChainFirmer(i2, Parent(base), |root|);
    forall n | |root| < n < |base| ensures KeptDir(i3, base[..n]) {
      var d := base[..n];
      ChainNames(i2, Parent(base), |root|, d);
      ChainModes(i2, Parent(base), |root|, d);
      assert Firmer(At(i1, d), At(i2, d)) && Firmer(At(i2, d), At(i3, d));
      assert IsDir(i1, d);
    }
    forall n | 0 < n <= |root| ensures KeptDir(i3, root[..n]) <==> KeptDir(i0, root[..n]) {
      var d := root[..n];
      assert d == base[..n];
      assert Firmer(At(i1, d), At(i2, d)) && Firmer(At(i2, d), At(i3, d));
      assert At(i3, d).stale == At(i1, d).stale;
      if At(i1, d) == At(i0, d) {
        KeptUnchanged(i0, i3, d);
      } else {
        assert None in After(i3, d);
      }
    }
  }

  /** Nothing at or below the destination shows another object. */
  ghost predicate BelowSame(i: Image, j: Image, base: Path) {
    forall q :: Now(j, base + q) == Now(i, base + q)
  }

  /** Room is made for the copy: nothing stands there, and the way to it exists but is not settled. */
  ghost predicate Prepared(i0: Image, i: Image, root: Path, dest: Path) {
    && Region(i, root + dest, map[])
    && OnlyParents(i0, i, root + dest)
    && (forall p | Now(i0, p).Some? || !(p <= root + dest) :: At(i, p) == At(i0, p))
    && (forall n | 0 <= n < |root + dest| :: IsDir(i, (root + dest)[..n]))
    && (forall n | 0 < n <= |root| :: At(i, root[..n]) == At(i0, root[..n])
                                   || (Now(i0, root[..n]).None? && None in At(i, root[..n]).stale))
  }

  lemma GrownBelow(i: Image, j: Image, p: Path, base: Path)
    requires Grown(i, j, p) && p < base
    ensures BelowSame(i, j, base)
    ensures OnlyParents(i, j, base)
  {
    forall q ensures Now(j, base + q) == Now(i, base + q) {
      assert !(base + q <= p);
    }
    forall q | !(base <= q) ensures Now(j, q) == Now(i, q) || (Now(i, q).None? && q <= base && IsDir(j, q)) {
      assert q <= p ==> q <= base;
    }
  }

  lemma RoomMade(i0: Image, ia: Image, ib: Image, root: Path, dest: Path)
    requires Lawful(i0) && dest != [] && Now(i0, root + dest).None?
    requires Grown(i0, ia, root) && Grown(ia, ib, Parent(root + dest))
    requires forall n | 0 <= n <= |root| :: IsDir(ia, root[..n])
    requires forall n | 0 <= n <= |Parent(root + dest)| :: IsDir(ib, Parent(root + dest)[..n])
    ensures Prepared(i0, ib, root, dest)
  {
    var base := root + dest;
    assert root < base && Parent(base) < base;
    GrownBelow(i0, ia, root, base);
    GrownBelow(ia, ib, Parent(base), base);
    forall q ensures Now(ib, base + q).None? {
      NothingBelow(i0, base, q);
    }
    forall n | 0 <= n < |base| ensures IsDir(ib, base[..n]) {
      assert base[..n] == Parent(base)[..n];
    }
    forall p | !(base <= p) ensures Now(ib, p) == Now(i0, p) || (Now(i0, p).None? && p <= base && IsDir(ib, p)) {
      assert At(ib, p) == At(ia, p) || (p <= base && IsDir(ib, p));
    }
    forall n | 0 < n <= |root|
      ensures At(ib, root[..n]) == At(i0, root[..n]) || (Now(i0, root[..n]).None? && None in At(ib, root[..n]).stale)
    {
      assert IsDir(ia, root[..n]);
      assert At(ib, root[..n]) == At(ia, root[..n]);
    }
  }

  /** Creates the root and the parents, and insists that the destination does not exist. */
  method PrepareDestination(disk: Volume, root: Path, dest: Path, calm: bool) returns (ok: bool)
    requires disk.Valid()
    requires dest != []
    modifies disk
    ensures disk.Valid()
    ensures BelowSame(old(disk.img), disk.img, root + dest) && OnlyParents(old(disk.img), disk.img, root + dest)
    ensures ok ==> Now(old(disk.img), root + dest).None? && Prepared(old(disk.img), disk.img, root, dest)
    ensures calm && Openable(old(disk.img), Parent(root + dest)) && Now(old(disk.img), root + dest).None? ==> ok
  {
    ghost var i0 := disk.img;
    var base := root + dest;
    assert root < base && Parent(base) < base && base + [] == base;
    assert Openable(i0, Parent(base)) ==> Openable(i0, root) by {
      assert forall n | 0 < n <= |root| :: root[..n] == Parent(base)[..n];
    }
    ok := MkdirAll(disk, root, calm);
    ghost var ia := disk.img;
    GrownBelow(i0, ia, root, base);
    if !ok || Now(disk.img, base).Some? {
      return false;
    }
    assert Openable(i0, Parent(base)) ==> Openable(ia, Parent(base)) by {
      forall n | 0 < n <= |Parent(base)| && Openable(i0, Parent(base))
        ensures Now(ia, Parent(base)[..n]).None? || IsDir(ia, Parent(base)[..n])
      {
        assert Now(i0, Parent(base)[..n]).None? || IsDir(i0, Parent(base)[..n]);
      }
    }
    ok := MkdirAll(disk, Parent(base), calm);
    GrownBelow(ia, disk.img, Parent(base), base);
    if ok {
      RoomMade(i0, ia, disk.img, root, dest);
    } else {
      StillOnlyParentsGrown(i0, ia, disk.img, base);
    }
  }

  lemma StillOnlyParentsGrown(i0: Image, i1: Image, i2: Image, base: Path)
    requires OnlyParents(i0, i1, base) && OnlyParents(i1, i2, base)
    ensures OnlyParents(i0, i2, base)
  {
  }

  ghost predicate NowSameOutside(i: Image, j: Image, base: Path) {
    forall p | !(base <= p) :: Now(j, p) == Now(i, p)
  }

  lemma AsideNow(i: Image, j: Image, base: Path)
    requires Aside(i, j, base)
    ensures NowSameOutside(i, j, base)
  {
    forall p | !(base <= p) ensures Now(j, p) == Now(i, p) {
      assert Firmer(At(i, p), At(j, p));
    }
  }

  lemma OnlyParentsThen(i0: Image, i1: Image, i2: Image, base: Path)
    requires OnlyParents(i0, i1, base) && NowSameOutside(i1, i2, base)
    ensures OnlyParents(i0, i2, base)
  {
  }

  lemma CopiedNow(i0: Image, ib: Image, id: Image, root: Path, dest: Path, made: map<Path, Obj>,
                  types: map<Path, Kind>, done: set<Path>)
    requires Lawful(i0) && dest != [] && Prepared(i0, ib, root, dest) && Aside(ib, id, root + dest)
    requires Matches(types, made) && Region(id, root + dest, made) && Finished(id, root + dest, made, done)
    requires forall q | q in made && made[q].Dir? :: q in done
    ensures Copied(i0, ChainSynced(id, Parent(root + dest), |root|), root, dest, made)
  {
    var base := root + dest;
    StillBeside(i0, ib, id, root, dest);
    MembersDurable(id, ChainSynced(id, Parent(base), |root|), base, made, done, types, |root|);
    assert forall p | |p| < |base| :: !(base <= p);
    ParentsKept(i0, ib, id, root, dest);
    ParentsStand(ib, id, root, dest);
  }

  lemma StillBeside(i0: Image, ib: Image, id: Image, root: Path, dest: Path)
    requires dest != [] && Prepared(i0, ib, root, dest) && Aside(ib, id, root + dest)
    ensures BesideFirmer(i0, ChainSynced(id, Parent(root + dest), |root|), root + dest)
  {
    var base := root + dest;
    var ie := ChainSynced(id, Parent(base), |root|);
    ChainFirmer(id, Parent(base), |root|);
    forall p | !(base <= p) && (Now(i0, p).Some? || !(p <= base)) ensures Firmer(At(i0, p), At(ie, p)) {
      assert At(ib, p) == At(i0, p) && Firmer(At(ib, p), At(id, p)) && Firmer(At(id, p), At(ie, p));
    }
  }

  lemma ParentsStand(i1: Image, i2: Image, root: Path, dest: Path)
    requires dest != []
    requires forall p | |p| < |root + dest| :: Firmer(At(i1, p), At(i2, p))
    requires forall n | 0 <= n < |root + dest| :: IsDir(i1, (root + dest)[..n])
    ensures forall n | 0 <= n < |root + dest| :: IsDir(ChainSynced(i2, Parent(root + dest), |root|), (root + dest)[..n])
  {
    ChainFirmer(i2, Parent(root + dest), |root|);
    forall n | 0 <= n < |root + dest| ensures IsDir(ChainSynced(i2, Parent(root + dest), |root|), (root + dest)[..n]) {
      var d := (root + dest)[..n];
      assert Firmer(At(i1, d), At(i2, d)) && Firmer(At(i2, d), At(ChainSynced(i2, Parent(root + dest), |root|), d));
    }
  }

  /** Modes and syncs of the made directories, then the chain up to the held root. */
  method FinishExtraction(disk: Volume, root: Path, dest: Path, directories: seq<ExtractedDirectory>,
                          ghost i0: Image, ghost ib: Image, ghost made: map<Path, Obj>, ghost types: map<Path, Kind>,
                          calm: bool)
      returns (ok: bool)
    requires disk.Valid()
    requires Lawful(i0) && dest != [] && Prepared(i0, ib, root, dest) && Aside(ib, disk.img, root + dest)
    requires Matches(types, made) && Region(disk.img, root + dest, made) && Listed(directories, made)
    modifies disk
    ensures disk.Valid()
    ensures NowSameOutside(old(disk.img), disk.img, root + dest)
    ensures ok ==> Copied(i0, disk.img, root, dest, made)
    ensures calm ==> ok
  {
    var base := root + dest;
    ghost var ic := disk.img;
    ghost var done;
    ok, done := FinishDirectories(disk, base, directories, made, calm);
    ghost var id := disk.img;
    AsideNow(ic, id, base);
    if !ok { return; }
    AsideTransitive(ib, ic, id, base);
    AsideNow(ib, id, base);
    CopiedNow(i0, ib, id, root, dest, made, types, done) by {
      forall q | q in made && made[q].Dir? ensures q in done {
        assert ExtractedDirectory(q, made[q].mode) in directories;
      }
    }
    forall n | 0 <= n < |base| ensures IsDir(id, base[..n]) {
      assert IsDir(ib, base[..n]) && !(base <= base[..n]);
    }
    ok := SettleWay(disk, root, dest, calm);
  }

  /** The chain of syncs from the copy's directory up to the held root. */
  method SettleWay(disk: Volume, root: Path, dest: Path, calm: bool) returns (ok: bool)
    requires disk.Valid()
    requires dest != [] && forall n | 0 <= n < |root + dest| :: IsDir(disk.img, (root + dest)[..n])
    modifies disk
    ensures disk.Valid()
    ensures AllFirmer(old(disk.img), disk.img, |root|)
    ensures ok ==> disk.img == ChainSynced(old(disk.img), Parent(root + dest), |root|)
    ensures forall p :: Now(disk.img, p) == Now(old(disk.img), p)
    ensures calm ==> ok
  {
    var base := root + dest;
    assert root <= Parent(base);
    forall n | |root| <= n <= |Parent(base)| ensures IsDir(disk.img, Parent(base)[..n]) {
      assert Parent(base)[..n] == base[..n];
    }
    ghost var before := disk.img;
    ok := SyncRootDirectoryChain(disk, root, Parent(base), calm);
    forall p ensures Now(disk.img, p) == Now(before, p) {
      assert Firmer(At(before, p), At(disk.img, p));
    }
  }

  /** Validates, rebuilds and makes durable one stream below an exclusive destination.  A stream is
      accepted only whole; a failure leaves the destination as it was, unless the cleanup itself failed. */
  method ExtractArchive(disk: Volume, input: Stream, root: Path, dest: Path, calm: bool)
      returns (r: Result<Summary>, cleaned: bool)
    requires disk.Valid()
    modifies disk
    ensures disk.Valid()
    ensures r.Ok? ==> Acceptable(input) && ValidRelative(dest) && Now(old(disk.img), root + dest).None?
    ensures r.Ok? ==> Copied(old(disk.img), disk.img, root, dest, Collect(input.members, disk.linkMode))
    ensures r.Ok? ==> Summarizes(input, r.value)
    ensures r.Err? && cleaned ==> BelowSame(old(disk.img), disk.img, root + dest)
    ensures Now(old(disk.img), root + dest).Some? && dest != [] ==> r.Err? && cleaned
    ensures dest != [] ==> OnlyParents(old(disk.img), disk.img, root + dest)
    ensures (calm && Acceptable(input) && ValidRelative(dest) && Now(old(disk.img), root + dest).None?
             && Openable(old(disk.img), Parent(root + dest))) ==> r.Ok?
    ensures calm ==> cleaned
  {
    if !ValidRelative(dest) {
      return Err, true;
    }
    ghost var i0 := disk.img;
    var base := root + dest;
    var ok := PrepareDestination(disk, root, dest, calm);
    if !ok {
      return Err, true;
    }
    ghost var ib := disk.img;
    assert Parent(base) == base[..|base| - 1];
    var owned, directories, size, items;
    ok, owned, directories, size, items := ExtractMembers(disk, input.members, base, calm);
    ghost var ic := disk.img;
    AsideNow(ib, ic, base);
    OnlyParentsThen(i0, ib, ic, base);
    if ok && input.ended && input.trailer == TRAILER && input.members != [] {
      MatchesPrefix(input.members, |input.members|, disk.linkMode);
      assert input.members[..|input.members|] == input.members;
      ok := FinishExtraction(disk, root, dest, directories, i0, ib, Collect(input.members, disk.linkMode),
                             Types(input.members), calm);
      OnlyParentsThen(i0, ic, disk.img, base);
      if ok {
        var top := input.members[0].header;
        assert ValidMember(input.members, 0);
        SizeNotNegative(input.members);
        return Ok(Summary(Digest(input), top.kind, size, items, top.mode)), true;
      }
    }
    ghost var id := disk.img;
    cleaned := Cleanup(disk, base, owned, calm);
    OnlyParentsThen(i0, id, disk.img, base);
    r := Err;
  }

  lemma {:induction false} SizeNotNegative(ms: seq<Member>)
    requires forall k | 0 <= k < |ms| :: ValidMember(ms, k)
    ensures StreamSize(ms) >= 0
  {
    if ms != [] {
      var front := ms[..|ms| - 1];
      assert ValidMember(ms, |ms| - 1);
      forall k | 0 <= k < |front| ensures ValidMember(front, k) {
        assert ValidMember(ms, k) && front[..k] == ms[..k];
      }
      SizeNotNegative(front);
    }
  }
}
