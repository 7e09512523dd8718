/** The deterministic entry stream: its wire form, the writer's walk, and `describe`. */
module ArchiveStream {
  import opened Common
  import opened Disk
  import opened FileTree
  import opened TextNames

  const MAX_ENTRIES: nat := 1_000_000
  const MAX_NAME: nat := 4096
  const MAX_LINK: nat := 4096
  const TRAILER := "PWNBRIDGE-RECOVERY-ARCHIVE-V1\n"

  datatype Kind = RegularKind | DirectoryKind | SymlinkKind | OtherKind

  /** A header.  The name is given by its slash-separated components; the root entry "." has none.
      `plain` says that owner, device, times, format and extensions have the one permitted value. */
  datatype Header = Header(name: Path, kind: Kind, mode: int, size: int, link: string, plain: bool)

  datatype Member = Member(header: Header, body: seq<byte>)

  /** What a reader finds: members, then possibly the end mark, then further text. */
  datatype Stream = Stream(members: seq<Member>, ended: bool, trailer: string)

  /** The digest is modelled as the stream itself: two streams with one digest are one stream. */
  datatype Digest = Digest(of: Stream)

  datatype Summary = Summary(digest: Digest, kind: Kind, size: nat, items: nat, mode: nat)

  /** Bytes of a name: its components and the slashes between them, or the one byte of ".". */
  function NameLength(name: Path): nat {
    if name == [] then 1 else if |name| == 1 then |name[0]| else |name[0]| + 1 + NameLength(name[1..])
  }

  function KindOf(o: Obj): Kind {
    match o
    case File(_, _) => RegularKind
    case Dir(_) => DirectoryKind
    case Link(_, _) => SymlinkKind
    case Special => OtherKind
  }

  function ModeOf(o: Obj): nat {
    if o.Special? then 0 else o.mode
  }

  function MemberOf(e: Entry): Member {
    Member(
      Header(e.path, KindOf(e.obj), ModeOf(e.obj),
             if e.obj.File? then |e.obj.content| else 0, if e.obj.Link? then e.obj.target else "", true),
      if e.obj.File? then e.obj.content else [])
  }

  function Members(es: seq<Entry>): seq<Member> {
    seq(|es|, k requires 0 <= k < |es| => MemberOf(es[k]))
  }

  /** Logical bytes: file contents and link targets. */
  function Weight(o: Obj): nat {
    if o.File? then |o.content| else if o.Link? then |o.target| else 0
  }

  function TotalWeight(es: seq<Entry>): nat {
    if es == [] then 0 else TotalWeight(es[..|es| - 1]) + Weight(es[|es| - 1].obj)
  }

  lemma {:induction false} TotalWeightConcat(es: seq<Entry>, fs: seq<Entry>)
    ensures TotalWeight(es + fs) == TotalWeight(es) + TotalWeight(fs)
  {
    if fs == [] {
      assert es + fs == es;
    } else {
      assert (es + fs)[..|es + fs| - 1] == es + fs[..|fs| - 1];
      TotalWeightConcat(es, fs[..|fs| - 1]);
    }
  }

  function StreamOf(t: Tree): Stream {
    Stream(Members(Walk([], t)), true, TRAILER)
  }

  function SummaryOf(t: Tree): Summary {
    Summary(Digest(StreamOf(t)), KindOf(Head(t)), TotalWeight(Walk([], t)), |Walk([], t)|, ModeOf(Head(t)))
  }

  // ---------------------------------------------------------------- limits

  predicate EntryFits(e: Entry) {
    && NameLength(e.path) <= MAX_NAME && TextPath(e.path)
    && !e.obj.Special?
    && (e.obj.Link? ==> |e.obj.target| <= MAX_LINK)
  }

  predicate AllFit(es: seq<Entry>) {
    forall k | 0 <= k < |es| :: EntryFits(es[k])
  }

  /** The limits under which an archive is produced at all. */
  predicate WithinLimits(t: Tree) {
    |Walk([], t)| <= MAX_ENTRIES && AllFit(Walk([], t))
  }

  /** A name as the archive writes it. */
  function SlashText(p: Path): string {
    if p == [] then "." else if |p| == 1 then p[0] else p[0] + "/" + SlashText(p[1..])
  }

  lemma {:induction false} NameLengthIs(p: Path)
    ensures NameLength(p) == |SlashText(p)|
  {
    if |p| > 1 {
      NameLengthIs(p[1..]);
    }
  }

  /** The limits in plain terms: at most a million objects, names of at most 4096 bytes made of components
      that spell some text, no special file, links of at most 4096 bytes. */
  lemma LimitsExact(t: Tree)
    ensures WithinLimits(t) <==>
            && |Walk([], t)| <= 1_000_000
            && forall k | 0 <= k < |Walk([], t)| ::
                 var e := Walk([], t)[k];
                 && |SlashText(e.path)| <= 4096 && !e.obj.Special? && (e.obj.Link? ==> |e.obj.target| <= 4096)
                 && forall n | n in e.path :: exists cs :: Spells(n, cs)
  {
    forall k | 0 <= k < |Walk([], t)|
      ensures EntryFits(Walk([], t)[k]) <==>
              var e := Walk([], t)[k];
              && |SlashText(e.path)| <= 4096 && !e.obj.Special? && (e.obj.Link? ==> |e.obj.target| <= 4096)
              && forall n | n in e.path :: exists cs :: Spells(n, cs)
    {
      var e := Walk([], t)[k];
      NameLengthIs(e.path);
      forall n | n in e.path ensures TextName(n) <==> exists cs :: Spells(n, cs) {
        TextNameExact(n);
      }
    }
  }

  lemma {:induction false} MemberInjective(e: Entry, f: Entry)
    requires EntryFits(e) && EntryFits(f)
    requires MemberOf(e) == MemberOf(f)
    ensures e == f
  {
    assert KindOf(e.obj) == KindOf(f.obj) && ModeOf(e.obj) == ModeOf(f.obj);
  }

  /** Two archivable trees with one digest are one tree. */
  lemma {:induction false} StreamInjective(t: Tree, u: Tree)
    requires WithinLimits(t) && WithinLimits(u)
    requires Digest(StreamOf(t)) == Digest(StreamOf(u))
    ensures t == u
  {
    var es, fs := Walk([], t), Walk([], u);
    assert |es| == |Members(es)| == |Members(fs)| == |fs|;
    forall k | 0 <= k < |es| ensures es[k] == fs[k] {
      assert MemberOf(es[k]) == Members(es)[k] == Members(fs)[k] == MemberOf(fs[k]);
      MemberInjective(es[k], fs[k]);
    }
    WalkInjective(t, u);
  }

  // ---------------------------------------------------------------- real trees

  /** What every real tree satisfies: proper names, permission bits only, no empty link target. */
  ghost predicate WellNamed(t: Tree) {
    forall k | 0 <= k < |Walk([], t)| :: GoodPath(Walk([], t)[k].path) && ModeOf(Walk([], t)[k].obj) <= 0x1ff
  }

  // ---------------------------------------------------------------- the writer

  /** The walk of one source tree, with the counters it keeps. */
  class ArchiveWriter {
    var out: seq<Member>
    var items: nat
    var size: nat

    constructor ()
      ensures out == [] && items == 0 && size == 0
    {
      out, items, size := [], 0, 0;
    }

    /** Emits one object and everything below it.  Without a read fault it fails exactly when a
        limit is exceeded; a change seen during the walk is one of the faults. */
    method WriteNode(t: Tree, p: Path, calm: bool) returns (ok: bool)
      requires TextPath(p)
      modifies this
      ensures ok ==> out == old(out) + Members(Walk(p, t))
      ensures ok ==> items == old(items) + |Walk(p, t)|
      ensures ok ==> size == old(size) + TotalWeight(Walk(p, t))
      ensures ok ==> items <= MAX_ENTRIES && AllFit(Walk(p, t))
      ensures calm && old(items) + |Walk(p, t)| <= MAX_ENTRIES && AllFit(Walk(p, t)) ==> ok
      decreases t, 1, 0
    {
      var fault: bool := *;
      WalkParts(p, t);
      if items >= MAX_ENTRIES || NameLength(p) > MAX_NAME {
        return false;
      }
      items := items + 1;
      if t.SpecialFile? || (t.Symlink? && |t.target| > MAX_LINK) || (fault && !calm) {
        return false;
      }
      var head := [MemberOf(Entry(p, Head(t)))];
      out := out + head;
      size := size + Weight(Head(t));
      ok := true;
      if t.Directory? {
        ok := WriteChildren(t, p, Listing(t.children.Keys), calm);
      }
      if ok {
        Regroup(old(out), head, Members(Below(p, t)));
      }
    }

    method WriteChildren(t: Tree, p: Path, names: seq<Name>, calm: bool) returns (ok: bool)
      requires t.Directory? && TextPath(p) && forall n | n in names :: n in t.children
      requires items <= MAX_ENTRIES
      modifies this
      ensures ok ==> out == old(out) + Members(WalkAll(p, t, names))
      ensures ok ==> items == old(items) + |WalkAll(p, t, names)|
      ensures ok ==> size == old(size) + TotalWeight(WalkAll(p, t, names))
      ensures ok ==> items <= MAX_ENTRIES && AllFit(WalkAll(p, t, names))
      ensures calm && old(items) + |WalkAll(p, t, names)| <= MAX_ENTRIES && AllFit(WalkAll(p, t, names)) ==> ok
      decreases t, 0, |names|
    {
      if names == [] {
        return true;
      }
      WalkAllParts(p, t, names);
      if !TextName(names[0]) {
        BadName(p, t, names);
        return false;
      }
      ok := WriteNode(t.children[names[0]], p + [names[0]], calm);
      if ok {
        ok := WriteChildren(t, p, names[1..], calm);
      }
      if ok {
        Regroup(old(out), Members(Walk(p + [names[0]], t.children[names[0]])), Members(WalkAll(p, t, names[1..])));
      }
    }
  }

  /** A name that is not text is in the walk, so the walk does not fit. */
  lemma BadName(p: Path, t: Tree, names: seq<Name>)
    requires names != [] && t.Directory? && (forall n | n in names :: n in t.children) && !TextName(names[0])
    ensures !AllFit(WalkAll(p, t, names))
  {
    WalkAllParts(p, t, names);
    var first := Walk(p + [names[0]], t.children[names[0]]);
    WalkParts(p + [names[0]], t.children[names[0]]);
    assert first[0].path == p + [names[0]] && names[0] in p + [names[0]];
    assert !EntryFits(first[0]);
  }

  lemma Regroup<T>(a: seq<T>, b: seq<T>, c: seq<T>)
    ensures a + b + c == a + (b + c)
    ensures a + [] == a
  {
  }

  function Below(p: Path, t: Tree): seq<Entry> {
    if t.Directory? then WalkAll(p, t, Listing(t.children.Keys)) else []
  }

  /** How the writer's totals over a walk come from the object itself and from what is below it. */
  lemma {:induction false} WalkParts(p: Path, t: Tree)
    ensures |Walk(p, t)| == 1 + |Below(p, t)|
    ensures Members(Walk(p, t)) == [MemberOf(Entry(p, Head(t)))] + Members(Below(p, t))
    ensures TotalWeight(Walk(p, t)) == Weight(Head(t)) + TotalWeight(Below(p, t))
    ensures AllFit(Walk(p, t)) <==> EntryFits(Entry(p, Head(t))) && AllFit(Below(p, t))
  {
    var one := [Entry(p, Head(t))];
    var below := Below(p, t);
    assert Walk(p, t) == one + below;
    SplitFit(one, below);
    assert AllFit(one) <==> EntryFits(one[0]);
    TotalWeightConcat(one, below);
    assert one[..0] == [];
    assert Members(one + below) == Members(one) + Members(below);
  }

  lemma {:induction false} WalkAllParts(p: Path, t: Tree, names: seq<Name>)
    requires names != [] && t.Directory? && forall n | n in names :: n in t.children
    ensures var first := Walk(p + [names[0]], t.children[names[0]]);
            var rest := WalkAll(p, t, names[1..]);
            && |WalkAll(p, t, names)| == |first| + |rest|
            && Members(WalkAll(p, t, names)) == Members(first) + Members(rest)
            && TotalWeight(WalkAll(p, t, names)) == TotalWeight(first) + TotalWeight(rest)
            && (AllFit(WalkAll(p, t, names)) <==> AllFit(first) && AllFit(rest))
  {
    var first := Walk(p + [names[0]], t.children[names[0]]);
    var rest := WalkAll(p, t, names[1..]);
    assert WalkAll(p, t, names) == first + rest;
    SplitFit(first, rest);
    TotalWeightConcat(first, rest);
    assert Members(first + rest) == Members(first) + Members(rest);
  }

  /** The walk's totals are those of the tree. */
  lemma {:induction false} WalkTotals(p: Path, t: Tree)
    ensures TotalWeight(Walk(p, t)) == TreeBytes(t) && |Walk(p, t)| == TreeItems(t)
    decreases t
  {
    WalkParts(p, t);
    if t.Directory? {
      WalkAllTotals(p, t, Listing(t.children.Keys));
    } else {
      assert Below(p, t) == [];
    }
  }

  lemma {:induction false} WalkAllTotals(p: Path, t: Tree, ns: seq<Name>)
    requires t.Directory? && forall n | n in ns :: n in t.children
    ensures TotalWeight(WalkAll(p, t, ns)) == BytesAmong(t, ns) && |WalkAll(p, t, ns)| == ItemsAmong(t, ns)
    decreases t, 0, |ns|
  {
    if ns != [] {
      WalkAllParts(p, t, ns);
      WalkTotals(p + [ns[0]], t.children[ns[0]]);
      WalkAllTotals(p, t, ns[1..]);
    }
  }

  lemma {:induction false} SplitFit(es: seq<Entry>, fs: seq<Entry>)
    ensures AllFit(es + fs) <==> AllFit(es) && AllFit(fs)
  {
    if AllFit(es + fs) {
      forall k | 0 <= k < |es| ensures EntryFits(es[k]) { assert (es + fs)[k] == es[k]; }
      forall k | 0 <= k < |fs| ensures EntryFits(fs[k]) { assert (es + fs)[|es| + k] == fs[k]; }
    }
  }

  /** Produces the stream and its summary.  A failed walk is never closed, so what it leaves behind
      has no end mark. */
  method WriteArchive(t: Tree, calm: bool) returns (stream: Stream, r: Result<Summary>)
    ensures r.Ok? ==> WithinLimits(t) && stream == StreamOf(t) && r.value == SummaryOf(t)
    ensures r.Err? ==> stream != StreamOf(t) && !(stream.ended && stream.trailer == TRAILER)
    ensures calm ==> (r.Ok? <==> WithinLimits(t))
  {
    var writer := new ArchiveWriter();
    var ok := writer.WriteNode(t, [], calm);
    if !ok {
      return Stream(writer.out, false, ""), Err;
    }
    var fault: bool := *;
    if fault && !calm {
      return Stream(writer.out, true, ""), Err;
    }
    stream := Stream(writer.out, true, TRAILER);
    r := Ok(Summary(Digest(stream), KindOf(Head(t)), writer.size, writer.items, ModeOf(Head(t))));
  }

  // ---------------------------------------------------------------- describe

  /** Kind, logical size, item count and mode of a stored copy, as the catalog records them.
      A walk that meets a special file fails. */
  method Describe(t: Tree, calm: bool) returns (r: Result<(Kind, nat, nat, nat)>)
    ensures r.Ok? ==> NoSpecial(t)
    ensures calm ==> (r.Ok? <==> NoSpecial(t))
    ensures r.Ok? ==> r.value == (KindOf(Head(t)), TotalWeight(Walk([], t)), |Walk([], t)|, ModeOf(Head(t)))
  {
    var unread: bool := *;
    if t.SpecialFile? || (unread && !calm) {
      assert t.SpecialFile? ==> Walk([], t)[0].obj.Special?;
      return Err;
    }
    var walk := Walk([], t);
    var size, items := Weight(walk[0].obj), 1;
    assert walk[..1] == [walk[0]] && [walk[0]][..0] == [];
    while items < |walk|
      invariant 1 <= items <= |walk|
      invariant size == TotalWeight(walk[..items])
      invariant forall k | 0 <= k < items :: !walk[k].obj.Special?
    {
      var fault: bool := *;
      if walk[items].obj.Special? || (fault && !calm) {
        return Err;
      }
      assert walk[..items + 1][..items] == walk[..items];
      size := size + Weight(walk[items].obj);
      items := items + 1;
    }
    assert walk[..items] == walk;
    return Ok((KindOf(Head(t)), size, items, ModeOf(Head(t))));
  }

  predicate NoSpecial(t: Tree) {
    forall k | 0 <= k < |Walk([], t)| :: !Walk([], t)[k].obj.Special?
  }
}
