/** A small file system: what programs see now, and what a power loss may leave behind.

    A name is given by its path from the volume root.  Nothing becomes durable by itself:
    syncing a file settles its bytes, and syncing a directory settles the names in it. */
module Disk {
  import opened Common

  type Name = string
  type Path = seq<Name>

  datatype Obj =
    | File(content: seq<byte>, mode: nat)
    | Dir(mode: nat)
    | Link(target: string, mode: nat)
    | Special

  /** One name.  `now` is the object bound to it.  `settled` holds every state of that object the
      medium may still carry.  `stale` holds what the name may show instead, because an earlier
      binding of the name was never overwritten on the medium. */
  datatype Slot = Slot(now: Option<Obj>, settled: set<Obj>, stale: set<Option<Obj>>)

  type Image = map<Path, Slot>

  function At(i: Image, p: Path): Slot {
    if p in i then i[p] else Slot(None, {}, {})
  }

  function Now(i: Image, p: Path): Option<Obj> {
    At(i, p).now
  }

  predicate IsDir(i: Image, p: Path) {
    p == [] || (Now(i, p).Some? && Now(i, p).value.Dir?)
  }

  function Parent(p: Path): Path {
    if p == [] then [] else p[..|p| - 1]
  }

  predicate IsChild(d: Path, p: Path) {
    p != [] && Parent(p) == d
  }

  /** Everything the name may show after a power loss. */
  function After(i: Image, p: Path): set<Option<Obj>> {
    At(i, p).stale + Bound(At(i, p))
  }

  function Bound(s: Slot): set<Option<Obj>> {
    if s.now.None? then {None} else set o | o in s.settled :: Some(o)
  }

  /** The name shows this object now and after any power loss that keeps its ancestors. */
  predicate Durable(i: Image, p: Path, o: Obj) {
    At(i, p).now == Some(o) && At(i, p).settled == {o} && At(i, p).stale <= {Some(o)}
  }

  /** Whatever a power loss leaves at the name is a directory. */
  predicate KeptDir(i: Image, p: Path) {
    p == [] || (IsDir(i, p) && forall v | v in After(i, p) :: v.Some? && v.value.Dir?)
  }

  predicate SameKind(a: Obj, b: Obj) {
    && (a.File? <==> b.File?) && (a.Dir? <==> b.Dir?) && (a.Link? <==> b.Link?)
  }

  /** A name that exists stands in a directory; its object never changed kind, and some state of it is on
      the medium. */
  predicate Ordered(i: Image) {
    && (forall p {:trigger Parent(p)} | p in i && i[p].now.Some? && p != [] :: IsDir(i, Parent(p)))
    && (forall p | p in i && i[p].now.Some? ::
          i[p].settled != {} && forall o | o in i[p].settled :: SameKind(o, i[p].now.value))
  }

  /** Looking into an image; only then the meaning of Lawful is used. */
  predicate Opened(i: Image, look: bool) {
    true
  }

  ghost predicate Lawful(i: Image) {
    forall look {:trigger Opened(i, look)} :: Opened(i, look) ==> Ordered(i)
  }

  // ---------------------------------------------------------------- steps of the medium

  function Put(i: Image, p: Path, o: Obj): Image {
    i[p := Slot(Some(o), {o}, After(i, p))]
  }

  function Change(i: Image, p: Path, o: Obj): Image {
    i[p := Slot(Some(o), At(i, p).settled + {o}, At(i, p).stale)]
  }

  function Settle(s: Slot): Slot {
    if s.now.Some? then s.(settled := {s.now.value}) else s
  }

  function SyncedFile(i: Image, p: Path): Image {
    i[p := Settle(At(i, p))]
  }

  /** Syncing a directory settles its own mode and the names directly in it. */
  function SyncedDir(i: Image, d: Path): Image {
    map p | p in i ::
      if p == d then Settle(i[p]) else if IsChild(d, p) then i[p].(stale := {}) else i[p]
  }

  function Erased(i: Image, top: Path): Image {
    map p | p in i :: if top <= p && i[p].now.Some? then Slot(None, {}, After(i, p)) else i[p]
  }

  function Moved(i: Image, from: Path, to: Path): Image
    requires from != to
  {
    i[to := Slot(Now(i, from), At(i, from).settled, After(i, to))]
     [from := Slot(None, {}, After(i, from))]
  }

  lemma PutLawful(i: Image, p: Path, o: Obj)
    requires Lawful(i) && p != [] && Now(i, p).None? && IsDir(i, Parent(p))
    ensures Lawful(Put(i, p, o))
  {
    assert Opened(i, true);
    var j := Put(i, p, o);
    forall q {:trigger Parent(q)} | q in j && j[q].now.Some? && q != [] ensures IsDir(j, Parent(q)) {
      if q != p {
        assert IsDir(i, Parent(q));
      }
    }
  }

  lemma ChangeLawful(i: Image, p: Path, o: Obj)
    requires Lawful(i) && Now(i, p).Some? && SameKind(o, Now(i, p).value)
    ensures Lawful(Change(i, p, o))
  {
    assert Opened(i, true);
    var j := Change(i, p, o);
    forall q {:trigger Parent(q)} | q in j && j[q].now.Some? && q != [] ensures IsDir(j, Parent(q)) {
      assert IsDir(i, Parent(q));
    }
  }

  /** Slots may be settled and cleared of stale states, as long as they show what they did. */
  lemma SettledLawful(i: Image, j: Image)
    requires Lawful(i) && forall p :: Now(j, p) == Now(i, p)
    requires forall p | p in j && Now(j, p).Some? :: At(j, p).settled == At(i, p).settled || At(j, p).settled == {Now(i, p).value}
    ensures Lawful(j)
  {
    assert Opened(i, true);
    forall q {:trigger Parent(q)} | q in j && j[q].now.Some? && q != [] ensures IsDir(j, Parent(q)) {
      assert Now(i, q) == Now(j, q) && IsDir(i, Parent(q));
      assert Now(i, Parent(q)) == Now(j, Parent(q));
    }
    forall q | q in j && j[q].now.Some?
      ensures j[q].settled != {} && forall o | o in j[q].settled :: SameKind(o, j[q].now.value)
    {
      assert Now(i, q) == Now(j, q) && q in i;
    }
  }

  /** The names a removal may leave: none without the directory it is in. */
  predicate ParentsStay(i: Image, top: Path, kept: set<Path>) {
    forall p {:trigger Parent(p)} | p in kept && p in i && i[p].now.Some? && top < p :: Parent(p) in kept
  }

  lemma AllStay(i: Image, top: Path)
    requires Lawful(i)
    ensures ParentsStay(i, top, i.Keys + {[]})
  {
    assert Opened(i, true);
  }

  function Partly(i: Image, top: Path, kept: set<Path>): Image {
    var all := Erased(i, top);
    map p | p in i :: if p in kept then i[p] else all[p]
  }

  lemma PartlyLawful(i: Image, top: Path, kept: set<Path>)
    requires Lawful(i) && ParentsStay(i, top, kept)
    ensures Lawful(Partly(i, top, kept)) && Lawful(Erased(i, top))
  {
    assert Opened(i, true);
    var j, k := Partly(i, top, kept), Erased(i, top);
    forall q {:trigger Parent(q)} | q in j && j[q].now.Some? && q != [] ensures IsDir(j, Parent(q)) {
      assert IsDir(i, Parent(q));
      if top <= Parent(q) {
        assert top < q;
      }
    }
    forall q {:trigger Parent(q)} | q in k && k[q].now.Some? && q != [] ensures IsDir(k, Parent(q)) {
      assert IsDir(i, Parent(q)) && !(top <= q);
    }
  }

  lemma MovedLawful(i: Image, from: Path, to: Path)
    requires Lawful(i) && from != to && from != [] && to != [] && Now(i, from).Some? && Now(i, from).value.File?
    requires IsDir(i, Parent(to)) && !IsDir(i, to)
    ensures Lawful(Moved(i, from, to))
  {
    assert Opened(i, true);
    var j := Moved(i, from, to);
    forall q {:trigger Parent(q)} | q in j && j[q].now.Some? && q != [] ensures IsDir(j, Parent(q)) {
      assert IsDir(i, Parent(q));
      assert Parent(q) != from && Parent(q) != to;
    }
  }

  /** A mounted volume.  Every operation may fail unless the caller is promised a `calm` medium;
      `log` records the image after each operation, so "at every step" can be said. */
  class Volume {
    var img: Image
    const linkMode: nat
    ghost var log: seq<Image>

    constructor (linkMode: nat)
      ensures img == map[] && this.linkMode == linkMode && log == [] && Valid()
    {
      img := map[];
      this.linkMode := linkMode;
      log := [];
    }

    ghost predicate Valid()
      reads this
    {
      Lawful(img)
    }

    /** The mode left by a creation depends on the process umask, so it is not promised. */
    method Mkdir(p: Path, calm: bool) returns (ok: bool, mode: nat)
      requires Valid()
      modifies this
      ensures Valid()
      ensures log == old(log) + [img]
      ensures ok ==> p != [] && Now(old(img), p).None? && IsDir(old(img), Parent(p))
      ensures ok ==> img == Put(old(img), p, Dir(mode))
      ensures !ok ==> img == old(img)
      ensures calm && p != [] && Now(old(img), p).None? && IsDir(old(img), Parent(p)) ==> ok
    {
      mode := *;
      var fault: bool := *;
      ok := p != [] && Now(img, p).None? && IsDir(img, Parent(p)) && (calm || !fault);
      if ok {
        PutLawful(img, p, Dir(mode));
        img := Put(img, p, Dir(mode));
      }
      log := log + [img];
    }

    /** Exclusive creation of an empty file. */
    method CreateFile(p: Path, calm: bool) returns (ok: bool, mode: nat)
      requires Valid()
      modifies this
      ensures Valid()
      ensures log == old(log) + [img]
      ensures ok ==> p != [] && Now(old(img), p).None? && IsDir(old(img), Parent(p))
      ensures ok ==> img == Put(old(img), p, File([], mode))
      ensures !ok ==> img == old(img)
      ensures calm && p != [] && Now(old(img), p).None? && IsDir(old(img), Parent(p)) ==> ok
    {
      mode := *;
      var fault: bool := *;
      ok := p != [] && Now(img, p).None? && IsDir(img, Parent(p)) && (calm || !fault);
      if ok {
        PutLawful(img, p, File([], mode));
        img := Put(img, p, File([], mode));
      }
      log := log + [img];
    }

    method CreateLink(p: Path, target: string, calm: bool) returns (ok: bool)
      requires Valid()
      modifies this
      ensures Valid()
      ensures log == old(log) + [img]
      ensures ok ==> p != [] && Now(old(img), p).None? && IsDir(old(img), Parent(p))
      ensures ok ==> img == Put(old(img), p, Link(target, linkMode))
      ensures !ok ==> img == old(img)
      ensures calm && p != [] && Now(old(img), p).None? && IsDir(old(img), Parent(p)) ==> ok
    {
      var fault: bool := *;
      ok := p != [] && Now(img, p).None? && IsDir(img, Parent(p)) && (calm || !fault);
      if ok {
        PutLawful(img, p, Link(target, linkMode));
        img := Put(img, p, Link(target, linkMode));
      }
      log := log + [img];
    }

    /** A failed write may leave any prefix of the data. */
    method Write(p: Path, data: seq<byte>, calm: bool) returns (ok: bool, done: nat)
      requires Valid()
      requires Now(img, p).Some? && Now(img, p).value.File?
      modifies this
      ensures Valid()
      ensures log == old(log) + [img]
      ensures done <= |data| && (ok ==> done == |data|)
      ensures img == Change(old(img), p, File(data[..done], Now(old(img), p).value.mode))
      ensures calm ==> ok
    {
      var fault: bool := *;
      ok := calm || !fault;
      done :| 0 <= done <= |data| && (ok ==> done == |data|);
      ChangeLawful(img, p, File(data[..done], Now(img, p).value.mode));
      img := Change(img, p, File(data[..done], Now(img, p).value.mode));
      log := log + [img];
    }

    method Chmod(p: Path, mode: nat, calm: bool) returns (ok: bool)
      requires Valid()
      requires Now(img, p).Some? && (Now(img, p).value.File? || Now(img, p).value.Dir?)
      modifies this
      ensures Valid()
      ensures log == old(log) + [img]
      ensures ok ==> img == Change(old(img), p, WithMode(Now(old(img), p).value, mode))
      ensures !ok ==> img == old(img)
      ensures calm ==> ok
    {
      var fault: bool := *;
      ok := calm || !fault;
      if ok {
        ChangeLawful(img, p, WithMode(Now(img, p).value, mode));
        img := Change(img, p, WithMode(Now(img, p).value, mode));
      }
      log := log + [img];
    }

    method SyncFile(p: Path, calm: bool) returns (ok: bool)
      requires Valid()
      modifies this
      ensures Valid()
      ensures log == old(log) + [img]
      ensures img == if ok then SyncedFile(old(img), p) else old(img)
      ensures calm ==> ok
    {
      var fault: bool := *;
      ok := calm || !fault;
      if ok {
        SettledLawful(img, SyncedFile(img, p));
        img := SyncedFile(img, p);
      }
      log := log + [img];
    }

    /** Opens the directory and syncs it. */
    method SyncDirectory(d: Path, calm: bool) returns (ok: bool)
      requires Valid()
      modifies this
      ensures Valid()
      ensures log == old(log) + [img]
      ensures ok ==> IsDir(old(img), d)
      ensures img == if ok then SyncedDir(old(img), d) else old(img)
      ensures calm && IsDir(old(img), d) ==> ok
    {
      var fault: bool := *;
      ok := IsDir(img, d) && (calm || !fault);
      if ok {
        SettledLawful(img, SyncedDir(img, d));
        img := SyncedDir(img, d);
      }
      log := log + [img];
    }

    /** Recursive removal; one that fails may already have removed some of the names, children first. */
    method RemoveAll(top: Path, calm: bool) returns (ok: bool)
      requires Valid()
      modifies this
      ensures Valid()
      ensures log == old(log) + [img]
      ensures ok ==> img == Erased(old(img), top)
      ensures forall q | !(top <= q) :: At(img, q) == At(old(img), q)
      ensures calm ==> ok
    {
      var fault: bool := *;
      var kept: set<Path> := *;
      if !ParentsStay(img, top, kept) {
        kept := img.Keys + {[]};
      }
      ok := calm || !fault;
      AllStay(img, top);
      PartlyLawful(img, top, kept);
      img := if ok then Erased(img, top) else Partly(img, top, kept);
      log := log + [img];
    }

    /** Atomic replacement of one name by another in the visible tree; a directory is not replaced. */
    method Rename(from: Path, to: Path, calm: bool) returns (ok: bool)
      requires Valid()
      requires from != to && from != [] && Now(img, from).Some? && Now(img, from).value.File?
      modifies this
      ensures Valid()
      ensures log == old(log) + [img]
      ensures ok ==> to != [] && IsDir(old(img), Parent(to)) && !IsDir(old(img), to) && img == Moved(old(img), from, to)
      ensures !ok ==> img == old(img)
      ensures calm && to != [] && IsDir(old(img), Parent(to)) && !IsDir(old(img), to) ==> ok
    {
      var fault: bool := *;
      ok := to != [] && IsDir(img, Parent(to)) && !IsDir(img, to) && (calm || !fault);
      if ok {
        MovedLawful(img, from, to);
        img := Moved(img, from, to);
      }
      log := log + [img];
    }
  }

  function WithMode(o: Obj, mode: nat): Obj
    requires o.File? || o.Dir?
  {
    if o.File? then File(o.content, mode) else Dir(mode)
  }
}
