/** File trees, and the order in which a directory walk visits them. */
module FileTree {
  import opened Common
  import opened Disk

  /** One rooted object.  A directory is a finite map from names to trees. */
  datatype Tree =
    | Regular(content: seq<byte>, mode: nat)
    | Directory(mode: nat, children: map<Name, Tree>)
    | Symlink(target: string, mode: nat)
    | SpecialFile

  function Head(t: Tree): Obj {
    match t
    case Regular(content, mode) => File(content, mode)
    case Directory(mode, _) => Dir(mode)
    case Symlink(target, mode) => Link(target, mode)
    case SpecialFile => Special
  }

  /** What the tree holds at a path below its root. */
  function Lookup(t: Tree, q: Path): Option<Obj>
    decreases |q|
  {
    if q == [] then Some(Head(t))
    else if t.Directory? && q[0] in t.children then Lookup(t.children[q[0]], q[1..])
    else None
  }

  /** Trees that show the same objects at the same paths are the same tree. */
  lemma {:induction false} SameLookups(t: Tree, u: Tree)
    requires forall q :: Lookup(t, q) == Lookup(u, q)
    ensures t == u
    decreases t
  {
    assert Lookup(t, []) == Lookup(u, []);
    if t.Directory? {
      forall n
        ensures n in t.children <==> n in u.children
        ensures n in t.children && n in u.children ==> t.children[n] == u.children[n]
      {
        assert Lookup(t, [n]) == Lookup(u, [n]);
        if n in t.children && n in u.children {
          forall q ensures Lookup(t.children[n], q) == Lookup(u.children[n], q) {
            assert ([n] + q)[1..] == q;
            assert Lookup(t, [n] + q) == Lookup(u, [n] + q);
          }
          SameLookups(t.children[n], u.children[n]);
        }
      }
      assert t.children == u.children;
    }
  }

  // ---------------------------------------------------------------- name order

  /** Byte order, as sort.Slice compares directory entries. */
  predicate Less(a: Name, b: Name) {
    b != [] && (a == [] || a[0] < b[0] || (a[0] == b[0] && Less(a[1..], b[1..])))
  }

  /** At the first place where two names differ the smaller byte decides; a beginning comes first. */
  predicate DiffersAt(a: Name, b: Name, i: nat) {
    i <= |a| && i < |b| && a[..i] == b[..i] && (i == |a| || (a[i] as int) < b[i] as int)
  }

  lemma {:induction false} LessExact(a: Name, b: Name)
    ensures Less(a, b) <==> exists i: nat :: DiffersAt(a, b, i)
  {
    if a == [] || b == [] || a[0] != b[0] {
      if Less(a, b) {
        assert DiffersAt(a, b, 0);
      }
      if exists i: nat :: DiffersAt(a, b, i) {
        var i: nat :| DiffersAt(a, b, i);
        if i > 0 {
          HeadsAgree(a, b, i);
        }
      }
    } else {
      LessExact(a[1..], b[1..]);
      if Less(a, b) {
        var i: nat :| DiffersAt(a[1..], b[1..], i);
        assert a[..i + 1] == [a[0]] + a[1..][..i] && b[..i + 1] == [b[0]] + b[1..][..i];
        assert DiffersAt(a, b, i + 1);
      }
      if exists i: nat :: DiffersAt(a, b, i) {
        var i: nat :| DiffersAt(a, b, i);
        assert i > 0;
        assert a[1..][..i - 1] == a[..i][1..] && b[1..][..i - 1] == b[..i][1..];
        assert DiffersAt(a[1..], b[1..], i - 1);
      }
    }
  }

  lemma HeadsAgree(a: Name, b: Name, i: nat)
    requires DiffersAt(a, b, i) && i > 0
    ensures a != [] && b != [] && a[0] == b[0]
  {
    assert a[..i][0] == b[..i][0];
  }

  lemma {:induction false} LessTotal(a: Name, b: Name)
    ensures a == b || Less(a, b) || Less(b, a)
    ensures !(Less(a, b) && Less(b, a))
    ensures !Less(a, a)
  {
    if a != [] {
      LessTotal(a[1..], a[1..]);
    }
    if a != [] && b != [] && a[0] == b[0] {
      LessTotal(a[1..], b[1..]);
      assert a == [a[0]] + a[1..] && b == [b[0]] + b[1..];
    }
  }

  lemma {:induction false} LessTransitive(a: Name, b: Name, c: Name)
    requires Less(a, b) && Less(b, c)
    ensures Less(a, c)
  {
    if a != [] && a[0] == b[0] && b[0] == c[0] {
      LessTransitive(a[1..], b[1..], c[1..]);
    }
  }

  predicate IsFirst(n: Name, names: set<Name>) {
    n in names && forall m | m in names :: m == n || Less(n, m)
  }

  lemma {:induction false} FirstExists(names: set<Name>)
    requires names != {}
    ensures exists n :: IsFirst(n, names)
  {
    var m :| m in names;
    var rest := names - {m};
    if rest == {} {
      assert names == {m};
      assert IsFirst(m, names);
    } else {
      FirstExists(rest);
      var n :| IsFirst(n, rest);
      LessTotal(m, n);
      if Less(m, n) {
        forall k | k in names ensures k == m || Less(m, k) {
          if k != m && k != n {
            LessTransitive(m, n, k);
          }
        }
        assert IsFirst(m, names);
      } else {
        assert IsFirst(n, names);
      }
    }
  }

  /** The names of a directory in the order the walk takes them. */
  function Listing(names: set<Name>): (ns: seq<Name>)
    ensures forall n :: n in ns <==> n in names
  {
    if names == {} then []
    else
      FirstExists(names);
      assert forall n, m | IsFirst(n, names) && IsFirst(m, names) :: n == m by {
        forall n, m | IsFirst(n, names) && IsFirst(m, names) ensures n == m {
          LessTotal(n, m);
        }
      }
      var n :| IsFirst(n, names);
      [n] + Listing(names - {n})
  }

  lemma {:induction false} ListingSorted(names: set<Name>, i: nat, j: nat)
    requires i < j < |Listing(names)|
    ensures Less(Listing(names)[i], Listing(names)[j])
  {
    var n := Listing(names)[0];
    if i == 0 {
      assert Listing(names)[j] in names;
    } else {
      ListingSorted(names - {n}, i - 1, j - 1);
    }
  }

  predicate Distinct(ns: seq<Name>) {
    forall i, j | 0 <= i < j < |ns| :: ns[i] != ns[j]
  }

  lemma {:induction false} ListingDistinct(names: set<Name>)
    ensures Distinct(Listing(names))
  {
    var ns := Listing(names);
    forall i, j | 0 <= i < j < |ns| ensures ns[i] != ns[j] {
      ListingSorted(names, i, j);
      LessTotal(ns[i], ns[j]);
    }
  }

  // ---------------------------------------------------------------- the walk

  datatype Entry = Entry(path: Path, obj: Obj)

  function Walk(p: Path, t: Tree): seq<Entry>
    decreases t
  {
    [Entry(p, Head(t))] + if t.Directory? then WalkAll(p, t, Listing(t.children.Keys)) else []
  }

  function WalkAll(p: Path, t: Tree, ns: seq<Name>): seq<Entry>
    requires t.Directory? && forall n | n in ns :: n in t.children
    decreases t, 0, |ns|
  {
    if ns == [] then [] else Walk(p + [ns[0]], t.children[ns[0]]) + WalkAll(p, t, ns[1..])
  }

  /** File contents and link targets, added up over the tree itself. */
  function TreeBytes(t: Tree): nat
    decreases t
  {
    match t
    case Regular(content, _) => |content|
    case Symlink(target, _) => |target|
    case Directory(_, children) => BytesAmong(t, Listing(children.Keys))
    case SpecialFile => 0
  }

  function BytesAmong(t: Tree, ns: seq<Name>): nat
    requires t.Directory? && forall n | n in ns :: n in t.children
    decreases t, 0, |ns|
  {
    if ns == [] then 0 else TreeBytes(t.children[ns[0]]) + BytesAmong(t, ns[1..])
  }

  /** Every object of the tree is one item. */
  function TreeItems(t: Tree): nat
    decreases t
  {
    if t.Directory? then 1 + ItemsAmong(t, Listing(t.children.Keys)) else 1
  }

  function ItemsAmong(t: Tree, ns: seq<Name>): nat
    requires t.Directory? && forall n | n in ns :: n in t.children
    decreases t, 0, |ns|
  {
    if ns == [] then 0 else TreeItems(t.children[ns[0]]) + ItemsAmong(t, ns[1..])
  }

  /** Every visited entry is what the tree holds at that path. */
  lemma {:induction false} WalkSound(p: Path, t: Tree, k: nat)
    requires k < |Walk(p, t)|
    ensures p <= Walk(p, t)[k].path
    ensures Lookup(t, Walk(p, t)[k].path[|p|..]) == Some(Walk(p, t)[k].obj)
    ensures k > 0 ==> |p| < |Walk(p, t)[k].path|
    decreases t
  {
    if k > 0 {
      WalkAllSound(p, t, Listing(t.children.Keys), k - 1);
    }
  }

  lemma {:induction false} WalkAllSound(p: Path, t: Tree, ns: seq<Name>, k: nat)
    requires t.Directory? && forall n | n in ns :: n in t.children
    requires k < |WalkAll(p, t, ns)|
    ensures var e := WalkAll(p, t, ns)[k];
            p <= e.path && |p| < |e.path| && e.path[|p|] in ns && Lookup(t, e.path[|p|..]) == Some(e.obj)
    decreases t, 0, |ns|
  {
    var first := Walk(p + [ns[0]], t.children[ns[0]]);
    var e := WalkAll(p, t, ns)[k];
    if k < |first| {
      WalkSound(p + [ns[0]], t.children[ns[0]], k);
      assert (p + [ns[0]])[|p|] == e.path[|p|] == ns[0];
      assert e.path[|p|..][1..] == e.path[|p + [ns[0]]|..];
      assert p == e.path[..|p|];
    } else {
      WalkAllSound(p, t, ns[1..], k - |first|);
    }
  }

  /** Every object of the tree is visited. */
  lemma {:induction false} WalkComplete(p: Path, t: Tree, q: Path) returns (k: nat)
    requires Lookup(t, q).Some?
    ensures k < |Walk(p, t)| && Walk(p, t)[k] == Entry(p + q, Lookup(t, q).value)
    decreases t
  {
    if q == [] {
      k := 0;
      assert p + q == p;
    } else {
      k := WalkAllComplete(p, t, Listing(t.children.Keys), q);
      k := k + 1;
    }
  }

  lemma {:induction false} WalkAllComplete(p: Path, t: Tree, ns: seq<Name>, q: Path) returns (k: nat)
    requires t.Directory? && forall n | n in ns :: n in t.children
    requires q != [] && q[0] in ns && Lookup(t, q).Some?
    ensures k < |WalkAll(p, t, ns)| && WalkAll(p, t, ns)[k] == Entry(p + q, Lookup(t, q).value)
    decreases t, 0, |ns|
  {
    var first := Walk(p + [ns[0]], t.children[ns[0]]);
    if q[0] == ns[0] {
      k := WalkComplete(p + [ns[0]], t.children[ns[0]], q[1..]);
      assert p + [ns[0]] + q[1..] == p + q;
    } else {
      k := WalkAllComplete(p, t, ns[1..], q);
      k := k + |first|;
    }
  }

  /** No path is visited twice. */
  lemma {:induction false} WalkDistinct(p: Path, t: Tree, i: nat, j: nat)
    requires i < j < |Walk(p, t)|
    ensures Walk(p, t)[i].path != Walk(p, t)[j].path
    decreases t
  {
    var walk := Walk(p, t);
    if i == 0 {
      WalkSound(p, t, j);
      assert walk[0].path == p;
    } else {
      var ns := Listing(t.children.Keys);
      ListingDistinct(t.children.Keys);
      WalkAllDistinct(p, t, ns, i - 1, j - 1);
      assert walk[1..] == WalkAll(p, t, ns);
    }
  }

  lemma {:induction false} WalkAllDistinct(p: Path, t: Tree, ns: seq<Name>, i: nat, j: nat)
    requires t.Directory? && forall n | n in ns :: n in t.children
    requires Distinct(ns)
    requires i < j < |WalkAll(p, t, ns)|
    ensures WalkAll(p, t, ns)[i].path != WalkAll(p, t, ns)[j].path
    decreases t, 0, |ns|
  {
    var first := Walk(p + [ns[0]], t.children[ns[0]]);
    if j < |first| {
      WalkDistinct(p + [ns[0]], t.children[ns[0]], i, j);
    } else if i >= |first| {
      WalkAllDistinct(p, t, ns[1..], i - |first|, j - |first|);
    } else {
      WalkSound(p + [ns[0]], t.children[ns[0]], i);
      assert (p + [ns[0]])[|p|] == first[i].path[|p|] == ns[0];
      WalkAllSound(p, t, ns[1..], j - |first|);
    }
  }

  /** A directory is visited before anything in it. */
  lemma {:induction false} WalkParentFirst(p: Path, t: Tree, k: nat) returns (j: nat)
    requires 0 < k < |Walk(p, t)|
    ensures j < k && Walk(p, t)[j].path == Parent(Walk(p, t)[k].path) && Walk(p, t)[j].obj.Dir?
    decreases t
  {
    j := WalkAllParentFirst(p, t, Listing(t.children.Keys), k - 1);
  }

  lemma {:induction false} WalkAllParentFirst(p: Path, t: Tree, ns: seq<Name>, k: nat) returns (j: nat)
    requires t.Directory? && forall n | n in ns :: n in t.children
    requires k < |WalkAll(p, t, ns)|
    ensures j <= k
    ensures var all := [Entry(p, Head(t))] + WalkAll(p, t, ns);
            all[j].path == Parent(all[k + 1].path) && all[j].obj.Dir?
    decreases t, 0, |ns|
  {
    var first := Walk(p + [ns[0]], t.children[ns[0]]);
    if k == 0 {
      j := 0;
    } else if k < |first| {
      j := WalkParentFirst(p + [ns[0]], t.children[ns[0]], k);
      j := j + 1;
    } else {
      j := WalkAllParentFirst(p, t, ns[1..], k - |first|);
      if j > 0 {
        j := j + |first|;
      }
    }
  }

  /** A walk determines the tree, so its hash does too. */
  lemma {:induction false} WalkInjective(t: Tree, u: Tree)
    requires Walk([], t) == Walk([], u)
    ensures t == u
  {
    forall q ensures Lookup(t, q) == Lookup(u, q) {
      if Lookup(t, q).Some? {
        var k := WalkComplete([], t, q);
        WalkSound([], u, k);
      } else if Lookup(u, q).Some? {
        var k := WalkComplete([], u, q);
        WalkSound([], t, k);
      }
    }
    SameLookups(t, u);
  }
}
