/**
 The part of a POSIX file system the gate relies on, with faults.

 Every primitive may fail for no visible reason; each such failure is counted in
 `faults`, so a contract can say "this operation fails only if the operating
 system did". After every primitive the new tree is shown to an observer, which
 records in `intact` whether it has been satisfied so far.
 */
module FileSystems {
  import opened Basics
  import opened Text
  import opened PosixPath

  /** Permission bits. */
  type Mode = bv12

  const PRIVATE_DIR: Mode := 0x1C0    // 0o700
  const PRIVATE_FILE: Mode := 0x180   // 0o600

  predicate OwnerWritable(mode: Mode) {
    mode & 0x80 != 0
  }

  /** The nine permissions of a mode, as `ls` shows them: read, write and execute for owner, group and others. */
  function Rwx(mode: Mode): seq<bool> {
    [ mode & 0x100 != 0, mode & 0x80 != 0, mode & 0x40 != 0,
      mode & 0x20 != 0, mode & 0x10 != 0, mode & 0x8 != 0,
      mode & 0x4 != 0, mode & 0x2 != 0, mode & 0x1 != 0 ]
  }

  /** Neither set-user-ID nor set-group-ID nor sticky. */
  predicate NoSpecialBits(mode: Mode) {
    mode & 0xE00 == 0
  }

  const MAX_COMPONENT := 255

  datatype Node = Dir(mode: Mode) | File(mode: Mode, data: Bytes)

  type Tree = map<Path, Node>

  // ----- Trees as values -----

  /** The root is a directory and every other entry lies in a directory. */
  ghost predicate Rooted(m: Tree) {
    && [] in m && m[[]].Dir?
    && forall p {:trigger Parent(p)} :: p in m && p != [] ==> Parent(p) in m && m[Parent(p)].Dir?
  }

  ghost predicate Absent(m: Tree, root: Path) {
    forall p :: p in m ==> !(root <= p)
  }

  /** Everything that is not `root` or inside it. */
  function Outside(m: Tree, root: Path): Tree {
    map p | p in m && !(root <= p) :: m[p]
  }

  /** The tree below `root`, by relative path. */
  function Sub(m: Tree, root: Path): (t: Tree)
    ensures forall k :: k in t <==> root + k in m
    ensures forall k :: k in t ==> t[k] == m[root + k]
  {
    var keys := set p | p in m && root <= p :: p[|root|..];
    assert forall p :: p in m && root <= p ==> root + p[|root|..] == p;
    assert forall k {:trigger k in keys} {:trigger root + k} :: root + k in m ==> (root + k)[|root|..] == k;
    map k | k in keys :: m[root + k]
  }

  lemma SubOutside(m: Tree, root: Path, p: Path)
    requires root <= p
    ensures p in m <==> p[|root|..] in Sub(m, root)
    ensures p in m ==> Sub(m, root)[p[|root|..]] == m[p]
  {
    assert root + p[|root|..] == p;
  }

  /** A tree is what lies outside a directory together with what lies inside. */
  lemma SplitAt(m: Tree, n: Tree, root: Path)
    requires Outside(m, root) == Outside(n, root)
    requires Sub(m, root) == Sub(n, root)
    ensures m == n
  {
    forall p
      ensures p in m <==> p in n
      ensures p in m ==> m[p] == n[p]
    {
      if root <= p {
        SubOutside(m, root, p);
        SubOutside(n, root, p);
      } else {
        assert p in m <==> p in Outside(m, root);
        assert p in n <==> p in Outside(n, root);
      }
    }
  }

  /** Storing an entry inside `root` leaves the outside alone. */
  lemma UpdateInside(m: Tree, p: Path, v: Node, root: Path)
    requires root <= p
    ensures Outside(m[p := v], root) == Outside(m, root)
    ensures Sub(m[p := v], root) == Sub(m, root)[p[|root|..] := v]
  {
    hide Sub;
    var k := p[|root|..];
    assert root + k == p;
    forall j
      ensures root + j == p <==> j == k
    {
      assert (root + j)[|root|..] == j;
    }
    assert Sub(m[p := v], root) == Sub(m, root)[k := v];
  }

  /** Facts about a smaller directory carry over to a larger one. */
  lemma OutsideNested(m: Tree, n: Tree, inner: Path, outer: Path)
    requires outer <= inner && Outside(m, inner) == Outside(n, inner)
    ensures Outside(m, outer) == Outside(n, outer)
  {
    forall p
      ensures p in Outside(m, outer) <==> p in Outside(n, outer)
      ensures p in Outside(m, outer) ==> Outside(m, outer)[p] == Outside(n, outer)[p]
    {
      assert p in Outside(m, inner) <==> p in Outside(n, inner);
    }
  }

  lemma OutsideTwice(m: Tree, inner: Path, outer: Path)
    requires outer <= inner
    ensures Outside(Outside(m, inner), outer) == Outside(m, outer)
  {
    assert forall p :: p in m && inner <= p ==> outer <= p;
  }

  /** Two trees that agree outside `root` agree in every directory disjoint from it. */
  lemma OutsideAgrees(m: Tree, n: Tree, root: Path, p: Path)
    requires Outside(m, root) == Outside(n, root) && !(root <= p)
    ensures p in m <==> p in n
    ensures p in m ==> m[p] == n[p]
  {
    assert p in m <==> p in Outside(m, root);
    assert p in n <==> p in Outside(n, root);
  }

  /** Two prefixes of one path are comparable. */
  lemma PrefixesComparable(a: Path, b: Path, p: Path)
    requires a <= p && b <= p
    ensures a <= b || b <= a
  {
    assert p[..|a|] == a && p[..|b|] == b;
  }

  lemma DisjointSub(m: Tree, n: Tree, root: Path, other: Path)
    requires Outside(m, root) == Outside(n, root)
    requires !(root <= other) && !(other <= root)
    ensures Sub(m, other) == Sub(n, other)
  {
    forall k
      ensures k in Sub(m, other) <==> k in Sub(n, other)
      ensures k in Sub(m, other) ==> Sub(m, other)[k] == Sub(n, other)[k]
    {
      if root <= other + k {
        PrefixesComparable(root, other, other + k);
      }
      OutsideAgrees(m, n, root, other + k);
    }
  }

  /** Every ancestor of an entry is a directory. */
  lemma {:induction false} AncestorsAreDirs(m: Tree, p: Path, n: nat)
    requires Rooted(m) && p in m && n < |p|
    ensures p[..n] in m && m[p[..n]].Dir?
    decreases |p|
  {
    assert Parent(p)[..n] == p[..n];
    if n < |p| - 1 {
      AncestorsAreDirs(m, Parent(p), n);
    }
  }

  /** If an entry is absent, so is everything below it. */
  lemma AbsentBelow(m: Tree, root: Path)
    requires Rooted(m) && root !in m
    ensures Absent(m, root)
    ensures Outside(m, root) == m
    ensures Sub(m, root) == map[]
  {
    forall p | p in m
      ensures !(root <= p)
    {
      assert root <= p ==> p[..|root|] == root;
      assert p[..|p|] == p;
      if |root| < |p| {
        AncestorsAreDirs(m, p, |root|);
      }
    }
  }

  /** What is left after some entries are gone. */
  ghost predicate Submap(m: Tree, n: Tree) {
    forall p :: p in m ==> p in n && m[p] == n[p]
  }

  /** What is left of a tree: some of its entries, with other modes perhaps but nothing else in them. */
  ghost predicate Remains(t: Tree, u: Tree) {
    forall k {:trigger k in u} :: k in u ==>
      k in t && (u[k].Dir? <==> t[k].Dir?) && (u[k].File? ==> u[k].data == t[k].data)
  }

  lemma SubmapRemains(m: Tree, n: Tree, root: Path)
    requires Submap(n, m)
    ensures Remains(Sub(m, root), Sub(n, root))
  {
  }

  lemma RemainsBelow(t: Tree, u: Tree, root: Path)
    requires Remains(t, u)
    ensures Remains(Sub(t, root), Sub(u, root))
  {
  }

  lemma RemainsTransitive(t: Tree, u: Tree, v: Tree)
    requires Remains(t, u) && Remains(u, v)
    ensures Remains(t, v)
  {
  }

  // ----- Mutable state -----

  /** What `mkdir` and `open(O_CREAT|O_EXCL)` need: a new, legal name in a writable directory. */
  predicate CanCreate(m: Tree, p: Path) {
    && p != [] && p !in m
    && Parent(p) in m && m[Parent(p)].Dir? && OwnerWritable(m[Parent(p)].mode)
    && Normal(Last(p)) && ByteLen(Last(p)) <= MAX_COMPONENT
  }

  predicate IsLeaf(m: Tree, p: Path) {
    p in m && forall q :: q in m ==> !(p < q)
  }

  /** Every directory from the parent of `p` downwards lets its owner remove entries. */
  ghost predicate Removable(m: Tree, p: Path) {
    p != [] && (forall d :: d in m && m[d].Dir? && (d == Parent(p) || p <= d) ==> OwnerWritable(m[d].mode))
  }

  datatype Presence = Present | Missing | Unknown

  /** What a crash cannot take away: the contents of a file, or the place of a name in its directory. */
  datatype Flush = Durable(path: Path, data: Bytes) | Reachable(path: Path)

  /** What `fsync` forces out: the contents of a file, or the names in a directory. */
  ghost function FlushOf(m: Tree, p: Path): set<Flush> {
    if p in m && m[p].File? then {Durable(p, m[p].data)}
    else set q | q in m && q != [] && Parent(q) == p :: Reachable(q)
  }

  function Renamed(e: Flush, p: Path): Flush {
    match e
    case Durable(_, data) => Durable(p, data)
    case Reachable(_) => Reachable(p)
  }

  /** What has been forced out stays so when something above it gets another name; that name itself is not. */
  ghost function Rebased(flushed: set<Flush>, a: Path, b: Path): set<Flush> {
    set e | e in flushed && a <= e.path && (e.Durable? || a < e.path) :: Renamed(e, b + e.path[|a|..])
  }

  /** Every file of a tree at `root` has been forced out with its contents. */
  ghost predicate Saved(t: Tree, root: Path, flushed: set<Flush>) {
    forall k {:trigger k in t} :: k in t && t[k].File? ==> Durable(root + k, t[k].data) in flushed
  }

  /** So has every name below `root`. */
  ghost predicate Linked(t: Tree, root: Path, flushed: set<Flush>) {
    forall k {:trigger k in t} :: k in t && k != [] ==> Reachable(root + k) in flushed
  }

  lemma SavedLater(t: Tree, root: Path, flushed: set<Flush>, more: set<Flush>)
    requires flushed <= more
    ensures Saved(t, root, flushed) ==> Saved(t, root, more)
    ensures Linked(t, root, flushed) ==> Linked(t, root, more)
  {
  }

  lemma FlushMoved(e: Flush, k: Path, a: Path, b: Path, flushed: set<Flush>)
    requires e in flushed && e.path == a + k && (e.Durable? || k != [])
    ensures Renamed(e, b + k) in Rebased(flushed, a, b)
  {
    assert (a + k)[|a|..] == k;
  }

  /** A tree that has been forced out can be renamed. */
  lemma SavedMoved(t: Tree, a: Path, b: Path, flushed: set<Flush>)
    ensures Saved(t, a, flushed) ==> Saved(t, b, flushed + Rebased(flushed, a, b))
    ensures Linked(t, a, flushed) ==> Linked(t, b, flushed + Rebased(flushed, a, b))
  {
    hide Rebased;
    forall k | k in t && t[k].File? && Durable(a + k, t[k].data) in flushed
      ensures Durable(b + k, t[k].data) in Rebased(flushed, a, b)
    {
      FlushMoved(Durable(a + k, t[k].data), k, a, b, flushed);
    }
    forall k | k in t && k != [] && Reachable(a + k) in flushed
      ensures Reachable(b + k) in Rebased(flushed, a, b)
    {
      FlushMoved(Reachable(a + k), k, a, b, flushed);
    }
  }

  /**
   What has been forced out so far. Nothing the gate writes is written twice under
   one name, so this speaks of what is there as long as the name stays.
   */
  class Disk {
    ghost var flushed: set<Flush>

    constructor ()
      ensures flushed == {}
    {
      flushed := {};
    }
  }

  class FileSystem {
    const disk: Disk
    var m: Tree
    var faults: nat
    var intact: bool
    /** The path the observer cares about, and what it accepts. */
    const watch: Path
    const calm: Tree -> bool

    ghost predicate Valid()
      reads this`m
    {
      Rooted(m) && forall t: Tree {:trigger calm(t)} :: Absent(t, watch) ==> calm(t)
    }

    constructor (m: Tree, watch: Path, calm: Tree -> bool)
      requires Rooted(m) && calm(m)
      requires forall t: Tree {:trigger calm(t)} :: Absent(t, watch) ==> calm(t)
      ensures Valid() && this.m == m && faults == 0 && intact
      ensures this.watch == watch && this.calm == calm && fresh(disk) && disk.flushed == {}
    {
      this.m, faults, intact := m, 0, true;
      disk := new Disk();
      this.watch, this.calm := watch, calm;
    }

    /** An operating-system failure that leaves the tree alone. */
    method Fault()
      modifies this`faults
      ensures faults == old(faults) + 1
    {
      faults := faults + 1;
    }

    /** Store `v` at `p` and let the observer look. */
    method Put(p: Path, v: Node)
      requires Valid()
      requires p != [] ==> Parent(p) in m && m[Parent(p)].Dir?
      requires v.File? ==> IsLeaf(m[p := v], p) && p != []
      modifies this`m, this`intact
      ensures Valid() && m == old(m)[p := v]
      ensures intact == (old(intact) && calm(m))
    {
      forall q | q in m[p := v] && q != []
        ensures Parent(q) in m[p := v] && m[p := v][Parent(q)].Dir?
      {
        assert p == Parent(q) ==> p < q;
      }
      m := m[p := v];
      intact := intact && calm(m);
    }

    method Mkdir(p: Path, mode: Mode) returns (ok: bool)
      requires Valid()
      modifies this
      ensures Valid() && faults >= old(faults)
      ensures ok ==> CanCreate(old(m), p) && m == old(m)[p := Dir(mode)] && faults == old(faults)
      ensures ok ==> intact == (old(intact) && calm(m))
      ensures !ok ==> m == old(m) && intact == old(intact) && (faults > old(faults) || !CanCreate(old(m), p))
    {
      if * {
        Fault();
        return false;
      }
      if !CanCreate(m, p) {
        return false;
      }
      Put(p, Dir(mode));
      ok := true;
    }

    method CreateExclusive(p: Path, mode: Mode) returns (ok: bool)
      requires Valid()
      modifies this
      ensures Valid() && faults >= old(faults)
      ensures ok ==> CanCreate(old(m), p) && m == old(m)[p := File(mode, [])] && faults == old(faults)
      ensures ok ==> intact == (old(intact) && calm(m))
      ensures !ok ==> m == old(m) && intact == old(intact) && (faults > old(faults) || !CanCreate(old(m), p))
    {
      if * {
        Fault();
        return false;
      }
      if !CanCreate(m, p) {
        return false;
      }
      AbsentBelow(m, p);
      Put(p, File(mode, []));
      ok := true;
    }

    /** What an open, writable file holds once it has been written. */
    method SetData(p: Path, data: Bytes)
      requires Valid() && p in m && m[p].File?
      modifies this`m, this`intact
      ensures Valid() && m == old(m)[p := File(old(m)[p].mode, data)]
      ensures intact == (old(intact) && calm(m))
    {
      FileIsLeaf(m, p);
      Put(p, File(m[p].mode, data));
    }

    method Chmod(p: Path, mode: Mode) returns (ok: bool)
      requires Valid()
      modifies this
      ensures Valid() && faults >= old(faults)
      ensures ok ==> p in old(m) && m == old(m)[p := old(m)[p].(mode := mode)] && faults == old(faults)
      ensures ok ==> intact == (old(intact) && calm(m))
      ensures !ok ==> m == old(m) && intact == old(intact) && (faults > old(faults) || p !in old(m))
    {
      if * {
        Fault();
        return false;
      }
      if p !in m {
        return false;
      }
      if m[p].File? {
        FileIsLeaf(m, p);
      }
      Put(p, m[p].(mode := mode));
      ok := true;
    }

    method Lstat(p: Path) returns (r: Presence)
      requires Valid()
      modifies this`faults
      ensures faults >= old(faults)
      ensures r == Unknown <==> faults > old(faults)
      ensures r == Present ==> p in m
      ensures r == Missing ==> p !in m
    {
      if * {
        Fault();
        return Unknown;
      }
      r := if p in m then Present else Missing;
    }

    method ReadFile(p: Path) returns (r: Option<Bytes>)
      requires Valid()
      modifies this`faults
      ensures faults >= old(faults)
      ensures r.Some? ==> p in m && m[p].File? && r.value == m[p].data && faults == old(faults)
      ensures r.None? ==> faults > old(faults) || p !in m || !m[p].File?
    {
      if * {
        Fault();
        return None;
      }
      if p in m && m[p].File? {
        return Some(m[p].data);
      }
      r := None;
    }

    /** Closing a file, or reading a directory. */
    method Close() returns (ok: bool)
      modifies this`faults
      ensures faults >= old(faults) && (ok <==> faults == old(faults))
    {
      if * {
        Fault();
        return false;
      }
      ok := true;
    }

    /** `fsync` of an open file or directory. */
    method Sync(p: Path) returns (ok: bool)
      modifies this`faults, disk
      ensures faults >= old(faults) && (ok <==> faults == old(faults))
      ensures disk.flushed == if ok then old(disk.flushed) + FlushOf(m, p) else old(disk.flushed)
    {
      if * {
        Fault();
        return false;
      }
      disk.flushed := disk.flushed + FlushOf(m, p);
      ok := true;
    }

    /** `os.Remove`: a file or an empty directory. */
    method Remove(p: Path) returns (ok: bool)
      requires Valid()
      modifies this
      ensures Valid() && faults >= old(faults)
      ensures ok ==> p in old(m) && m == Outside(old(m), p) && faults == old(faults)
      ensures ok ==> m.Keys == old(m).Keys - {p} && intact == (old(intact) && calm(m))
      ensures !ok ==> m == old(m) && intact == old(intact)
      ensures !ok ==> faults > old(faults) || !IsLeaf(m, p) || p == [] || !OwnerWritable(m[Parent(p)].mode)
    {
      if * {
        Fault();
        return false;
      }
      if !IsLeaf(m, p) || p == [] || !OwnerWritable(m[Parent(p)].mode) {
        return false;
      }
      RemoveLeaf(m, p);
      m := Outside(m, p);
      intact := intact && calm(m);
      ok := true;
    }

    /** One `unlink` of some entry at or below `p` that has nothing below it. */
    method RemoveSome(p: Path) returns (ok: bool)
      requires Valid() && p != [] && p in m
      modifies this
      ensures Valid() && faults >= old(faults)
      ensures Outside(m, p) == Outside(old(m), p) && Submap(m, old(m))
      ensures ok ==> |m| < |old(m)| && intact == (old(intact) && calm(m)) && faults == old(faults)
      ensures !ok ==> m == old(m) && intact == old(intact) && (faults > old(faults) || !Removable(m, p))
    {
      LeafBelow(m, p);
      var leaf :| leaf in m.Keys && p <= leaf && IsLeaf(m, leaf);
      ok := Remove(leaf);
      if ok {
        OutsideTwice(old(m), leaf, p);
        assert m.Keys + {leaf} == old(m).Keys;
      } else if faults == old(faults) && Removable(m, p) {
        ParentWritable(m, p, leaf);
        assert false;
      }
    }

    /**
     `os.RemoveAll`: unlinks the tree leaf by leaf, in an order this model does not
     fix, and stops at the first failure.
     */
    method RemoveAll(p: Path) returns (ok: bool)
      requires Valid() && p != []
      modifies this
      ensures Valid() && faults >= old(faults)
      ensures Outside(m, p) == Outside(old(m), p) && Submap(m, old(m))
      ensures ok ==> m == Outside(old(m), p) && faults == old(faults)
      ensures !ok ==> faults > old(faults) || !Removable(old(m), p)
      ensures Absent(old(m), watch) ==> intact == old(intact)
      ensures intact ==> old(intact)
    {
      while p in m
        invariant Valid() && faults == old(faults)
        invariant Outside(m, p) == Outside(old(m), p) && Submap(m, old(m))
        invariant Absent(old(m), watch) ==> intact == old(intact)
        invariant intact ==> old(intact)
        decreases |m|
      {
        var removed := RemoveSome(p);
        if !removed {
          return false;
        }
      }
      AbsentBelow(m, p);
      ok := true;
    }

    /** `os.MkdirAll`: creates `p` and whatever directories above it are missing. */
    method MkdirAll(p: Path, mode: Mode) returns (ok: bool)
      requires Valid() && OwnerWritable(mode)
      modifies this
      ensures Valid() && faults >= old(faults)
      ensures DirsAdded(old(m), m, p, mode)
      ensures ok ==> p in m && m[p].Dir? && faults == old(faults)
      ensures !ok ==> faults > old(faults) || !CanMakeAll(old(m), p)
      ensures Absent(old(m), watch) && !(watch <= p) ==> intact == old(intact)
      decreases |p|
    {
      if p in m {
        return m[p].Dir?;
      }
      if p == [] {
        return false;
      }
      var above := MkdirAll(Parent(p), mode);
      if !above {
        return false;
      }
      ghost var before := m;
      ok := Mkdir(p, mode);
      if Absent(old(m), watch) && !(watch <= p) {
        WatchStaysAbsent(old(m), before, Parent(p), mode, watch);
        WatchStaysAbsent(old(m), m, p, mode, watch);
      }
    }

    /** `os.Rename` of a directory to a new name beside it. */
    method Rename(a: Path, b: Path) returns (ok: bool)
      requires Valid() && a != [] && b != [] && a != b && Parent(a) == Parent(b)
      modifies this, disk
      ensures Valid() && faults >= old(faults)
      ensures ok ==> a in old(m) && b !in old(m) && faults == old(faults)
      ensures ok ==> m == Moved(old(m), a, b) && intact == (old(intact) && calm(m))
      ensures disk.flushed == if ok then old(disk.flushed) + Rebased(old(disk.flushed), a, b) else old(disk.flushed)
      ensures !ok ==> m == old(m) && intact == old(intact)
      ensures !ok ==>
        || faults > old(faults) || a !in m || b in m || !OwnerWritable(m[Parent(a)].mode) || !Normal(Last(b))
        || ByteLen(Last(b)) > MAX_COMPONENT
    {
      if * {
        Fault();
        return false;
      }
      if a !in m || b in m || !OwnerWritable(m[Parent(a)].mode) || !Normal(Last(b)) ||
        ByteLen(Last(b)) > MAX_COMPONENT {
        return false;
      }
      MovedRooted(m, a, b);
      m := Moved(m, a, b);
      disk.flushed := disk.flushed + Rebased(disk.flushed, a, b);
      intact := intact && calm(m);
      ok := true;
    }
  }

  /** `b` is `a` with some of the directories on the way to `p` created. */
  ghost predicate DirsAdded(a: Tree, b: Tree, p: Path, mode: Mode) {
    && (forall q :: q in a ==> q in b && b[q] == a[q])
    && (forall q :: q in b ==> q in a || (q <= p && b[q] == Dir(mode)))
  }

  /** What `MkdirAll` needs of the tree. */
  ghost predicate CanMakeAll(m: Tree, p: Path)
    decreases |p|
  {
    if p in m then m[p].Dir?
    else
      && p != [] && Normal(Last(p)) && ByteLen(Last(p)) <= MAX_COMPONENT
      && CanMakeAll(m, Parent(p))
      && (Parent(p) in m ==> OwnerWritable(m[Parent(p)].mode))
  }

  lemma WatchStaysAbsent(a: Tree, b: Tree, p: Path, mode: Mode, watch: Path)
    requires DirsAdded(a, b, p, mode) && Absent(a, watch) && !(watch <= p)
    ensures Absent(b, watch)
  {
    forall q | q in b
      ensures !(watch <= q)
    {
      assert watch <= q && q <= p ==> watch <= p;
    }
  }

  /** The tree after the directory `a` has been renamed to `b`. */
  function Moved(m: Tree, a: Path, b: Path): (r: Tree)
    requires b !in m
  {
    var landed := set k | k in Sub(m, a) :: b + k;
    map p | p in Outside(m, a).Keys + landed ::
      if b <= p && p[|b|..] in Sub(m, a) then Sub(m, a)[p[|b|..]] else m[p]
  }

  /** Where each entry of a moved tree comes from. */
  lemma MovedAt(m: Tree, a: Path, b: Path, p: Path)
    requires Rooted(m) && b !in m
    ensures b <= p ==> (p in Moved(m, a, b) <==> a + p[|b|..] in m)
    ensures b <= p && p in Moved(m, a, b) ==> Moved(m, a, b)[p] == m[a + p[|b|..]]
    ensures !(b <= p) ==> (p in Moved(m, a, b) <==> p in m && !(a <= p))
    ensures !(b <= p) && p in Moved(m, a, b) ==> Moved(m, a, b)[p] == m[p]
  {
    AbsentBelow(m, b);
    var inside := Sub(m, a);
    var landed := set k | k in inside :: b + k;
    if b <= p {
      var k := p[|b|..];
      assert b + k == p;
      assert p in landed <==> k in inside by {
        if p in landed {
          var j :| j in inside && b + j == p;
          assert (b + j)[|b|..] == j;
        }
      }
      assert p !in m;
    } else {
      assert forall j :: j in inside ==> b <= b + j;
    }
  }

  lemma MovedInside(m: Tree, a: Path, b: Path)
    requires Rooted(m) && b !in m
    ensures Sub(Moved(m, a, b), b) == Sub(m, a)
  {
    forall k
      ensures b + k in Moved(m, a, b) <==> a + k in m
      ensures b + k in Moved(m, a, b) ==> Moved(m, a, b)[b + k] == m[a + k]
    {
      MovedAt(m, a, b, b + k);
      assert (b + k)[|b|..] == k;
    }
  }

  lemma MovedOutside(m: Tree, a: Path, b: Path)
    requires Rooted(m) && b !in m
    ensures Outside(Moved(m, a, b), b) == Outside(m, a)
  {
    hide Moved, Sub, Rooted;
    AbsentBelow(m, b);
    forall p | !(b <= p)
      ensures p in Moved(m, a, b) <==> p in m && !(a <= p)
      ensures p in Moved(m, a, b) ==> Moved(m, a, b)[p] == m[p]
    {
      MovedAt(m, a, b, p);
    }
  }

  lemma MovedAway(m: Tree, a: Path, b: Path)
    requires Rooted(m) && b !in m && !(a <= b) && !(b <= a)
    ensures Absent(Moved(m, a, b), a)
  {
    forall p | p in Moved(m, a, b)
      ensures !(a <= p)
    {
      MovedAt(m, a, b, p);
      if a <= p && b <= p {
        PrefixesComparable(a, b, p);
      }
    }
  }

  lemma MovedRooted(m: Tree, a: Path, b: Path)
    requires Rooted(m) && b !in m && a in m
    requires a != [] && b != [] && a != b && Parent(a) == Parent(b)
    ensures Rooted(Moved(m, a, b))
  {
    var r := Moved(m, a, b);
    MovedAt(m, a, b, []);
    forall p | p in r && p != []
      ensures Parent(p) in r && r[Parent(p)].Dir?
    {
      MovedParent(m, a, b, p);
    }
  }

  lemma MovedParent(m: Tree, a: Path, b: Path, p: Path)
    requires Rooted(m) && b !in m && a in m
    requires a != [] && b != [] && a != b && Parent(a) == Parent(b)
    requires p in Moved(m, a, b) && p != []
    ensures Parent(p) in Moved(m, a, b) && Moved(m, a, b)[Parent(p)].Dir?
  {
    MovedAt(m, a, b, p);
    MovedAt(m, a, b, Parent(p));
    if p == b {
      assert Parent(b) in m && m[Parent(b)].Dir?;
      assert |Parent(b)| < |a|;
    } else if b <= p {
      var k := p[|b|..];
      assert b <= Parent(p) && Parent(p)[|b|..] == Parent(k);
      assert Parent(a + k) == a + Parent(k);
    } else {
      assert a <= Parent(p) ==> a <= p;
      assert b <= Parent(p) ==> b <= p;
    }
  }

  lemma ParentWritable(m: Tree, p: Path, q: Path)
    requires Rooted(m) && q in m && p <= q && Removable(m, p)
    ensures q != [] && OwnerWritable(m[Parent(q)].mode)
  {
    assert p < q ==> p <= Parent(q);
    assert p == q || p < q;
  }

  lemma FileIsLeaf(m: Tree, p: Path)
    requires Rooted(m) && p in m && m[p].File?
    ensures IsLeaf(m, p)
  {
    forall q | q in m
      ensures !(p < q)
    {
      assert p < q ==> q[..|p|] == p;
      if |p| < |q| {
        AncestorsAreDirs(m, q, |p|);
      }
    }
  }

  lemma RemoveLeaf(m: Tree, p: Path)
    requires Rooted(m) && IsLeaf(m, p) && p != []
    ensures Outside(m, p).Keys == m.Keys - {p}
    ensures Rooted(Outside(m, p))
  {
    forall q | q in m && p <= q
      ensures q == p
    {
      assert !(p < q);
    }
    forall q | q in Outside(m, p) && q != []
      ensures Parent(q) in Outside(m, p)
    {
      assert p <= Parent(q) ==> p < q;
    }
  }

  /** Some entry at or below `p` has nothing below it. */
  lemma {:induction false} LeafBelow(m: Tree, p: Path)
    requires p in m
    ensures exists q :: q in m.Keys && p <= q && IsLeaf(m, q)
    decreases Below(m, p)
  {
    if q :| q in m && p < q {
      assert forall r :: q < r ==> q == r[..|q|];
      assert p == q[..|p|];
      assert forall r :: r in Below(m, q) ==> r in Below(m, p);
      assert q in Below(m, p) && q !in Below(m, q);
      LeafBelow(m, q);
      var leaf :| leaf in m.Keys && q <= leaf && IsLeaf(m, leaf);
      assert q == leaf[..|q|];
    }
  }

  ghost function Below(m: Tree, p: Path): set<Path> {
    set q | q in m && p < q
  }
}
