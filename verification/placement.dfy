/** Where the outputs of a batch go, and why no two of them collide (internal/app/scan.go). */
module Placement {
  import opened Basics
  import opened Text
  import opened Sorting
  import opened PosixPath
  import opened Decimals
  import opened BoundedCopy
  import opened FileSystems
  import opened Confined
  import opened ZipNames
  import opened PathPlan
  import opened Preflights
  import opened Extraction
  import opened ExtractionFacts
  import opened StagingArea
  import opened Names
  import opened Records
  import opened Accounts

  // ----- Uploads -----

  /** Every output so far lies under the number of an earlier upload. */
  ghost predicate TopsBelow(files: seq<Record>, index: nat, total: nat) {
    forall i {:trigger files[i]} :: 0 <= i < |files| && IsOut(files[i]) ==>
      Out(files[i]) != [] && TopBelow(Out(files[i])[0], index, total)
  }

  ghost predicate TopBelow(top: string, index: nat, total: nat) {
    exists j: nat, name: string :: j < index && top == NumberedName(j, total, name)
  }

  /** What lies under a number is, as a string, that number followed by something. */
  lemma NumberedJoin(index: nat, total: nat, name: string, rest: Path) returns (longer: string)
    ensures Join([NumberedName(index, total, name)] + rest) == NumberedName(index, total, longer)
  {
    hide Pad, Itoa;
    var top := NumberedName(index, total, name);
    if rest == [] {
      longer := name;
      assert [top] + rest == [top];
    } else {
      longer := name + "/" + Join(rest);
      JoinCons(top, rest);
      hide Join;
      assert top + "/" + Join(rest) == NumberedName(index, total, longer);
    }
  }

  lemma NumberedPathOrder(i: nat, j: nat, total: nat, a: string, p: Path, b: string, q: Path)
    requires i < j < total
    ensures PathLess([NumberedName(i, total, a)] + p, [NumberedName(j, total, b)] + q)
  {
    hide Join, NumberedName, Less;
    var x := NumberedJoin(i, total, a, p);
    var y := NumberedJoin(j, total, b, q);
    NumberedOrder(i, j, total, x, y);
  }

  /** Whatever is put under the number of the next upload is fresh. */
  lemma FreshTop(files: seq<Record>, index: nat, total: nat, name: string, rest: Path)
    requires TopsBelow(files, index, total) && index < total
    ensures FreshOut(files, [NumberedName(index, total, name)] + rest)
  {
    hide NumberedName, PathLess;
    var p := [NumberedName(index, total, name)] + rest;
    forall i | 0 <= i < |files| && IsOut(files[i])
      ensures PathLess(Out(files[i]), p) && !(p <= Out(files[i])) && !(Out(files[i]) <= p)
    {
      var o := Out(files[i]);
      var j: nat, other: string :| j < index && o[0] == NumberedName(j, total, other);
      if o[0] == p[0] {
        NumberedInjective(j, index, total, other, name);
      }
      assert o == [NumberedName(j, total, other)] + o[1..];
      NumberedPathOrder(j, index, total, other, o[1..], name, rest);
    }
  }

  lemma TopsLater(files: seq<Record>, index: nat, total: nat)
    requires TopsBelow(files, index, total)
    ensures TopsBelow(files, index + 1, total)
  {
    forall i | 0 <= i < |files| && IsOut(files[i])
      ensures TopBelow(Out(files[i])[0], index + 1, total)
    {
      var j: nat, name: string :| j < index && Out(files[i])[0] == NumberedName(j, total, name);
      assert j < index + 1;
    }
  }

  /** Every new output lies under one name, the first of them, if it is one, at that name itself. */
  ghost predicate Under(files: seq<Record>, n: nat, top: string, action: Action) {
    && (forall i {:trigger files[i]} :: n <= i < |files| && IsOut(files[i]) ==> [top] <= Out(files[i]))
    && (n < |files| && IsOut(files[n]) ==> Out(files[n]) == [top] && files[n].action == action)
  }

  /** What an upload is called behind its number. */
  function Title(lib: Library, action: Action, source: string): string {
    var name := OutputName(lib, source, MAX_NAME);
    if action.Expanded? then ArchiveDirectory(lib, name) else name
  }

  /** An approved upload is published under its number and its name. */
  predicate Titled(lib: Library, r: Record, index: nat, total: nat) {
    r.origin.Upload? && IsOut(r) ==> Out(r) == [NumberedName(index, total, Title(lib, r.action, r.source))]
  }

  ghost predicate AllTitled(lib: Library, files: seq<Record>, total: nat) {
    forall i {:trigger files[i]} :: 0 <= i < |files| ==> Titled(lib, files[i], CountUploads(files[..i]), total)
  }

  /** The next upload and its members. */
  lemma TitledMore(lib: Library, files: seq<Record>, more: seq<Record>, total: nat)
    requires AllTitled(lib, files, total) && files < more && Titled(lib, more[|files|], CountUploads(files), total)
    requires forall i :: |files| < i < |more| ==> more[i].origin.FromArchive?
    ensures AllTitled(lib, more, total)
  {
    hide Title, NumberedName, CountUploads;
    assert more[..|files|] == files;
    forall i | 0 <= i < |more|
      ensures Titled(lib, more[i], CountUploads(more[..i]), total)
    {
      if i < |files| {
        assert more[i] == files[i] && more[..i] == files[..i];
      }
    }
  }

  lemma TopsGrow(files: seq<Record>, more: seq<Record>, index: nat, total: nat, name: string, action: Action)
    requires TopsBelow(files, index, total) && files <= more
    requires Under(more, |files|, NumberedName(index, total, name), action)
    ensures TopsBelow(more, index + 1, total)
  {
    TopsLater(files, index, total);
    forall i | 0 <= i < |more| && IsOut(more[i])
      ensures Out(more[i]) != [] && TopBelow(Out(more[i])[0], index + 1, total)
    {
      if i < |files| {
        assert more[i] == files[i];
      } else {
        assert index < index + 1;
      }
    }
  }

  /** The output of an upload can be created, and its name is not refused. */
  lemma TopAccepted(index: nat, total: nat, name: string)
    requires AllKept(name) && index < total < Pow10(5) && ByteLen(name) <= MAX_NAME
    ensures var top := NumberedName(index, total, name);
      ApprovedPath(top) == Some([top]) && Creatable([top]) && SafeComponent(top)
  {
    var top := NumberedName(index, total, name);
    NumberedSafe(index, total, name);
    NumberedLength(index, total, name);
    SafePathsApproved([top]);
  }

  // ----- Members -----

  /** The outputs of one archive: its directory, and members that have been dealt with. */
  ghost predicate InDirectory(files: seq<Record>, n: nat, top: string, done: set<Path>) {
    forall i {:trigger files[i]} :: n <= i < |files| && IsOut(files[i]) ==>
      (files[i].action.Expanded? && Out(files[i]) == [top]) || (exists q :: q in done && Out(files[i]) == [top] + q)
  }

  lemma InDirectorySnoc(files: seq<Record>, n: nat, top: string, done: set<Path>, r: Record, extra: set<Path>)
    requires InDirectory(files, n, top, done) && n <= |files|
    requires IsOut(r) ==> exists p :: p in extra && Out(r) == [top] + p
    ensures InDirectory(files + [r], n, top, done + extra)
  {
    var more := files + [r];
    forall i | n <= i < |more| && IsOut(more[i])
      ensures
        || (more[i].action.Expanded? && Out(more[i]) == [top])
        || (exists q :: q in done + extra && Out(more[i]) == [top] + q)
    {
      if i < |files| {
        assert more[i] == files[i];
        if !(files[i].action.Expanded? && Out(files[i]) == [top]) {
          var q :| q in done && Out(files[i]) == [top] + q;
          assert q in done + extra;
        }
      } else {
        var p :| p in extra && Out(r) == [top] + p;
        assert p in done + extra;
      }
    }
  }

  lemma InDirectoryUnder(files: seq<Record>, n: nat, top: string, done: set<Path>)
    requires InDirectory(files, n, top, done)
    requires n < |files| && IsOut(files[n]) ==> Out(files[n]) == [top] && files[n].action.Expanded?
    ensures Under(files, n, top, Expanded)
  {
  }

  /** The next path comes after this one, and neither is inside the other. */
  predicate Behind(q: Path, p: Path) {
    q != [] && PathLess(q, p) && !(p <= q) && !(q <= p)
  }

  /** A path behind all those dealt with is fresh in the directory of its archive. */
  lemma FreshMember(
    files: seq<Record>, front: seq<Record>, index: nat, total: nat, name: string, done: set<Path>, p: Path
  )
    requires TopsBelow(front, index, total) && front <= files && index < total
    requires InDirectory(files, |front|, NumberedName(index, total, name), done)
    requires p != [] && forall q :: q in done ==> Behind(q, p)
    ensures FreshOut(files, [NumberedName(index, total, name)] + p)
  {
    hide NumberedName, PathLess;
    var top := NumberedName(index, total, name);
    FreshTop(front, index, total, name, p);
    AncestorsFirst([top], [top] + p);
    forall i | 0 <= i < |files| && IsOut(files[i])
      ensures PathLess(Out(files[i]), [top] + p)
      ensures !([top] + p <= Out(files[i])) && (files[i].action.Copied? ==> !(Out(files[i]) <= [top] + p))
    {
      if i < |front| {
        assert files[i] == front[i];
      } else if !(files[i].action.Expanded? && Out(files[i]) == [top]) {
        var q :| q in done && Out(files[i]) == [top] + q;
        InsideOrder(top, q, p);
        assert ([top] + q)[1..] == q && ([top] + p)[1..] == p;
        assert [top] + p <= [top] + q ==> p <= q;
        assert [top] + q <= [top] + p ==> q <= p;
      }
    }
  }

  /** `path.Join(directory, relative)` */
  function OutputPath(directory: string, relative: string): string {
    Clean(directory + "/" + relative)
  }

  /** It names the member's path inside the directory, and is not refused. */
  lemma OutputPathAccepted(directory: string, p: Path)
    requires SafeComponent(directory) && p != [] && AllSafe(p)
    ensures OutputPath(directory, Join(p)) == Join([directory] + p)
    ensures ApprovedPath(OutputPath(directory, Join(p))) == Some([directory] + p)
  {
    var all := [directory] + p;
    JoinConcat([directory], p);
    SafeNoSlash(all);
    SplitJoin(all);
    SafePathsApproved(all);
    assert all[0] == directory && NoSlash(directory);
    assert Join(all) == directory + "/" + Join(p);
    assert Join(all)[0] == directory[0];
    CleanFixpoint(Join(all));
  }

  // ----- The members of an archive -----

  /** A member as the scan sees it: to be looked at, or already rejected. */
  datatype Item = Item(path: Path, rejected: Option<RejectedEntry>)

  predicate ItemAtMost(a: Item, b: Item) {
    PathAtMost(a.path, b.path)
  }

  function Items(paths: seq<Path>, rejected: seq<RejectedEntry>): seq<Item> {
    Map(p => Item(p, None), paths) + Map((q: RejectedEntry) => Item(q.path, Some(q)), rejected)
  }

  /** What an item will be recorded as. */
  function ItemContent(lib: Library, t: Tree, sources: map<Path, Path>, x: Item): Content {
    match x.rejected
    case None =>
      var data := if x.path in t && t[x.path].File? then t[x.path].data else [];
      Content(if x.path in sources then sources[x.path] else x.path, |data|, lib.sha(data))
    case Some(q) => Content(q.source, q.size, q.sha)
  }

  function ItemContents(lib: Library, t: Tree, sources: map<Path, Path>, items: seq<Item>): seq<Content> {
    Map(x => ItemContent(lib, t, sources, x), items)
  }

  lemma ItemsAre(paths: seq<Path>, rejected: seq<RejectedEntry>)
    ensures |Items(paths, rejected)| == |paths| + |rejected|
    ensures forall x :: x in Items(paths, rejected) ==>
      (x.rejected.None? ==> x.path in paths) &&
      (x.rejected.Some? ==> x.rejected.value in rejected && x.path == x.rejected.value.path)
  {
    var items := Items(paths, rejected);
    forall i | 0 <= i < |items|
      ensures items[i].rejected.None? ==> items[i].path in paths
      ensures items[i].rejected.Some? ==>
        items[i].rejected.value in rejected && items[i].path == items[i].rejected.value.path
    {
      if i < |paths| {
        assert items[i] == Item(paths[i], None);
      } else {
        assert items[i] == Item(rejected[i - |paths|].path, Some(rejected[i - |paths|]));
      }
    }
  }

  lemma {:induction false} RejectedAt(lib: Library, es: seq<Entry>, q: RejectedEntry) returns (j: nat)
    requires q in RejectedEntries(lib, es)
    ensures j < |es| && es[j].name == q.path
  {
    var front, e := es[..|es| - 1], es[|es| - 1];
    if q in RejectedEntries(lib, front) {
      j := RejectedAt(lib, front, q);
    } else {
      j := |es| - 1;
    }
  }

  lemma {:induction false} RejectedDistinct(lib: Library, es: seq<Entry>)
    requires forall i, j :: 0 <= i < j < |es| ==> es[i].name != es[j].name
    ensures forall i, j :: 0 <= i < j < |RejectedEntries(lib, es)| ==>
      RejectedEntries(lib, es)[i] != RejectedEntries(lib, es)[j]
  {
    if es != [] {
      var front, e := es[..|es| - 1], es[|es| - 1];
      RejectedDistinct(lib, front);
      var entries := RejectedEntries(lib, front);
      forall i | 0 <= i < |entries|
        ensures entries[i].path != e.name
      {
        assert entries[i] in entries;
        var j := RejectedAt(lib, front, entries[i]);
        assert es[j].name == entries[i].path;
      }
    }
  }

  lemma ItemsDistinct(paths: seq<Path>, rejected: seq<RejectedEntry>)
    requires forall i, j :: 0 <= i < j < |paths| ==> paths[i] != paths[j]
    requires forall i, j :: 0 <= i < j < |rejected| ==> rejected[i] != rejected[j]
    ensures forall i, j :: 0 <= i < j < |Items(paths, rejected)| ==>
      Items(paths, rejected)[i] != Items(paths, rejected)[j]
  {
    var items := Items(paths, rejected);
    forall i, j | 0 <= i < j < |items|
      ensures items[i] != items[j]
    {
      assert i < |paths| ==> items[i] == Item(paths[i], None);
      assert j < |paths| ==> items[j] == Item(paths[j], None);
      assert i >= |paths| ==> items[i].rejected == Some(rejected[i - |paths|]);
      assert j >= |paths| ==> items[j].rejected == Some(rejected[j - |paths|]);
    }
  }

  /** An extracted file as a member of its container. */
  ghost predicate MemberAs(lib: Library, f: Member, source: Path, data: Bytes, p: Path) {
    && f.kind.RegularEntry? && SourceOf(lib, f) == source && f.body.data == data && Nfc(lib, source) == p
  }

  ghost predicate ItemGood(lib: Library, z: Bytes, t: Tree, sources: map<Path, Path>, x: Item) {
    && lib.parse(z).Some?
    && match x.rejected
       case None =>
         && x.path != [] && AllSafe(x.path) && Creatable(x.path)
         && x.path in t && t[x.path].File? && x.path in sources
         && exists f :: f in lib.parse(z).value && MemberAs(lib, f, sources[x.path], t[x.path].data, x.path)
       case Some(q) =>
         exists f :: f in lib.parse(z).value && EntryAbout(lib, q, f)
  }

  /** No unpacked file is where another is, or below it, and they are in the order of their paths. */
  ghost predicate ItemPathsApart(items: seq<Item>) {
    forall i, j :: 0 <= i < j < |items| && IsUnpacked(items[i]) && IsUnpacked(items[j]) ==>
      Behind(items[i].path, items[j].path)
  }

  predicate IsUnpacked(x: Item) {
    x.rejected.None?
  }

  /** Everything the scan may rely on when it goes through the members of an archive. */
  ghost predicate Haul(lib: Library, z: Bytes, t: Tree, sources: map<Path, Path>, items: seq<Item>) {
    && lib.parse(z).Some?
    && multiset(ItemContents(lib, t, sources, items)) == multiset(ContentsOf(lib, lib.parse(z).value))
    && (forall x :: x in items ==> ItemGood(lib, z, t, sources, x))
    && ItemPathsApart(items)
  }

  lemma FileGood(lib: Library, z: Bytes, nodes: map<Path, NodeInfo>, r: Outcome, t: Tree, limits: Limits, p: Path)
    requires NfcKeepsSafe(lib) && lib.parse(z).Some? && r.Extracted? && p in r.files
    requires ExtractedAs(lib, lib.parse(z).value, nodes, r, t, limits)
    ensures ItemGood(lib, z, t, r.stats.sourcePaths, Item(p, None))
  {
    var files := lib.parse(z).value;
    OutputFile(lib, files, nodes, r, t, limits, p);
    NodeComponents(lib, files, nodes, limits, p);
    WrittenFile(lib, files, nodes, r, t, limits, p);
    hide ExtractedAs, NfcKeepsSafe, AllSafe, Creatable, SourceOf, Nfc;
    var f :| f in files && ComesFrom(lib, r.stats.sourcePaths[p], t[p].data, f);
    assert MemberAs(lib, f, r.stats.sourcePaths[p], t[p].data, p);
  }

  lemma EntryGood(
    lib: Library, z: Bytes, nodes: map<Path, NodeInfo>, r: Outcome, t: Tree, limits: Limits, q: RejectedEntry
  )
    requires lib.parse(z).Some? && r.Extracted? && q in r.stats.rejected
    requires ExtractedAs(lib, lib.parse(z).value, nodes, r, t, limits)
    ensures ItemGood(lib, z, t, r.stats.sourcePaths, Item(q.path, Some(q)))
  {
    var f := RejectedFrom(lib, lib.parse(z).value, q);
  }

  lemma HaulDistinct(lib: Library, z: Bytes, nodes: map<Path, NodeInfo>, r: Outcome, t: Tree, limits: Limits)
    requires NfcKeepsSafe(lib) && lib.parse(z).Some? && r.Extracted?
    requires ExtractedAs(lib, lib.parse(z).value, nodes, r, t, limits)
    ensures var items := Items(r.files, r.stats.rejected); forall i, j :: 0 <= i < j < |items| ==> items[i] != items[j]
    ensures CleanOutput(r.files)
  {
    var files := lib.parse(z).value;
    OutputClean(lib, files, nodes, r, t, limits);
    AcceptedIsExecutable(lib, files, nodes, limits);
    RejectedDistinct(lib, EntriesOf(lib, files));
    hide ExtractedAs, NfcKeepsSafe, AllSafe;
    forall i, j | 0 <= i < j < |r.files|
      ensures r.files[i] != r.files[j]
    {
      assert !(r.files[i] <= r.files[j]);
    }
    assert r.stats.rejected == RejectedEntries(lib, EntriesOf(lib, files)) by {
      RejectedAre(lib, files, nodes, r, t, limits);
    }
    ItemsDistinct(r.files, r.stats.rejected);
  }

  lemma RejectedAre(lib: Library, files: seq<Member>, nodes: map<Path, NodeInfo>, r: Outcome, t: Tree, limits: Limits)
    requires r.Extracted? && ExtractedAs(lib, files, nodes, r, t, limits)
    ensures r.stats.rejected == RejectedEntries(lib, EntriesOf(lib, files))
  {
  }

  lemma ItemsGood(lib: Library, z: Bytes, nodes: map<Path, NodeInfo>, r: Outcome, t: Tree, limits: Limits, x: Item)
    requires NfcKeepsSafe(lib) && lib.parse(z).Some? && r.Extracted?
    requires ExtractedAs(lib, lib.parse(z).value, nodes, r, t, limits)
    requires x in Items(r.files, r.stats.rejected)
    ensures ItemGood(lib, z, t, r.stats.sourcePaths, x)
  {
    ItemsAre(r.files, r.stats.rejected);
    hide ExtractedAs, NfcKeepsSafe, ItemGood, Items;
    if x.rejected.None? {
      FileGood(lib, z, nodes, r, t, limits, x.path);
      assert x == Item(x.path, None);
    } else {
      EntryGood(lib, z, nodes, r, t, limits, x.rejected.value);
      assert x == Item(x.rejected.value.path, Some(x.rejected.value));
    }
  }

  lemma ItemsApart(paths: seq<Path>, rejected: seq<RejectedEntry>, items: seq<Item>)
    requires CleanOutput(paths) && (forall x :: x in items ==> x in Items(paths, rejected))
    requires forall i, j :: 0 <= i < j < |items| ==> items[i] != items[j] && ItemAtMost(items[i], items[j])
    ensures ItemPathsApart(items)
  {
    ItemsAre(paths, rejected);
    hide Items, AllSafe, PathLess, PathAtMost;
    forall i, j | 0 <= i < j < |items| && items[i].rejected.None? && items[j].rejected.None?
      ensures Behind(items[i].path, items[j].path)
    {
      assert items[i] in items && items[j] in items;
      var a :| 0 <= a < |paths| && paths[a] == items[i].path;
      var b :| 0 <= b < |paths| && paths[b] == items[j].path;
      assert items[i] == Item(paths[a], None) && items[j] == Item(paths[b], None);
      assert a != b;
      SafeOrder(paths[a], paths[b]);
    }
  }

  lemma SafeOrder(p: Path, q: Path)
    requires p != [] && q != [] && AllSafe(p) && AllSafe(q) && p != q && PathAtMost(p, q)
    ensures PathLess(p, q)
  {
    LessTotal(Join(p), Join(q));
    SafeNoSlash(p);
    SafeNoSlash(q);
    if Join(p) == Join(q) {
      JoinInjective(p, q);
    }
  }

  lemma HaulCount(lib: Library, z: Bytes, nodes: map<Path, NodeInfo>, r: Outcome, t: Tree, limits: Limits)
    requires NfcKeepsSafe(lib) && lib.parse(z).Some? && r.Extracted?
    requires ExtractedAs(lib, lib.parse(z).value, nodes, r, t, limits)
    ensures |r.files| + |r.stats.rejected| == CountFiles(lib.parse(z).value)
  {
    ExtractionFaithful(lib, lib.parse(z).value, nodes, r, t, limits);
  }

  lemma SortedItems(unsorted: seq<Item>)
    requires forall i, j :: 0 <= i < j < |unsorted| ==> unsorted[i] != unsorted[j]
    ensures var items := Sort(ItemAtMost, unsorted);
      && |items| == |unsorted| && (forall x :: x in items ==> x in unsorted)
      && forall i, j :: 0 <= i < j < |items| ==> items[i] != items[j] && ItemAtMost(items[i], items[j])
  {
    SortElements(ItemAtMost, unsorted);
    SortDistinct(ItemAtMost, unsorted);
    ItemOrder();
    SortSorted(ItemAtMost, unsorted);
    hide ItemAtMost;
  }

  lemma ItemOrder()
    ensures TotalPreorder(ItemAtMost)
  {
    PathOrder();
    hide PathAtMost;
  }

  /** One more path, or one more rejection, is one more item. */
  lemma ItemsSnoc(paths: seq<Path>, rejected: seq<RejectedEntry>, p: Path, q: RejectedEntry)
    ensures multiset(Items(paths + [p], rejected)) == multiset(Items(paths, rejected) + [Item(p, None)])
    ensures multiset(Items(paths, rejected + [q])) == multiset(Items(paths, rejected) + [Item(q.path, Some(q))])
  {
    var one, other := r => Item(r, None), (r: RejectedEntry) => Item(r.path, Some(r));
    MapConcat(one, paths, [p]);
    MapConcat(other, rejected, [q]);
    assert Map(one, [p]) == [Item(p, None)] && Map(other, [q]) == [Item(q.path, Some(q))];
    ItemMoved(Map(one, paths), Item(p, None), Map(other, rejected));
    assert Items(paths, rejected) == Map(one, paths) + Map(other, rejected);
    hide Map;
    assert Map(one, paths) + (Map(other, rejected) + [Item(q.path, Some(q))]) ==
      Map(one, paths) + Map(other, rejected) + [Item(q.path, Some(q))];
  }

  lemma ItemMoved(front: seq<Item>, x: Item, back: seq<Item>)
    ensures multiset(front + [x] + back) == multiset(front + back + [x])
  {
  }

  /** Files lie where the entries say, with what the members hold. */
  ghost predicate EntriesHeld(t: Tree, sources: map<Path, Path>, es: seq<Entry>) {
    forall e :: e in es && IsWritten(e) ==>
      && e.name in t && t[e.name].File? && t[e.name].data == e.member.body.data
      && e.name in sources && sources[e.name] == e.source
  }

  lemma ItemContentsSnoc(lib: Library, t: Tree, sources: map<Path, Path>, a: seq<Item>, b: seq<Item>, x: Item)
    requires multiset(b) == multiset(a + [x])
    ensures multiset(ItemContents(lib, t, sources, b)) ==
            multiset(ItemContents(lib, t, sources, a)) + multiset{ItemContent(lib, t, sources, x)}
  {
    var f := y => ItemContent(lib, t, sources, y);
    MapRearranged(f, b, a + [x]);
    MapConcat(f, a, [x]);
    assert Map(f, [x]) == [ItemContent(lib, t, sources, x)];
  }

  /** Written or rejected, every file of an archive is among the items exactly once. */
  lemma {:induction false} ItemsExhaustive(lib: Library, members: seq<Member>, t: Tree, sources: map<Path, Path>)
    requires EntriesHeld(t, sources, EntriesOf(lib, members))
    ensures var es := EntriesOf(lib, members);
      multiset(ItemContents(lib, t, sources, Items(RegularNames(es), RejectedEntries(lib, es)))) ==
      multiset(ContentsOf(lib, members))
  {
    if members != [] {
      var front, f := members[..|members| - 1], members[|members| - 1];
      assert members == front + [f];
      EntriesSnoc(lib, front, f);
      var es, e := EntriesOf(lib, front), EntryOf(lib, f);
      assert forall d :: d in es + [e] <==> d in es || d == e;
      hide EntriesOf, EntryOf, ContentsOf, ItemContents, Items, RegularNames, RejectedEntries;
      ItemsExhaustive(lib, front, t, sources);
      ItemsExhaustiveStep(lib, front, f, t, sources);
    }
  }

  lemma ContentsSnoc(lib: Library, front: seq<Member>, f: Member)
    ensures ContentsOf(lib, front + [f]) == ContentsOf(lib, front) + if IsDir(f) then [] else [ContentOf(lib, f)]
  {
    hide SourceOf;
    assert (front + [f])[..|front|] == front;
    if IsDir(f) {
      assert FilesIn(front + [f]) == FilesIn(front);
    } else {
      MapConcat(g => ContentOf(lib, g), FilesIn(front), [f]);
      assert Map(g => ContentOf(lib, g), [f]) == [ContentOf(lib, f)];
    }
  }

  /** The item of an entry that is not a directory. */
  function ItemOf(lib: Library, e: Entry): Item {
    Item(e.name, if e.reject.None? then None else Some(RejectionOf(lib, e)))
  }

  function RejectionOf(lib: Library, e: Entry): RejectedEntry {
    RejectedEntry(e.source, e.name, if e.reject.Some? then e.reject.value else Invalid, |e.member.body.data|,
      lib.sha(e.member.body.data))
  }

  lemma EntryItems(lib: Library, es: seq<Entry>, e: Entry)
    ensures var before := Items(RegularNames(es), RejectedEntries(lib, es));
      multiset(Items(RegularNames(es + [e]), RejectedEntries(lib, es + [e]))) ==
      multiset(if e.isDir then before else before + [ItemOf(lib, e)])
  {
    assert (es + [e])[..|es|] == es && (es + [e])[|es|] == e;
    hide Items;
    ItemsSnoc(RegularNames(es), RejectedEntries(lib, es), e.name, RejectionOf(lib, e));
    assert RegularNames(es) + [] == RegularNames(es) && RejectedEntries(lib, es) + [] == RejectedEntries(lib, es);
  }

  lemma ItemsExhaustiveStep(lib: Library, front: seq<Member>, f: Member, t: Tree, sources: map<Path, Path>)
    requires EntriesHeld(t, sources, [EntryOf(lib, f)])
    ensures var es, e := EntriesOf(lib, front), EntryOf(lib, f);
      var before := Items(RegularNames(es), RejectedEntries(lib, es));
      var after := Items(RegularNames(es + [e]), RejectedEntries(lib, es + [e]));
      var more := if IsDir(f) then multiset{} else multiset{ContentOf(lib, f)};
      && multiset(ItemContents(lib, t, sources, after)) == multiset(ItemContents(lib, t, sources, before)) + more
      && multiset(ContentsOf(lib, front + [f])) == multiset(ContentsOf(lib, front)) + more
  {
    var es, e := EntriesOf(lib, front), EntryOf(lib, f);
    assert e in [e];
    assert !e.isDir ==> ItemContent(lib, t, sources, ItemOf(lib, e)) == ContentOf(lib, f);
    EntryItems(lib, es, e);
    ContentsSnoc(lib, front, f);
    var before, after := Items(RegularNames(es), RejectedEntries(lib, es)),
      Items(RegularNames(es + [e]), RejectedEntries(lib, es + [e]));
    hide Items, RegularNames, RejectedEntries, SourceOf, Nfc, ContentsOf, EntriesHeld, EntriesOf, ItemContent,
      ContentOf;
    if IsDir(f) {
      MapRearranged(x => ItemContent(lib, t, sources, x), after, before);
    } else {
      ItemContentsSnoc(lib, t, sources, before, after, ItemOf(lib, e));
    }
  }

  /** After an extraction, its files lie there. */
  lemma ExtractionHeld(
    lib: Library, members: seq<Member>, nodes: map<Path, NodeInfo>, r: Outcome, t: Tree, limits: Limits
  )
    requires NfcKeepsSafe(lib) && r.Extracted? && ExtractedAs(lib, members, nodes, r, t, limits)
    ensures EntriesHeld(t, r.stats.sourcePaths, EntriesOf(lib, members))
  {
    var es := EntriesOf(lib, members);
    AcceptedIsExecutable(lib, members, nodes, limits);
    assert forall i, j :: 0 <= i < j < |es| ==> es[i].name != es[j].name;
    assert t == Written(nodes, es) && r.stats.sourcePaths == SourceNames(es);
    hide ExtractedAs, NfcKeepsSafe, Extraction.Executable, EntriesOf;
    WrittenHeld(nodes, es);
  }

  lemma WrittenHeld(nodes: map<Path, NodeInfo>, es: seq<Entry>)
    requires forall i, j :: 0 <= i < j < |es| ==> es[i].name != es[j].name
    ensures EntriesHeld(Written(nodes, es), SourceNames(es), es)
  {
    hide SourceNames, WrittenFiles, Directories;
    forall e | e in es && IsWritten(e)
      ensures e.name in WrittenFiles(es) && WrittenFiles(es)[e.name] == File(PRIVATE_FILE, e.member.body.data)
      ensures e.name in SourceNames(es) && SourceNames(es)[e.name] == e.source
    {
      var i :| 0 <= i < |es| && es[i] == e;
      WrittenKeys(es, e.name);
      var j := WrittenEntry(es, e.name);
    }
  }

  /** In whatever order, the items are the files of the archive. */
  lemma HaulExhaustive(
    lib: Library, z: Bytes, nodes: map<Path, NodeInfo>, r: Outcome, t: Tree, limits: Limits, items: seq<Item>
  )
    requires NfcKeepsSafe(lib) && lib.parse(z).Some? && r.Extracted?
    requires ExtractedAs(lib, lib.parse(z).value, nodes, r, t, limits)
    requires multiset(items) == multiset(Items(r.files, r.stats.rejected))
    ensures multiset(ItemContents(lib, t, r.stats.sourcePaths, items)) == multiset(ContentsOf(lib, lib.parse(z).value))
  {
    var members := lib.parse(z).value;
    var names := RegularNames(EntriesOf(lib, members));
    ExtractionHeld(lib, members, nodes, r, t, limits);
    ItemsExhaustive(lib, members, t, r.stats.sourcePaths);
    RejectedAre(lib, members, nodes, r, t, limits);
    assert r.files == Sort(PathAtMost, names);
    hide ExtractedAs, EntriesHeld, Sort, SourceOf;
    MapRearranged(p => Item(p, None), r.files, names);
    assert multiset(Items(r.files, r.stats.rejected)) == multiset(Items(names, r.stats.rejected));
    hide Items;
    MapRearranged(x => ItemContent(lib, t, r.stats.sourcePaths, x), items, Items(names, r.stats.rejected));
  }

  /** What the members are good for, in the order in which the scan takes them. */
  lemma ExtractedHaul(lib: Library, z: Bytes, nodes: map<Path, NodeInfo>, r: Outcome, t: Tree, limits: Limits)
    requires NfcKeepsSafe(lib) && lib.parse(z).Some? && r.Extracted?
    requires ExtractedAs(lib, lib.parse(z).value, nodes, r, t, limits)
    ensures var items := Sort(ItemAtMost, Items(r.files, r.stats.rejected));
      Haul(lib, z, t, r.stats.sourcePaths, items) && |items| == CountFiles(lib.parse(z).value)
  {
    hide ExtractedAs, NfcKeepsSafe, ItemGood, CleanOutput, Sort, CountFiles, Items;
    var unsorted := Items(r.files, r.stats.rejected);
    HaulCount(lib, z, nodes, r, t, limits);
    ItemsAre(r.files, r.stats.rejected);
    HaulDistinct(lib, z, nodes, r, t, limits);
    SortedItems(unsorted);
    var items := Sort(ItemAtMost, unsorted);
    HaulExhaustive(lib, z, nodes, r, t, limits, items);
    ItemsApart(r.files, r.stats.rejected, items);
    forall x | x in items
      ensures ItemGood(lib, z, t, r.stats.sourcePaths, x)
    {
      ItemsGood(lib, z, nodes, r, t, limits, x);
    }
  }

  lemma ItemFacts(lib: Library, z: Bytes, t: Tree, sources: map<Path, Path>, x: Item)
    requires ItemGood(lib, z, t, sources, x) && x.rejected.None?
    ensures x.path != [] && AllSafe(x.path) && Creatable(x.path) && x.path in t && t[x.path].File? && x.path in sources
  {
  }

  /** The member behind an unpacked file. */
  lemma FileMember(lib: Library, z: Bytes, t: Tree, sources: map<Path, Path>, x: Item) returns (f: Member)
    requires ItemGood(lib, z, t, sources, x) && x.rejected.None?
    ensures lib.parse(z).Some? && f in lib.parse(z).value && MemberAs(lib, f, sources[x.path], t[x.path].data, x.path)
  {
    f :| f in lib.parse(z).value && MemberAs(lib, f, sources[x.path], t[x.path].data, x.path);
  }

  /** The member behind an omission. */
  lemma EntryMember(lib: Library, z: Bytes, t: Tree, sources: map<Path, Path>, x: Item) returns (f: Member)
    requires ItemGood(lib, z, t, sources, x) && x.rejected.Some?
    ensures lib.parse(z).Some? && f in lib.parse(z).value && EntryAbout(lib, x.rejected.value, f)
  {
    f :| f in lib.parse(z).value && EntryAbout(lib, x.rejected.value, f);
  }

  /** The outputs of the members dealt with so far. */
  ghost function DoneWith(items: seq<Item>): set<Path> {
    set x | x in items && x.rejected.None? :: x.path
  }

  lemma DoneWithNext(items: seq<Item>, i: nat)
    requires i < |items|
    ensures DoneWith(items[..i + 1]) == DoneWith(items[..i]) + if items[i].rejected.None? then {items[i].path} else {}
  {
    assert items[..i + 1] == items[..i] + [items[i]];
    assert forall x :: x in items[..i + 1] <==> x in items[..i] || x == items[i];
  }

  lemma NextApart(lib: Library, z: Bytes, t: Tree, sources: map<Path, Path>, items: seq<Item>, i: nat)
    requires Haul(lib, z, t, sources, items) && i < |items| && items[i].rejected.None?
    ensures forall q :: q in DoneWith(items[..i]) ==> Behind(q, items[i].path)
  {
    forall q | q in DoneWith(items[..i])
      ensures Behind(q, items[i].path)
    {
      var x :| x in items[..i] && x.rejected.None? && x.path == q;
      var j :| 0 <= j < i && items[..i][j] == x;
      assert items[j] == x;
    }
  }

  lemma NothingDone(items: seq<Item>)
    ensures DoneWith(items[..0]) == {}
  {
  }

  lemma HaulItem(lib: Library, z: Bytes, t: Tree, sources: map<Path, Path>, items: seq<Item>, i: nat)
    requires Haul(lib, z, t, sources, items) && i < |items|
    ensures ItemGood(lib, z, t, sources, items[i])
    ensures items[i].rejected.None? ==>
      forall q :: q in DoneWith(items[..i]) ==> Behind(q, items[i].path)
  {
    hide ItemGood;
    assert items[i] in items;
    if items[i].rejected.None? {
      NextApart(lib, z, t, sources, items, i);
    }
  }
}
