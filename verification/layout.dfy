/** Who uses which entry of the staging directory while a batch is being scanned. */
module Layout {
  import opened Basics
  import opened Text
  import opened PosixPath
  import opened Decimals
  import opened Names
  import opened FileSystems
  import opened Confined
  import opened Publishing
  import opened StagingArea

  /** The copy of an upload that is being looked at. */
  function InputName(index: nat): string {
    ".input-" + Pad(index + 1, 4)
  }

  /** Where the container of a record is unpacked. */
  function WorkName(id: string): string {
    ".work-" + id
  }

  /** No two of these entries are ever confused with each other or with the approved directory. */
  lemma NamesApart(index: nat, m: nat, n: nat)
    ensures InputName(index) != APPROVED && WorkName(RecordId(m)) != APPROVED
    ensures InputName(index) != WorkName(RecordId(m))
    ensures InputName(index) != MANIFEST && WorkName(RecordId(m)) != MANIFEST
    ensures InputName(index) != MANIFEST_TMP && WorkName(RecordId(m)) != MANIFEST_TMP
    ensures m != n ==> WorkName(RecordId(m)) != WorkName(RecordId(n))
  {
    assert InputName(index)[0] == '.' && WorkName(RecordId(m))[0] == '.';
    assert InputName(index)[1] == 'i' && WorkName(RecordId(m))[1] == 'w';
    if WorkName(RecordId(m)) == WorkName(RecordId(n)) {
      assert WorkName(RecordId(m))[6..] == RecordId(m) && WorkName(RecordId(n))[6..] == RecordId(n);
      RecordIdInjective(m, n);
    }
  }

  /** They are short enough for any number of records a batch may have. */
  lemma NamesFit(n: nat)
    requires n < Pow10(5)
    ensures Normal(WorkName(RecordId(n))) && ByteLen(WorkName(RecordId(n))) <= MAX_COMPONENT
    ensures Normal(InputName(n)) && ByteLen(InputName(n)) <= MAX_COMPONENT
  {
    ItoaLength(n, 5);
    assert n + 1 < Pow10(6);
    ItoaLength(n + 1, 6);
    hide Pad, Itoa;
    assert |WorkName(RecordId(n))| == 8 + |Pad(n, 4)| && |InputName(n)| == 7 + |Pad(n + 1, 4)|;
    ShortName(WorkName(RecordId(n)));
    ShortName(InputName(n));
  }

  /** The part of a staging directory under some of its entries. */
  function Keep(s: Tree, names: set<string>): Tree {
    map k | k in s && k != [] && k[0] in names :: s[k]
  }

  /** A staging directory with nothing in it but the approved directory and some named entries. */
  ghost predicate Tidy(s: Tree, names: set<string>) {
    && [] in s && s[[]].Dir? && OwnerWritable(s[[]].mode)
    && forall k {:trigger k in s} :: k in s && k != [] ==> k[0] == APPROVED || k[0] in names
  }

  lemma BelowEntry(path: Path, x: string, k: Path)
    ensures path + [x] <= path + k <==> k != [] && k[0] == x
  {
    if k != [] && k[0] == x {
      assert path + k == (path + [x]) + k[1..];
    }
    if path + [x] <= path + k {
      assert (path + k)[|path|] == (path + [x])[|path|];
    }
  }

  /** Outside an entry, nothing inside it matters. */
  lemma EntrySame(m: Tree, n: Tree, path: Path, x: string, k: Path)
    requires Outside(m, path + [x]) == Outside(n, path + [x]) && !(k != [] && k[0] == x)
    ensures k in Sub(m, path) <==> k in Sub(n, path)
    ensures k in Sub(m, path) ==> Sub(m, path)[k] == Sub(n, path)[k]
  {
    BelowEntry(path, x, k);
    OutsideAgrees(m, n, path + [x], path + k);
  }

  /** Two staging directories that differ at most below one entry. */
  ghost predicate SameBut(s: Tree, t: Tree, x: string) {
    forall k :: !(k != [] && k[0] == x) ==> (k in s <==> k in t) && (k in s ==> s[k] == t[k])
  }

  lemma SameButKept(s: Tree, t: Tree, x: string, names: set<string>)
    requires SameBut(s, t, x)
    ensures x !in names ==> Keep(s, names) == Keep(t, names)
    ensures Tidy(s, names) ==> Tidy(t, names + {x})
  {
    assert x !in names ==> forall k :: k in Keep(s, names) <==> k in Keep(t, names);
  }

  lemma EntrySameBut(m: Tree, n: Tree, path: Path, x: string)
    requires Outside(m, path + [x]) == Outside(n, path + [x])
    ensures SameBut(Sub(m, path), Sub(n, path), x)
  {
    hide Outside, Sub;
    forall k | !(k != [] && k[0] == x)
      ensures k in Sub(m, path) <==> k in Sub(n, path)
      ensures k in Sub(m, path) ==> Sub(m, path)[k] == Sub(n, path)[k]
    {
      EntrySame(m, n, path, x, k);
    }
  }

  /** What an operation confined to one entry leaves alone. */
  lemma EntryOnly(m: Tree, n: Tree, path: Path, x: string, names: set<string>)
    requires Outside(m, path + [x]) == Outside(n, path + [x])
    ensures Outside(m, path) == Outside(n, path)
    ensures x !in names ==> Keep(Sub(m, path), names) == Keep(Sub(n, path), names)
    ensures x != APPROVED ==> Sub(m, path + [APPROVED]) == Sub(n, path + [APPROVED])
    ensures Tidy(Sub(m, path), names) ==> Tidy(Sub(n, path), names + {x})
  {
    hide Outside, Sub, SameBut, Keep, Tidy;
    OutsideNested(m, n, path + [x], path);
    EntrySameBut(m, n, path, x);
    SameButKept(Sub(m, path), Sub(n, path), x, names);
    if x != APPROVED {
      assert (path + [x])[|path|] == x && (path + [APPROVED])[|path|] == APPROVED;
      DisjointSub(m, n, path + [x], path + [APPROVED]);
    }
  }

  /** An entry that is gone need not be named. */
  lemma EntryGone(m: Tree, path: Path, x: string, names: set<string>)
    requires Tidy(Sub(m, path), names + {x}) && Absent(m, path + [x])
    ensures Tidy(Sub(m, path), names)
  {
    forall k | k in Sub(m, path) && k != []
      ensures k[0] == APPROVED || k[0] in names
    {
      BelowEntry(path, x, k);
      assert path + k in m;
    }
  }

  /** A tidy staging directory has room for any further entry. */
  lemma EntryFree(m: Tree, path: Path, x: string, names: set<string>)
    requires Tidy(Sub(m, path), names) && x !in names && x != APPROVED
    requires Normal(x) && ByteLen(x) <= MAX_COMPONENT
    ensures CanCreate(m, path + [x])
  {
    assert Parent(path + [x]) == path && Last(path + [x]) == x;
    assert path + [] == path;
    assert [] in Sub(m, path);
    assert [x][0] == x;
    assert [x] !in Sub(m, path);
  }

  /** A file under one of the kept entries. */
  ghost predicate Stored(s: Tree, names: set<string>, rel: Path, data: Bytes) {
    rel != [] && rel[0] in names && rel in s && s[rel].File? && s[rel].data == data
  }

  lemma StoredKept(s: Tree, t: Tree, names: set<string>, more: set<string>, rel: Path, data: Bytes)
    requires Stored(s, names, rel, data) && Keep(s, more) == Keep(t, more) && names <= more
    ensures Stored(t, names, rel, data)
  {
    assert rel in Keep(s, more);
    assert rel in Keep(t, more);
  }

  lemma KeepFewer(s: Tree, t: Tree, names: set<string>, more: set<string>)
    requires Keep(s, more) == Keep(t, more) && names <= more
    ensures Keep(s, names) == Keep(t, names)
  {
    forall k
      ensures k in Keep(s, names) <==> k in Keep(t, names)
      ensures k in Keep(s, names) ==> Keep(s, names)[k] == Keep(t, names)[k]
    {
      assert k in Keep(s, more) <==> k in Keep(t, more);
    }
  }

  /** Entries no operation here touches. */
  lemma KeptSub(m: Tree, n: Tree, path: Path, x: string, names: set<string>)
    requires Keep(Sub(m, path), names) == Keep(Sub(n, path), names) && x in names
    ensures Sub(m, path + [x]) == Sub(n, path + [x])
  {
    SubNested(m, path, [x]);
    SubNested(n, path, [x]);
    hide Outside, Sub;
    var s, t := Sub(m, path), Sub(n, path);
    forall k
      ensures k in Sub(s, [x]) <==> k in Sub(t, [x])
      ensures k in Sub(s, [x]) ==> Sub(s, [x])[k] == Sub(t, [x])[k]
    {
      assert ([x] + k)[0] == x;
      assert [x] + k in Keep(s, names) <==> [x] + k in Keep(t, names);
    }
  }

  lemma StoredAt(m: Tree, path: Path, names: set<string>, rel: Path, data: Bytes)
    requires Stored(Sub(m, path), names, rel, data)
    ensures path + rel in m && m[path + rel].File? && m[path + rel].data == data
    ensures path <= path + rel && (forall x :: x !in names ==> !(path + [x] <= path + rel))
  {
    forall x | x !in names
      ensures !(path + [x] <= path + rel)
    {
      BelowEntry(path, x, rel);
    }
  }

  /** Everything an operation confined to a further entry leaves as it was. */
  lemma FurtherEntry(m: Tree, n: Tree, path: Path, x: string, names: set<string>)
    requires Outside(m, path + [x]) == Outside(n, path + [x]) && x !in names && x != APPROVED
    ensures Outside(m, path) == Outside(n, path) && Keep(Sub(m, path), names) == Keep(Sub(n, path), names)
    ensures Sub(m, path + [APPROVED]) == Sub(n, path + [APPROVED])
    ensures Tidy(Sub(m, path), names) ==> Tidy(Sub(n, path), names + {x})
  {
    EntryOnly(m, n, path, x, names);
  }

  /** An open directory in a tidy staging directory can be removed. */
  lemma EntryRemovable(m: Tree, path: Path, x: string, names: set<string>)
    requires Tidy(Sub(m, path), names) && OpenDirs(Sub(m, path + [x]))
    ensures Removable(m, path + [x])
  {
    assert Parent(path + [x]) == path && path + [] == path;
    assert [] in Sub(m, path);
    forall d | d in m && m[d].Dir? && path + [x] <= d
      ensures OwnerWritable(m[d].mode)
    {
      SubOutside(m, path + [x], d);
    }
  }

  /** Once an entry has been cleared, the staging directory is as tidy as without it. */
  lemma EntryCleared(m: Tree, n: Tree, path: Path, x: string, names: set<string>)
    requires Tidy(Sub(m, path), names + {x}) && Outside(m, path + [x]) == Outside(n, path + [x])
    requires Absent(n, path + [x])
    ensures Tidy(Sub(n, path), names)
  {
    EntryOnly(m, n, path, x, names + {x});
    assert names + {x} + {x} == names + {x};
    EntryGone(n, path, x, names);
  }

  /** What an operation confined to the approved directory leaves alone. */
  lemma ApprovedOnly(m: Tree, n: Tree, path: Path, names: set<string>)
    requires Outside(m, path + [APPROVED]) == Outside(n, path + [APPROVED]) && APPROVED !in names
    ensures Outside(m, path) == Outside(n, path) && Keep(Sub(m, path), names) == Keep(Sub(n, path), names)
    ensures Tidy(Sub(m, path), names) ==> Tidy(Sub(n, path), names)
  {
    EntryOnly(m, n, path, APPROVED, names);
  }

  /** The same below one directory, where only one entry may differ. */
  lemma StoredBelow(s: Tree, t: Tree, x: string, v: Node, k: Path)
    requires t == s || t == s[[x] := v]
    requires !([x] <= k)
    ensures k in s <==> k in t
    ensures k in s ==> s[k] == t[k]
  {
    assert k != [x];
  }

  lemma EntryStoredAt(m: Tree, n: Tree, path: Path, x: string, v: Node, k: Path)
    requires Sub(n, path) == Sub(m, path) || Sub(n, path) == Sub(m, path)[[x] := v]
    requires !([x] <= k)
    ensures path + k in m <==> path + k in n
    ensures path + k in m ==> m[path + k] == n[path + k]
  {
    StoredBelow(Sub(m, path), Sub(n, path), x, v, k);
  }

  /** Storing something at one entry of a directory changes nothing outside that entry. */
  lemma EntryStored(m: Tree, n: Tree, path: Path, x: string, v: Node)
    requires Outside(m, path) == Outside(n, path)
    requires Sub(n, path) == Sub(m, path) || Sub(n, path) == Sub(m, path)[[x] := v]
    ensures Outside(m, path + [x]) == Outside(n, path + [x])
  {
    hide Sub;
    forall p | !(path + [x] <= p)
      ensures p in m <==> p in n
      ensures p in m ==> m[p] == n[p]
    {
      if path <= p {
        Rest(path, p, x);
        EntryStoredAt(m, n, path, x, v, p[|path|..]);
      } else {
        OutsideAgrees(m, n, path, p);
      }
    }
  }

  lemma Rest(path: Path, p: Path, x: string)
    requires path <= p && !(path + [x] <= p)
    ensures path + p[|path|..] == p && !([x] <= p[|path|..])
  {
    assert path + p[|path|..] == p;
  }

  lemma EntryFreeIn(t: Tree, x: string, names: set<string>)
    requires Tidy(t, names) && x !in names && x != APPROVED && Normal(x) && ByteLen(x) <= MAX_COMPONENT
    ensures CanCreateIn(t, [x])
  {
    assert Parent([x]) == [] && Last([x]) == x && [x][0] == x;
  }

  /** What `os.Remove` needs. */
  predicate Unlinkable(m: Tree, p: Path) {
    p != [] && IsLeaf(m, p) && Parent(p) in m && OwnerWritable(m[Parent(p)].mode)
  }

  lemma EntryFileRemovable(m: Tree, path: Path, x: string, names: set<string>, data: Bytes)
    requires Rooted(m) && Tidy(Sub(m, path), names) && Stored(Sub(m, path), names, [x], data)
    ensures Unlinkable(m, path + [x])
  {
    assert Parent(path + [x]) == path && path + [] == path;
    assert [] in Sub(m, path);
    FileIsLeaf(m, path + [x]);
  }
}
