/**
 The path half of `preflight` (internal/archive/zip.go): three maps filled over
 every prefix of every member path, against an order-free specification.
 */
module PathPlan {
  import opened Basics
  import opened PosixPath
  import opened ZipNames

  /** A path that has to exist, and whether as a directory. */
  datatype Claim = Claim(path: Path, isDir: bool)

  datatype NodeInfo = NodeInfo(isDir: bool, explicit: bool)

  /** A path as it is created: every component normalised. */
  function Nfc(lib: Library, p: Path): (r: Path)
    ensures |r| == |p|
  {
    seq(|p|, i requires 0 <= i < |p| => lib.nfc(p[i]))
  }

  /** A path as a case-insensitive file system identifies it. */
  function FoldKey(lib: Library, p: Path): (r: Path)
    ensures |r| == |p|
  {
    seq(|p|, i requires 0 <= i < |p| => lib.fold(lib.nfc(p[i])))
  }

  lemma NfcPrefix(lib: Library, p: Path, n: nat)
    requires n <= |p|
    ensures Nfc(lib, p[..n]) == Nfc(lib, p)[..n]
    ensures FoldKey(lib, p[..n]) == FoldKey(lib, p)[..n]
  {
  }

  /** The folded key is computed from the normalised path, so it cannot tell apart more. */
  lemma NfcThenFold(lib: Library, p: Path, q: Path)
    requires Nfc(lib, p) == Nfc(lib, q)
    ensures FoldKey(lib, p) == FoldKey(lib, q)
  {
    forall i | 0 <= i < |p|
      ensures lib.nfc(p[i]) == lib.nfc(q[i])
    {
      assert Nfc(lib, p)[i] == Nfc(lib, q)[i];
    }
  }

  // ----- The order-free specification -----

  /** What a member needs of its first `n` components. */
  function PrefixClaim(e: Claim, n: nat): Claim
    requires n <= |e.path|
  {
    Claim(e.path[..n], n < |e.path| || e.isDir)
  }

  /** Everything a member needs: its path and all directories above it. */
  ghost function ClaimsOf(e: Claim): set<Claim> {
    set n | 1 <= n <= |e.path| :: PrefixClaim(e, n)
  }

  ghost function AllClaims(es: seq<Claim>): set<Claim> {
    set e, c | e in es && c in ClaimsOf(e) :: c
  }

  /** Claims that a case-insensitive file system cannot tell apart are the same claim. */
  ghost predicate Consistent(lib: Library, claims: set<Claim>) {
    forall c, d :: c in claims && d in claims && FoldKey(lib, c.path) == FoldKey(lib, d.path) ==> c == d
  }

  ghost predicate NoRepeats(es: seq<Claim>) {
    forall i, j :: 0 <= i < j < |es| ==> es[i].path != es[j].path
  }

  ghost predicate PathsAccepted(lib: Library, es: seq<Claim>) {
    Consistent(lib, AllClaims(es)) && NoRepeats(es)
  }

  ghost function FullPaths(es: seq<Claim>): set<Path> {
    set e | e in es :: e.path
  }

  /** The node map as a function of the claims alone. */
  ghost predicate NodesOf(lib: Library, nodes: map<Path, NodeInfo>, claims: set<Claim>, full: set<Path>) {
    && (forall k :: k in nodes ==> exists c :: c in claims && Nfc(lib, c.path) == k)
    && (forall c :: c in claims ==>
      Nfc(lib, c.path) in nodes && nodes[Nfc(lib, c.path)] == NodeInfo(c.isDir, c.path in full))
  }

  /** Two maps that satisfy the specification are the same map. */
  lemma NodesUnique(lib: Library, a: map<Path, NodeInfo>, b: map<Path, NodeInfo>, claims: set<Claim>, full: set<Path>)
    requires NodesOf(lib, a, claims, full) && NodesOf(lib, b, claims, full)
    ensures a == b
  {
    forall k | k in a
      ensures k in b && a[k] == b[k]
    {
      var c :| c in claims && Nfc(lib, c.path) == k;
    }
    forall k | k in b
      ensures k in a
    {
      var c :| c in claims && Nfc(lib, c.path) == k;
    }
  }

  /** A rearrangement of the members makes the same claims, and repeats paths or not alike. */
  lemma Rearranged(es: seq<Claim>, fs: seq<Claim>)
    requires multiset(es) == multiset(fs)
    ensures AllClaims(es) == AllClaims(fs) && FullPaths(es) == FullPaths(fs)
    ensures NoRepeats(es) <==> NoRepeats(fs)
  {
    SameElements(es, fs);
    if NoRepeats(es) {
      RepeatsTransfer(es, fs);
    }
    if NoRepeats(fs) {
      RepeatsTransfer(fs, es);
    }
  }

  lemma {:induction false} RepeatsTransfer(es: seq<Claim>, fs: seq<Claim>)
    requires multiset(es) == multiset(fs) && NoRepeats(es)
    ensures NoRepeats(fs)
  {
    SameElements(es, fs);
    forall i, j | 0 <= i < j < |fs|
      ensures fs[i].path != fs[j].path
    {
      assert fs[i] in es && fs[j] in es;
      OnceInMultiset(es, fs[i]);
      if fs[i] == fs[j] {
        TwiceInMultiset(fs, i, j);
        assert false;
      }
    }
  }

  lemma TwiceInMultiset<T>(s: seq<T>, i: nat, j: nat)
    requires i < j < |s| && s[i] == s[j]
    ensures multiset(s)[s[i]] >= 2
  {
    assert s == s[..j] + s[j..];
    assert s[i] in s[..j] && s[j] in s[j..];
  }

  lemma {:induction false} OnceInMultiset(es: seq<Claim>, e: Claim)
    requires NoRepeats(es)
    ensures multiset(es)[e] <= 1
  {
    if es != [] {
      assert es == [es[0]] + es[1..];
      OnceInMultiset(es[1..], e);
      assert forall j :: 0 <= j < |es[1..]| ==> es[1..][j].path == es[j + 1].path != es[0].path;
    }
  }

  /** Acceptance and the node map do not depend on the order of the members. */
  lemma OrderIrrelevant(lib: Library, es: seq<Claim>, fs: seq<Claim>)
    requires multiset(es) == multiset(fs)
    ensures PathsAccepted(lib, es) <==> PathsAccepted(lib, fs)
    ensures forall m :: NodesOf(lib, m, AllClaims(es), FullPaths(es)) <==> NodesOf(lib, m, AllClaims(fs), FullPaths(fs))
  {
    Rearranged(es, fs);
  }

  // ----- The streaming check -----

  /** The three maps of `preflight`. */
  datatype Maps = Maps(nodes: map<Path, NodeInfo>, nfcNames: map<Path, Path>, foldedNames: map<Path, Path>)

  /** Exactly the keys of some claims. */
  ghost predicate Keyed(keys: set<Path>, key: Path -> Path, claims: set<Claim>) {
    && (forall k :: k in keys ==> exists c :: c in claims && key(c.path) == k)
    && (forall c :: c in claims ==> key(c.path) in keys)
  }

  lemma KeyedMore(keys: set<Path>, key: Path -> Path, claims: set<Claim>, c: Claim)
    requires Keyed(keys, key, claims)
    ensures Keyed(keys + {key(c.path)}, key, claims + {c})
  {
    forall k | k in keys + {key(c.path)}
      ensures exists d :: d in claims + {c} && key(d.path) == k
    {
      if k == key(c.path) {
        assert c in claims + {c};
      } else {
        var d :| d in claims && key(d.path) == k;
        assert d in claims + {c};
      }
    }
  }

  /** A map from the keys of some claims back to their paths. */
  ghost predicate Names(names: map<Path, Path>, key: Path -> Path, claims: set<Claim>) {
    && Keyed(names.Keys, key, claims)
    && forall c :: c in claims ==> names[key(c.path)] == c.path
  }

  lemma NamesMore(names: map<Path, Path>, key: Path -> Path, claims: set<Claim>, c: Claim)
    requires Names(names, key, claims)
    requires forall d :: d in claims ==> key(d.path) != key(c.path)
    ensures Names(names[key(c.path) := c.path], key, claims + {c})
  {
    KeyedMore(names.Keys, key, claims, c);
    assert names[key(c.path) := c.path].Keys == names.Keys + {key(c.path)};
  }

  /** What the maps hold once some claims have been let through. */
  ghost predicate Tracks(lib: Library, m: Maps, claims: set<Claim>, full: set<Path>) {
    && Consistent(lib, claims)
    && NodesOf(lib, m.nodes, claims, full)
    && Names(m.nfcNames, p => Nfc(lib, p), claims)
    && Names(m.foldedNames, p => FoldKey(lib, p), claims)
  }

  /** A clash among some claims is a clash among more of them. */
  lemma ConsistentSubset(lib: Library, small: set<Claim>, large: set<Claim>)
    requires small <= large && Consistent(lib, large)
    ensures Consistent(lib, small)
  {
  }

  /** A hit in `nfcNames` or `foldedNames` under another raw name is a clash. */
  lemma HitIsClash(lib: Library, m: Maps, claims: set<Claim>, full: set<Path>, c: Claim)
    requires Tracks(lib, m, claims, full)
    requires
      || (Nfc(lib, c.path) in m.nfcNames && m.nfcNames[Nfc(lib, c.path)] != c.path)
      || (FoldKey(lib, c.path) in m.foldedNames && m.foldedNames[FoldKey(lib, c.path)] != c.path)
    ensures !Consistent(lib, claims + {c})
  {
    hide NodesOf, Nfc, FoldKey;
    var d: Claim;
    if Nfc(lib, c.path) in m.nfcNames && m.nfcNames[Nfc(lib, c.path)] != c.path {
      d :| d in claims && Nfc(lib, d.path) == Nfc(lib, c.path);
      NfcThenFold(lib, c.path, d.path);
    } else {
      d :| d in claims && FoldKey(lib, d.path) == FoldKey(lib, c.path);
    }
    assert c in claims + {c} && d in claims + {c};
  }

  /** Without one, a hit in `nodes` is the claim on the same raw path. */
  lemma NodeHit(lib: Library, m: Maps, claims: set<Claim>, full: set<Path>, c: Claim) returns (d: Claim)
    requires Tracks(lib, m, claims, full) && Nfc(lib, c.path) in m.nodes
    requires Nfc(lib, c.path) in m.nfcNames ==> m.nfcNames[Nfc(lib, c.path)] == c.path
    ensures d in claims && d.path == c.path
    ensures m.nodes[Nfc(lib, c.path)] == NodeInfo(d.isDir, c.path in full)
    ensures Consistent(lib, claims + {c}) <==> c == d
  {
    d :| d in claims && Nfc(lib, d.path) == Nfc(lib, c.path);
    if c == d {
      assert claims + {c} == claims;
    } else {
      assert c in claims + {c} && d in claims + {c};
    }
  }

  lemma ConsistentWith(lib: Library, claims: set<Claim>, c: Claim)
    requires Consistent(lib, claims) && forall d :: d in claims ==> FoldKey(lib, d.path) != FoldKey(lib, c.path)
    ensures Consistent(lib, claims + {c})
  {
  }

  /** With no hit at all, the claim clashes with nothing. */
  lemma NoHit(lib: Library, m: Maps, claims: set<Claim>, full: set<Path>, c: Claim)
    requires Tracks(lib, m, claims, full) && Nfc(lib, c.path) !in m.nodes
    requires FoldKey(lib, c.path) in m.foldedNames ==> m.foldedNames[FoldKey(lib, c.path)] == c.path
    ensures Consistent(lib, claims + {c})
    ensures forall d :: d in claims ==>
      FoldKey(lib, d.path) != FoldKey(lib, c.path) && Nfc(lib, d.path) != Nfc(lib, c.path) && d.path != c.path
  {
    hide Consistent, FoldKey, Nfc;
    forall d | d in claims
      ensures FoldKey(lib, d.path) != FoldKey(lib, c.path) && Nfc(lib, d.path) != Nfc(lib, c.path) && d.path != c.path
    {
      assert Nfc(lib, d.path) in m.nodes;
      assert m.foldedNames[FoldKey(lib, d.path)] == d.path;
    }
    ConsistentWith(lib, claims, c);
  }

  lemma NodesMore(lib: Library, nodes: map<Path, NodeInfo>, claims: set<Claim>, full: set<Path>, c: Claim, last: bool)
    requires NodesOf(lib, nodes, claims, full)
    requires c.path !in full
    requires forall d :: d in claims ==> Nfc(lib, d.path) != Nfc(lib, c.path) && d.path != c.path
    ensures NodesOf(lib, nodes[Nfc(lib, c.path) := NodeInfo(c.isDir, last)], claims + {c},
      if last then full + {c.path} else full)
  {
    var more := nodes[Nfc(lib, c.path) := NodeInfo(c.isDir, last)];
    forall k | k in more
      ensures exists d :: d in claims + {c} && Nfc(lib, d.path) == k
    {
      if k == Nfc(lib, c.path) {
        assert c in claims + {c};
      } else {
        var d :| d in claims && Nfc(lib, d.path) == k;
        assert d in claims + {c};
      }
    }
  }

  lemma NodesExplicit(lib: Library, nodes: map<Path, NodeInfo>, claims: set<Claim>, full: set<Path>, c: Claim)
    requires NodesOf(lib, nodes, claims, full) && Consistent(lib, claims) && c in claims
    ensures NodesOf(lib, nodes[Nfc(lib, c.path) := NodeInfo(c.isDir, true)], claims, full + {c.path})
  {
    forall d | d in claims && Nfc(lib, d.path) == Nfc(lib, c.path)
      ensures d == c
    {
      NfcThenFold(lib, c.path, d.path);
    }
  }

  /**
   One turn of the inner loop of `preflight`: `c` is let through exactly when it
   clashes with nothing seen before and, as a full path, is new.
   */
  method AddClaim(lib: Library, m: Maps, c: Claim, last: bool, ghost claims: set<Claim>, ghost full: set<Path>)
    returns (r: Option<Maps>)
    requires Tracks(lib, m, claims, full)
    requires full <= set d | d in claims :: d.path
    ensures r.Some? <==> Consistent(lib, claims + {c}) && !(last && c.path in full)
    ensures r.Some? ==> Tracks(lib, r.value, claims + {c}, if last then full + {c.path} else full)
  {
    hide Consistent, NodesOf, Names, Nfc, FoldKey;
    var prefix, folded := Nfc(lib, c.path), FoldKey(lib, c.path);
    if prefix in m.nfcNames && m.nfcNames[prefix] != c.path {
      HitIsClash(lib, m, claims, full, c);
      return None;
    }
    if folded in m.foldedNames && m.foldedNames[folded] != c.path {
      HitIsClash(lib, m, claims, full, c);
      return None;
    }
    if prefix in m.nodes {
      ghost var d := NodeHit(lib, m, claims, full, c);
      var existing := m.nodes[prefix];
      if existing.isDir != c.isDir || (last && existing.explicit) {
        return None;
      }
      assert claims + {c} == claims;
      if last {
        NodesExplicit(lib, m.nodes, claims, full, c);
        return Some(m.(nodes := m.nodes[prefix := existing.(explicit := true)]));
      }
      return Some(m);
    }
    NoHit(lib, m, claims, full, c);
    NodesMore(lib, m.nodes, claims, full, c, last);
    NamesMore(m.nfcNames, p => Nfc(lib, p), claims, c);
    NamesMore(m.foldedNames, p => FoldKey(lib, p), claims, c);
    r := Some(Maps(m.nodes[prefix := NodeInfo(c.isDir, last)], m.nfcNames[prefix := c.path],
      m.foldedNames[folded := c.path]));
  }

  /** The claims of the first `n` prefixes. */
  ghost function FirstClaims(e: Claim, n: nat): set<Claim>
    requires n <= |e.path|
  {
    set i | 1 <= i <= n :: PrefixClaim(e, i)
  }

  lemma NextClaim(e: Claim, n: nat)
    requires n < |e.path|
    ensures FirstClaims(e, n + 1) == FirstClaims(e, n) + {PrefixClaim(e, n + 1)}
    ensures FirstClaims(e, n + 1) <= ClaimsOf(e)
  {
  }

  /** A refused prefix refuses the whole list. */
  lemma Refused(lib: Library, es: seq<Claim>, e: Claim, n: nat)
    requires 1 <= n <= |e.path| && NoRepeats(es)
    requires !Consistent(lib, AllClaims(es) + FirstClaims(e, n)) || (n == |e.path| && e.path in FullPaths(es))
    ensures !PathsAccepted(lib, es + [e])
  {
    MoreClaims(es, e);
    PathIsNew(es, e);
    if Consistent(lib, AllClaims(es + [e])) {
      ConsistentSubset(lib, AllClaims(es) + FirstClaims(e, n), AllClaims(es + [e]));
    }
  }

  /** The inner loop: all prefixes of one member. */
  method AddMember(lib: Library, m: Maps, e: Claim, ghost es: seq<Claim>) returns (r: Option<Maps>)
    requires e.path != [] && forall i :: 0 <= i < |es| ==> es[i].path != []
    requires Tracks(lib, m, AllClaims(es), FullPaths(es)) && NoRepeats(es)
    ensures r.Some? <==> PathsAccepted(lib, es + [e])
    ensures r.Some? ==> Tracks(lib, r.value, AllClaims(es + [e]), FullPaths(es + [e]))
  {
    ghost var before, full := AllClaims(es), FullPaths(es);
    FullPathsClaimed(es);
    var maps := m;
    assert before + FirstClaims(e, 0) == before;
    assert e.path[..|e.path|] == e.path;
    for i := 0 to |e.path|
      invariant Tracks(lib, maps, before + FirstClaims(e, i), if i == |e.path| then full + {e.path} else full)
      invariant i == |e.path| ==> e.path !in full
    {
      var c, last := PrefixClaim(e, i + 1), i + 1 == |e.path|;
      NextClaim(e, i);
      assert (before + FirstClaims(e, i)) + {c} == before + FirstClaims(e, i + 1);
      var next := AddClaim(lib, maps, c, last, before + FirstClaims(e, i), full);
      if next.None? {
        Refused(lib, es, e, i + 1);
        return None;
      }
      maps := next.value;
    }
    MoreClaims(es, e);
    PathIsNew(es, e);
    r := Some(maps);
  }

  lemma MoreClaims(es: seq<Claim>, e: Claim)
    ensures AllClaims(es + [e]) == AllClaims(es) + ClaimsOf(e)
    ensures FullPaths(es + [e]) == FullPaths(es) + {e.path}
  {
    assert forall d :: d in es + [e] <==> d in es || d == e;
  }

  lemma FullPathsClaimed(es: seq<Claim>)
    requires forall i :: 0 <= i < |es| ==> es[i].path != []
    ensures FullPaths(es) <= set d | d in AllClaims(es) :: d.path
  {
    forall e | e in es
      ensures e.path in set d | d in AllClaims(es) :: d.path
    {
      assert e.path[..|e.path|] == e.path;
      assert PrefixClaim(e, |e.path|) in ClaimsOf(e);
      assert PrefixClaim(e, |e.path|) in AllClaims(es);
    }
  }

  lemma PathIsNew(es: seq<Claim>, e: Claim)
    requires NoRepeats(es)
    ensures NoRepeats(es + [e]) <==> e.path !in FullPaths(es)
  {
    var fs := es + [e];
    if e.path in FullPaths(es) {
      var i :| 0 <= i < |es| && es[i].path == e.path;
      assert fs[i].path == fs[|es|].path;
    }
  }

  // ----- What an accepted plan is good for -----

  /** Paths closed under taking the directory above. */
  ghost predicate PrefixClosed(nodes: map<Path, NodeInfo>) {
    && [] !in nodes
    && forall k {:trigger Parent(k)} :: k in nodes && |k| > 1 ==> Parent(k) in nodes && nodes[Parent(k)].isDir
  }

  /** Every planned path is what some member needs. */
  lemma NeededBy(lib: Library, nodes: map<Path, NodeInfo>, es: seq<Claim>, full: set<Path>, k: Path)
    returns (e: Claim, n: nat)
    requires NodesOf(lib, nodes, AllClaims(es), full) && k in nodes
    ensures e in es && 1 <= n <= |e.path| && k == Nfc(lib, e.path[..n])
  {
    hide Nfc;
    var c :| c in AllClaims(es) && Nfc(lib, c.path) == k;
    e :| e in es && c in ClaimsOf(e);
    n :| 1 <= n <= |e.path| && c == PrefixClaim(e, n);
  }

  /** And a directory is planned at every proper beginning of what a member needs. */
  lemma NeededAbove(lib: Library, nodes: map<Path, NodeInfo>, es: seq<Claim>, full: set<Path>, e: Claim, n: nat)
    requires NodesOf(lib, nodes, AllClaims(es), full) && e in es && 1 <= n < |e.path|
    ensures Nfc(lib, e.path[..n]) in nodes && nodes[Nfc(lib, e.path[..n])].isDir
  {
    hide Nfc;
    var d := PrefixClaim(e, n);
    assert d in ClaimsOf(e);
    assert d in AllClaims(es);
  }

  /** The plan is a tree: every proper prefix is a planned directory, so files are leaves. */
  lemma PlanIsTree(lib: Library, nodes: map<Path, NodeInfo>, es: seq<Claim>)
    requires NodesOf(lib, nodes, AllClaims(es), FullPaths(es))
    ensures PrefixClosed(nodes)
  {
    hide NodesOf, FullPaths, AllClaims;
    forall k | k in nodes
      ensures k != []
      ensures |k| > 1 ==> Parent(k) in nodes && nodes[Parent(k)].isDir
    {
      var e, n := NeededBy(lib, nodes, es, FullPaths(es), k);
      if |k| > 1 {
        NfcPrefix(lib, e.path[..n], n - 1);
        assert e.path[..n][..n - 1] == e.path[..n - 1];
        NeededAbove(lib, nodes, es, FullPaths(es), e, n - 1);
      }
    }
  }
}
