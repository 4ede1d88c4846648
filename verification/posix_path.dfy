/**
 Slash-separated paths: the split and joined forms, Go's `path.Clean`, and the
 components that may be handed to the file system.
 */
module PosixPath {
  import opened Text

  type Path = seq<string>

  predicate NoSlash(c: string) {
    '/' !in c
  }

  ghost predicate SlashFree(p: Path) {
    forall i :: 0 <= i < |p| ==> NoSlash(p[i])
  }

  /** Neither empty nor one of the two names every directory has. */
  predicate Normal(c: string) {
    c != "" && c != "." && c != ".."
  }

  /** A component that names exactly one entry of one directory, on any platform. */
  predicate SafeComponent(c: string) {
    Normal(c) && forall i :: 0 <= i < |c| ==> c[i] != '/' && c[i] != '\\' && !IsControl(c[i])
  }

  ghost predicate AllSafe(p: Path) {
    forall i :: 0 <= i < |p| ==> SafeComponent(p[i])
  }

  function Parent(p: Path): Path
    requires p != []
  {
    p[..|p| - 1]
  }

  function Last(p: Path): string
    requires p != []
  {
    p[|p| - 1]
  }

  // ----- Splitting and joining -----

  /** `strings.Split(s, "/")` */
  function Split(s: string): (p: Path)
    ensures |p| >= 1
    ensures SlashFree(p)
  {
    if s == "" then [""]
    else
      var rest := Split(s[1..]);
      if s[0] == '/' then [""] + rest else [[s[0]] + rest[0]] + rest[1..]
  }

  /** `strings.Join(p, "/")` */
  function Join(p: Path): string {
    if p == [] then ""
    else if |p| == 1 then p[0]
    else p[0] + "/" + Join(p[1..])
  }

  lemma {:induction false} JoinSplit(s: string)
    ensures Join(Split(s)) == s
  {
    if s != "" {
      JoinSplit(s[1..]);
      assert s == [s[0]] + s[1..];
      var rest := Split(s[1..]);
      assert rest == [rest[0]] + rest[1..];
      hide Join;
      JoinCons("", rest);
      JoinExtended(rest[0], rest[1..], s[0]);
    }
  }

  lemma JoinCons(c: string, q: Path)
    requires q != []
    ensures Join([c] + q) == c + ("/" + Join(q)) == c + "/" + Join(q)
  {
    assert ([c] + q)[1..] == q;
  }

  /** A further character in front. */
  lemma JoinExtended(first: string, more: Path, c: char)
    ensures Join([[c] + first] + more) == [c] + Join([first] + more)
  {
    if more != [] {
      JoinCons(first, more);
      JoinCons([c] + first, more);
      hide Join;
      Regrouped([c], first, "/" + Join(more));
    }
  }

  lemma Regrouped(a: string, b: string, c: string)
    ensures (a + b) + c == a + (b + c)
  {
  }

  lemma {:induction false} SplitNoSlash(c: string)
    requires NoSlash(c)
    ensures Split(c) == [c]
  {
    if c != "" {
      SplitNoSlash(c[1..]);
      assert c == [c[0]] + c[1..];
    }
  }

  lemma {:induction false} SplitCons(c: string, s: string)
    requires NoSlash(c)
    ensures Split(c + "/" + s) == [c] + Split(s)
  {
    var t := c + "/" + s;
    if c == "" {
      assert t[1..] == s;
    } else {
      assert t[1..] == c[1..] + "/" + s;
      SplitCons(c[1..], s);
      assert c == [c[0]] + c[1..];
      var rest := Split(t[1..]);
      assert rest[1..] == Split(s);
    }
  }

  /** What follows the last slash is the last component. */
  lemma {:induction false} SplitLast(front: string, name: string)
    requires NoSlash(name)
    ensures Last(Split(front + "/" + name)) == name
  {
    var s := front + "/" + name;
    if front == "" {
      SplitNoSlash(name);
      assert s[1..] == name;
    } else {
      SplitLast(front[1..], name);
      assert s[1..] == front[1..] + "/" + name && s[0] == front[0];
      SplitAfterSlash(front[1..], name);
    }
  }

  lemma {:induction false} SplitAfterSlash(front: string, name: string)
    ensures |Split(front + "/" + name)| >= 2
  {
    var s := front + "/" + name;
    if front == "" {
      assert s[0] == '/';
    } else {
      SplitAfterSlash(front[1..], name);
      assert s[1..] == front[1..] + "/" + name && s[0] == front[0];
    }
  }

  lemma {:induction false} SplitJoin(p: Path)
    requires p != [] && SlashFree(p)
    ensures Split(Join(p)) == p
  {
    if |p| == 1 {
      SplitNoSlash(p[0]);
    } else {
      SplitJoin(p[1..]);
      SplitCons(p[0], Join(p[1..]));
    }
  }

  /** Paths of slash-free components are determined by their joined form. */
  lemma JoinInjective(p: Path, q: Path)
    requires p != [] && SlashFree(p)
    requires q != [] && SlashFree(q)
    requires Join(p) == Join(q)
    ensures p == q
  {
    SplitJoin(p);
    SplitJoin(q);
  }

  lemma {:induction false} JoinConcat(p: Path, q: Path)
    requires p != [] && q != []
    ensures Join(p + q) == Join(p) + "/" + Join(q)
  {
    if |p| == 1 {
      assert (p + q)[1..] == q;
    } else {
      assert (p + q)[1..] == p[1..] + q;
      JoinConcat(p[1..], q);
      assert Join(p + q) == p[0] + "/" + (Join(p[1..]) + "/" + Join(q));
      assert Join(p) == p[0] + "/" + Join(p[1..]);
    }
  }

  // ----- Cleaning -----

  /** The stack machine behind `path.Clean`: `stack` holds the components kept so far. */
  function Resolve(rooted: bool, stack: Path, parts: Path): (r: Path)
    decreases |parts|
  {
    if parts == [] then stack
    else if parts[0] == "" || parts[0] == "." then Resolve(rooted, stack, parts[1..])
    else if parts[0] != ".." then Resolve(rooted, stack + [parts[0]], parts[1..])
    else if stack != [] && Last(stack) != ".." then Resolve(rooted, Parent(stack), parts[1..])
    else if rooted then Resolve(rooted, stack, parts[1..])
    else Resolve(rooted, stack + [".."], parts[1..])
  }

  /** `path.Clean` */
  function Clean(s: string): string {
    if s == "" then "."
    else if s[0] == '/' then "/" + Join(Resolve(true, [], Split(s)))
    else
      var kept := Resolve(false, [], Split(s));
      if kept == [] then "." else Join(kept)
  }

  /** Some number of ".." followed by ordinary names. */
  ghost predicate Climbs(p: Path) {
    && (forall i :: 0 <= i < |p| ==> p[i] != "" && p[i] != ".")
    && (forall i, j :: 0 <= i < j < |p| && p[j] == ".." ==> p[i] == "..")
  }

  lemma {:induction false} ResolveClimbs(stack: Path, parts: Path)
    requires Climbs(stack)
    requires SlashFree(stack)
    requires SlashFree(parts)
    ensures Climbs(Resolve(false, stack, parts))
    ensures SlashFree(Resolve(false, stack, parts))
    decreases |parts|
  {
    if parts != [] {
      if parts[0] == "" || parts[0] == "." {
        ResolveClimbs(stack, parts[1..]);
      } else if parts[0] != ".." {
        ResolveClimbs(stack + [parts[0]], parts[1..]);
      } else if stack != [] && Last(stack) != ".." {
        ResolveClimbs(Parent(stack), parts[1..]);
      } else {
        assert forall i :: 0 <= i < |stack| ==> stack[i] == "..";
        ResolveClimbs(stack + [".."], parts[1..]);
      }
    }
  }

  lemma {:induction false} ResolveKeeps(stack: Path, parts: Path)
    requires Climbs(stack + parts)
    ensures Resolve(false, stack, parts) == stack + parts
    decreases |parts|
  {
    if parts == [] {
      assert stack + parts == stack;
    } else {
      assert (stack + [parts[0]]) + parts[1..] == stack + parts;
      assert (stack + parts)[|stack|] == parts[0];
      if parts[0] == ".." && stack != [] {
        assert (stack + parts)[|stack| - 1] == Last(stack);
      }
      ResolveKeeps(stack + [parts[0]], parts[1..]);
    }
  }

  /**
   A relative name survives cleaning exactly when it is "." or a climb: no empty
   or "." component, and ".." only in front.
   */
  lemma CleanFixpoint(s: string)
    requires s != "" && s[0] != '/'
    ensures Clean(s) == s <==> s == "." || Climbs(Split(s))
  {
    var kept := Resolve(false, [], Split(s));
    ResolveClimbs([], Split(s));
    JoinSplit(s);
    if Clean(s) == s && kept != [] {
      SplitJoin(kept);
    }
    if Climbs(Split(s)) {
      assert [] + Split(s) == Split(s);
      ResolveKeeps([], Split(s));
    }
    if s == "." {
      SplitNoSlash(s);
      assert ["."][1..] == [];
      assert Resolve(false, [], ["."]) == [];
    }
  }

  lemma {:induction false} ResolveRooted(stack: Path, parts: Path)
    requires forall i :: 0 <= i < |parts| ==> Normal(parts[i])
    ensures Resolve(true, stack, parts) == stack + parts
    decreases |parts|
  {
    if parts == [] {
      assert stack + parts == stack;
    } else {
      ResolveRooted(stack + [parts[0]], parts[1..]);
      assert (stack + [parts[0]]) + parts[1..] == stack + parts;
    }
  }

  /** `filepath.Join(dest, name)` for an absolute directory `dest`, given as its components. */
  function JoinUnder(dest: Path, name: string): string {
    Clean("/" + Join(dest) + "/" + name)
  }

  /** The empty component before the first slash makes no difference. */
  lemma RootSkipped(p: Path)
    ensures Resolve(true, [], [""] + p) == Resolve(true, [], p)
  {
    assert ([""] + p)[1..] == p;
  }

  lemma PlainConcat(p: Path, q: Path)
    requires forall i :: 0 <= i < |p| ==> Normal(p[i]) && NoSlash(p[i])
    requires forall i :: 0 <= i < |q| ==> Normal(q[i]) && NoSlash(q[i])
    ensures SlashFree(p + q) && forall i :: 0 <= i < |p + q| ==> Normal((p + q)[i])
  {
  }

  /**
   Containment: joining a name made of safe components to a directory resolves
   to the directory extended by exactly those components.
   */
  lemma Containment(dest: Path, parts: Path)
    requires dest != [] && forall i :: 0 <= i < |dest| ==> Normal(dest[i]) && NoSlash(dest[i])
    requires parts != [] && AllSafe(parts)
    ensures JoinUnder(dest, Join(parts)) == "/" + Join(dest + parts)
  {
    SafeNoSlash(parts);
    PlainConcat(dest, parts);
    hide Resolve, Join, Clean, AllSafe, Normal, NoSlash, SlashFree;
    JoinConcat(dest, parts);
    Regrouped("/", Join(dest) + "/", Join(parts));
    Regrouped("/", Join(dest), "/");
    RootedClean(dest + parts);
  }

  /** A rooted path of ordinary components is clean. */
  lemma RootedClean(p: Path)
    requires p != [] && SlashFree(p) && forall i :: 0 <= i < |p| ==> Normal(p[i])
    ensures Clean("/" + Join(p)) == "/" + Join(p)
  {
    hide Resolve;
    var s := "/" + Join(p);
    assert s[1..] == Join(p);
    SplitJoin(p);
    assert Split(s) == [""] + p;
    RootSkipped(p);
    ResolveRooted([], p);
    assert [] + p == p;
  }

  lemma SafeNoSlash(p: Path)
    requires AllSafe(p)
    ensures forall i :: 0 <= i < |p| ==> NoSlash(p[i]) && Normal(p[i])
  {
    forall i | 0 <= i < |p|
      ensures NoSlash(p[i])
    {
      assert SafeComponent(p[i]);
    }
  }

  // ----- Order -----

  /** The order of the joined forms, in which `sort.Strings` puts paths. */
  predicate PathLess(p: Path, q: Path) {
    Less(Join(p), Join(q))
  }

  predicate PathAtMost(p: Path, q: Path) {
    !Less(Join(q), Join(p))
  }

  lemma PathLessIrreflexive(p: Path)
    ensures !PathLess(p, p)
  {
    LessIrreflexive(Join(p));
  }

  /** Inside one directory the order is that of the rests. */
  lemma InsideOrder(top: string, p: Path, q: Path)
    requires p != [] && q != [] && PathLess(p, q)
    ensures PathLess([top] + p, [top] + q)
  {
    JoinCons(top, p);
    JoinCons(top, q);
    SameFrontLess("/", Join(p), Join(q));
    SameFrontLess(top, "/" + Join(p), "/" + Join(q));
  }

  /** A directory sorts before everything inside it. */
  lemma AncestorsFirst(p: Path, q: Path)
    requires p < q && p != []
    ensures PathLess(p, q)
  {
    var rest := q[|p|..];
    assert q == p + rest;
    JoinConcat(p, rest);
    PrefixLess(Join(p), "/" + Join(rest));
    assert Join(p) + "/" + Join(rest) == Join(p) + ("/" + Join(rest));
  }
}
