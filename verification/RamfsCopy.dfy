// ramfs_copy: what a copy is, stated by pairing every node below the source with a new
// one, and that copying one child after the other makes such a copy.
module RamfsCopy {
  import opened Lists
  import opened Words
  import opened Ramfs
  import opened RamfsMove
  import opened RamfsDelete

  /** The nodes copied so far: n, and what is below its first i children. */
  ghost function Source(fs: Fs, n: Node, i: nat): set<Node>
    requires n in fs.kids && i <= |fs.kids[n]|
  {
    {n} + GoneFirst(fs, n, i)
  }

  /** Every copied node has a new node for a twin, each its own. */
  ghost predicate Twins(fs: Fs, twin: map<Node, Node>, source: set<Node>) {
    && twin.Keys == source
    && (forall a {:trigger twin[a]} :: a in twin ==> twin[a] !in fs.kids && twin[a] !in fs.up && twin[a] !in fs.info)
    && (forall a, b {:trigger twin[a], twin[b]} :: a in twin && b in twin && twin[a] == twin[b] ==> a == b)
  }

  ghost predicate SameNodes(fs: Fs, g: Fs, twin: map<Node, Node>) {
    && g.root == fs.root && g.kids.Keys == fs.kids.Keys + twin.Values
    && g.up.Keys == fs.up.Keys + twin.Values && g.info.Keys == fs.info.Keys + twin.Values
  }

  /** The old nodes are as they were, but p has one more child, the last. */
  ghost predicate OldKept(fs: Fs, g: Fs, p: Node, top: Node) {
    && (forall m :: m in fs.kids ==> m in g.kids && g.kids[m] == if m == p then fs.kids[p] + [top] else fs.kids[m])
    && (forall m :: m in fs.up ==> m in g.up && g.up[m] == fs.up[m])
    && (forall m :: m in fs.info ==> m in g.info && g.info[m] == fs.info[m])
  }

  /** A sequence of twins, in the same order. */
  ghost predicate Paired(twin: map<Node, Node>, s: seq<Node>, s': seq<Node>) {
    && |s'| == |s|
    && forall k {:trigger s[k]} {:trigger s'[k]} :: 0 <= k < |s| ==> s[k] in twin && s'[k] == twin[s[k]]
  }

  /** Below p hang twins with the same children, kinds, names, sizes and bytes; only the top has another name. */
  ghost predicate NewTwins(fs: Fs, g: Fs, n: Node, p: Node, name: string, twin: map<Node, Node>, i: nat) {
    forall a {:trigger twin[a]} :: a in twin ==>
      && a in fs.kids && a in fs.info && twin[a] in g.kids && twin[a] in g.up && twin[a] in g.info
      && (a == n ==> i <= |fs.kids[n]|)
      && Paired(twin, if a == n then fs.kids[n][..i] else fs.kids[a], g.kids[twin[a]])
      && g.info[twin[a]] == (if a == n then fs.info[n].(name := name) else fs.info[a])
      && (if a == n then g.up[twin[a]] == p else a in fs.up && fs.up[a] in twin && g.up[twin[a]] == twin[fs.up[a]])
  }

  /** The first i children of n have been copied to a new node under p. */
  ghost predicate Grafted(fs: Fs, g: Fs, n: Node, p: Node, name: string, twin: map<Node, Node>, i: nat) {
    && n in fs.kids && i <= |fs.kids[n]| && p in fs.kids
    && Twins(fs, twin, Source(fs, n, i)) && SameNodes(fs, g, twin) && OldKept(fs, g, p, twin[n]) && NewTwins(fs, g, n, p, name, twin, i)
  }

  /** g is fs with a copy of everything below n added under p. */
  ghost predicate Copied(fs: Fs, g: Fs, n: Node, p: Node, name: string, twin: map<Node, Node>) {
    n in fs.kids && Grafted(fs, g, n, p, name, twin, |fs.kids[n]|)
  }

  /** A place for a copy: a directory outside the source in which the name is free. */
  ghost predicate Place(fs: Fs, n: Node, p: Node, name: string) {
    && n in fs.kids && p in fs.kids && n in fs.info && p in fs.info
    && !Within(fs.up, p, n) && fs.info[p].kind == Directory && NameFree(fs, p, name)
  }

  ghost predicate NameFree(fs: Fs, p: Node, name: string)
    requires p in fs.kids
  {
    forall c :: c in fs.kids[p] && c in fs.info ==> fs.info[c].name != name
  }

  // ---------------------------------------------------------------------------
  // A copy keeps the tree

  lemma SourceFacts(fs: Fs, n: Node, i: nat)
    requires Tree(fs) && n in fs.kids && i <= |fs.kids[n]|
    ensures n in Source(fs, n, i) && (forall a :: a in Source(fs, n, i) ==> a in fs.kids && Within(fs.up, a, n))
    ensures forall a :: a in Source(fs, n, i) && a != n ==> a in fs.up && fs.up[a] in Source(fs, n, i)
    ensures forall a :: a in Source(fs, n, i) && a != n && a in fs.up && fs.up[a] == n ==> a in fs.kids[n][..i]
    ensures forall a :: a in fs.kids[n][..i] ==> a in Source(fs, n, i)
    ensures forall a, c :: a in Source(fs, n, i) && a != n && a in fs.kids && c in fs.kids[a] ==> c in Source(fs, n, i)
  {
    hide Typed, Named, Within, Height, Closed, Distinct;
    GoneFirstClosed(fs, n, i);
    WithinSelf(fs.up, n);
    var gone := GoneFirst(fs, n, i);
    forall a | a in gone ensures a in fs.up && a in fs.kids && (fs.up[a] == n || fs.up[a] in gone) && (fs.up[a] == n ==> a in fs.kids[n][..i]) {
      SourceUp(fs, n, i, a);
    }
    forall a | a in fs.kids[n][..i] ensures a in gone {
      var j :| 0 <= j < i && fs.kids[n][j] == a;
      assert a in fs.kids[n];
      WithinSelf(fs.up, a);
      assert Within(fs.up, a, fs.kids[n][j]);
    }
    forall a, c | a in gone && c in fs.kids[a] ensures c in gone {
      SourceDown(fs, n, i, a, c);
    }
  }

  lemma SourceUp(fs: Fs, n: Node, i: nat, a: Node)
    requires Tree(fs) && n in fs.kids && i <= |fs.kids[n]| && a in GoneFirst(fs, n, i)
    ensures a in fs.up && a in fs.kids && (fs.up[a] == n || fs.up[a] in GoneFirst(fs, n, i))
    ensures fs.up[a] == n ==> a in fs.kids[n][..i]
  {
    hide Typed, Named, Within, Height, Distinct;
    NotGoneFirst(fs, n, i);
    var j :| 0 <= j < i && Within(fs.up, a, fs.kids[n][j]);
    WithinStep(fs.up, a, fs.kids[n][j]);
    assert fs.kids[n][j] in fs.kids[n];
    if a == fs.kids[n][j] {
      assert fs.kids[n][..i][j] == a;
    } else {
      assert fs.up[a] in fs.kids;
    }
  }

  lemma SourceDown(fs: Fs, n: Node, i: nat, a: Node, c: Node)
    requires Tree(fs) && n in fs.kids && i <= |fs.kids[n]| && a in GoneFirst(fs, n, i) && a in fs.kids && c in fs.kids[a]
    ensures c in GoneFirst(fs, n, i)
  {
    hide Typed, Named, Within, Height, Distinct;
    var j :| 0 <= j < i && Within(fs.up, a, fs.kids[n][j]);
    WithinStep(fs.up, c, fs.kids[n][j]);
  }

  /** What the proof needs of the copied nodes and their parents. */
  ghost predicate SourceOk(fs: Fs, n: Node, i: nat, source: set<Node>) {
    && n in fs.kids && i <= |fs.kids[n]| && n in source && (n in fs.up ==> fs.up[n] !in source)
    && (forall a :: a in source && a != n ==> a in fs.up && fs.up[a] in source)
    && (forall a :: a in source && a != n && a in fs.up && fs.up[a] == n ==> a in fs.kids[n][..i])
  }

  lemma SourceIsOk(fs: Fs, n: Node, i: nat)
    requires Tree(fs) && n in fs.kids && i <= |fs.kids[n]|
    ensures SourceOk(fs, n, i, Source(fs, n, i))
  {
    hide Tree, Within, Below, GoneFirst;
    SourceFacts(fs, n, i);
    KidsKnown(fs, n);
    if n in fs.up {
      ParentStays(fs, n);
      assert fs.up[n] in fs.kids && fs.up[n] !in Source(fs, n, i) by { NotBelow(fs, fs.up[n], n, Source(fs, n, i)); }
    }
  }

  lemma NotBelow(fs: Fs, m: Node, n: Node, source: set<Node>)
    requires m in fs.kids && m !in Below(fs, n) && forall a :: a in source ==> Within(fs.up, a, n)
    ensures m !in source
  {
    hide Within;
  }

  lemma PairedIn(twin: map<Node, Node>, s: seq<Node>, s': seq<Node>)
    requires Paired(twin, s, s')
    ensures forall a :: a in s ==> a in twin && twin[a] in s'
    ensures forall c :: c in s' ==> exists a :: a in s && a in twin && twin[a] == c
  {
    forall a | a in s ensures a in twin && twin[a] in s' {
      var k :| 0 <= k < |s| && s[k] == a;
      assert s'[k] == twin[a];
    }
    forall c | c in s' ensures exists a :: a in s && a in twin && twin[a] == c {
      var k :| 0 <= k < |s'| && s'[k] == c;
      assert s[k] in s && s[k] in twin && twin[s[k]] == c;
    }
  }

  lemma PairedDistinct(fs: Fs, twin: map<Node, Node>, source: set<Node>, s: seq<Node>, s': seq<Node>)
    requires Paired(twin, s, s') && Twins(fs, twin, source) && Distinct(s)
    ensures Distinct(s')
  {
    forall j, k | 0 <= j < k < |s'| ensures s'[j] != s'[k] {
      assert s[j] != s[k];
    }
  }

  /** Every node of the copy's file system is an old one or a twin. */
  lemma OldOrTwin(fs: Fs, g: Fs, twin: map<Node, Node>, c: Node) returns (a: Node)
    requires SameNodes(fs, g, twin) && c in g.kids && c !in fs.kids
    ensures a in twin && twin[a] == c
  {
    assert c in twin.Values;
    a :| a in twin && twin[a] == c;
  }

  lemma TwinUp(fs: Fs, g: Fs, n: Node, p: Node, name: string, twin: map<Node, Node>, i: nat, source: set<Node>, a: Node)
    requires Linked(fs.root, fs.kids, fs.up) && SourceOk(fs, n, i, source) && p in fs.kids
    requires Twins(fs, twin, source) && OldKept(fs, g, p, twin[n]) && NewTwins(fs, g, n, p, name, twin, i) && a in twin
    ensures twin[a] in g.up && g.up[twin[a]] in g.kids && twin[a] in g.kids[g.up[twin[a]]]
  {
    hide Distinct, Paired;
    if a != n {
      var d := fs.up[a];
      assert twin[d] in g.kids;
      PairedIn(twin, if d == n then fs.kids[n][..i] else fs.kids[d], g.kids[twin[d]]);
    }
  }

  lemma TwinKids(fs: Fs, g: Fs, n: Node, p: Node, name: string, twin: map<Node, Node>, i: nat, a: Node, c: Node)
    requires Linked(fs.root, fs.kids, fs.up) && n in fs.kids && i <= |fs.kids[n]|
    requires NewTwins(fs, g, n, p, name, twin, i) && a in twin && twin[a] in g.kids && c in g.kids[twin[a]]
    requires n in fs.up ==> fs.up[n] !in twin
    ensures c in g.up && g.up[c] == twin[a]
  {
    hide Distinct, Paired;
    var s := if a == n then fs.kids[n][..i] else fs.kids[a];
    PairedIn(twin, s, g.kids[twin[a]]);
    var b :| b in s && b in twin && twin[b] == c;
    assert b in fs.kids[a];
    assert fs.up[b] == a;
  }

  lemma GraftedLinks(fs: Fs, g: Fs, n: Node, p: Node, name: string, twin: map<Node, Node>, i: nat, source: set<Node>)
    requires Linked(fs.root, fs.kids, fs.up) && SourceOk(fs, n, i, source) && p in fs.kids
    requires Twins(fs, twin, source) && SameNodes(fs, g, twin) && OldKept(fs, g, p, twin[n]) && NewTwins(fs, g, n, p, name, twin, i)
    ensures Linked(g.root, g.kids, g.up)
  {
    hide Distinct, NewTwins, OldKept, SourceOk, Twins, SameNodes, Linked;
    GraftedKeys(fs, g, twin, source);
    TopIn(fs, n, i, source, twin);
    forall c | c in g.up ensures g.up[c] in g.kids && c in g.kids[g.up[c]] {
      ParentHas(fs, g, n, p, name, twin, i, source, c);
    }
    forall m, c | m in g.kids && c in g.kids[m] ensures c in g.up && g.up[c] == m {
      ChildUp(fs, g, n, p, name, twin, i, source, m, c);
    }
    forall m | m in g.kids ensures Distinct(g.kids[m]) {
      KidsDistinct(fs, g, n, p, name, twin, i, source, m);
    }
    LinkedBy(g.root, g.kids, g.up);
  }

  lemma LinkedBy(root: Node, kids: map<Node, seq<Node>>, up: map<Node, Node>)
    requires root in kids && up.Keys == kids.Keys - {root}
    requires forall c :: c in up ==> up[c] in kids && c in kids[up[c]]
    requires forall m, c :: m in kids && c in kids[m] ==> c in up && up[c] == m
    requires forall m :: m in kids ==> Distinct(kids[m])
    ensures Linked(root, kids, up)
  {
    hide Distinct;
  }

  lemma TopIn(fs: Fs, n: Node, i: nat, source: set<Node>, twin: map<Node, Node>)
    requires SourceOk(fs, n, i, source) && Twins(fs, twin, source)
    ensures n in twin
  {
  }

  lemma GraftedKeys(fs: Fs, g: Fs, twin: map<Node, Node>, source: set<Node>)
    requires Linked(fs.root, fs.kids, fs.up) && Twins(fs, twin, source) && SameNodes(fs, g, twin)
    ensures g.root in g.kids && g.up.Keys == g.kids.Keys - {g.root}
  {
    hide Distinct;
    forall v | v in twin.Values ensures v !in fs.kids {
      var a :| a in twin && twin[a] == v;
    }
  }

  lemma ParentHas(fs: Fs, g: Fs, n: Node, p: Node, name: string, twin: map<Node, Node>, i: nat, source: set<Node>, c: Node)
    requires Linked(fs.root, fs.kids, fs.up) && SourceOk(fs, n, i, source) && p in fs.kids
    requires Twins(fs, twin, source) && SameNodes(fs, g, twin) && OldKept(fs, g, p, twin[n]) && NewTwins(fs, g, n, p, name, twin, i)
    requires c in g.up
    ensures g.up[c] in g.kids && c in g.kids[g.up[c]]
  {
    hide Distinct, NewTwins, SourceOk;
    if c in fs.up {
      assert fs.up[c] in fs.kids && c in fs.kids[fs.up[c]];
    } else {
      assert c in twin.Values;
      var a :| a in twin && twin[a] == c;
      TwinUp(fs, g, n, p, name, twin, i, source, a);
    }
  }

  lemma ChildUp(fs: Fs, g: Fs, n: Node, p: Node, name: string, twin: map<Node, Node>, i: nat, source: set<Node>, m: Node, c: Node)
    requires Linked(fs.root, fs.kids, fs.up) && SourceOk(fs, n, i, source) && p in fs.kids
    requires Twins(fs, twin, source) && SameNodes(fs, g, twin) && OldKept(fs, g, p, twin[n]) && NewTwins(fs, g, n, p, name, twin, i)
    requires m in g.kids && c in g.kids[m]
    ensures c in g.up && g.up[c] == m
  {
    hide Distinct, Paired;
    if m in fs.kids {
      if c in fs.kids[m] {
        assert c in fs.up && fs.up[c] == m;
      } else {
        assert c == twin[n] && m == p;
      }
    } else {
      var a := OldOrTwin(fs, g, twin, m);
      TwinKids(fs, g, n, p, name, twin, i, a, c);
    }
  }

  lemma KidsDistinct(fs: Fs, g: Fs, n: Node, p: Node, name: string, twin: map<Node, Node>, i: nat, source: set<Node>, m: Node)
    requires Linked(fs.root, fs.kids, fs.up) && SourceOk(fs, n, i, source) && p in fs.kids
    requires Twins(fs, twin, source) && SameNodes(fs, g, twin) && OldKept(fs, g, p, twin[n]) && NewTwins(fs, g, n, p, name, twin, i)
    requires m in g.kids
    ensures Distinct(g.kids[m])
  {
    if m in fs.kids {
      assert Distinct(fs.kids[m]);
      if m == p {
        assert twin[n] !in fs.kids[p];
        AppendDistinct(fs.kids[p], twin[n]);
      }
    } else {
      var a := OldOrTwin(fs, g, twin, m);
      assert Distinct(fs.kids[a]);
      PairedDistinct(fs, twin, source, if a == n then fs.kids[n][..i] else fs.kids[a], g.kids[m]);
    }
  }

  lemma GraftedTyped(fs: Fs, g: Fs, n: Node, p: Node, name: string, twin: map<Node, Node>, i: nat)
    requires Typed(fs.kids, fs.info) && n in fs.kids && i <= |fs.kids[n]| && p in fs.kids && fs.info[p].kind == Directory && n in twin
    requires SameNodes(fs, g, twin) && OldKept(fs, g, p, twin[n]) && NewTwins(fs, g, n, p, name, twin, i)
    ensures Typed(g.kids, g.info)
  {
    forall m | m in g.kids && |g.kids[m]| > 0 ensures g.info[m].kind == Directory {
      if m !in fs.kids {
        var a := OldOrTwin(fs, g, twin, m);
      }
    }
  }

  lemma GraftedNamed(fs: Fs, g: Fs, n: Node, p: Node, name: string, twin: map<Node, Node>, i: nat)
    requires Named(fs.kids, fs.info) && n in fs.kids && i <= |fs.kids[n]| && p in fs.kids && n in twin
    requires forall c :: c in fs.kids[p] && c in fs.info ==> fs.info[c].name != name
    requires n in fs.up ==> fs.up[n] !in twin
    requires Linked(fs.root, fs.kids, fs.up)
    requires SameNodes(fs, g, twin) && OldKept(fs, g, p, twin[n]) && NewTwins(fs, g, n, p, name, twin, i)
    ensures Named(g.kids, g.info)
  {
    hide Distinct, Paired;
    forall m | m in g.kids ensures NamesDiffer(g.kids[m], g.info) {
      if m in fs.kids {
        hide NewTwins;
        assert NamesDiffer(fs.kids[m], fs.info);
        NamesSame(fs.kids[m], fs.info, g.info);
        if m == p {
          assert twin[n] in g.info && g.info[twin[n]].name == name by { TopName(fs, g, n, p, name, twin, i); }
          NamesMore(fs.kids[p], twin[n], g.info);
        }
      } else {
        var a := OldOrTwin(fs, g, twin, m);
        TwinNames(fs, g, n, p, name, twin, i, a);
      }
    }
  }

  lemma TopName(fs: Fs, g: Fs, n: Node, p: Node, name: string, twin: map<Node, Node>, i: nat)
    requires NewTwins(fs, g, n, p, name, twin, i) && n in twin
    ensures twin[n] in g.info && g.info[twin[n]].name == name
  {
    hide Paired;
  }

  /** Twins below the top have the names of what they copy. */
  lemma TwinNames(fs: Fs, g: Fs, n: Node, p: Node, name: string, twin: map<Node, Node>, i: nat, a: Node)
    requires Named(fs.kids, fs.info) && Linked(fs.root, fs.kids, fs.up) && n in fs.kids && i <= |fs.kids[n]| && a in twin
    requires n in fs.up ==> fs.up[n] !in twin
    requires NewTwins(fs, g, n, p, name, twin, i)
    ensures a in fs.kids && twin[a] in g.kids && NamesDiffer(g.kids[twin[a]], g.info)
  {
    hide Distinct, Paired, Linked, Named, NamesDiffer;
    var s, s' := if a == n then fs.kids[n][..i] else fs.kids[a], g.kids[twin[a]];
    forall b | b in s && b in twin ensures b in fs.info && twin[b] in g.info && g.info[twin[b]] == fs.info[b] {
      TwinInfo(fs, g, n, p, name, twin, i, a, b);
    }
    NamedAt(fs, a);
    hide NewTwins;
    PairedNames(twin, fs.kids[a], s, s', fs.info, g.info);
  }

  lemma NamedAt(fs: Fs, a: Node)
    requires Named(fs.kids, fs.info) && a in fs.kids
    ensures NamesDiffer(fs.kids[a], fs.info)
  {
  }

  lemma TwinInfo(fs: Fs, g: Fs, n: Node, p: Node, name: string, twin: map<Node, Node>, i: nat, a: Node, b: Node)
    requires Linked(fs.root, fs.kids, fs.up) && n in fs.kids && i <= |fs.kids[n]| && a in twin && b in twin && a in fs.kids && b in fs.kids[a]
    requires n in fs.up ==> fs.up[n] !in twin
    requires NewTwins(fs, g, n, p, name, twin, i)
    ensures b in fs.info && twin[b] in g.info && g.info[twin[b]] == fs.info[b]
  {
    hide Distinct, Paired;
    assert fs.up[b] == a;
  }

  lemma PairedNames(twin: map<Node, Node>, all: seq<Node>, s: seq<Node>, s': seq<Node>, info: map<Node, Info>, info': map<Node, Info>)
    requires Paired(twin, s, s') && NamesDiffer(all, info) && forall b :: b in s ==> b in all
    requires forall b :: b in s && b in twin ==> b in info && twin[b] in info' && info'[twin[b]] == info[b]
    ensures NamesDiffer(s', info')
  {
    PairedIn(twin, s, s');
    hide Paired;
    forall c, d | c in s' && d in s' && c != d ensures c in info' && d in info' && info'[c].name != info'[d].name {
      var b :| b in s && b in twin && twin[b] == c;
      var e :| e in s && e in twin && twin[e] == d;
      assert info'[twin[b]] == info[b] && info'[twin[e]] == info[e];
    }
    forall c | c in s' ensures c in info' {
      var b :| b in s && b in twin && twin[b] == c;
    }
  }

  lemma GraftedSound(fs: Fs, g: Fs, n: Node, p: Node, name: string, twin: map<Node, Node>, i: nat)
    requires Sound(fs.info) && n in twin
    requires SameNodes(fs, g, twin) && OldKept(fs, g, p, twin[n]) && NewTwins(fs, g, n, p, name, twin, i)
    ensures Sound(g.info)
  {
    hide Paired;
    forall m | m in g.info
      ensures if g.info[m].kind == File && g.info[m].size > 0 then g.info[m].data.Some? && |g.info[m].data.value| == g.info[m].size
              else g.info[m].data == None && g.info[m].size == 0
    {
      if m in fs.info {
        assert g.info[m] == fs.info[m];
      } else {
        assert m in twin.Values;
        var a :| a in twin && twin[a] == m;
        assert a in fs.info;
      }
    }
  }

  ghost function Original(twin: map<Node, Node>, x: Node): (a: Node)
    requires x in twin.Values
    ensures a in twin && twin[a] == x
  {
    var a :| a in twin && twin[a] == x;
    a
  }

  /** The copy is as high as the source, and everything else is lifted above it. */
  ghost function GraftHeight(kids: map<Node, seq<Node>>, twin: map<Node, Node>, h: map<Node, nat>, lift: nat): map<Node, nat>
    requires kids.Keys <= h.Keys && twin.Keys <= h.Keys
  {
    map x | x in kids.Keys + twin.Values :: if x in kids then h[x] + lift + 1 else h[Original(twin, x)]
  }

  lemma GraftedHeight(fs: Fs, g: Fs, n: Node, p: Node, name: string, twin: map<Node, Node>, i: nat, source: set<Node>, h: map<Node, nat>)
    requires Linked(fs.root, fs.kids, fs.up) && Height(fs.kids, fs.up, h) && SourceOk(fs, n, i, source) && p in fs.kids
    requires Twins(fs, twin, source) && SameNodes(fs, g, twin) && OldKept(fs, g, p, twin[n]) && NewTwins(fs, g, n, p, name, twin, i)
    ensures KidsIn(fs, twin, h) && n in h && Height(g.kids, g.up, GraftHeight(fs.kids, twin, h, h[n]))
  {
    hide Linked, Height, SourceOk, Twins, SameNodes, OldKept, NewTwins, Paired, GraftHeight;
    UpKnown(fs, h);
    TopIn(fs, n, i, source, twin);
    KidsAreIn(fs, g, n, p, name, twin, i, h);
    var h' := GraftHeight(fs.kids, twin, h, h[n]);
    GraftKeys(fs, g, twin, h, h[n]);
    forall c | c in g.up && c in h' && g.up[c] in h' ensures h'[c] < h'[g.up[c]] {
      if c in fs.up {
        OldHeight(fs, g, twin, p, h, h[n], c);
      } else {
        NewUps(fs, g, twin, c);
        NewHeight(fs, g, n, p, name, twin, i, source, h, c);
      }
    }
    HeightBy(g.kids, g.up, h');
  }

  lemma NewUps(fs: Fs, g: Fs, twin: map<Node, Node>, c: Node)
    requires SameNodes(fs, g, twin) && c in g.up && c !in fs.up
    ensures c in twin.Values
  {
  }

  lemma HeightBy(kids: map<Node, seq<Node>>, up: map<Node, Node>, h: map<Node, nat>)
    requires kids.Keys <= h.Keys && forall c :: c in up && c in h && up[c] in h ==> h[c] < h[up[c]]
    ensures Height(kids, up, h)
  {
  }

  lemma KidsAreIn(fs: Fs, g: Fs, n: Node, p: Node, name: string, twin: map<Node, Node>, i: nat, h: map<Node, nat>)
    requires NewTwins(fs, g, n, p, name, twin, i) && n in twin && forall c :: c in fs.kids ==> c in h
    ensures KidsIn(fs, twin, h) && n in h
  {
    hide Paired;
    assert forall a :: a in twin ==> a in fs.kids;
  }

  lemma GraftKeys(fs: Fs, g: Fs, twin: map<Node, Node>, h: map<Node, nat>, lift: nat)
    requires KidsIn(fs, twin, h) && SameNodes(fs, g, twin)
    ensures GraftHeight(fs.kids, twin, h, lift).Keys == g.kids.Keys
  {
  }

  lemma OldHeight(fs: Fs, g: Fs, twin: map<Node, Node>, p: Node, h: map<Node, nat>, lift: nat, c: Node)
    requires Linked(fs.root, fs.kids, fs.up) && Height(fs.kids, fs.up, h) && KidsIn(fs, twin, h) && c in fs.up
    requires p in fs.kids && exists top :: OldKept(fs, g, p, top)
    ensures var h' := GraftHeight(fs.kids, twin, h, lift);
            c in g.up && c in h' && g.up[c] in h' && h'[c] < h'[g.up[c]]
  {
    hide Distinct;
    var top :| OldKept(fs, g, p, top);
    assert fs.up[c] in fs.kids && c in fs.kids;
  }

  lemma NewHeight(fs: Fs, g: Fs, n: Node, p: Node, name: string, twin: map<Node, Node>, i: nat, source: set<Node>, h: map<Node, nat>, c: Node)
    requires Height(fs.kids, fs.up, h) && KidsIn(fs, twin, h) && n in twin && n in h && p in fs.kids
    requires Twins(fs, twin, source) && NewTwins(fs, g, n, p, name, twin, i) && c in g.up && c in twin.Values
    ensures var h' := GraftHeight(fs.kids, twin, h, h[n]);
            c in h' && g.up[c] in h' ==> h'[c] < h'[g.up[c]]
  {
    hide Paired;
    var a := Original(twin, c);
    if a != n {
      var d := fs.up[a];
      assert g.up[c] == twin[d] && twin[d] in twin.Values && Original(twin, g.up[c]) == d;
      assert a in h && d in h;
    }
  }

  ghost predicate KidsIn(fs: Fs, twin: map<Node, Node>, h: map<Node, nat>) {
    fs.kids.Keys <= h.Keys && twin.Keys <= fs.kids.Keys
  }

  /** A copy in a fit place keeps the tree, also while it is being made. */
  lemma GraftedKeeps(fs: Fs, g: Fs, n: Node, p: Node, name: string, twin: map<Node, Node>, i: nat)
    requires Valid(fs) && Place(fs, n, p, name) && Grafted(fs, g, n, p, name, twin, i)
    ensures Valid(g)
  {
    hide Linked, Typed, Named, Height, Sound, Within, Twins, SameNodes, OldKept, NewTwins, Source, SourceOk, KidsIn;
    var source := Source(fs, n, i);
    SourceIsOk(fs, n, i);
    TopIn(fs, n, i, source, twin);
    TopParent(fs, n, i, source, twin);
    var h :| Height(fs.kids, fs.up, h);
    GraftedLinks(fs, g, n, p, name, twin, i, source);
    GraftedTyped(fs, g, n, p, name, twin, i);
    GraftedNamed(fs, g, n, p, name, twin, i);
    GraftedSound(fs, g, n, p, name, twin, i);
    GraftedHeight(fs, g, n, p, name, twin, i, source, h);
  }

  lemma TopParent(fs: Fs, n: Node, i: nat, source: set<Node>, twin: map<Node, Node>)
    requires SourceOk(fs, n, i, source) && Twins(fs, twin, source)
    ensures n in fs.up ==> fs.up[n] !in twin
  {
  }

  // ---------------------------------------------------------------------------
  // Making a copy

  /** The copy starts as one new node that says what the source says, under another name. */
  lemma GraftStart(fs: Fs, n: Node, p: Node, name: string, new_: Node)
    requires Place(fs, n, p, name) && new_ !in fs.kids && new_ !in fs.up && new_ !in fs.info
    ensures Grafted(fs, Attach(fs, new_, p, fs.info[n].(name := name)), n, p, name, map[n := new_], 0)
  {
    hide Within;
    assert Source(fs, n, 0) == {n};
    var twin, g := map[n := new_], Attach(fs, new_, p, fs.info[n].(name := name));
    assert twin.Values == {new_} by { assert twin[n] in twin.Values; }
    assert SameNodes(fs, g, twin);
    assert OldKept(fs, g, p, twin[n]);
  }

  /** Two nodes above a third one are above one another. */
  lemma {:induction false} AboveBoth(up: map<Node, Node>, m: Node, a: Node, b: Node, j: nat, k: nat)
    requires Above(up, m, j) == Some(a) && Above(up, m, k) == Some(b) && j <= k
    ensures Within(up, a, b)
    decreases j
  {
    if j == 0 {
      assert Above(up, a, k) == Some(b);
    } else {
      AboveBoth(up, up[m], a, b, j - 1, k - 1);
    }
  }

  /** Different children of a node have nothing below them in common. */
  lemma SiblingsApart(fs: Fs, n: Node, i: nat, m: Node)
    requires Tree(fs) && n in fs.kids && i < |fs.kids[n]| && Within(fs.up, m, fs.kids[n][i])
    ensures m !in GoneFirst(fs, n, i) && m != n
  {
    hide Typed, Named, Height;
    var c := fs.kids[n][i];
    assert c in fs.kids[n] && c in fs.up && fs.up[c] == n;
    ChildNotAbove(fs, n, c);
    var k: nat :| Above(fs.up, m, k) == Some(c);
    if m in GoneFirst(fs, n, i) {
      var j :| 0 <= j < i && Within(fs.up, m, fs.kids[n][j]);
      var d := fs.kids[n][j];
      assert d in fs.kids[n] && d != c;
      hide Linked, Distinct;
      ChildrenApart(fs, n, c, d);
      ChildrenApart(fs, n, d, c);
      var l: nat :| Above(fs.up, m, l) == Some(d);
      if k <= l {
        AboveBoth(fs.up, m, c, d, k, l);
      } else {
        AboveBoth(fs.up, m, d, c, l, k);
      }
    }
  }

  lemma ChildNotAbove(fs: Fs, n: Node, c: Node)
    requires Tree(fs) && n in fs.kids && c in fs.up && fs.up[c] == n
    ensures !Within(fs.up, n, c)
  {
    hide Typed, Named, Distinct;
    var h :| Height(fs.kids, fs.up, h);
    UpKnown(fs, h);
    if Within(fs.up, n, c) {
      WithinHeight(fs.kids, fs.up, h, n, c);
    }
  }

  lemma ChildrenApart(fs: Fs, n: Node, c: Node, d: Node)
    requires Tree(fs) && n in fs.kids && c in fs.kids[n] && d in fs.kids[n] && c != d
    ensures !Within(fs.up, d, c)
  {
    hide Typed, Named, Height, Distinct, Within;
    assert d in fs.up && fs.up[d] == n && c in fs.up && fs.up[c] == n;
    WithinStep(fs.up, d, c);
    ChildNotAbove(fs, n, c);
  }

  lemma SourceNext(fs: Fs, n: Node, i: nat)
    requires Tree(fs) && n in fs.kids && i < |fs.kids[n]|
    ensures Source(fs, n, i + 1) == Source(fs, n, i) + Below(fs, fs.kids[n][i])
    ensures Source(fs, n, i) !! Below(fs, fs.kids[n][i])
  {
    hide Tree, Within;
    var c := fs.kids[n][i];
    forall m | m in Below(fs, c) ensures m in GoneFirst(fs, n, i + 1) && m !in Source(fs, n, i) {
      assert Within(fs.up, m, fs.kids[n][i]);
      SiblingsApart(fs, n, i, m);
    }
    forall m | m in GoneFirst(fs, n, i) ensures m in GoneFirst(fs, n, i + 1) {
      var j :| 0 <= j < i && Within(fs.up, m, fs.kids[n][j]);
    }
    forall m | m in GoneFirst(fs, n, i + 1) ensures m in GoneFirst(fs, n, i) || m in Below(fs, c) {
      var j :| 0 <= j < i + 1 && Within(fs.up, m, fs.kids[n][j]);
    }
  }

  /** Going up from an old node meets only old nodes, the same as before. */
  lemma {:induction false} AboveOld(fs: Fs, g: Fs, twin: map<Node, Node>, p: Node, top: Node, m: Node, k: nat)
    requires Linked(fs.root, fs.kids, fs.up) && SameNodes(fs, g, twin) && OldKept(fs, g, p, top) && m in fs.kids && m !in twin.Values
    requires forall x :: x in twin.Values ==> x !in fs.kids
    ensures Above(g.up, m, k) == Above(fs.up, m, k) && (Above(fs.up, m, k).Some? ==> Above(fs.up, m, k).value in fs.kids)
    decreases k
  {
    hide Distinct;
    if k > 0 {
      if m in fs.up {
        assert g.up[m] == fs.up[m] && fs.up[m] in fs.kids;
        AboveOld(fs, g, twin, p, top, fs.up[m], k - 1);
      } else {
        assert m !in g.up;
      }
    }
  }

  lemma WithinOld(fs: Fs, g: Fs, twin: map<Node, Node>, p: Node, top: Node, m: Node, c: Node)
    requires Linked(fs.root, fs.kids, fs.up) && SameNodes(fs, g, twin) && OldKept(fs, g, p, top) && m in fs.kids
    requires forall x :: x in twin.Values ==> x !in fs.kids
    ensures Within(g.up, m, c) <==> Within(fs.up, m, c)
  {
    hide Linked, SameNodes, OldKept;
    if Within(g.up, m, c) {
      var k: nat :| Above(g.up, m, k) == Some(c);
      AboveOld(fs, g, twin, p, top, m, k);
    }
    if Within(fs.up, m, c) {
      var k: nat :| Above(fs.up, m, k) == Some(c);
      AboveOld(fs, g, twin, p, top, m, k);
    }
  }

  /** Going up from a twin comes out at the top of the copy, and then at p. */
  lemma {:induction false} TwinNotBelow(fs: Fs, g: Fs, n: Node, p: Node, name: string, twin: map<Node, Node>, i: nat, h: map<Node, nat>, a: Node, c: Node)
    requires Linked(fs.root, fs.kids, fs.up) && Height(fs.kids, fs.up, h) && n in fs.kids && p in fs.kids && n in twin
    requires NewTwins(fs, g, n, p, name, twin, i) && a in twin && c in fs.kids && !Within(g.up, p, c)
    requires forall x :: x in twin ==> twin[x] !in fs.kids
    ensures !Within(g.up, twin[a], c)
    decreases NodesAbove(h, a)
  {
    UpKnown(fs, h);
    hide Linked, Paired, Within;
    WithinStep(g.up, twin[a], c);
    if a != n {
      assert h[a] < h[fs.up[a]];
      FewerAbove(h, a, fs.up[a]);
      TwinNotBelow(fs, g, n, p, name, twin, i, h, fs.up[a], c);
    }
  }

  ghost function NodesAbove(h: map<Node, nat>, a: Node): set<Node> {
    set m | m in h && (a in h ==> h[m] > h[a])
  }

  lemma FewerAbove(h: map<Node, nat>, a: Node, b: Node)
    requires a in h && b in h && h[a] < h[b]
    ensures NodesAbove(h, b) < NodesAbove(h, a)
  {
    assert b in NodesAbove(h, a) && b !in NodesAbove(h, b);
  }

  /** What is below an old node outside the destination's ancestors is what was. */
  lemma BelowOld(fs: Fs, g: Fs, n: Node, p: Node, name: string, twin: map<Node, Node>, i: nat, c: Node)
    requires Tree(fs) && Place(fs, n, p, name) && Grafted(fs, g, n, p, name, twin, i) && c in fs.kids && Within(fs.up, c, n)
    ensures Below(g, c) == Below(fs, c)
  {
    hide Typed, Named, Height, Within, NewTwins;
    var h :| Height(fs.kids, fs.up, h);
    TwinsNew(fs, twin, Source(fs, n, i));
    assert !Within(fs.up, p, c) by { NotBelowEither(fs, p, c, n); }
    WithinOld(fs, g, twin, p, twin[n], p, c);
    forall m | m in g.kids ensures Within(g.up, m, c) <==> m in fs.kids && Within(fs.up, m, c) {
      if m in fs.kids {
        WithinOld(fs, g, twin, p, twin[n], m, c);
      } else {
        var a := OldOrTwin(fs, g, twin, m);
        TwinNotBelow(fs, g, n, p, name, twin, i, h, a, c);
      }
    }
  }

  lemma TwinsNew(fs: Fs, twin: map<Node, Node>, source: set<Node>)
    requires Twins(fs, twin, source)
    ensures forall x :: x in twin.Values ==> x !in fs.kids && x !in fs.up && x !in fs.info
    ensures forall x :: x in twin ==> twin[x] !in fs.kids
  {
    forall x | x in twin.Values ensures x !in fs.kids && x !in fs.up && x !in fs.info {
      var a :| a in twin && twin[a] == x;
    }
  }

  lemma NotBelowEither(fs: Fs, p: Node, c: Node, n: Node)
    requires !Within(fs.up, p, n) && Within(fs.up, c, n)
    ensures !Within(fs.up, p, c)
  {
    if Within(fs.up, p, c) {
      var j: nat :| Above(fs.up, p, j) == Some(c);
      var k: nat :| Above(fs.up, c, k) == Some(n);
      AboveSum(fs.up, p, c, j, k);
    }
  }

  lemma {:induction false} AboveSum(up: map<Node, Node>, m: Node, c: Node, j: nat, k: nat)
    requires Above(up, m, j) == Some(c)
    ensures Above(up, m, j + k) == Above(up, c, k)
    decreases j
  {
    if j > 0 {
      AboveSum(up, up[m], c, j - 1, k);
    }
  }

  lemma CopiedSource(g: Fs, g2: Fs, c: Node, top: Node, name: string, twin: map<Node, Node>)
    requires Tree(g) && Copied(g, g2, c, top, name, twin)
    ensures twin.Keys == Below(g, c)
  {
    hide Tree, Below, GoneFirst, SameNodes, OldKept, NewTwins;
    GoneAll(g, c);
    SelfBelow(g, c);
  }

  lemma BothTwins(fs: Fs, g: Fs, twin: map<Node, Node>, twin2: map<Node, Node>, source: set<Node>, source2: set<Node>)
    requires Twins(fs, twin, source) && Twins(g, twin2, source2) && SameNodes(fs, g, twin) && source !! source2
    ensures Twins(fs, twin + twin2, source + source2)
  {
    forall a | a in twin ensures twin[a] in g.kids {
      assert twin[a] in twin.Values;
    }
  }

  lemma BothValues(twin: map<Node, Node>, twin2: map<Node, Node>)
    requires twin.Keys !! twin2.Keys
    ensures (twin + twin2).Values == twin.Values + twin2.Values
  {
    var both := twin + twin2;
    forall v | v in twin.Values ensures v in both.Values {
      var a :| a in twin && twin[a] == v;
      assert both[a] == v;
    }
    forall v | v in twin2.Values ensures v in both.Values {
      var a :| a in twin2 && twin2[a] == v;
      assert both[a] == v;
    }
  }

  lemma BothOld(fs: Fs, g: Fs, g2: Fs, p: Node, top: Node, top2: Node)
    requires OldKept(fs, g, p, top) && OldKept(g, g2, top, top2) && top !in fs.kids
    ensures OldKept(fs, g2, p, top)
  {
  }

  lemma PairedMore(twin: map<Node, Node>, both: map<Node, Node>, s: seq<Node>, s': seq<Node>)
    requires Paired(twin, s, s') && forall x :: x in twin ==> x in both && both[x] == twin[x]
    ensures Paired(both, s, s')
  {
  }

  lemma PairedLast(twin: map<Node, Node>, s: seq<Node>, s': seq<Node>, i: nat)
    requires i < |s| && Paired(twin, s[..i], s') && s[i] in twin
    ensures Paired(twin, s[..i + 1], s' + [twin[s[i]]])
  {
    forall k | 0 <= k < i + 1 ensures s[..i + 1][k] in twin && (s' + [twin[s[i]]])[k] == twin[s[..i + 1][k]] {
      if k < i {
        assert s[..i][k] == s[k];
      }
    }
  }

  /** The twins made so far keep what they say; the top gets one more child. */
  lemma EarlierTwins(fs: Fs, g: Fs, g2: Fs, n: Node, p: Node, name: string, twin: map<Node, Node>, both: map<Node, Node>, i: nat, c: Node, source: set<Node>, a: Node)
    requires Twins(fs, twin, source) && NewTwins(fs, g, n, p, name, twin, i)
    requires n in twin && c in both && OldKept(g, g2, twin[n], both[c]) && (forall x :: x in twin ==> x in both && both[x] == twin[x])
    requires n in fs.kids && i < |fs.kids[n]| && fs.kids[n][i] == c && a in twin
    ensures a in fs.kids && a in fs.info && twin[a] in g2.kids && twin[a] in g2.up && twin[a] in g2.info
    ensures Paired(both, if a == n then fs.kids[n][..i + 1] else fs.kids[a], g2.kids[twin[a]])
    ensures g2.info[twin[a]] == g.info[twin[a]] && g2.up[twin[a]] == g.up[twin[a]]
  {
    hide Paired;
    assert twin[a] in g.kids && twin[a] in g.up && twin[a] in g.info;
    PairedMore(twin, both, if a == n then fs.kids[n][..i] else fs.kids[a], g.kids[twin[a]]);
    if a == n {
      PairedLast(both, fs.kids[n], g.kids[twin[n]], i);
    } else {
      assert twin[a] != twin[n];
    }
  }

  /** The new twins are what they copy, also seen from the file system before the copy. */
  lemma LaterTwins(fs: Fs, g: Fs, g2: Fs, n: Node, p: Node, top: Node, twin2: map<Node, Node>, both: map<Node, Node>, c: Node, source2: set<Node>, b: Node)
    requires OldKept(fs, g, p, top) && c in g.kids && c in g.info && NewTwins(g, g2, c, top, g.info[c].name, twin2, |g.kids[c]|) && b in twin2
    requires source2 == twin2.Keys && p !in source2 && b in fs.kids && b in fs.info && c in fs.up && fs.up[c] == n
    requires b in g.up ==> b in fs.up
    requires n in both && both[n] == top && (forall x :: x in twin2 ==> x in both && both[x] == twin2[x])
    ensures twin2[b] in g2.kids && twin2[b] in g2.up && twin2[b] in g2.info
    ensures Paired(both, fs.kids[b], g2.kids[twin2[b]]) && g2.info[twin2[b]] == fs.info[b]
    ensures b in fs.up && fs.up[b] in both && g2.up[twin2[b]] == both[fs.up[b]]
  {
    assert b != p;
    assert g.kids[b] == fs.kids[b] && g.info[b] == fs.info[b];
    assert g.kids[c][..|g.kids[c]|] == g.kids[c];
    assert Paired(twin2, fs.kids[b], g2.kids[twin2[b]]);
  }

  /** One turn of the loop of ramfs_copy. */
  lemma GraftStep(fs: Fs, g: Fs, g2: Fs, n: Node, p: Node, name: string, twin: map<Node, Node>, twin2: map<Node, Node>, i: nat)
    requires n in fs.kids && i < |fs.kids[n]| && n in twin && fs.kids[n][i] in fs.info
    requires Valid(fs) && Place(fs, n, p, name) && Grafted(fs, g, n, p, name, twin, i)
    requires Copied(g, g2, fs.kids[n][i], twin[n], fs.info[fs.kids[n][i]].name, twin2)
    ensures Grafted(fs, g2, n, p, name, twin + twin2, i + 1)
  {
    hide Valid, Place, Twins, SameNodes, OldKept, NewTwins, Source, Below;
    SourceKnown(fs, n, p, name);
    var c, both := fs.kids[n][i], twin + twin2;
    StepKeys(fs, g, g2, n, p, name, twin, twin2, i);
    BothTwins(fs, g, twin, twin2, Source(fs, n, i), Below(fs, c));
    TwinsNew(fs, twin, Source(fs, n, i));
    BothOld(fs, g, g2, p, twin[n], twin2[c]);
    BothValues(twin, twin2);
    BothSame(fs, g, g2, twin, twin2, both);
    forall a | a in both ensures TwinAt(fs, g2, n, p, name, both, i + 1, a) {
      if a in twin2 {
        StepLater(fs, g, g2, n, p, name, twin, twin2, i, c, Below(fs, c), a);
      } else {
        StepEarlier(fs, g, g2, n, p, name, twin, both, i, c, Source(fs, n, i), a);
      }
    }
    NewTwinsBy(fs, g2, n, p, name, both, i + 1);
  }

  lemma SourceKnown(fs: Fs, n: Node, p: Node, name: string)
    requires Place(fs, n, p, name)
    ensures n in fs.info && n in fs.kids
  {
  }

  /** What NewTwins says of one twin. */
  ghost predicate TwinAt(fs: Fs, g: Fs, n: Node, p: Node, name: string, twin: map<Node, Node>, i: nat, a: Node) {
    a in twin
    && a in fs.kids && a in fs.info && twin[a] in g.kids && twin[a] in g.up && twin[a] in g.info
    && n in fs.kids && n in fs.info && i <= |fs.kids[n]|
    && Paired(twin, if a == n then fs.kids[n][..i] else fs.kids[a], g.kids[twin[a]])
    && g.info[twin[a]] == (if a == n then fs.info[n].(name := name) else fs.info[a])
    && (if a == n then g.up[twin[a]] == p else a in fs.up && fs.up[a] in twin && g.up[twin[a]] == twin[fs.up[a]])
  }

  lemma NewTwinsBy(fs: Fs, g: Fs, n: Node, p: Node, name: string, twin: map<Node, Node>, i: nat)
    requires forall a :: a in twin ==> TwinAt(fs, g, n, p, name, twin, i, a)
    ensures NewTwins(fs, g, n, p, name, twin, i)
  {
    hide Paired;
    forall a | a in twin ensures TwinAt(fs, g, n, p, name, twin, i, a) {
    }
  }

  /** Whose twins the copy of the next child adds. */
  ghost predicate StepFacts(fs: Fs, g: Fs, n: Node, p: Node, twin: map<Node, Node>, twin2: map<Node, Node>, i: nat) {
    && n in fs.kids && i < |fs.kids[n]| && n in twin && twin[n] !in fs.kids && twin.Keys == Source(fs, n, i)
    && var c := fs.kids[n][i];
    && c in fs.kids && c in fs.up && fs.up[c] == n && c in twin2 && twin2.Keys == Below(fs, c)
    && Source(fs, n, i + 1) == Source(fs, n, i) + Below(fs, c) && Source(fs, n, i) !! Below(fs, c)
    && p !in Below(fs, c) && (forall b :: b in Below(fs, c) ==> b in fs.kids && b in fs.info)
    && Twins(g, twin2, Below(fs, c))
  }

  lemma StepKeys(fs: Fs, g: Fs, g2: Fs, n: Node, p: Node, name: string, twin: map<Node, Node>, twin2: map<Node, Node>, i: nat)
    requires n in fs.kids && i < |fs.kids[n]| && n in twin && fs.kids[n][i] in fs.info
    requires Valid(fs) && Place(fs, n, p, name) && Grafted(fs, g, n, p, name, twin, i)
    requires Copied(g, g2, fs.kids[n][i], twin[n], fs.info[fs.kids[n][i]].name, twin2)
    ensures StepFacts(fs, g, n, p, twin, twin2, i)
  {
    hide Linked, Named, Height, Sound, Within, OldKept, NewTwins, GoneFirst, SameNodes;
    var c := fs.kids[n][i];
    NextNotGone(fs, n, i);
    SourceNext(fs, n, i);
    GraftedKeeps(fs, g, n, p, name, twin, i);
    CopiedSource(g, g2, c, twin[n], fs.info[c].name, twin2);
    WithinSelf(fs.up, n);
    WithinStep(fs.up, c, n);
    BelowOld(fs, g, n, p, name, twin, i, c);
    SelfBelow(fs, c);
    NotBelowEither(fs, p, c, n);
  }

  lemma BothSame(fs: Fs, g: Fs, g2: Fs, twin: map<Node, Node>, twin2: map<Node, Node>, both: map<Node, Node>)
    requires SameNodes(fs, g, twin) && SameNodes(g, g2, twin2) && both.Values == twin.Values + twin2.Values
    ensures SameNodes(fs, g2, both)
  {
    Unions(fs.kids.Keys, twin.Values, twin2.Values, both.Values);
    Unions(fs.up.Keys, twin.Values, twin2.Values, both.Values);
    Unions(fs.info.Keys, twin.Values, twin2.Values, both.Values);
  }

  lemma Unions(a: set<Node>, v: set<Node>, w: set<Node>, u: set<Node>)
    requires u == v + w
    ensures a + v + w == a + u
  {
  }

  lemma StepEarlier(fs: Fs, g: Fs, g2: Fs, n: Node, p: Node, name: string, twin: map<Node, Node>, both: map<Node, Node>, i: nat, c: Node, source: set<Node>, a: Node)
    requires Twins(fs, twin, source) && NewTwins(fs, g, n, p, name, twin, i)
    requires n in twin && c in both && OldKept(g, g2, twin[n], both[c]) && (forall x :: x in twin ==> x in both && both[x] == twin[x])
    requires n in fs.kids && i < |fs.kids[n]| && fs.kids[n][i] == c && a in twin
    ensures TwinAt(fs, g2, n, p, name, both, i + 1, a)
  {
    EarlierTwins(fs, g, g2, n, p, name, twin, both, i, c, source, a);
    assert twin[n] in g.kids && twin[a] in g.kids;
    hide Paired, OldKept, Twins;
  }

  lemma StepLater(fs: Fs, g: Fs, g2: Fs, n: Node, p: Node, name: string, twin: map<Node, Node>, twin2: map<Node, Node>, i: nat, c: Node, source2: set<Node>, b: Node)
    requires SameNodes(fs, g, twin) && n in twin && OldKept(fs, g, p, twin[n]) && n in fs.info
    requires (forall x :: x in twin.Values ==> x !in fs.kids) && twin.Keys !! twin2.Keys
    requires c in fs.kids && c in fs.info && Copied(g, g2, c, twin[n], fs.info[c].name, twin2) && b in twin2
    requires source2 == twin2.Keys && p !in source2 && b in fs.kids && b in fs.info && c in fs.up && fs.up[c] == n
    requires n in fs.kids && i < |fs.kids[n]|
    ensures TwinAt(fs, g2, n, p, name, twin + twin2, i + 1, b)
  {
    var both := twin + twin2;
    assert c in g.kids && c in g.info && g.info[c] == fs.info[c];
    assert b in g.up ==> b in fs.up;
    hide SameNodes, OldKept, NewTwins, Paired, Twins;
    LaterTwins(fs, g, g2, n, p, twin[n], twin2, both, c, source2, b);
  }

  // ---------------------------------------------------------------------------
  // Names, failures and undoing

  /** The name ramfs_copy tries: that of the source, or that with a suffix when it is taken. */
  function CopyName(fs: Fs, n: Node, p: Node): string
    requires n in fs.info
  {
    if Find(fs, Some(p), fs.info[n].name) != None then fs.info[n].name + "_copy" else fs.info[n].name
  }

  /** Whether ramfs_copy gives a copy: the destination is a directory with one of the two names free. */
  predicate CopyFits(fs: Fs, n: Node, p: Node)
    requires n in fs.info && p in fs.info
  {
    fs.info[p].kind == Directory && Find(fs, Some(p), CopyName(fs, n, p)) == None
  }

  lemma FreeIsNotFound(fs: Fs, p: Node, name: string)
    requires Valid(fs) && p in fs.kids
    ensures Find(fs, Some(p), name) == None <==> NameFree(fs, p, name)
  {
    hide Valid, NamesDiffer, Distinct, FindIn;
    KidsInfo(fs, p);
    FindsByName(fs.info, fs.kids[p], name);
  }

  lemma KidsInfo(fs: Fs, p: Node)
    requires Valid(fs) && p in fs.kids
    ensures forall c :: c in fs.kids[p] ==> c in fs.info
  {
    hide NamesDiffer, Distinct;
    KidsKnown(fs, p);
  }

  /** ramfs_copy fails exactly when the destination is no directory or both names are taken there. */
  lemma CopyFitsIff(fs: Fs, n: Node, p: Node)
    requires Valid(fs) && n in fs.kids && p in fs.kids && n in fs.info && p in fs.info
    ensures CopyFits(fs, n, p) <==>
              fs.info[p].kind == Directory && (NameFree(fs, p, fs.info[n].name) || NameFree(fs, p, fs.info[n].name + "_copy"))
    ensures CopyFits(fs, n, p) ==> NameFree(fs, p, CopyName(fs, n, p))
  {
    hide Valid, NameFree, Find;
    FreeIsNotFound(fs, p, fs.info[n].name);
    FreeIsNotFound(fs, p, fs.info[n].name + "_copy");
  }

  /** A copy keeps its name where that is free, and otherwise gets "_copy" behind it. */
  lemma CopyNameIs(fs: Fs, n: Node, p: Node)
    requires Valid(fs) && p in fs.kids && n in fs.info
    ensures CopyName(fs, n, p) == if NameFree(fs, p, fs.info[n].name) then fs.info[n].name else fs.info[n].name + "_copy"
  {
    hide Valid, NameFree, Find;
    FreeIsNotFound(fs, p, fs.info[n].name);
  }

  /** In the new directory no earlier child has the name of the next one, so that one keeps its name. */
  lemma NextNameFree(fs: Fs, g: Fs, n: Node, p: Node, name: string, twin: map<Node, Node>, i: nat)
    requires Valid(fs) && Place(fs, n, p, name) && Grafted(fs, g, n, p, name, twin, i) && i < |fs.kids[n]|
    ensures n in twin && fs.kids[n][i] in fs.info && twin[n] in g.kids && fs.kids[n][i] in g.info && fs.kids[n][i] in g.kids
    ensures g.info[fs.kids[n][i]] == fs.info[fs.kids[n][i]]
    ensures Place(g, fs.kids[n][i], twin[n], fs.info[fs.kids[n][i]].name)
  {
    hide Valid, Twins, SameNodes, OldKept, NewTwins, Within, NameFree, Source;
    var c := fs.kids[n][i];
    NextKnown(fs, g, n, p, name, twin, i);
    NextOutside(fs, g, n, p, name, twin, i, c);
    NextFree(fs, g, n, p, name, twin, i, c);
  }

  lemma NextKnown(fs: Fs, g: Fs, n: Node, p: Node, name: string, twin: map<Node, Node>, i: nat)
    requires Valid(fs) && Place(fs, n, p, name) && Grafted(fs, g, n, p, name, twin, i) && i < |fs.kids[n]|
    ensures var c := fs.kids[n][i];
            && n in twin && c in fs.info && twin[n] in g.kids && c in g.info && c in g.kids && g.info[c] == fs.info[c]
            && c in fs.up && fs.up[c] == n && c in fs.kids
            && twin[n] in g.info && g.info[twin[n]].kind == Directory && twin[n] in g.up && g.up[twin[n]] == p
            && Paired(twin, fs.kids[n][..i], g.kids[twin[n]])
  {
    hide Linked, Named, Height, Within, Sound, Paired, NamesDiffer;
    NextNotGone(fs, n, i);
    assert n in twin;
  }

  lemma NextOutside(fs: Fs, g: Fs, n: Node, p: Node, name: string, twin: map<Node, Node>, i: nat, c: Node)
    requires Valid(fs) && Place(fs, n, p, name) && Grafted(fs, g, n, p, name, twin, i)
    requires n in twin && c in fs.kids && c in fs.up && fs.up[c] == n && twin[n] in g.up && g.up[twin[n]] == p
    ensures !Within(g.up, twin[n], c)
  {
    hide Typed, Named, Height, Within, Sound, NewTwins, SameNodes, OldKept, Distinct;
    TwinsNew(fs, twin, Source(fs, n, i));
    WithinStep(g.up, twin[n], c);
    WithinSelf(fs.up, n);
    WithinStep(fs.up, c, n);
    NotBelowEither(fs, p, c, n);
    WithinOld(fs, g, twin, p, twin[n], p, c);
  }

  lemma NextFree(fs: Fs, g: Fs, n: Node, p: Node, name: string, twin: map<Node, Node>, i: nat, c: Node)
    requires Valid(fs) && Grafted(fs, g, n, p, name, twin, i) && i < |fs.kids[n]| && fs.kids[n][i] == c && c in fs.info
    requires n in twin && twin[n] in g.kids && Paired(twin, fs.kids[n][..i], g.kids[twin[n]])
    ensures NameFree(g, twin[n], fs.info[c].name)
  {
    hide Linked, Typed, Named, Height, Within, Sound, SameNodes, OldKept, Twins, NewTwins, Source, Paired, NamesDiffer, Distinct;
    KidsKnown(fs, n);
    TopParent2(fs, n, i, twin);
    PairedIn(twin, fs.kids[n][..i], g.kids[twin[n]]);
    NamedAt(fs, n);
    forall x | x in g.kids[twin[n]] && x in g.info ensures g.info[x].name != fs.info[c].name {
      var b :| b in fs.kids[n][..i] && b in twin && twin[b] == x;
      TwinInfo(fs, g, n, p, name, twin, i, n, b);
      EarlierDiffers(fs.kids[n], i, b, fs.info);
    }
  }

  lemma EarlierDiffers(s: seq<Node>, i: nat, b: Node, info: map<Node, Info>)
    requires Distinct(s) && NamesDiffer(s, info) && i < |s| && b in s[..i]
    ensures b in info && s[i] in info && info[b].name != info[s[i]].name
  {
    var k :| 0 <= k < i && s[..i][k] == b;
    assert s[k] == b && s[k] != s[i] && s[i] in s && b in s;
  }

  lemma TopParent2(fs: Fs, n: Node, i: nat, twin: map<Node, Node>)
    requires Valid(fs) && n in fs.kids && i <= |fs.kids[n]| && Twins(fs, twin, Source(fs, n, i))
    ensures n in fs.up ==> fs.up[n] !in twin
  {
    hide Linked, Typed, Named, Height, Sound, Source, Twins, SourceOk;
    SourceIsOk(fs, n, i);
    TopParent(fs, n, i, Source(fs, n, i), twin);
  }

  // ---------------------------------------------------------------------------
  // Deleting the copy

  lemma {:induction false} TwinBelowTop(fs: Fs, g: Fs, n: Node, p: Node, name: string, twin: map<Node, Node>, i: nat, h: map<Node, nat>, a: Node)
    requires Linked(fs.root, fs.kids, fs.up) && Height(fs.kids, fs.up, h) && n in twin && NewTwins(fs, g, n, p, name, twin, i) && a in twin
    ensures Within(g.up, twin[a], twin[n])
    decreases NodesAbove(h, a)
  {
    UpKnown(fs, h);
    hide Linked, Paired, Within;
    WithinStep(g.up, twin[a], twin[n]);
    if a != n {
      assert h[a] < h[fs.up[a]];
      FewerAbove(h, a, fs.up[a]);
      TwinBelowTop(fs, g, n, p, name, twin, i, h, fs.up[a]);
    }
  }

  lemma OldNotBelowTop(fs: Fs, g: Fs, twin: map<Node, Node>, p: Node, top: Node, m: Node)
    requires Linked(fs.root, fs.kids, fs.up) && SameNodes(fs, g, twin) && OldKept(fs, g, p, top) && m in fs.kids && top !in fs.kids
    requires forall x :: x in twin.Values ==> x !in fs.kids
    ensures !Within(g.up, m, top)
  {
    hide Linked, SameNodes, OldKept;
    if Within(g.up, m, top) {
      var k: nat :| Above(g.up, m, k) == Some(top);
      AboveOld(fs, g, twin, p, top, m, k);
    }
  }

  lemma BelowTop(fs: Fs, g: Fs, n: Node, p: Node, name: string, twin: map<Node, Node>)
    requires Tree(fs) && Copied(fs, g, n, p, name, twin)
    ensures n in twin && Below(g, twin[n]) == twin.Values
  {
    hide Typed, Named, Height, Within, NewTwins, Distinct;
    var h :| Height(fs.kids, fs.up, h);
    TwinsNew(fs, twin, Source(fs, n, |fs.kids[n]|));
    forall m | m in g.kids ensures Within(g.up, m, twin[n]) <==> m in twin.Values {
      if m in fs.kids {
        OldNotBelowTop(fs, g, twin, p, twin[n], m);
      } else {
        var a := OldOrTwin(fs, g, twin, m);
        TwinBelowTop(fs, g, n, p, name, twin, |fs.kids[n]|, h, a);
      }
    }
  }

  /** Deleting a copy takes away all that copying added, and nothing else. */
  lemma DeleteUndoesCopy(fs: Fs, g: Fs, n: Node, p: Node, name: string, twin: map<Node, Node>)
    requires Valid(fs) && Place(fs, n, p, name) && Copied(fs, g, n, p, name, twin)
    ensures n in twin && Deleted(g, twin[n]) == fs
  {
    hide Linked, Typed, Named, Height, Sound, Within, Twins, SameNodes, OldKept, NewTwins, Below, Deleted, Source, NameFree;
    BelowTop(fs, g, n, p, name, twin);
    TwinsNew(fs, twin, Source(fs, n, |fs.kids[n]|));
    TopPlaced(fs, g, n, p, name, twin);
    AppendedLast(fs, p, twin[n]);
    Ungrafted(fs, g, p, twin[n], twin);
  }

  lemma Ungrafted(fs: Fs, g: Fs, p: Node, top: Node, twin: map<Node, Node>)
    requires SameNodes(fs, g, twin) && OldKept(fs, g, p, top) && Below(g, top) == twin.Values && p in fs.kids
    requires forall x :: x in twin.Values ==> x !in fs.kids && x !in fs.up && x !in fs.info
    requires top in g.up && g.up[top] == p && top !in fs.kids && top != g.root
    requires Without(fs.kids[p] + [top], top) == fs.kids[p]
    ensures Deleted(g, top) == fs
  {
    hide Below, Deleted, Without;
    DeletedIs(g, top);
    var d := Deleted(g, top);
    assert d.up == fs.up;
    assert d.info == fs.info;
    assert d.kids.Keys == fs.kids.Keys;
    assert d.kids == fs.kids;
  }

  lemma TopPlaced(fs: Fs, g: Fs, n: Node, p: Node, name: string, twin: map<Node, Node>)
    requires Valid(fs) && Place(fs, n, p, name) && Copied(fs, g, n, p, name, twin) && n in twin
    ensures twin[n] in g.up && g.up[twin[n]] == p && twin[n] !in fs.kids && twin[n] != g.root && fs.root in fs.kids
  {
    hide Typed, Named, Height, Sound, Within, Paired, NameFree, Distinct;
  }

  lemma AppendedLast(fs: Fs, p: Node, top: Node)
    requires Valid(fs) && p in fs.kids && top !in fs.kids
    ensures Without(fs.kids[p] + [top], top) == fs.kids[p]
  {
    KidsKnown(fs, p);
    assert top !in fs.kids[p];
    hide Valid, Tree, NamesDiffer, Distinct, IndexOf;
    var s := fs.kids[p] + [top];
    assert s[|fs.kids[p]|] == top;
  }
}
