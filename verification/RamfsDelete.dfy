// ramfs_delete: what it leaves, and that taking away one child after the other gets there.
module RamfsDelete {
  import opened Lists
  import opened Words
  import opened Ramfs
  import opened RamfsMove

  /** With a node, the set has what is below it. */
  ghost predicate Closed(up: map<Node, Node>, s: set<Node>) {
    forall c {:trigger up[c]} :: c in up && up[c] in s ==> c in s
  }

  /** Forgetting such a set does not change who is above the others. */
  lemma {:induction false} AboveOutside(up: map<Node, Node>, s: set<Node>, m: Node, k: nat)
    requires Closed(up, s) && m !in s
    ensures Above(up - s, m, k) == Above(up, m, k)
    decreases k
  {
    if k > 0 && m in up {
      assert up[m] !in s;
      AboveOutside(up, s, up[m], k - 1);
    }
  }

  lemma WithinOutside(up: map<Node, Node>, s: set<Node>, m: Node, n: Node)
    requires Closed(up, s) && m !in s
    ensures Within(up - s, m, n) <==> Within(up, m, n)
  {
    if Within(up - s, m, n) {
      var k: nat :| Above(up - s, m, k) == Some(n);
      AboveOutside(up, s, m, k);
    }
    if Within(up, m, n) {
      var k: nat :| Above(up, m, k) == Some(n);
      AboveOutside(up, s, m, k);
    }
  }

  /** What is below a node, other than itself, is below one of its children. */
  lemma {:induction false} BelowSomeChild(up: map<Node, Node>, m: Node, n: Node, k: nat) returns (c: Node)
    requires Above(up, m, k) == Some(n) && m != n
    ensures c in up && up[c] == n && Within(up, m, c)
    decreases k
  {
    if up[m] == n {
      c := m;
      WithinSelf(up, m);
    } else {
      c := BelowSomeChild(up, up[m], n, k - 1);
      WithinStep(up, m, c);
    }
  }

  /** What deleting n takes away. */
  ghost function Gone(fs: Fs, n: Node): set<Node> {
    if n == fs.root then Below(fs, n) - {n} else Below(fs, n)
  }

  lemma GoneClosed(fs: Fs, n: Node)
    requires Linked(fs.root, fs.kids, fs.up)
    ensures Closed(fs.up, Gone(fs, n)) && fs.root !in Gone(fs, n)
    ensures forall m, c {:trigger c in fs.kids[m]} :: m in fs.kids && c in fs.kids[m] && m !in Gone(fs, n) && c in Gone(fs, n) ==>
              m == n || (c == n && n in fs.up && m == fs.up[n])
  {
    hide Within, Distinct;
    forall c | c in fs.up ensures Within(fs.up, c, n) <==> c == n || Within(fs.up, fs.up[c], n) {
      WithinStep(fs.up, c, n);
    }
    if n != fs.root {
      WithinStep(fs.up, fs.root, n);
    }
  }

  lemma DeletedIs(fs: Fs, n: Node)
    ensures var fs', gone := Deleted(fs, n), Gone(fs, n);
            && fs'.root == fs.root && fs'.up == fs.up - gone && fs'.info == fs.info - gone && fs'.kids.Keys == fs.kids.Keys - gone
            && forall m :: m in fs'.kids ==>
                 fs'.kids[m] == if m == n then [] else if n in fs.up && m == fs.up[n] then Without(fs.kids[m], n) else fs.kids[m]
  {
    hide Below, Without;
  }

  lemma DeletedKids(fs: Fs, n: Node)
    requires Linked(fs.root, fs.kids, fs.up) && n in fs.kids
    ensures forall m, c {:trigger c in Deleted(fs, n).kids[m]} :: m in Deleted(fs, n).kids ==>
              (c in Deleted(fs, n).kids[m] <==> c in fs.kids[m] && c !in Gone(fs, n))
    ensures forall m :: m in Deleted(fs, n).kids ==> Distinct(Deleted(fs, n).kids[m])
  {
    GoneClosed(fs, n);
    DeletedIs(fs, n);
    SelfGone(fs, n);
    var fs', gone := Deleted(fs, n), Gone(fs, n);
    if n in fs.up {
      OnlyChildOf(fs, n);
      WithoutKeeps(fs.kids[fs.up[n]], n);
    }
    assert Distinct<Node>([]);
    hide Without, Deleted, Gone, Distinct;
    forall m, c | m in fs'.kids ensures c in fs'.kids[m] <==> c in fs.kids[m] && c !in gone {
      assert c in fs.kids[m] ==> c in fs.up && fs.up[c] == m;
    }
  }

  lemma SelfGone(fs: Fs, n: Node)
    requires Linked(fs.root, fs.kids, fs.up) && n in fs.kids
    ensures if n == fs.root then n !in Gone(fs, n) && (forall c :: c in fs.kids[n] ==> c in Gone(fs, n)) else n in Gone(fs, n)
  {
    hide Within, Distinct;
    WithinSelf(fs.up, n);
    forall c | c in fs.kids[n] ensures Within(fs.up, c, n) {
      WithinStep(fs.up, c, n);
    }
  }

  lemma DeletedUp(fs: Fs, n: Node, c: Node)
    requires Linked(fs.root, fs.kids, fs.up) && n in fs.kids && c in fs.up && c !in Gone(fs, n)
    ensures fs.up[c] in Deleted(fs, n).kids && c in Deleted(fs, n).kids[fs.up[c]]
  {
    assert fs.up[c] in fs.kids && c in fs.kids[fs.up[c]];
    GoneClosed(fs, n);
    assert fs.up[c] !in Gone(fs, n);
    DeletedKids(fs, n);
    DeletedIs(fs, n);
    hide Deleted, Gone, Linked, Closed;
  }

  lemma DeletedLinks(fs: Fs, n: Node)
    requires Linked(fs.root, fs.kids, fs.up) && n in fs.kids
    ensures Linked(fs.root, Deleted(fs, n).kids, Deleted(fs, n).up)
  {
    hide Deleted, Gone, Without, Distinct, Closed;
    DeletedKids(fs, n);
    DeletedIs(fs, n);
    GoneClosed(fs, n);
    forall c | c in fs.up && c !in Gone(fs, n) ensures fs.up[c] in Deleted(fs, n).kids && c in Deleted(fs, n).kids[fs.up[c]] {
      DeletedUp(fs, n, c);
    }
  }

  lemma NamesSub(s: seq<Node>, s': seq<Node>, info: map<Node, Info>, gone: set<Node>)
    requires NamesDiffer(s, info) && forall c :: c in s' ==> c in s && c !in gone
    ensures NamesDiffer(s', info - gone)
  {
  }

  lemma DeletedNames(fs: Fs, n: Node)
    requires Linked(fs.root, fs.kids, fs.up) && Typed(fs.kids, fs.info) && Named(fs.kids, fs.info) && n in fs.kids
    ensures Typed(Deleted(fs, n).kids, Deleted(fs, n).info) && Named(Deleted(fs, n).kids, Deleted(fs, n).info)
  {
    DeletedKids(fs, n);
    DeletedIs(fs, n);
    hide Deleted, Gone, Without, Distinct, NamesDiffer, Linked;
    var fs', gone := Deleted(fs, n), Gone(fs, n);
    forall m | m in fs'.kids ensures NamesDiffer(fs'.kids[m], fs'.info) {
      NamesSub(fs.kids[m], fs'.kids[m], fs.info, gone);
    }
    forall m | m in fs'.kids && |fs'.kids[m]| > 0 ensures fs'.info[m].kind == Directory {
      assert fs'.kids[m][0] in fs'.kids[m];
    }
  }

  lemma DeletedHeight(fs: Fs, n: Node, h: map<Node, nat>)
    requires Height(fs.kids, fs.up, h)
    ensures Height(Deleted(fs, n).kids, Deleted(fs, n).up, h)
  {
    DeletedIs(fs, n);
    hide Deleted, Gone, Without;
  }

  lemma SoundSub(info: map<Node, Info>, gone: set<Node>)
    requires Sound(info)
    ensures Sound(info - gone)
  {
  }

  /** Deleting takes a node and all below it away, but the root itself, and leaves every
      other node as it was but for the gap among the node's siblings. */
  lemma DeletesOnlySubtree(fs: Fs, n: Node, m: Node)
    requires Valid(fs) && n in fs.kids && m in fs.kids
    ensures n in fs.up ==> fs.up[n] in fs.kids && n in fs.kids[fs.up[n]]
    ensures var g := Deleted(fs, n);
            && (m in g.kids <==> !Within(fs.up, m, n) || (m == n && n == fs.root))
            && (m in g.kids ==>
                  && m in fs.info && m in g.info && g.info[m] == fs.info[m] && (m in fs.up <==> m in g.up) && (m in fs.up ==> g.up[m] == fs.up[m])
                  && g.kids[m] == if m == n then []
                                  else if n in fs.up && m == fs.up[n]
                                  then fs.kids[m][..IndexOf(fs.kids[m], n)] + fs.kids[m][IndexOf(fs.kids[m], n) + 1..]
                                  else fs.kids[m])
  {
    hide Tree, Sound, Distinct, IndexOf, NamesDiffer, Within, Deleted;
    KidsKnown(fs, n);
    KidsKnown(fs, m);
    DeletedIs(fs, n);
    WithinSelf(fs.up, n);
  }

  /** Deleting keeps the tree. */
  lemma DeletedKeeps(fs: Fs, n: Node)
    requires Valid(fs) && n in fs.kids
    ensures Valid(Deleted(fs, n))
  {
    hide Height, Linked, Typed, Named, Sound, Deleted, Gone;
    var h :| Height(fs.kids, fs.up, h);
    DeletedIs(fs, n);
    DeletedLinks(fs, n);
    DeletedNames(fs, n);
    DeletedHeight(fs, n, h);
    SoundSub(fs.info, Gone(fs, n));
  }

  // ---------------------------------------------------------------------------
  // One child after the other

  /** What is below the first i children of n. */
  ghost function GoneFirst(fs: Fs, n: Node, i: nat): set<Node>
    requires n in fs.kids && i <= |fs.kids[n]|
  {
    set m, j | m in fs.kids && 0 <= j < i && Within(fs.up, m, fs.kids[n][j]) :: m
  }

  /** The file system once the first i children of n have been deleted. */
  ghost function DeletedFirst(fs: Fs, n: Node, i: nat): Fs
    requires n in fs.kids && i <= |fs.kids[n]|
  {
    var gone := GoneFirst(fs, n, i);
    fs.(kids := map m | m in fs.kids && m !in gone :: if m == n then fs.kids[n][i..] else fs.kids[m],
        up := fs.up - gone, info := fs.info - gone)
  }

  lemma GoneFirstClosed(fs: Fs, n: Node, i: nat)
    requires Tree(fs) && n in fs.kids && i <= |fs.kids[n]|
    ensures Closed(fs.up, GoneFirst(fs, n, i)) && n !in GoneFirst(fs, n, i)
    ensures forall m :: m in GoneFirst(fs, n, i) ==> Within(fs.up, m, n)
  {
    hide Typed, Named, Distinct, Within;
    var h :| Height(fs.kids, fs.up, h);
    UpKnown(fs, h);
    forall m, j | m in fs.kids && 0 <= j < i && Within(fs.up, m, fs.kids[n][j]) ensures Within(fs.up, m, n) && m != n {
      var c := fs.kids[n][j];
      assert c in fs.kids[n] && fs.up[c] == n;
      WithinTrans(fs.up, m, c, n);
      WithinHeight(fs.kids, fs.up, h, m, c);
    }
    forall c | c in fs.up && fs.up[c] in GoneFirst(fs, n, i) ensures c in GoneFirst(fs, n, i) {
      var j :| 0 <= j < i && Within(fs.up, fs.up[c], fs.kids[n][j]);
      WithinStep(fs.up, c, fs.kids[n][j]);
    }
  }

  /** Below a child is below the parent. */
  lemma {:induction false} WithinTrans(up: map<Node, Node>, m: Node, c: Node, n: Node)
    requires Within(up, m, c) && c in up && up[c] == n
    ensures Within(up, m, n)
  {
    var k: nat :| Above(up, m, k) == Some(c);
    AboveNext(up, m, c, k);
  }

  lemma {:induction false} AboveNext(up: map<Node, Node>, m: Node, c: Node, k: nat)
    requires Above(up, m, k) == Some(c) && c in up
    ensures Above(up, m, k + 1) == Some(up[c])
    decreases k
  {
    if k == 0 {
      assert Above(up, up[c], 0) == Some(up[c]);
    } else {
      AboveNext(up, up[m], c, k - 1);
    }
  }

  lemma NextNotGone(fs: Fs, n: Node, i: nat)
    requires Tree(fs) && n in fs.kids && i < |fs.kids[n]|
    ensures var c := fs.kids[n][i]; c in fs.up && fs.up[c] == n && c in fs.kids && c !in GoneFirst(fs, n, i) && c != fs.root
  {
    hide Typed, Named, Within, Height;
    GoneFirstClosed(fs, n, i);
    var c := fs.kids[n][i];
    assert c in fs.kids[n];
    if c in GoneFirst(fs, n, i) {
      var j :| 0 <= j < i && Within(fs.up, c, fs.kids[n][j]);
      WithinStep(fs.up, c, fs.kids[n][j]);
    }
  }

  /** Deleting the next child takes away what is below it. */
  lemma GoneNext(fs: Fs, n: Node, i: nat)
    requires Tree(fs) && n in fs.kids && i < |fs.kids[n]|
    ensures var c := fs.kids[n][i];
            Below(DeletedFirst(fs, n, i), c) == (set m | m in fs.kids && Within(fs.up, m, c)) - GoneFirst(fs, n, i)
    ensures GoneFirst(fs, n, i + 1) == GoneFirst(fs, n, i) + Below(DeletedFirst(fs, n, i), fs.kids[n][i])
  {
    hide Tree, Within;
    GoneFirstClosed(fs, n, i);
    var c, gone, g := fs.kids[n][i], GoneFirst(fs, n, i), DeletedFirst(fs, n, i);
    forall m | m in fs.kids && m !in gone ensures Within(g.up, m, c) <==> Within(fs.up, m, c) {
      WithinOutside(fs.up, gone, m, c);
    }
    assert GoneFirst(fs, n, i + 1) == gone + Below(g, c) by {
      forall m | m in gone + Below(g, c) ensures m in GoneFirst(fs, n, i + 1) {
        if m in gone {
          var j :| 0 <= j < i && Within(fs.up, m, fs.kids[n][j]);
        } else {
          assert Within(fs.up, m, fs.kids[n][i]);
        }
      }
    }
  }

  lemma WithoutFirst(s: seq<Node>)
    requires s != []
    ensures Without(s, s[0]) == s[1..]
  {
  }

  lemma DeletedFirstIs(fs: Fs, n: Node, i: nat)
    requires n in fs.kids && i <= |fs.kids[n]|
    ensures var g, gone := DeletedFirst(fs, n, i), GoneFirst(fs, n, i);
            && g.root == fs.root && g.up == fs.up - gone && g.info == fs.info - gone && g.kids.Keys == fs.kids.Keys - gone
            && forall m :: m in g.kids ==> g.kids[m] == if m == n then fs.kids[n][i..] else fs.kids[m]
  {
    hide GoneFirst;
  }

  /** One turn of the loop of ramfs_delete. */
  lemma DeleteStep(fs: Fs, n: Node, i: nat)
    requires Tree(fs) && n in fs.kids && i < |fs.kids[n]|
    ensures Deleted(DeletedFirst(fs, n, i), fs.kids[n][i]) == DeletedFirst(fs, n, i + 1)
  {
    hide Tree, Below, GoneFirst, DeletedFirst, Deleted, Without, Within;
    var c, g, next := fs.kids[n][i], DeletedFirst(fs, n, i), DeletedFirst(fs, n, i + 1);
    var d := Deleted(g, c);
    NextNotGone(fs, n, i);
    NotGoneFirst(fs, n, i);
    GoneNext(fs, n, i);
    DeletedFirstIs(fs, n, i);
    DeletedFirstIs(fs, n, i + 1);
    DeletedIs(g, c);
    SelfBelow(g, c);
    WithoutFirst(fs.kids[n][i..]);
    assert d.up == next.up;
    assert d.info == next.info;
    assert d.kids.Keys == next.kids.Keys;
    forall m | m in next.kids ensures d.kids[m] == next.kids[m] {
      assert m != c;
    }
    assert d.kids == next.kids;
  }

  lemma NotGoneFirst(fs: Fs, n: Node, i: nat)
    requires Tree(fs) && n in fs.kids && i <= |fs.kids[n]|
    ensures n !in GoneFirst(fs, n, i)
  {
    hide Tree, GoneFirst, Closed;
    GoneFirstClosed(fs, n, i);
  }

  lemma SelfBelow(fs: Fs, n: Node)
    requires n in fs.kids
    ensures n in Below(fs, n)
  {
    WithinSelf(fs.up, n);
  }

  lemma GoneAll(fs: Fs, n: Node)
    requires Tree(fs) && n in fs.kids
    ensures GoneFirst(fs, n, |fs.kids[n]|) == Below(fs, n) - {n}
  {
    hide Typed, Named, Within, Height;
    GoneFirstClosed(fs, n, |fs.kids[n]|);
    forall m | m in Below(fs, n) && m != n ensures m in GoneFirst(fs, n, |fs.kids[n]|) {
      BelowChild(fs, m, n);
    }
  }

  lemma BelowChild(fs: Fs, m: Node, n: Node)
    requires Linked(fs.root, fs.kids, fs.up) && n in fs.kids && Within(fs.up, m, n) && m != n
    ensures exists j :: 0 <= j < |fs.kids[n]| && Within(fs.up, m, fs.kids[n][j])
  {
    hide Distinct;
    var k: nat :| Above(fs.up, m, k) == Some(n);
    var c := BelowSomeChild(fs.up, m, n, k);
    var j :| 0 <= j < |fs.kids[n]| && fs.kids[n][j] == c;
  }

  /** The end of ramfs_delete: the node is a leaf now, and goes unless it is the root. */
  lemma DeleteLast(fs: Fs, n: Node)
    requires Tree(fs) && n in fs.kids
    ensures var g := DeletedFirst(fs, n, |fs.kids[n]|);
            && n in g.kids && g.kids[n] == [] && (n in g.up ==> g.up[n] in g.kids)
            && Remove(g, n) == Deleted(fs, n)
  {
    hide Tree, Below, GoneFirst, DeletedFirst, Deleted, Without, Within;
    var g, d := DeletedFirst(fs, n, |fs.kids[n]|), Deleted(fs, n);
    KidsKnown(fs, n);
    GoneAll(fs, n);
    SelfBelow(fs, n);
    DeletedIs(fs, n);
    DeletedFirstIs(fs, n, |fs.kids[n]|);
    if n == fs.root {
      assert g.kids == d.kids;
    } else {
      ParentStays(fs, n);
      var r := Remove(g, n);
      assert r.up == d.up;
      assert r.info == d.info;
      assert r.kids.Keys == d.kids.Keys;
      assert r.kids == d.kids;
    }
  }

  lemma ParentStays(fs: Fs, n: Node)
    requires Tree(fs) && n in fs.kids && n != fs.root
    ensures n in fs.up && fs.up[n] !in Below(fs, n)
  {
    hide Typed, Named, Within, Height;
    var h :| Height(fs.kids, fs.up, h);
    UpKnown(fs, h);
    ParentNotBelow(fs.kids, fs.up, h, n);
  }

  lemma DeletedNone(fs: Fs, n: Node)
    requires n in fs.kids
    ensures DeletedFirst(fs, n, 0) == fs
  {
    assert GoneFirst(fs, n, 0) == {};
    assert DeletedFirst(fs, n, 0).kids == fs.kids && fs.up - {} == fs.up && fs.info - {} == fs.info;
  }
}
