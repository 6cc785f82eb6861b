// ramfs_move: exactly when it keeps the file system a tree, and what it carries along.
module RamfsMove {
  import opened Lists
  import opened Words
  import opened Ramfs

  /** The move goes through: the tests that the code makes are passed. */
  predicate Moves(fs: Fs, n: Node, p: Node) {
    && n in fs.kids && p in fs.kids && n in fs.info && p in fs.info
    && n != fs.root && n != p && n in fs.up && fs.up[n] in fs.kids && fs.up[n] != n
    && !(fs.kids[n] != [] && fs.kids[n][0] == p)
  }

  /** What the code does not test: the destination is a directory outside what is moved,
      and no other node there has the name. */
  ghost predicate Legal(fs: Fs, n: Node, p: Node)
    requires n in fs.info && p in fs.info && p in fs.kids
  {
    && !Within(fs.up, p, n)
    && fs.info[p].kind == Directory
    && forall c :: c in fs.kids[p] && c != n && c in fs.info ==> fs.info[c].name != fs.info[n].name
  }

  /** A move is refused exactly for the root, into the node itself and into its first child;
      then nothing changes. */
  lemma MoveRefusedIff(fs: Fs, n: Node, p: Node)
    requires Valid(fs) && n in fs.kids && p in fs.kids
    ensures n in fs.up ==> fs.up[n] in fs.kids
    ensures !Move(fs, n, p).1 <==> n == fs.root || n == p || (fs.kids[n] != [] && fs.kids[n][0] == p)
    ensures !Move(fs, n, p).1 ==> Move(fs, n, p).0 == fs
  {
    KidsKnown(fs, n);
    hide Tree, Sound, Without;
  }

  lemma MoveIs(fs: Fs, n: Node, p: Node)
    requires Moves(fs, n, p)
    ensures var fs', q := Move(fs, n, p).0, fs.up[n];
            && Move(fs, n, p).1 && fs'.root == fs.root && fs'.info == fs.info && fs'.up == fs.up[n := p]
            && fs'.kids.Keys == fs.kids.Keys
            && fs'.kids[p] == (if p == q then Without(fs.kids[p], n) else fs.kids[p]) + [n]
            && (p != q ==> fs'.kids[q] == Without(fs.kids[q], n))
            && forall m :: m in fs.kids && m != p && m != q ==> fs'.kids[m] == fs.kids[m]
  {
    hide Without;
  }

  /** Children before and after: only n has changed its parent. */
  lemma MovedKids(fs: Fs, n: Node, p: Node)
    requires Linked(fs.root, fs.kids, fs.up) && Moves(fs, n, p)
    ensures var fs' := Move(fs, n, p).0;
            && (forall m, c {:trigger c in fs'.kids[m]} :: m in fs.kids ==> (c in fs'.kids[m] <==> (c in fs.kids[m] && c != n) || (m == p && c == n)))
            && (forall m :: m in fs.kids ==> Distinct(fs'.kids[m]))
  {
    var fs', q := Move(fs, n, p).0, fs.up[n];
    MoveIs(fs, n, p);
    WithoutKeeps(fs.kids[q], n);
    OnlyChildOf(fs, n);
    forall m | m in fs.kids ensures Distinct(fs'.kids[m]) {
      if m == p {
        AppendDistinct(if p == q then Without(fs.kids[p], n) else fs.kids[p], n);
      }
    }
    hide Without, Move, Distinct, Linked;
  }

  lemma AppendDistinct(s: seq<Node>, n: Node)
    requires Distinct(s) && n !in s
    ensures Distinct(s + [n])
  {
  }

  lemma MoveLinks(fs: Fs, n: Node, p: Node)
    requires Linked(fs.root, fs.kids, fs.up) && Moves(fs, n, p)
    ensures var fs' := Move(fs, n, p).0; Linked(fs'.root, fs'.kids, fs'.up)
  {
    MoveIs(fs, n, p);
    MovedKids(fs, n, p);
    hide Move, Without, Distinct;
  }

  lemma MoveTypedIff(fs: Fs, n: Node, p: Node)
    requires Linked(fs.root, fs.kids, fs.up) && Typed(fs.kids, fs.info) && Moves(fs, n, p)
    ensures var fs' := Move(fs, n, p).0; Typed(fs'.kids, fs'.info) <==> fs.info[p].kind == Directory
  {
    var fs', q := Move(fs, n, p).0, fs.up[n];
    MoveIs(fs, n, p);
    MovedKids(fs, n, p);
    OnlyChildOf(fs, n);
    hide Move, Without, Distinct, Linked;
    assert |fs'.kids[p]| > 0 && |fs.kids[q]| > 0;
  }

  lemma NamesFrom(s: seq<Node>, s': seq<Node>, n: Node, info: map<Node, Info>)
    requires NamesDiffer(s, info) && n in info && forall c :: c in s' ==> c in s || c == n
    requires n in s' ==> forall c :: c in s && c != n ==> info[c].name != info[n].name
    ensures NamesDiffer(s', info)
  {
  }

  lemma MoveNamedIff(fs: Fs, n: Node, p: Node)
    requires Linked(fs.root, fs.kids, fs.up) && Named(fs.kids, fs.info) && Moves(fs, n, p)
    ensures var fs' := Move(fs, n, p).0;
            Named(fs'.kids, fs'.info) <==> forall c :: c in fs.kids[p] && c != n && c in fs.info ==> fs.info[c].name != fs.info[n].name
  {
    var fs' := Move(fs, n, p).0;
    MoveIs(fs, n, p);
    MovedKids(fs, n, p);
    hide Move, Without, Distinct, Linked, NamesDiffer;
    if forall c :: c in fs.kids[p] && c != n && c in fs.info ==> fs.info[c].name != fs.info[n].name {
      forall m | m in fs'.kids ensures NamesDiffer(fs'.kids[m], fs'.info) {
        NamesKnown(fs.kids[m], fs.info);
        NamesFrom(fs.kids[m], fs'.kids[m], n, fs.info);
      }
    } else {
      var c :| c in fs.kids[p] && c != n && c in fs.info && fs.info[c].name == fs.info[n].name;
      NamesClash(fs'.kids[p], fs.info, c, n);
      assert p in fs'.kids && !NamesDiffer(fs'.kids[p], fs'.info);
    }
  }

  lemma NamesKnown(s: seq<Node>, info: map<Node, Info>)
    requires NamesDiffer(s, info)
    ensures forall c :: c in s ==> c in info
  {
  }

  lemma NamesClash(s: seq<Node>, info: map<Node, Info>, a: Node, b: Node)
    requires a in s && b in s && a != b && a in info && b in info && info[a].name == info[b].name
    ensures !NamesDiffer(s, info)
  {
  }

  /** Everything outside what is moved is lifted above it. */
  ghost function Lifted(up: map<Node, Node>, n: Node, h: map<Node, nat>): map<Node, nat>
    requires n in h
  {
    map m | m in h :: if Within(up, m, n) then h[m] else h[m] + h[n] + 1
  }

  lemma MoveHeight(fs: Fs, n: Node, p: Node, h: map<Node, nat>)
    requires Linked(fs.root, fs.kids, fs.up) && Height(fs.kids, fs.up, h) && Moves(fs, n, p) && !Within(fs.up, p, n)
    ensures n in h && Height(fs.kids, fs.up[n := p], Lifted(fs.up, n, h))
  {
    var h', up' := Lifted(fs.up, n, h), fs.up[n := p];
    forall c | c in up' ensures c in h' && up'[c] in h' && h'[c] < h'[up'[c]] {
      WithinSelf(fs.up, n);
      WithinStep(fs.up, c, n);
    }
    hide Within, Linked;
  }

  /** A way up to n that starts where n now hangs still leads to n. */
  lemma {:induction false} StillLeads(up: map<Node, Node>, n: Node, p: Node, m: Node, k: nat) returns (j: nat)
    requires Above(up, m, k) == Some(n)
    ensures Above(up[n := p], m, j) == Some(n)
    decreases k
  {
    if m == n {
      j := 0;
    } else {
      j := StillLeads(up, n, p, up[m], k - 1);
      j := j + 1;
    }
  }

  lemma MoveCycles(fs: Fs, n: Node, p: Node, h': map<Node, nat>)
    requires Linked(fs.root, fs.kids, fs.up) && Moves(fs, n, p) && Within(fs.up, p, n)
    ensures !Height(fs.kids, fs.up[n := p], h')
  {
    if Height(fs.kids, fs.up[n := p], h') {
      var up' := fs.up[n := p];
      var k: nat :| Above(fs.up, p, k) == Some(n);
      var j := StillLeads(fs.up, n, p, p, k);
      assert forall c {:trigger up'[c]} :: c in up' ==> up'[c] in h';
      hide Linked;
      assert up'[n] == p;
      AboveHeight(fs.kids, up', h', p, j);
    }
  }

  /** A move that goes through keeps the tree exactly when it was a legal one. */
  lemma MoveKeepsIff(fs: Fs, n: Node, p: Node)
    requires Valid(fs) && Moves(fs, n, p)
    ensures Move(fs, n, p).1
    ensures Valid(Move(fs, n, p).0) <==> Legal(fs, n, p)
  {
    hide Linked, Typed, Named, Height, Move, Moves, Sound, Within;
    MovesKnown(fs, n, p);
    var fs' := Move(fs, n, p).0;
    MoveIs(fs, n, p);
    MoveLinks(fs, n, p);
    MoveTypedIff(fs, n, p);
    MoveNamedIff(fs, n, p);
    var h :| Height(fs.kids, fs.up, h);
    if Within(fs.up, p, n) {
      forall h' ensures !Height(fs'.kids, fs'.up, h') {
        SameKeysHeight(fs.kids, fs'.kids, fs'.up, h');
        MoveCycles(fs, n, p, h');
      }
    } else {
      MoveHeight(fs, n, p, h);
      SameKeysHeight(fs.kids, fs'.kids, fs'.up, Lifted(fs.up, n, h));
    }
  }

  lemma MovesKnown(fs: Fs, n: Node, p: Node)
    requires Moves(fs, n, p)
    ensures n in fs.kids && p in fs.kids && n in fs.info && p in fs.info && n in fs.up && fs.up[n] in fs.kids
  {
  }

  lemma SameKeysHeight(kids: map<Node, seq<Node>>, kids': map<Node, seq<Node>>, up: map<Node, Node>, h: map<Node, nat>)
    requires kids.Keys == kids'.Keys
    ensures Height(kids, up, h) <==> Height(kids', up, h)
  {
  }

  /** A legal move carries everything below the node, and moves nothing else. */
  lemma MoveCarries(fs: Fs, n: Node, p: Node)
    requires Valid(fs) && Moves(fs, n, p) && Legal(fs, n, p)
    ensures Below(Move(fs, n, p).0, n) == Below(fs, n)
    ensures forall m :: m in Below(fs, n) ==> m in Move(fs, n, p).0.kids && Move(fs, n, p).0.kids[m] == fs.kids[m]
    ensures Move(fs, n, p).0.up == fs.up[n := p]
    ensures p in Move(fs, n, p).0.kids
    ensures Move(fs, n, p).0.kids[p] == (if p == fs.up[n] then Without(fs.kids[p], n) else fs.kids[p]) + [n]
  {
    hide Move, Within, Height, Linked, Typed, Named, Sound, Without;
    var fs' := Move(fs, n, p).0;
    MoveIs(fs, n, p);
    var h :| Height(fs.kids, fs.up, h);
    UpKnown(fs, h);
    ParentNotBelow(fs.kids, fs.up, h, n);
    forall m | m in fs.kids ensures Within(fs'.up, m, n) <==> Within(fs.up, m, n) {
      SameBelow(fs.up, n, p, m);
    }
    assert Below(fs', n) == Below(fs, n);
  }

  lemma UpKnown(fs: Fs, h: map<Node, nat>)
    requires Linked(fs.root, fs.kids, fs.up) && Height(fs.kids, fs.up, h)
    ensures forall c {:trigger fs.up[c]} :: c in fs.up ==> c in h && fs.up[c] in h
    ensures forall c :: c in fs.kids ==> c in h
  {
    hide Distinct;
  }

  lemma ParentNotBelow(kids: map<Node, seq<Node>>, up: map<Node, Node>, h: map<Node, nat>, n: Node)
    requires Height(kids, up, h) && n in up && n in h && up[n] in h && (forall c {:trigger up[c]} :: c in up ==> up[c] in h)
    ensures !Within(up, up[n], n)
  {
    if Within(up, up[n], n) {
      WithinHeight(kids, up, h, up[n], n);
    }
  }

  /** Who is below n does not depend on where n hangs. */
  lemma SameBelow(up: map<Node, Node>, n: Node, p: Node, m: Node)
    ensures Within(up[n := p], m, n) <==> Within(up, m, n)
  {
    if Within(up, m, n) {
      var k: nat :| Above(up, m, k) == Some(n);
      var j := StillLeads(up, n, p, m, k);
    }
    if Within(up[n := p], m, n) {
      var k: nat :| Above(up[n := p], m, k) == Some(n);
      var j := LedBefore(up, n, p, m, k);
    }
  }

  lemma {:induction false} LedBefore(up: map<Node, Node>, n: Node, p: Node, m: Node, k: nat) returns (j: nat)
    requires Above(up[n := p], m, k) == Some(n)
    ensures Above(up, m, j) == Some(n)
    decreases k
  {
    if m == n {
      j := 0;
    } else {
      j := LedBefore(up, n, p, up[m], k - 1);
      j := j + 1;
    }
  }
}
