// The file system's nodes as memory: a parent, a first child and a next sibling for each,
// and what writing those fields does to the children that they spell out.
module RamfsMemory {
  import opened Lists
  import opened Words
  import opened Ramfs

  type Link = Option<Node>

  datatype NodeFields = NodeFields(info: Info, parent: Link, children: Link, next: Link)

  type Nodes = map<Node, NodeFields>

  function PutChildren(nodes: Nodes, m: Node, v: Link): Nodes
    requires m in nodes
  {
    nodes[m := nodes[m].(children := v)]
  }

  function PutNext(nodes: Nodes, m: Node, v: Link): Nodes
    requires m in nodes
  {
    nodes[m := nodes[m].(next := v)]
  }

  /** The next fields spell out the siblings from the first. */
  ghost predicate Chain(nodes: Nodes, head: Link, s: seq<Node>) {
    && head == Nth(s, 0)
    && forall i: nat {:trigger s[i]} :: i < |s| ==> s[i] in nodes && nodes[s[i]].next == Nth(s, i + 1)
  }

  ghost predicate NodeShows(nodes: Nodes, up: map<Node, Node>, info: map<Node, Info>, m: Node) {
    && m in nodes && m in info && nodes[m].info == info[m]
    && nodes[m].parent == if m in up then Some(up[m]) else None
  }

  ghost predicate Shows(nodes: Nodes, kids: map<Node, seq<Node>>, up: map<Node, Node>, info: map<Node, Info>) {
    forall m {:trigger kids[m]} {:trigger m in kids} :: m in kids ==> NodeShows(nodes, up, info, m) && Chain(nodes, nodes[m].children, kids[m])
  }

  /** No node is a child of two, or twice. */
  ghost predicate Apart(kids: map<Node, seq<Node>>) {
    && (forall m :: m in kids ==> Distinct(kids[m]))
    && forall m, k, c {:trigger c in kids[m], c in kids[k]} :: m in kids && k in kids && c in kids[m] && c in kids[k] ==> m == k
  }

  lemma LinkedApart(fs: Fs)
    requires Linked(fs.root, fs.kids, fs.up)
    ensures Apart(fs.kids)
  {
    hide Distinct;
    forall m, k, c | m in fs.kids && k in fs.kids && c in fs.kids[m] && c in fs.kids[k] ensures m == k {
      assert fs.up[c] == m;
    }
  }

  lemma ChainSame(nodes: Nodes, nodes': Nodes, head: Link, s: seq<Node>)
    requires Chain(nodes, head, s) && forall c :: c in s && c in nodes ==> c in nodes' && nodes'[c].next == nodes[c].next
    ensures Chain(nodes', head, s)
  {
  }

  lemma ChainPutNext(nodes: Nodes, head: Link, s: seq<Node>, m: Node, v: Link)
    requires Chain(nodes, head, s) && m in nodes && m !in s
    ensures Chain(PutNext(nodes, m, v), head, s)
  {
  }

  // ---------------------------------------------------------------------------
  // Taking a node out of its chain

  lemma ChainTail(nodes: Nodes, head: Link, s: seq<Node>)
    requires Chain(nodes, head, s) && s != []
    ensures s[0] in nodes && Chain(nodes, nodes[s[0]].next, s[1..])
  {
    forall i: nat | i < |s| - 1 ensures s[1..][i] in nodes && nodes[s[1..][i]].next == Nth(s[1..], i + 1) {
      assert s[1..][i] == s[i + 1];
    }
  }

  lemma ChainSkip(nodes: Nodes, head: Link, s: seq<Node>, j: nat)
    requires Chain(nodes, head, s) && Distinct(s) && j + 1 < |s|
    ensures s[j] in nodes && s[j + 1] in nodes
    ensures Chain(PutNext(nodes, s[j], nodes[s[j + 1]].next), head, s[..j + 1] + s[j + 2..])
  {
    OthersDiffer(s, j);
    hide Distinct;
    var rest, nodes' := s[..j + 1] + s[j + 2..], PutNext(nodes, s[j], nodes[s[j + 1]].next);
    assert forall k: nat {:trigger s[k]} :: k < |s| && k != j ==> s[k] in nodes' && nodes'[s[k]].next == Nth(s, k + 1);
    forall i: nat | i < |rest| ensures rest[i] in nodes' && nodes'[rest[i]].next == Nth(rest, i + 1) {
      assert rest[i] == s[if i <= j then i else i + 1];
    }
  }

  lemma OnlyUnder(kids: map<Node, seq<Node>>, p: Node, c: Node)
    requires Apart(kids) && p in kids && c in kids[p]
    ensures forall m :: m in kids && m != p ==> c !in kids[m]
  {
    hide Distinct;
  }

  /** Unlinking the first child of p. */
  lemma UnlinkFirst(nodes: Nodes, kids: map<Node, seq<Node>>, up: map<Node, Node>, info: map<Node, Info>, p: Node)
    requires Shows(nodes, kids, up, info) && Apart(kids) && p in kids && kids[p] != []
    ensures p in nodes && kids[p][0] in nodes
    ensures Shows(PutChildren(nodes, p, nodes[kids[p][0]].next), kids[p := Without(kids[p], kids[p][0])], up, info)
  {
    var n := kids[p][0];
    ChainTail(nodes, nodes[p].children, kids[p]);
    WithoutAt(kids[p], n, 0);
    var nodes', kids' := PutChildren(nodes, p, nodes[n].next), kids[p := Without(kids[p], n)];
    hide Chain, Without, Apart;
    forall m | m in kids' ensures NodeShows(nodes', up, info, m) && Chain(nodes', nodes'[m].children, kids'[m]) {
      assert m in kids;
      ChainSame(nodes, nodes', nodes'[m].children, kids'[m]);
    }
  }

  /** Unlinking a later child of p. */
  lemma UnlinkLater(nodes: Nodes, kids: map<Node, seq<Node>>, up: map<Node, Node>, info: map<Node, Info>, p: Node, j: nat)
    requires Shows(nodes, kids, up, info) && Apart(kids) && p in kids && j + 1 < |kids[p]|
    ensures kids[p][j] in nodes && kids[p][j + 1] in nodes
    ensures Shows(PutNext(nodes, kids[p][j], nodes[kids[p][j + 1]].next), kids[p := Without(kids[p], kids[p][j + 1])], up, info)
  {
    var it, n := kids[p][j], kids[p][j + 1];
    ChainSkip(nodes, nodes[p].children, kids[p], j);
    WithoutAt(kids[p], n, j + 1);
    var nodes', kids' := PutNext(nodes, it, nodes[n].next), kids[p := Without(kids[p], n)];
    OnlyUnder(kids, p, it);
    hide Chain, Without, Apart, Distinct;
    forall m | m in kids' ensures NodeShows(nodes', up, info, m) && Chain(nodes', nodes'[m].children, kids'[m]) {
      assert m in kids;
      if m != p {
        ChainPutNext(nodes, nodes[m].children, kids[m], it, nodes[n].next);
      }
    }
  }

  // ---------------------------------------------------------------------------
  // Putting a node behind the last child

  lemma ChainAppend(nodes: Nodes, head: Link, s: seq<Node>, n: Node)
    requires Chain(nodes, head, s) && Distinct(s) && s != [] && n in nodes && n !in s && nodes[n].next == None
    ensures s[|s| - 1] in nodes && Chain(PutNext(nodes, s[|s| - 1], Some(n)), head, s + [n])
  {
  }

  /** n, on no chain yet, becomes the only child of p. */
  lemma AppendFirst(nodes: Nodes, kids: map<Node, seq<Node>>, up: map<Node, Node>, info: map<Node, Info>, p: Node, n: Node)
    requires Shows(nodes, kids, up, info) && p in kids && kids[p] == [] && n in nodes && nodes[n].next == None
    ensures p in nodes && Shows(PutChildren(nodes, p, Some(n)), kids[p := kids[p] + [n]], up, info)
  {
    var nodes', kids' := PutChildren(nodes, p, Some(n)), kids[p := kids[p] + [n]];
    forall m | m in kids' ensures NodeShows(nodes', up, info, m) && Chain(nodes', nodes'[m].children, kids'[m]) {
      assert m in kids;
      if m != p {
        ChainSame(nodes, nodes', nodes[m].children, kids[m]);
      }
    }
  }

  /** n, on no chain yet, becomes the last child of p. */
  lemma AppendLast(nodes: Nodes, kids: map<Node, seq<Node>>, up: map<Node, Node>, info: map<Node, Info>, p: Node, n: Node)
    requires Shows(nodes, kids, up, info) && Apart(kids) && p in kids && kids[p] != [] && n in nodes && nodes[n].next == None
    requires forall m :: m in kids ==> n !in kids[m]
    ensures var last := kids[p][|kids[p]| - 1];
            last in nodes && Shows(PutNext(nodes, last, Some(n)), kids[p := kids[p] + [n]], up, info)
  {
    var last := kids[p][|kids[p]| - 1];
    ChainAppend(nodes, nodes[p].children, kids[p], n);
    var nodes', kids' := PutNext(nodes, last, Some(n)), kids[p := kids[p] + [n]];
    OnlyUnder(kids, p, last);
    hide Chain, Apart, Distinct;
    forall m | m in kids' ensures NodeShows(nodes', up, info, m) && Chain(nodes', nodes'[m].children, kids'[m]) {
      assert m in kids;
      if m != p {
        ChainPutNext(nodes, nodes[m].children, kids[m], last, Some(n));
      }
    }
  }

  // ---------------------------------------------------------------------------
  // The steps of the operations

  lemma ApartFewer(kids: map<Node, seq<Node>>, p: Node, n: Node)
    requires Apart(kids) && p in kids && n in kids[p]
    ensures Apart(kids[p := Without(kids[p], n)])
    ensures forall m :: m in kids ==> n !in kids[p := Without(kids[p], n)][m]
  {
    WithoutKeeps(kids[p], n);
    hide Without, Distinct;
  }

  /** A node that is on no chain can be written without anybody noticing. */
  lemma LooseNode(nodes: Nodes, kids: map<Node, seq<Node>>, up: map<Node, Node>, info: map<Node, Info>, n: Node, fields: NodeFields)
    requires Shows(nodes, kids, up, info) && n !in kids && forall m :: m in kids ==> n !in kids[m]
    ensures Shows(nodes[n := fields], kids, up, info)
  {
    forall m | m in kids ensures NodeShows(nodes[n := fields], up, info, m) && Chain(nodes[n := fields], nodes[m].children, kids[m]) {
      ChainSame(nodes, nodes[n := fields], nodes[m].children, kids[m]);
    }
    hide Chain;
  }

  lemma LooseNext(nodes: Nodes, kids: map<Node, seq<Node>>, up: map<Node, Node>, info: map<Node, Info>, n: Node, v: Link)
    requires Shows(nodes, kids, up, info) && n in nodes && forall m :: m in kids ==> n !in kids[m]
    ensures Shows(PutNext(nodes, n, v), kids, up, info)
  {
    var nodes' := PutNext(nodes, n, v);
    forall m | m in kids ensures NodeShows(nodes', up, info, m) && Chain(nodes', nodes'[m].children, kids[m]) {
      ChainPutNext(nodes, nodes[m].children, kids[m], n, v);
    }
    hide Chain;
  }

  lemma NewNode(nodes: Nodes, kids: map<Node, seq<Node>>, up: map<Node, Node>, info: map<Node, Info>, n: Node, p: Node, new_: Info)
    requires Shows(nodes, kids, up, info) && n !in kids && forall m :: m in kids ==> n !in kids[m]
    ensures Shows(nodes[n := NodeFields(new_, Some(p), None, None)], kids[n := []], up[n := p], info[n := new_])
  {
    var fields := NodeFields(new_, Some(p), None, None);
    LooseNode(nodes, kids, up, info, n, fields);
    hide Chain;
    assert Chain(nodes[n := fields], None, []) by { ChainEmpty(nodes[n := fields]); }
  }

  lemma ChainEmpty(nodes: Nodes)
    ensures Chain(nodes, None, [])
  {
  }

  /** A node that is on no chain is forgotten. */
  lemma ForgetNode(nodes: Nodes, kids: map<Node, seq<Node>>, up: map<Node, Node>, info: map<Node, Info>, n: Node)
    requires Shows(nodes, kids, up, info)
    ensures Shows(nodes, kids - {n}, up - {n}, info - {n})
  {
    hide Chain;
  }

  lemma PutParent(nodes: Nodes, kids: map<Node, seq<Node>>, up: map<Node, Node>, info: map<Node, Info>, n: Node, p: Node)
    requires Shows(nodes, kids, up, info) && n in kids
    ensures n in nodes && Shows(nodes[n := nodes[n].(parent := Some(p))], kids, up[n := p], info)
  {
    var nodes' := nodes[n := nodes[n].(parent := Some(p))];
    forall m | m in kids ensures NodeShows(nodes', up[n := p], info, m) && Chain(nodes', nodes'[m].children, kids[m]) {
      ChainSame(nodes, nodes', nodes[m].children, kids[m]);
    }
    hide Chain;
  }

  lemma PutInfo(nodes: Nodes, kids: map<Node, seq<Node>>, up: map<Node, Node>, info: map<Node, Info>, n: Node, new_: Info)
    requires Shows(nodes, kids, up, info) && n in kids
    ensures n in nodes && n in info && nodes[n].info == info[n]
    ensures Shows(nodes[n := nodes[n].(info := new_)], kids, up, info[n := new_])
  {
    var nodes' := nodes[n := nodes[n].(info := new_)];
    forall m | m in kids ensures NodeShows(nodes', up, info[n := new_], m) && Chain(nodes', nodes'[m].children, kids[m]) {
      ChainSame(nodes, nodes', nodes[m].children, kids[m]);
    }
    hide Chain;
  }

  /** Creating: a fresh record, linked behind the last child. */
  lemma CreateShows(nodes: Nodes, fs: Fs, n: Node, p: Node, new_: Info)
    requires Valid(fs) && Shows(nodes, fs.kids, fs.up, fs.info) && n !in fs.kids && p in fs.kids
    ensures var nodes1, g := nodes[n := NodeFields(new_, Some(p), None, None)], Attach(fs, n, p, new_);
            && Shows(nodes1, fs.kids, fs.up, fs.info) && p in nodes1
            && (fs.kids[p] == [] ==> Shows(PutChildren(nodes1, p, Some(n)), g.kids, g.up, g.info))
            && (fs.kids[p] != [] ==>
                  var last := fs.kids[p][|fs.kids[p]| - 1];
                  last in nodes1 && Shows(PutNext(nodes1, last, Some(n)), g.kids, g.up, g.info))
  {
    hide Valid, Shows, Chain, Apart;
    NoChild(fs, n);
    var fields, kids1 := NodeFields(new_, Some(p), None, None), fs.kids[n := []];
    LooseNode(nodes, fs.kids, fs.up, fs.info, n, fields);
    NewNode(nodes, fs.kids, fs.up, fs.info, n, p, new_);
    assert kids1[p := kids1[p] + [n]] == Attach(fs, n, p, new_).kids;
    ShownNode(nodes[n := fields], kids1, fs.up[n := p], fs.info[n := new_], p);
    if fs.kids[p] == [] {
      AppendFirst(nodes[n := fields], kids1, fs.up[n := p], fs.info[n := new_], p, n);
    } else {
      AppendLast(nodes[n := fields], kids1, fs.up[n := p], fs.info[n := new_], p, n);
    }
  }

  lemma ShownNode(nodes: Nodes, kids: map<Node, seq<Node>>, up: map<Node, Node>, info: map<Node, Info>, n: Node)
    requires Shows(nodes, kids, up, info) && n in kids
    ensures n in nodes && n in info && nodes[n].info == info[n] && Chain(nodes, nodes[n].children, kids[n])
    ensures nodes[n].children == Nth(kids[n], 0) && nodes[n].parent == if n in up then Some(up[n]) else None
  {
  }

  lemma NoChild(fs: Fs, n: Node)
    requires Valid(fs) && n !in fs.kids
    ensures (forall m :: m in fs.kids ==> n !in fs.kids[m]) && Apart(fs.kids) && Apart(fs.kids[n := []])
  {
    hide Typed, Named, Height, Sound;
    LinkedApart(fs);
    assert Distinct<Node>([]);
    hide Distinct;
  }
}
