// What every run of the file system's operations keeps, and what calls undo.
module RamfsRuns {
  import opened Lists
  import opened Words
  import opened Ramfs
  import opened RamfsMove
  import opened RamfsDelete
  import opened RamfsCopy

  datatype Op =
    | OpCreate(parent: Option<Node>, name: string, kind: Kind)
    | OpRemove(n: Node)
    | OpRename(n: Node, name: string)
    | OpMove(n: Node, p: Node)
    | OpWrite(n: Node, bytes: seq<Byte>)
    | OpDelete(n: Node)
    | OpCopy(n: Node, p: Node)

  ghost predicate Live(fs: Fs, n: Node) {
    n in fs.kids && n in fs.info && (n in fs.up ==> fs.up[n] in fs.kids)
  }

  /** Callers name live nodes, make legal moves, write something or to an empty file, and
      copy out of the source. */
  ghost predicate Step(fs: Fs, op: Op, g: Fs) {
    match op
    case OpCreate(parent, name, kind) =>
      && (parent.Some? ==> Live(fs, parent.value))
      && exists n :: n !in fs.kids && g == Create(fs, n, parent, name, kind).0
    case OpRemove(n) => Live(fs, n) && g == Remove(fs, n)
    case OpRename(n, name) => Live(fs, n) && g == Rename(fs, n, name).0
    case OpMove(n, p) => Live(fs, n) && Live(fs, p) && (Moves(fs, n, p) ==> Legal(fs, n, p)) && g == Move(fs, n, p).0
    case OpWrite(n, bytes) =>
      Live(fs, n) && (fs.info[n].kind == File && bytes == [] ==> fs.info[n].size == 0) && g == Write(fs, n, bytes).0
    case OpDelete(n) => Live(fs, n) && g == Deleted(fs, n)
    case OpCopy(n, p) =>
      && Live(fs, n) && Live(fs, p) && (fs.info[p].kind == Directory ==> !Within(fs.up, p, n))
      && if CopyFits(fs, n, p) then exists twin :: Copied(fs, g, n, p, CopyName(fs, n, p), twin) else g == fs
  }

  lemma MoveStays(fs: Fs, n: Node, p: Node)
    requires Valid(fs) && Live(fs, n) && Live(fs, p)
    ensures Moves(fs, n, p) <==> Move(fs, n, p).1
    ensures !Moves(fs, n, p) ==> Move(fs, n, p).0 == fs
  {
    KidsKnown(fs, n);
    hide Valid, NamesDiffer, Distinct, Without;
  }

  lemma MoveStepKeeps(fs: Fs, n: Node, p: Node)
    requires Valid(fs) && Live(fs, n) && Live(fs, p) && (Moves(fs, n, p) ==> Legal(fs, n, p))
    ensures Valid(Move(fs, n, p).0)
  {
    hide Valid, Legal, Moves, Move;
    MoveStays(fs, n, p);
    if Moves(fs, n, p) {
      MoveKeepsIff(fs, n, p);
    }
  }

  lemma WriteStepKeeps(fs: Fs, n: Node, bytes: seq<Byte>)
    requires Valid(fs) && Live(fs, n) && (fs.info[n].kind == File && bytes == [] ==> fs.info[n].size == 0)
    ensures Valid(Write(fs, n, bytes).0)
  {
    if fs.info[n].kind == File {
      hide Tree, Sound, Write;
      WriteKeepsIff(fs, n, bytes);
    }
  }

  lemma CopyStepKeeps(fs: Fs, n: Node, p: Node, g: Fs, twin: map<Node, Node>)
    requires Valid(fs) && Live(fs, n) && Live(fs, p) && (fs.info[p].kind == Directory ==> !Within(fs.up, p, n)) && CopyFits(fs, n, p)
    requires Copied(fs, g, n, p, CopyName(fs, n, p), twin)
    ensures Valid(g)
  {
    CopyFitsIff(fs, n, p);
    hide Valid, Within, Twins, SameNodes, OldKept, NewTwins, NameFree, Source;
    GraftedKeeps(fs, g, n, p, CopyName(fs, n, p), twin, |fs.kids[n]|);
  }

  /** Every operation keeps the file system a finite rooted tree. */
  lemma StepKeeps(fs: Fs, op: Op, g: Fs)
    requires Valid(fs) && Step(fs, op, g)
    ensures Valid(g)
  {
    hide Valid, Create, Remove, Rename, Move, Write, Deleted, Copied, CopyFits, CopyName, Moves, Legal, Within;
    match op
    case OpCreate(parent, name, kind) =>
      var n :| n !in fs.kids && g == Create(fs, n, parent, name, kind).0;
      CreateKeeps(fs, n, parent, name, kind);
    case OpRemove(n) => RemoveKeeps(fs, n);
    case OpRename(n, name) => RenameKeeps(fs, n, name);
    case OpMove(n, p) => MoveStepKeeps(fs, n, p);
    case OpWrite(n, bytes) => WriteStepKeeps(fs, n, bytes);
    case OpDelete(n) => DeletedKeeps(fs, n);
    case OpCopy(n, p) =>
      if CopyFits(fs, n, p) {
        var twin :| Copied(fs, g, n, p, CopyName(fs, n, p), twin);
        CopyStepKeeps(fs, n, p, g, twin);
      }
  }

  ghost predicate Runs(states: seq<Fs>, ops: seq<Op>) {
    && |states| == |ops| + 1
    && forall i :: 0 <= i < |ops| ==> Step(states[i], ops[i], states[i + 1])
  }

  lemma {:induction false} RunKeeps(states: seq<Fs>, ops: seq<Op>, i: nat)
    requires Runs(states, ops) && Valid(states[0]) && i < |states|
    ensures Valid(states[i])
  {
    hide Valid, Step;
    if i > 0 {
      RunKeeps(states, ops, i - 1);
      assert Step(states[i - 1], ops[i - 1], states[i - 1 + 1]);
      StepKeeps(states[i - 1], ops[i - 1], states[i]);
    }
  }

  /** ramfs_init */
  function Init(root: Node): Fs {
    Fs(root, map[root := []], map[], map[root := Info("/", Directory, None, 0)])
  }

  /** An empty directory named "/", and nothing else. */
  lemma InitValid(root: Node)
    ensures Valid(Init(root)) && Init(root).kids == map[root := []] && Init(root).up == map[]
    ensures Init(root).root == root && Init(root).info == map[root := Info("/", Directory, None, 0)]
  {
    assert Height(Init(root).kids, Init(root).up, map[root := 0]);
  }

  /** In a valid file system every node is below the root. */
  lemma {:induction false} AllBelowRoot(fs: Fs, h: map<Node, nat>, n: Node)
    requires Tree(fs) && Height(fs.kids, fs.up, h) && n in fs.kids
    ensures Within(fs.up, n, fs.root)
    decreases NodesAbove(h, n)
  {
    hide Typed, Named, Within, Distinct;
    UpKnown(fs, h);
    WithinStep(fs.up, n, fs.root);
    if n != fs.root {
      assert fs.up[n] in fs.kids && h[n] < h[fs.up[n]];
      FewerAbove(h, n, fs.up[n]);
      AllBelowRoot(fs, h, fs.up[n]);
    }
  }

  /** Removing a node just created gives back what was. */
  lemma RemoveUndoesCreate(fs: Fs, n: Node, parent: Option<Node>, name: string, kind: Kind)
    requires Valid(fs) && n !in fs.kids && (parent.Some? ==> Live(fs, parent.value))
    requires Create(fs, n, parent, name, kind).1 == Some(n)
    ensures var g := Create(fs, n, parent, name, kind).0;
            n in g.kids && n in g.up && g.up[n] in g.kids && Remove(g, n) == fs
  {
    hide Valid, Find, Without;
    NotYet(fs, n);
    AppendedLast(fs, parent.value, n);
    DetachUndoesAttach(fs, n, parent.value, Info(name, kind, None, 0));
  }

  lemma DetachUndoesAttach(fs: Fs, n: Node, p: Node, info: Info)
    requires n !in fs.kids && n !in fs.up && n !in fs.info && n != fs.root && p in fs.kids
    requires Without(fs.kids[p] + [n], n) == fs.kids[p]
    ensures Remove(Attach(fs, n, p, info), n) == fs
  {
    hide Without;
    var r := Remove(Attach(fs, n, p, info), n);
    assert r.up == fs.up;
    assert r.info == fs.info;
    assert r.kids == fs.kids;
  }

  lemma NotYet(fs: Fs, n: Node)
    requires Valid(fs) && n !in fs.kids
    ensures n !in fs.up && n !in fs.info && n != fs.root
  {
    hide Named, Height, Sound, Distinct;
  }

  /** A file with one byte in it. */
  function OneByteFile(): Fs {
    Attach(Init(NodeAt(0)), NodeAt(1), NodeAt(0), Info("file", File, Some([65]), 1))
  }

  lemma OneByteFileValid()
    ensures Valid(OneByteFile())
  {
    hide Tree;
    InitValid(NodeAt(0));
    AttachKeeps(Init(NodeAt(0)), NodeAt(1), NodeAt(0), Info("file", File, Some([65]), 1));
  }

  /** Writing nothing over it leaves a size without data. */
  lemma WriteCanLoseData()
    ensures var fs, n := OneByteFile(), NodeAt(1);
            n in fs.info && Valid(fs) && !Write(fs, n, []).1 && !Valid(Write(fs, n, []).0)
            && Write(fs, n, []).0.info[n].size == 1 && Write(fs, n, []).0.info[n].data == None
  {
    hide Tree;
    OneByteFileValid();
    OneByteFileIs();
    hide OneByteFile;
    var info := Write(OneByteFile(), NodeAt(1), []).0.info;
    assert NodeAt(1) in info && info[NodeAt(1)].kind == File && info[NodeAt(1)].size == 1 && info[NodeAt(1)].data == None;
    assert !Sound(info);
  }

  lemma OneByteFileIs()
    ensures NodeAt(1) in OneByteFile().info && OneByteFile().info[NodeAt(1)] == Info("file", File, Some([65]), 1)
  {
  }

  /** A new directory in one that has none yet. */
  function Inside(fs: Fs, n: Node, p: Node): Fs
    requires p in fs.kids
  {
    Attach(fs, n, p, Info("dir", Directory, None, 0))
  }

  lemma InsideValid(fs: Fs, n: Node, p: Node)
    requires Valid(fs) && n !in fs.kids && p in fs.kids && fs.kids[p] == [] && p in fs.info && fs.info[p].kind == Directory
    ensures Valid(Inside(fs, n, p))
  {
    hide Tree, Sound;
    AttachKeeps(fs, n, p, Info("dir", Directory, None, 0));
    SoundMore(fs.info, n, "dir", Directory);
  }

  /** Four directories, each in the one before. */
  function Nested(): Fs {
    Inside(Inside(Inside(Init(NodeAt(0)), NodeAt(1), NodeAt(0)), NodeAt(2), NodeAt(1)), NodeAt(3), NodeAt(2))
  }

  lemma NestedValid()
    ensures Valid(Nested())
  {
    hide Valid;
    var f0 := Init(NodeAt(0));
    InitValid(NodeAt(0));
    InsideValid(f0, NodeAt(1), NodeAt(0));
    var f1 := Inside(f0, NodeAt(1), NodeAt(0));
    InsideValid(f1, NodeAt(2), NodeAt(1));
    InsideValid(Inside(f1, NodeAt(2), NodeAt(1)), NodeAt(3), NodeAt(2));
  }

  lemma NestedFacts()
    ensures var fs := Nested();
            && fs.root == NodeAt(0) && NodeAt(1) in fs.kids && NodeAt(3) in fs.kids && NodeAt(0) in fs.kids
            && NodeAt(1) in fs.info && NodeAt(3) in fs.info && fs.kids[NodeAt(1)] == [NodeAt(2)]
            && NodeAt(1) in fs.up && fs.up[NodeAt(1)] == NodeAt(0) && NodeAt(2) in fs.up && fs.up[NodeAt(2)] == NodeAt(1)
            && NodeAt(3) in fs.up && fs.up[NodeAt(3)] == NodeAt(2)
  {
  }

  /** The tests that ramfs_move makes do not keep a directory out of its own grandchild. */
  lemma MoveCanCycle()
    ensures var fs, n, p := Nested(), NodeAt(1), NodeAt(3);
            n in fs.kids && p in fs.kids && n in fs.up && fs.up[n] in fs.kids
            && Valid(fs) && Move(fs, n, p).1 && !Valid(Move(fs, n, p).0)
  {
    hide Within, Valid, Move, Nested;
    var fs, n, p := Nested(), NodeAt(1), NodeAt(3);
    NestedFacts();
    NestedValid();
    WithinSelf(fs.up, NodeAt(1));
    WithinStep(fs.up, NodeAt(2), NodeAt(1));
    WithinStep(fs.up, NodeAt(3), NodeAt(1));
    MoveKeepsIff(fs, n, p);
  }
}
