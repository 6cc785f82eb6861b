// ramfs.c over linked nodes, method by method: each does to the nodes in place what the
// operation of module Ramfs does to the file system as a value.
module RamfsNodes {
  import opened Lists
  import opened Words
  import opened Ramfs
  import opened RamfsMove
  import opened RamfsDelete
  import opened RamfsCopy
  import opened RamfsMemory
  import opened RamfsRuns

  class RamFileSystem {
    var root: Node
    var nodes: Nodes
    /** The address at which the heap places the next node; freed nodes are not used again. */
    var nextAddress: nat
    ghost var fs: Fs

    ghost predicate Valid()
      reads this
    {
      Ramfs.Valid(fs) && Coupled()
    }

    ghost predicate Coupled()
      reads this
    {
      && root == fs.root && Shows(nodes, fs.kids, fs.up, fs.info)
      && forall n :: n in nodes ==> n.address < nextAddress
    }

    /** ramfs_init */
    constructor (address: nat)
      ensures Valid() && fs == Init(NodeAt(address))
    {
      root, nextAddress := NodeAt(address), address + 1;
      nodes := map[NodeAt(address) := NodeFields(Info("/", Directory, None, 0), None, None, None)];
      fs := Init(NodeAt(address));
      new;
      InitValid(NodeAt(address));
    }

    /** ramfs_find */
    method FindChild(parent: Link, name: string) returns (r: Link)
      requires Valid() && (parent.Some? ==> parent.value in fs.kids)
      ensures r == Find(fs, parent, name)
    {
      hide Ramfs.Valid, Shows, Chain, FindIn;
      if parent == None {
        return None;
      }
      ShownNode(nodes, fs.kids, fs.up, fs.info, parent.value);
      KidsShown(nodes, fs, parent.value);
      r := FindAmong(nodes[parent.value].children, fs.kids[parent.value], name);
    }

    /** The walk over the siblings. */
    method FindAmong(head: Link, ghost s: seq<Node>, name: string) returns (r: Link)
      requires Chain(nodes, head, s) && ChildrenKnown(nodes, fs.info, s)
      ensures r == FindIn(fs.info, s, name)
    {
      hide FindIn;
      ghost var j: nat := 0;
      var it := head;
      while it != None
        invariant j <= |s| && it == Nth(s, j) && FindIn(fs.info, s, name) == FindIn(fs.info, s[j..], name)
        decreases |s| - j
      {
        assert FindIn(fs.info, s[j..], name) == if fs.info[s[j]].name == name then Some(s[j]) else FindIn(fs.info, s[j + 1..], name) by {
          FindInUnfold(fs.info, s, j, name);
        }
        if nodes[it.value].info.name == name {
          return it;
        }
        it := nodes[it.value].next;
        j := j + 1;
      }
      assert FindIn(fs.info, s[j..], name) == None by {
        assert s[j..] == [];
        FindInEmpty(fs.info, name);
      }
      return None;
    }

    /** The last child of a node that has some. */
    method LastChild(p: Node, ghost s: seq<Node>) returns (it: Node)
      requires p in nodes && Chain(nodes, nodes[p].children, s) && s != []
      ensures it == s[|s| - 1] && it in nodes
    {
      ghost var j: nat := 0;
      it := nodes[p].children.value;
      while nodes[it].next != None
        invariant j < |s| && it == s[j] && it in nodes && nodes[it].next == Nth(s, j + 1)
        decreases |s| - j
      {
        it := nodes[it].next.value;
        j := j + 1;
      }
    }

    /** The child before n, which is not the first. */
    method ChildBefore(p: Node, n: Node, ghost s: seq<Node>) returns (it: Node, ghost j: nat)
      requires p in nodes && Chain(nodes, nodes[p].children, s) && n in s && s[0] != n
      ensures j + 1 < |s| && it == s[j] && s[j + 1] == n && it in nodes
    {
      it, j := nodes[p].children.value, 0;
      while nodes[it].next != Some(n)
        invariant j < |s| && it == s[j] && it in nodes && nodes[it].next == Nth(s, j + 1)
        invariant forall k: nat :: k <= j ==> s[k] != n
        decreases |s| - j
      {
        it := nodes[it].next.value;
        j := j + 1;
      }
    }

    /** ramfs_create */
    method CreateNode(parent: Link, name: string, kind: Kind) returns (r: Link)
      requires Valid() && (parent.Some? ==> parent.value in fs.kids && parent.value in fs.info)
      modifies this
      ensures Valid() && (fs, r) == Create(old(fs), NodeAt(old(nextAddress)), parent, name, kind)
      ensures nextAddress >= old(nextAddress)
    {
      hide Ramfs.Valid, Shows, Chain, Find, FindIn, Attach;
      if parent == None {
        return None;
      }
      var p := parent.value;
      ShownNode(nodes, fs.kids, fs.up, fs.info, p);
      if nodes[p].info.kind != Directory {
        return None;
      }
      var found := FindChild(parent, name);
      if found != None {
        return None;
      }
      var n := NodeAt(nextAddress);
      KnownNodes(nodes, fs);
      CreateShows(nodes, fs, n, p, Info(name, kind, None, 0));
      CreateKeeps(fs, n, parent, name, kind);
      AttachRoot(fs, n, p, Info(name, kind, None, 0));
      nextAddress := nextAddress + 1;
      nodes := nodes[n := NodeFields(Info(name, kind, None, 0), Some(p), None, None)];
      ShownNode(nodes, fs.kids, fs.up, fs.info, p);
      if nodes[p].children == None {
        nodes := PutChildren(nodes, p, Some(n));
      } else {
        var it := LastChild(p, fs.kids[p]);
        nodes := PutNext(nodes, it, Some(n));
      }
      fs := Attach(fs, n, p, Info(name, kind, None, 0));
      return Some(n);
    }

    /** Takes n out of the chain of p's children; the file system value is not yet told. */
    method Unlink(p: Node, n: Node)
      requires Shows(nodes, fs.kids, fs.up, fs.info) && Apart(fs.kids) && p in fs.kids && n in fs.kids[p] && n in nodes
      modifies `nodes
      ensures Shows(nodes, fs.kids[p := Without(fs.kids[p], n)], fs.up, fs.info) && nodes.Keys == old(nodes.Keys)
    {
      hide Shows, Chain, Apart, Without;
      ShownNode(nodes, fs.kids, fs.up, fs.info, p);
      if nodes[p].children == Some(n) {
        UnlinkFirst(nodes, fs.kids, fs.up, fs.info, p);
        nodes := PutChildren(nodes, p, nodes[n].next);
      } else {
        var it, j := ChildBefore(p, n, fs.kids[p]);
        UnlinkLater(nodes, fs.kids, fs.up, fs.info, p, j);
        nodes := PutNext(nodes, it, nodes[n].next);
      }
    }

    /** ramfs_remove */
    method RemoveNode(n: Node)
      requires Valid() && Live(fs, n)
      modifies this
      ensures Valid() && fs == Remove(old(fs), n) && nextAddress == old(nextAddress)
    {
      hide Ramfs.Valid, Shows, Chain, Apart, Without;
      ShownNode(nodes, fs.kids, fs.up, fs.info, n);
      if n == root || nodes[n].children != None || nodes[n].parent == None {
        return;
      }
      var p := nodes[n].parent.value;
      TreeKnown(fs, n);
      RemoveKeeps(fs, n);
      ghost var kids := fs.kids[p := Without(fs.kids[p], n)];
      Unlink(p, n);
      ForgetNode(nodes, kids, fs.up, fs.info, n);
      fs := Remove(fs, n);
    }

    /** ramfs_rename */
    method RenameNode(n: Node, name: string) returns (ok: bool)
      requires Valid() && Live(fs, n)
      modifies this
      ensures Valid() && (fs, ok) == Rename(old(fs), n, name) && nextAddress == old(nextAddress)
    {
      hide Ramfs.Valid, Shows, Chain, FindIn;
      ShownNode(nodes, fs.kids, fs.up, fs.info, n);
      var found := FindChild(nodes[n].parent, name);
      if found != None {
        return false;
      }
      RenameKeeps(fs, n, name);
      PutInfo(nodes, fs.kids, fs.up, fs.info, n, fs.info[n].(name := name));
      nodes := nodes[n := nodes[n].(info := nodes[n].info.(name := name))];
      fs := Rename(fs, n, name).0;
      return true;
    }

    /** ramfs_move. A move that goes through but is not legal is made all the same, and
        leaves no tree behind. */
    method MoveNode(n: Node, p: Node) returns (ok: bool)
      requires Valid() && Live(fs, n) && Live(fs, p)
      modifies this
      ensures Coupled() && (fs, ok) == Move(old(fs), n, p) && nextAddress == old(nextAddress)
      ensures Valid() <==> !Moves(old(fs), n, p) || Legal(old(fs), n, p)
    {
      hide Ramfs.Valid, Shows, Chain, Apart, Without, Legal;
      ShownNode(nodes, fs.kids, fs.up, fs.info, n);
      ShownNode(nodes, fs.kids, fs.up, fs.info, p);
      MoveStays(fs, n, p);
      MovedValidIff(fs, n, p);
      if n == root || n == p || nodes[n].parent == None || nodes[n].children == Some(p) {
        return false;
      }
      var q := nodes[n].parent.value;
      TreeKnown(fs, n);
      ApartFewer(fs.kids, q, n);
      ghost var kids := fs.kids[q := Without(fs.kids[q], n)];
      Unlink(q, n);
      LooseNext(nodes, kids, fs.up, fs.info, n, None);
      nodes := PutNext(nodes, n, None);
      ShownNode(nodes, kids, fs.up, fs.info, p);
      if nodes[p].children == None {
        AppendFirst(nodes, kids, fs.up, fs.info, p, n);
        nodes := PutChildren(nodes, p, Some(n));
      } else {
        var it := LastChild(p, kids[p]);
        AppendLast(nodes, kids, fs.up, fs.info, p, n);
        nodes := PutNext(nodes, it, Some(n));
      }
      PutParent(nodes, kids[p := kids[p] + [n]], fs.up, fs.info, n, p);
      nodes := nodes[n := nodes[n].(parent := Some(p))];
      fs := Move(fs, n, p).0;
      return true;
    }

    /** ramfs_write. Writing nothing over something leaves a size without data. */
    method WriteNode(n: Node, bytes: seq<Byte>) returns (ok: bool)
      requires Valid() && Live(fs, n)
      modifies this
      ensures Coupled() && (fs, ok) == Write(old(fs), n, bytes) && nextAddress == old(nextAddress)
      ensures Valid() <==> old(fs).info[n].kind != File || bytes != [] || old(fs).info[n].size == 0
    {
      hide Ramfs.Valid, Shows, Chain;
      ShownNode(nodes, fs.kids, fs.up, fs.info, n);
      if nodes[n].info.kind != File {
        return false;
      }
      WrittenValidIff(fs, n, bytes);
      PutInfo(nodes, fs.kids, fs.up, fs.info, n, Write(fs, n, bytes).0.info[n]);
      if bytes == [] {
        nodes := nodes[n := nodes[n].(info := nodes[n].info.(data := None))];
      } else {
        nodes := nodes[n := nodes[n].(info := nodes[n].info.(data := Some(bytes), size := |bytes|))];
      }
      fs := Write(fs, n, bytes).0;
      return bytes != [];
    }

    /** ramfs_read */
    method ReadNode(n: Node, size: nat, offset: nat) returns (buffer: seq<Byte>)
      requires Valid() && Live(fs, n)
      ensures fs.info[n].size > 0 ==> fs.info[n].data.Some? && |fs.info[n].data.value| == fs.info[n].size
      ensures buffer == Read(fs.info[n], size, offset)
    {
      hide Ramfs.Valid, Shows, Chain;
      ShownNode(nodes, fs.kids, fs.up, fs.info, n);
      SoundAt(fs, n);
      var info := nodes[n].info;
      if info.kind != File || offset >= info.size {
        return [];
      }
      var remaining := info.size - offset;
      var length := if size > remaining then remaining else size;
      buffer := info.data.value[offset..offset + length];
    }

    /** ramfs_delete */
    method DeleteNode(n: Node)
      requires Valid() && Live(fs, n)
      modifies this
      ensures Valid() && fs == Deleted(old(fs), n) && nextAddress == old(nextAddress)
      decreases Below(fs, n)
    {
      hide Ramfs.Valid, Shows, Chain, Deleted, DeletedFirst, Below, Remove;
      ghost var fs0, i: nat := fs, 0;
      DeletedNone(fs, n);
      ShownNode(nodes, fs.kids, fs.up, fs.info, n);
      while nodes[n].children != None
        invariant Valid() && Live(fs, n) && i <= |fs0.kids[n]| && fs == DeletedFirst(fs0, n, i) && nextAddress == old(nextAddress)
        invariant n in nodes && nodes[n].children == Nth(fs.kids[n], 0) && fs.kids[n] == fs0.kids[n][i..]
        decreases |fs0.kids[n]| - i
      {
        assert DeleteTurn(fs0, n, i) by { DeleteTurns(fs0, n, i); }
        DeleteNode(nodes[n].children.value);
        i := i + 1;
        assert n in nodes && nodes[n].children == Nth(fs.kids[n], 0) by { ShownNode(nodes, fs.kids, fs.up, fs.info, n); }
      }
      DeleteEnds(fs0, n, i);
      RemoveNode(n);
    }

    /** The copy of the node itself, with the bytes if it is a file: the part of ramfs_copy
        before its loop. */
    method CopyTop(n: Node, p: Node) returns (copy: Link)
      requires Valid() && Live(fs, n) && Live(fs, p) && (fs.info[p].kind == Directory ==> !Within(fs.up, p, n))
      modifies this
      ensures Valid() && nextAddress >= old(nextAddress)
      ensures !CopyFits(old(fs), n, p) ==> copy == None && fs == old(fs)
      ensures CopyFits(old(fs), n, p) ==>
                copy.Some? && n in nodes && nodes[n].info.kind == old(fs).info[n].kind
                && TopCopied(nodes, old(fs), fs, n, p, CopyName(old(fs), n, p), copy.value)
    {
      hide Ramfs.Valid, Shows, Chain, Find, Attach, Within, Grafted, Below, CopyTurn, Copied;
      ghost var fs0 := fs;
      ShownNode(nodes, fs.kids, fs.up, fs.info, n);
      var name := nodes[n].info.name;
      var clash := FindChild(Some(p), name);
      if clash != None {
        name := name + "_copy";
      }
      assert name == CopyName(fs0, n, p);
      KnownNodes(nodes, fs);
      copy := CreateNode(Some(p), name, nodes[n].info.kind);
      if copy == None {
        return;
      }
      var c := copy.value;
      CopyStarts(nodes, fs0, fs, n, p, name, c);
      if nodes[n].info.kind == File && nodes[n].info.size > 0 {
        nodes := nodes[c := nodes[c].(info := nodes[c].info.(data := nodes[n].info.data, size := nodes[n].info.size))];
        fs := Attach(fs0, c, p, fs0.info[n].(name := name));
      }
    }

    /** ramfs_copy, to a place outside the source. */
    method CopyNode(n: Node, p: Node) returns (r: Link, ghost twin: map<Node, Node>)
      requires Valid() && Live(fs, n) && Live(fs, p) && (fs.info[p].kind == Directory ==> !Within(fs.up, p, n))
      modifies this
      ensures Valid() && nextAddress >= old(nextAddress)
      ensures !CopyFits(old(fs), n, p) ==> r == None && fs == old(fs)
      ensures CopyFits(old(fs), n, p) ==> Copied(old(fs), fs, n, p, CopyName(old(fs), n, p), twin) && n in twin && r == Some(twin[n])
      decreases Below(fs, n)
    {
      hide Ramfs.Valid, Shows, Chain, Find, Attach, Within, Grafted, Below, CopyTurn, Copied, CopyFits, CopyName;
      ghost var fs0, i: nat, name := fs, 0, CopyName(fs, n, p);
      var copy := CopyTop(n, p);
      if copy == None {
        return None, map[];
      }
      var c := copy.value;
      twin := map[n := c];
      if nodes[n].info.kind == File {
        return copy, twin;
      }
      var child := nodes[n].children;
      while child != None
        invariant Valid() && CopyTurn(fs0, fs, n, p, name, twin, i) && n in twin && twin[n] == c
        invariant n in fs0.kids && i <= |fs0.kids[n]| && child == Nth(fs0.kids[n], i) && nextAddress >= old(nextAddress)
        decreases |fs0.kids[n]| - i
      {
        assert CopyTurnUses(fs0, fs, n, c, child.value) by { CopyTurns(fs0, fs, n, p, name, twin, i); }
        ghost var g := fs;
        ghost var twin2;
        var done;
        done, twin2 := CopyNode(child.value, c);
        assert CopyTurn(fs0, fs, n, p, name, twin + twin2, i + 1) && n in twin + twin2 && (twin + twin2)[n] == c by {
          CopyTurned(fs0, g, fs, n, p, name, twin, twin2, i);
        }
        twin := twin + twin2;
        assert child.value in nodes && nodes[child.value].next == Nth(fs0.kids[n], i + 1) by {
          NextSibling(nodes, fs0, fs, n, p, name, twin, i);
        }
        child := nodes[child.value].next;
        i := i + 1;
      }
      CopyEnds(fs0, fs, n, p, name, twin, i);
      r := copy;
    }
  }

  /** The top of a copy: a file is copied, a directory is ready for its children. */
  ghost predicate TopCopied(nodes: Nodes, fs: Fs, g: Fs, n: Node, p: Node, name: string, c: Node) {
    && n in fs.kids && n in fs.info && n in nodes
    && (fs.info[n].kind == File ==> Copied(fs, g, n, p, name, map[n := c]))
    && (fs.info[n].kind == Directory ==>
          CopyTurn(fs, g, n, p, name, map[n := c], 0) && nodes[n].children == Nth(fs.kids[n], 0))
  }

  lemma MovedValidIff(fs: Fs, n: Node, p: Node)
    requires Ramfs.Valid(fs) && Live(fs, n) && Live(fs, p)
    ensures Ramfs.Valid(Move(fs, n, p).0) <==> !Moves(fs, n, p) || Legal(fs, n, p)
  {
    hide Ramfs.Valid, Legal, Moves, Move;
    MoveStays(fs, n, p);
    if Moves(fs, n, p) {
      MoveKeepsIff(fs, n, p);
    }
  }

  lemma WrittenValidIff(fs: Fs, n: Node, bytes: seq<Byte>)
    requires Ramfs.Valid(fs) && Live(fs, n) && fs.info[n].kind == File
    ensures Ramfs.Valid(Write(fs, n, bytes).0) <==> bytes != [] || fs.info[n].size == 0
  {
    hide Tree, Sound, Write;
    WriteKeepsIff(fs, n, bytes);
  }

  lemma SoundAt(fs: Fs, n: Node)
    requires Ramfs.Valid(fs) && n in fs.info
    ensures fs.info[n].size > 0 ==> fs.info[n].data.Some? && |fs.info[n].data.value| == fs.info[n].size
  {
    hide Tree;
  }

  lemma TreeKnown(fs: Fs, n: Node)
    requires Ramfs.Valid(fs) && n in fs.kids
    ensures Apart(fs.kids) && (n in fs.up <==> n != fs.root)
    ensures n in fs.up ==> fs.up[n] in fs.kids && n in fs.kids[fs.up[n]] && fs.up[n] != n
  {
    KidsKnown(fs, n);
    LinkedApart(fs);
    hide Apart, Linked, Typed, Named, Height, Sound, NamesDiffer, Distinct;
  }

  lemma AttachRoot(fs: Fs, n: Node, p: Node, info: Info)
    requires p in fs.kids
    ensures Attach(fs, n, p, info).root == fs.root
  {
  }

  /** The nodes of the file system have records. */
  lemma KnownNodes(nodes: Nodes, fs: Fs)
    requires Shows(nodes, fs.kids, fs.up, fs.info)
    ensures forall m :: m in fs.kids ==> m in nodes
  {
    hide Chain;
  }

  /** What one turn of the loop of ramfs_delete relies on and does. */
  ghost predicate DeleteTurn(fs: Fs, n: Node, i: nat) {
    && n in fs.kids && i < |fs.kids[n]|
    && var g, c := DeletedFirst(fs, n, i), fs.kids[n][i];
    && Live(g, c) && Below(g, c) < Below(fs, n)
    && Deleted(g, c) == DeletedFirst(fs, n, i + 1)
    && Live(DeletedFirst(fs, n, i + 1), n) && DeletedFirst(fs, n, i + 1).kids[n] == fs.kids[n][i + 1..]
  }

  lemma DeleteTurns(fs: Fs, n: Node, i: nat)
    requires Ramfs.Valid(fs) && n in fs.kids && i < |fs.kids[n]|
    ensures DeleteTurn(fs, n, i)
  {
    hide Tree, Sound, DeletedFirst, Deleted, Below, Live;
    DeleteStep(fs, n, i);
    ChildLive(fs, n, i);
    ChildBelow(fs, n, i);
    StillLive(fs, n, i + 1);
  }

  lemma StillLive(fs: Fs, n: Node, i: nat)
    requires Tree(fs) && n in fs.kids && i <= |fs.kids[n]|
    ensures Live(DeletedFirst(fs, n, i), n) && DeletedFirst(fs, n, i).kids[n] == fs.kids[n][i..]
  {
    hide Tree, GoneFirst, DeletedFirst;
    KidsKnown(fs, n);
    GoneFirstClosed(fs, n, i);
    DeletedFirstIs(fs, n, i);
  }

  lemma ChildLive(fs: Fs, n: Node, i: nat)
    requires Tree(fs) && n in fs.kids && i < |fs.kids[n]|
    ensures Live(DeletedFirst(fs, n, i), fs.kids[n][i])
  {
    hide Tree, GoneFirst, DeletedFirst;
    NextNotGone(fs, n, i);
    KidsKnown(fs, fs.kids[n][i]);
    NotGoneFirst(fs, n, i);
    DeletedFirstIs(fs, n, i);
  }

  lemma ChildBelow(fs: Fs, n: Node, i: nat)
    requires Tree(fs) && n in fs.kids && i < |fs.kids[n]|
    ensures Below(DeletedFirst(fs, n, i), fs.kids[n][i]) < Below(fs, n)
  {
    hide Tree, GoneFirst, DeletedFirst, Within;
    var c := fs.kids[n][i];
    NextNotGone(fs, n, i);
    GoneNext(fs, n, i);
    SelfBelow(fs, n);
    hide Below;
    forall m | m in Below(DeletedFirst(fs, n, i), c) ensures m in Below(fs, n) && m != n {
      SiblingsApart(fs, n, i, m);
      WithinTrans(fs.up, m, c, n);
      assert m in Below(fs, n) by { InBelow(fs, m, n); }
    }
  }

  lemma InBelow(fs: Fs, m: Node, n: Node)
    requires m in fs.kids && Within(fs.up, m, n)
    ensures m in Below(fs, n)
  {
  }

  lemma DeleteEnds(fs: Fs, n: Node, i: nat)
    requires Ramfs.Valid(fs) && n in fs.kids && i <= |fs.kids[n]| && fs.kids[n][i..] == []
    ensures Live(DeletedFirst(fs, n, i), n) && Remove(DeletedFirst(fs, n, i), n) == Deleted(fs, n)
  {
    hide Tree, Sound, DeletedFirst, Deleted, Live, Remove;
    StillLive(fs, n, i);
    DeleteLast(fs, n);
    assert i == |fs.kids[n]|;
  }

  ghost predicate ChildrenKnown(nodes: Nodes, info: map<Node, Info>, s: seq<Node>) {
    forall c :: c in s ==> c in nodes && c in info && nodes[c].info == info[c]
  }

  lemma KidsShown(nodes: Nodes, fs: Fs, p: Node)
    requires Ramfs.Valid(fs) && Shows(nodes, fs.kids, fs.up, fs.info) && p in fs.kids
    ensures ChildrenKnown(nodes, fs.info, fs.kids[p])
  {
    KidsKnown(fs, p);
    hide Ramfs.Valid, NamesDiffer, Distinct, Chain;
  }

  lemma FindInUnfold(info: map<Node, Info>, s: seq<Node>, j: nat, name: string)
    requires j < |s| && s[j] in info
    ensures FindIn(info, s[j..], name) == if info[s[j]].name == name then Some(s[j]) else FindIn(info, s[j + 1..], name)
  {
    assert s[j..][1..] == s[j + 1..];
  }

  lemma FindInEmpty(info: map<Node, Info>, name: string)
    ensures FindIn(info, [], name) == None
  {
  }

  /** The copy is under way, in a fit place. */
  ghost predicate CopyTurn(fs: Fs, g: Fs, n: Node, p: Node, name: string, twin: map<Node, Node>, i: nat) {
    Ramfs.Valid(fs) && Place(fs, n, p, name) && Grafted(fs, g, n, p, name, twin, i)
  }

  /** What one turn of the loop of ramfs_copy relies on. */
  ghost predicate CopyTurnUses(fs: Fs, g: Fs, n: Node, c: Node, child: Node) {
    && Live(g, child) && Live(g, c) && !Within(g.up, c, child) && Below(g, child) < Below(fs, n)
    && CopyFits(g, child, c) && CopyName(g, child, c) == g.info[child].name
  }

  lemma CopyCreates(fs: Fs, g: Fs, n: Node, p: Node, name: string, c: Node)
    requires Ramfs.Valid(fs) && Live(fs, n) && Live(fs, p) && (fs.info[p].kind == Directory ==> !Within(fs.up, p, n))
    requires name == CopyName(fs, n, p) && c !in fs.kids && Create(fs, c, Some(p), name, fs.info[n].kind) == (g, Some(c))
    ensures CopyFits(fs, n, p) && Place(fs, n, p, name) && n != p && g == Attach(fs, c, p, Info(name, fs.info[n].kind, None, 0))
    ensures Grafted(fs, Attach(fs, c, p, fs.info[n].(name := name)), n, p, name, map[n := c], 0)
  {
    hide Ramfs.Valid, Find, Attach, Grafted, NameFree, Within;
    CopyFitsIff(fs, n, p);
    NotYet(fs, c);
    WithinSelf(fs.up, n);
    GraftStart(fs, n, p, name, c);
  }

  lemma SoundInfo(fs: Fs, n: Node, name: string)
    requires Ramfs.Valid(fs) && n in fs.kids && n in fs.info
    ensures fs.info[n].kind == Directory || fs.info[n].size == 0 ==> fs.info[n].(name := name) == Info(name, fs.info[n].kind, None, 0)
    ensures fs.info[n].kind == File ==> fs.kids[n] == []
  {
    hide Linked, Named, Height;
  }

  lemma CopyStarts(nodes: Nodes, fs: Fs, g: Fs, n: Node, p: Node, name: string, c: Node)
    requires Ramfs.Valid(fs) && Live(fs, n) && Live(fs, p) && (fs.info[p].kind == Directory ==> !Within(fs.up, p, n))
    requires name == CopyName(fs, n, p) && c !in fs.kids && Create(fs, c, Some(p), name, fs.info[n].kind) == (g, Some(c))
    requires Ramfs.Valid(g) && Shows(nodes, g.kids, g.up, g.info)
    ensures CopyFits(fs, n, p) && n in nodes && c in nodes && n != c && nodes[n].info == fs.info[n]
    ensures nodes[n].info.kind == File && nodes[n].info.size == 0 ==> Copied(fs, g, n, p, name, map[n := c])
    ensures nodes[n].info.kind == File && nodes[n].info.size > 0 ==>
              var g' := Attach(fs, c, p, fs.info[n].(name := name));
              var nodes' := nodes[c := nodes[c].(info := nodes[c].info.(data := nodes[n].info.data, size := nodes[n].info.size))];
              Copied(fs, g', n, p, name, map[n := c]) && Ramfs.Valid(g') && g'.root == g.root && Shows(nodes', g'.kids, g'.up, g'.info)
    ensures nodes[n].info.kind == Directory ==>
              CopyTurn(fs, g, n, p, name, map[n := c], 0) && n in fs.kids && nodes[n].children == Nth(fs.kids[n], 0)
  {
    hide Ramfs.Valid, Find, Attach, Grafted, NameFree, Within, Create, CopyName, CopyFits, Shows, Place;
    CopyCreates(fs, g, n, p, name, c);
    SoundInfo(fs, n, name);
    var new_ := Info(name, fs.info[n].kind, None, 0);
    AttachFields(fs, n, p, c, new_);
    ShownNode(nodes, g.kids, g.up, g.info, n);
    ShownNode(nodes, g.kids, g.up, g.info, c);
    if fs.info[n].kind == File && fs.info[n].size > 0 {
      GraftedKeeps(fs, Attach(fs, c, p, fs.info[n].(name := name)), n, p, name, map[n := c], 0);
      PutInfo(nodes, g.kids, g.up, g.info, c, fs.info[n].(name := name));
      AttachOther(fs, c, p, new_, fs.info[n].(name := name));
    }
    if fs.info[n].kind == Directory {
      HeadKept(nodes, fs, g, n, p, c);
    }
  }

  lemma AttachFields(fs: Fs, n: Node, p: Node, c: Node, new_: Info)
    requires p in fs.kids && n in fs.kids && n in fs.info && c !in fs.kids
    ensures var g := Attach(fs, c, p, new_);
            n in g.kids && c in g.kids && n in g.info && g.info[n] == fs.info[n] && c in g.info && g.info[c] == new_
            && g.kids[n] == (if n == p then fs.kids[n] + [c] else fs.kids[n])
  {
  }

  lemma AttachOther(fs: Fs, c: Node, p: Node, a: Info, b: Info)
    requires p in fs.kids
    ensures var g, g' := Attach(fs, c, p, a), Attach(fs, c, p, b);
            g'.kids == g.kids && g'.up == g.up && g'.root == g.root && g'.info == g.info[c := b]
  {
  }

  lemma HeadKept(nodes: Nodes, fs: Fs, g: Fs, n: Node, p: Node, c: Node)
    requires n in fs.kids && n in g.kids && n in nodes && nodes[n].children == Nth(g.kids[n], 0)
    requires g.kids[n] == if n == p then fs.kids[n] + [c] else fs.kids[n]
    requires n != p
    ensures nodes[n].children == Nth(fs.kids[n], 0)
  {
  }

  lemma CopyTurns(fs: Fs, g: Fs, n: Node, p: Node, name: string, twin: map<Node, Node>, i: nat)
    requires CopyTurn(fs, g, n, p, name, twin, i) && n in fs.kids && i < |fs.kids[n]| && n in twin && Ramfs.Valid(g)
    ensures CopyTurnUses(fs, g, n, twin[n], fs.kids[n][i])
  {
    hide Ramfs.Valid, Place, Grafted, Live, Within, Below, CopyFits, CopyName;
    var c := fs.kids[n][i];
    NextNameFree(fs, g, n, p, name, twin, i);
    PlaceLive(g, c, twin[n], fs.info[c].name);
    PlaceFits(g, c, twin[n]);
    ChildStillBelow(fs, g, n, p, name, twin, i);
  }

  lemma PlaceLive(fs: Fs, n: Node, p: Node, name: string)
    requires Ramfs.Valid(fs) && Place(fs, n, p, name)
    ensures Live(fs, n) && Live(fs, p) && !Within(fs.up, p, n)
  {
    hide Ramfs.Valid, Within, NameFree, NamesDiffer, Distinct;
    TreeKnown(fs, n);
    TreeKnown(fs, p);
  }

  lemma PlaceFits(fs: Fs, n: Node, p: Node)
    requires Ramfs.Valid(fs) && n in fs.info && Place(fs, n, p, fs.info[n].name)
    ensures CopyFits(fs, n, p) && CopyName(fs, n, p) == fs.info[n].name
  {
    hide Ramfs.Valid, Within, NameFree, Find;
    CopyFitsIff(fs, n, p);
    FreeIsNotFound(fs, p, fs.info[n].name);
  }

  lemma ChildStillBelow(fs: Fs, g: Fs, n: Node, p: Node, name: string, twin: map<Node, Node>, i: nat)
    requires CopyTurn(fs, g, n, p, name, twin, i) && n in fs.kids && i < |fs.kids[n]|
    ensures Below(g, fs.kids[n][i]) < Below(fs, n)
  {
    hide Tree, Sound, Place, Grafted, Within, Below;
    var c := fs.kids[n][i];
    NextNotGone(fs, n, i);
    WithinSelf(fs.up, n);
    WithinStep(fs.up, c, n);
    BelowOld(fs, g, n, p, name, twin, i, c);
    DeletedNone(fs, n);
    SelfBelow(fs, n);
    forall m | m in Below(fs, c) ensures m in Below(fs, n) && m != n {
      BelowIs(fs, m, c);
      SiblingsApart(fs, n, i, m);
      WithinTrans(fs.up, m, c, n);
      InBelow(fs, m, n);
    }
  }

  lemma BelowIs(fs: Fs, m: Node, n: Node)
    requires m in Below(fs, n)
    ensures m in fs.kids && Within(fs.up, m, n)
  {
  }

  lemma CopyTurned(fs: Fs, g: Fs, g2: Fs, n: Node, p: Node, name: string, twin: map<Node, Node>, twin2: map<Node, Node>, i: nat)
    requires CopyTurn(fs, g, n, p, name, twin, i) && n in fs.kids && i < |fs.kids[n]| && n in twin
    requires CopyTurnUses(fs, g, n, twin[n], fs.kids[n][i])
    requires Copied(g, g2, fs.kids[n][i], twin[n], CopyName(g, fs.kids[n][i], twin[n]), twin2)
    ensures CopyTurn(fs, g2, n, p, name, twin + twin2, i + 1) && n in twin + twin2 && (twin + twin2)[n] == twin[n]
  {
    hide Ramfs.Valid, Place, Grafted, Live, Within, Below, CopyFits, CopyName;
    NextKnown(fs, g, n, p, name, twin, i);
    StepKeys(fs, g, g2, n, p, name, twin, twin2, i);
    GraftStep(fs, g, g2, n, p, name, twin, twin2, i);
  }

  lemma NextSibling(nodes: Nodes, fs: Fs, g: Fs, n: Node, p: Node, name: string, twin: map<Node, Node>, i: nat)
    requires CopyTurn(fs, g, n, p, name, twin, i + 1) && Shows(nodes, g.kids, g.up, g.info) && n in fs.kids && i < |fs.kids[n]|
    ensures fs.kids[n][i] in nodes && nodes[fs.kids[n][i]].next == Nth(fs.kids[n], i + 1)
  {
    hide Ramfs.Valid, Shows;
    SourceUntouched(fs, g, n, p, name, twin, i + 1);
    ShownNode(nodes, g.kids, g.up, g.info, n);
  }

  lemma SourceUntouched(fs: Fs, g: Fs, n: Node, p: Node, name: string, twin: map<Node, Node>, i: nat)
    requires CopyTurn(fs, g, n, p, name, twin, i) && n in fs.kids
    ensures n in g.kids && g.kids[n] == fs.kids[n]
  {
    hide Ramfs.Valid, Twins, NewTwins, SameNodes, NameFree, Within;
    WithinSelf(fs.up, n);
  }

  lemma CopyEnds(fs: Fs, g: Fs, n: Node, p: Node, name: string, twin: map<Node, Node>, i: nat)
    requires CopyTurn(fs, g, n, p, name, twin, i) && n in fs.kids && i <= |fs.kids[n]| && Nth(fs.kids[n], i) == None
    ensures Copied(fs, g, n, p, name, twin)
  {
    hide Ramfs.Valid, Place, Grafted;
  }
}
