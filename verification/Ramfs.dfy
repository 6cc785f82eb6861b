// The in-memory file system as a value: which nodes there are, their children in order,
// their parents, and what each node says of itself.
module Ramfs {
  import opened Lists
  import opened Words

  /** A node is named by its address; NULL is None. */
  datatype Node = NodeAt(address: nat)
  datatype Kind = File | Directory
  type Byte = x: nat | x < 256

  datatype Info = Info(name: string, kind: Kind, data: Option<seq<Byte>>, size: nat)

  datatype Fs = Fs(root: Node, kids: map<Node, seq<Node>>, up: map<Node, Node>, info: map<Node, Info>)

  // ---------------------------------------------------------------------------
  // Well-formed file systems

  /** Parents and children agree, and every node but the root is a child once. */
  ghost predicate Linked(root: Node, kids: map<Node, seq<Node>>, up: map<Node, Node>) {
    && root in kids && up.Keys == kids.Keys - {root}
    && (forall c {:trigger up[c]} :: c in up ==> up[c] in kids && c in kids[up[c]])
    && (forall n, c {:trigger c in kids[n]} :: n in kids && c in kids[n] ==> c in up && up[c] == n)
    && (forall n :: n in kids ==> Distinct(kids[n]))
  }

  /** Only directories have children. */
  ghost predicate Typed(kids: map<Node, seq<Node>>, info: map<Node, Info>) {
    && info.Keys == kids.Keys
    && forall n {:trigger kids[n]} :: n in kids && |kids[n]| > 0 ==> info[n].kind == Directory
  }

  ghost predicate NamesDiffer(s: seq<Node>, info: map<Node, Info>) {
    && (forall c :: c in s ==> c in info)
    && forall a, b :: a in s && b in s && a != b ==> info[a].name != info[b].name
  }

  /** Siblings have different names. */
  ghost predicate Named(kids: map<Node, seq<Node>>, info: map<Node, Info>) {
    forall n {:trigger kids[n]} :: n in kids ==> NamesDiffer(kids[n], info)
  }

  /** Heights that grow towards the root: no node is above itself. */
  ghost predicate Height(kids: map<Node, seq<Node>>, up: map<Node, Node>, h: map<Node, nat>) {
    && kids.Keys <= h.Keys
    && forall c {:trigger up[c]} :: c in up && c in h && up[c] in h ==> h[c] < h[up[c]]
  }

  ghost predicate Tree(fs: Fs) {
    && Linked(fs.root, fs.kids, fs.up) && Typed(fs.kids, fs.info) && Named(fs.kids, fs.info)
    && exists h :: Height(fs.kids, fs.up, h)
  }

  /** A file's size is that of its data; the rest have none. */
  ghost predicate Sound(info: map<Node, Info>) {
    forall n :: n in info ==>
      if info[n].kind == File && info[n].size > 0 then info[n].data.Some? && |info[n].data.value| == info[n].size
      else info[n].data == None && info[n].size == 0
  }

  ghost predicate Valid(fs: Fs) { Tree(fs) && Sound(fs.info) }

  // ---------------------------------------------------------------------------
  // Ancestors

  function Above(up: map<Node, Node>, n: Node, k: nat): Option<Node>
    decreases k
  {
    if k == 0 then Some(n) else if n in up then Above(up, up[n], k - 1) else None
  }

  /** n is a itself or below it. */
  ghost predicate Within(up: map<Node, Node>, n: Node, a: Node) {
    exists k: nat :: Above(up, n, k) == Some(a)
  }

  ghost function Below(fs: Fs, a: Node): set<Node> {
    set n | n in fs.kids && Within(fs.up, n, a)
  }

  lemma WithinSelf(up: map<Node, Node>, n: Node)
    ensures Within(up, n, n)
  {
    assert Above(up, n, 0) == Some(n);
  }

  /** One step up. */
  lemma WithinStep(up: map<Node, Node>, n: Node, a: Node)
    ensures Within(up, n, a) <==> n == a || (n in up && Within(up, up[n], a))
  {
    if Within(up, n, a) {
      var k: nat :| Above(up, n, k) == Some(a);
      if k > 0 {
        assert Above(up, up[n], k - 1) == Some(a);
      }
    }
    if n == a {
      WithinSelf(up, n);
    } else if n in up && Within(up, up[n], a) {
      var k: nat :| Above(up, up[n], k) == Some(a);
      assert Above(up, n, k + 1) == Some(a);
    }
  }

  lemma {:induction false} AboveHeight(kids: map<Node, seq<Node>>, up: map<Node, Node>, h: map<Node, nat>, n: Node, k: nat)
    requires Height(kids, up, h) && n in h && (forall c {:trigger up[c]} :: c in up ==> up[c] in h)
    ensures Above(up, n, k).Some? ==> Above(up, n, k).value in h && h[Above(up, n, k).value] >= h[n] + k
    decreases k
  {
    if k > 0 && n in up {
      AboveHeight(kids, up, h, up[n], k - 1);
    }
  }

  /** A node is as high as what is below it, and higher than the rest of it. */
  lemma WithinHeight(kids: map<Node, seq<Node>>, up: map<Node, Node>, h: map<Node, nat>, n: Node, a: Node)
    requires Height(kids, up, h) && n in h && (forall c {:trigger up[c]} :: c in up ==> up[c] in h) && Within(up, n, a)
    ensures a in h && (n == a || h[n] < h[a])
  {
    var k: nat :| Above(up, n, k) == Some(a);
    AboveHeight(kids, up, h, n, k);
  }

  // ---------------------------------------------------------------------------
  // Operations

  /** ramfs_find among siblings: the first with that name. */
  function FindIn(info: map<Node, Info>, s: seq<Node>, name: string): Option<Node> {
    if s == [] then None
    else if s[0] in info && info[s[0]].name == name then Some(s[0])
    else FindIn(info, s[1..], name)
  }

  lemma {:induction false} FindsByName(info: map<Node, Info>, s: seq<Node>, name: string)
    requires forall c :: c in s ==> c in info
    ensures FindIn(info, s, name) == None <==> forall c :: c in s ==> info[c].name != name
    ensures FindIn(info, s, name).Some? ==> FindIn(info, s, name).value in s && info[FindIn(info, s, name).value].name == name
  {
    if s != [] {
      assert forall c :: c in s <==> c == s[0] || c in s[1..];
      FindsByName(info, s[1..], name);
    }
  }

  function Find(fs: Fs, parent: Option<Node>, name: string): Option<Node> {
    if parent.None? || parent.value !in fs.kids then None else FindIn(fs.info, fs.kids[parent.value], name)
  }

  /** ramfs_create puts the new node n behind its siblings. */
  function Create(fs: Fs, n: Node, parent: Option<Node>, name: string, kind: Kind): (Fs, Option<Node>)
    requires parent.Some? ==> parent.value in fs.kids && parent.value in fs.info
  {
    if parent == None || fs.info[parent.value].kind != Directory || Find(fs, parent, name) != None then (fs, None)
    else (Attach(fs, n, parent.value, Info(name, kind, None, 0)), Some(n))
  }

  function Attach(fs: Fs, n: Node, p: Node, info: Info): Fs
    requires p in fs.kids
  {
    fs.(kids := fs.kids[p := fs.kids[p] + [n]][n := []], up := fs.up[n := p], info := fs.info[n := info])
  }

  /** ramfs_remove takes away a leaf. */
  function Remove(fs: Fs, n: Node): Fs
    requires n in fs.kids && (n in fs.up ==> fs.up[n] in fs.kids)
  {
    if n == fs.root || fs.kids[n] != [] || n !in fs.up then fs
    else
      var p := fs.up[n];
      fs.(kids := fs.kids[p := Without(fs.kids[p], n)] - {n}, up := fs.up - {n}, info := fs.info - {n})
  }

  function Rename(fs: Fs, n: Node, name: string): (Fs, bool)
    requires n in fs.info
  {
    if n in fs.up && Find(fs, Some(fs.up[n]), name) != None then (fs, false)
    else (fs.(info := fs.info[n := fs.info[n].(name := name)]), true)
  }

  function Move(fs: Fs, n: Node, p: Node): (Fs, bool)
    requires n in fs.kids && p in fs.kids && (n in fs.up ==> fs.up[n] in fs.kids)
  {
    if n == fs.root || n == p || n !in fs.up || (fs.kids[n] != [] && fs.kids[n][0] == p) then (fs, false)
    else
      var kids := fs.kids[fs.up[n] := Without(fs.kids[fs.up[n]], n)];
      (fs.(kids := kids[p := kids[p] + [n]], up := fs.up[n := p]), true)
  }

  /** ramfs_write; an allocation of no bytes gives NULL. */
  function Write(fs: Fs, n: Node, bytes: seq<Byte>): (Fs, bool)
    requires n in fs.info
  {
    if fs.info[n].kind != File then (fs, false)
    else if bytes == [] then (fs.(info := fs.info[n := fs.info[n].(data := None)]), false)
    else (fs.(info := fs.info[n := fs.info[n].(data := Some(bytes), size := |bytes|)]), true)
  }

  /** The bytes that ramfs_read puts into the buffer. */
  function Read(info: Info, size: nat, offset: nat): seq<Byte>
    requires info.size > 0 ==> info.data.Some? && |info.data.value| == info.size
  {
    if info.kind != File || offset >= info.size then []
    else info.data.value[offset..offset + if size > info.size - offset then info.size - offset else size]
  }

  /** What ramfs_delete leaves: everything below n is gone, and n too unless it is the root. */
  ghost function Deleted(fs: Fs, n: Node): Fs {
    var gone := if n == fs.root then Below(fs, n) - {n} else Below(fs, n);
    fs.(kids := map m | m in fs.kids && m !in gone ::
                  if m == n then [] else if n in fs.up && m == fs.up[n] then Without(fs.kids[m], n) else fs.kids[m],
        up := fs.up - gone, info := fs.info - gone)
  }

  // ---------------------------------------------------------------------------
  // Creating, removing, renaming, writing

  lemma NamesSame(s: seq<Node>, info: map<Node, Info>, info': map<Node, Info>)
    requires NamesDiffer(s, info)
    requires forall c :: c in s && c in info ==> c in info' && info'[c].name == info[c].name
    ensures NamesDiffer(s, info')
  {
  }

  lemma NamesFewer(s: seq<Node>, n: Node, info: map<Node, Info>)
    requires NamesDiffer(s, info) && Distinct(s)
    ensures NamesDiffer(Without(s, n), info)
  {
    WithoutKeeps(s, n);
    hide Without, Distinct;
  }

  lemma NamesMore(s: seq<Node>, n: Node, info: map<Node, Info>)
    requires NamesDiffer(s, info) && n in info && forall c :: c in s && c != n ==> info[c].name != info[n].name
    ensures NamesDiffer(s + [n], info)
  {
  }

  lemma AttachKeeps(fs: Fs, n: Node, p: Node, info: Info)
    requires Tree(fs) && n !in fs.kids && p in fs.kids && fs.info[p].kind == Directory
    requires forall c :: c in fs.kids[p] && c in fs.info ==> fs.info[c].name != info.name
    ensures Tree(Attach(fs, n, p, info))
  {
    hide Linked, Named, Typed, Height, Attach;
    AttachLinks(fs, n, p, info);
    AttachNames(fs, n, p, info);
    var h :| Height(fs.kids, fs.up, h);
    AttachHeight(fs, n, p, info, h);
  }

  lemma AttachLinks(fs: Fs, n: Node, p: Node, info: Info)
    requires Linked(fs.root, fs.kids, fs.up) && n !in fs.kids && p in fs.kids
    ensures var fs' := Attach(fs, n, p, info); Linked(fs'.root, fs'.kids, fs'.up)
  {
    assert n !in fs.kids[p];
    assert Distinct(fs.kids[p] + [n]);
    hide Distinct;
  }

  lemma AttachNames(fs: Fs, n: Node, p: Node, info: Info)
    requires Typed(fs.kids, fs.info) && Named(fs.kids, fs.info) && n !in fs.kids && p in fs.kids && fs.info[p].kind == Directory
    requires forall c :: c in fs.kids[p] && c in fs.info ==> fs.info[c].name != info.name
    ensures var fs' := Attach(fs, n, p, info); Typed(fs'.kids, fs'.info) && Named(fs'.kids, fs'.info)
  {
    var fs' := Attach(fs, n, p, info);
    forall m | m in fs'.kids ensures NamesDiffer(fs'.kids[m], fs'.info) {
      if m in fs.kids {
        assert NamesDiffer(fs.kids[m], fs.info);
        NamesSame(fs.kids[m], fs.info, fs'.info);
        if m == p {
          NamesMore(fs.kids[p], n, fs'.info);
        }
      }
    }
  }

  lemma AttachHeight(fs: Fs, n: Node, p: Node, info: Info, h: map<Node, nat>)
    requires Linked(fs.root, fs.kids, fs.up) && Height(fs.kids, fs.up, h) && n !in fs.kids && p in fs.kids
    ensures var fs' := Attach(fs, n, p, info);
            Height(fs'.kids, fs'.up, (map m | m in h :: h[m] + 1)[n := 0])
  {
    hide Distinct;
  }

  lemma KidsKnown(fs: Fs, n: Node)
    requires Tree(fs) && n in fs.kids
    ensures forall c :: c in fs.kids[n] ==> c in fs.info && c in fs.kids && c in fs.up && fs.up[c] == n
    ensures n in fs.info && Distinct(fs.kids[n]) && NamesDiffer(fs.kids[n], fs.info)
    ensures n in fs.up <==> n != fs.root
    ensures n in fs.up ==> fs.up[n] in fs.kids && n in fs.kids[fs.up[n]] && fs.up[n] != n
  {
    var h :| Height(fs.kids, fs.up, h);
    hide Distinct, NamesDiffer;
  }

  /** ramfs_create fails exactly when there is no directory to put the node in, or the name is taken. */
  lemma CreateFailsIff(fs: Fs, n: Node, parent: Option<Node>, name: string, kind: Kind)
    requires Valid(fs) && (parent.Some? ==> parent.value in fs.kids && parent.value in fs.info)
    ensures Create(fs, n, parent, name, kind).1 == None <==>
              parent == None || fs.info[parent.value].kind != Directory
              || exists c :: c in fs.kids[parent.value] && c in fs.info && fs.info[c].name == name
  {
    hide Tree, NamesDiffer, Distinct, Sound, FindIn;
    if parent.Some? {
      KidsKnown(fs, parent.value);
      FindsByName(fs.info, fs.kids[parent.value], name);
    }
  }

  lemma CreateKeeps(fs: Fs, n: Node, parent: Option<Node>, name: string, kind: Kind)
    requires Valid(fs) && n !in fs.kids && (parent.Some? ==> parent.value in fs.kids && parent.value in fs.info)
    ensures Valid(Create(fs, n, parent, name, kind).0)
  {
    if Create(fs, n, parent, name, kind).1 != None {
      KidsKnown(fs, parent.value);
      FindsByName(fs.info, fs.kids[parent.value], name);
      hide Tree, NamesDiffer, Distinct, FindIn, Sound, Attach;
      AttachKeeps(fs, n, parent.value, Info(name, kind, None, 0));
      SoundMore(fs.info, n, name, kind);
      AttachInfo(fs, n, parent.value, Info(name, kind, None, 0));
    }
  }

  lemma AttachInfo(fs: Fs, n: Node, p: Node, info: Info)
    requires p in fs.kids
    ensures Attach(fs, n, p, info).info == fs.info[n := info]
  {
  }

  /** A new node is there to be found. */
  lemma CreatedIsFound(fs: Fs, n: Node, parent: Option<Node>, name: string, kind: Kind)
    requires Valid(fs) && n !in fs.kids && (parent.Some? ==> parent.value in fs.kids && parent.value in fs.info)
    requires Create(fs, n, parent, name, kind).1 != None
    ensures Find(Create(fs, n, parent, name, kind).0, parent, name) == Some(n)
  {
    KidsKnown(fs, parent.value);
    hide Tree, NamesDiffer, Distinct, FindIn, Sound;
    FindsAppended(fs.info, fs.kids[parent.value], n, Info(name, kind, None, 0));
  }

  lemma SoundMore(info: map<Node, Info>, n: Node, name: string, kind: Kind)
    requires Sound(info)
    ensures Sound(info[n := Info(name, kind, None, 0)])
  {
  }

  lemma {:induction false} FindsAppended(info: map<Node, Info>, s: seq<Node>, n: Node, new_: Info)
    requires n !in s && FindIn(info, s, new_.name) == None
    ensures FindIn(info[n := new_], s + [n], new_.name) == Some(n)
  {
    if s != [] {
      assert (s + [n])[1..] == s[1..] + [n];
      FindsAppended(info, s[1..], n, new_);
    }
  }

  /** A creation that succeeds adds one node, empty and the last child of its parent, and
      changes nothing else; one that fails changes nothing at all. */
  lemma CreatesOnlyThat(fs: Fs, n: Node, parent: Option<Node>, name: string, kind: Kind)
    requires Valid(fs) && n !in fs.kids && (parent.Some? ==> parent.value in fs.kids && parent.value in fs.info)
    ensures var (g, r) := Create(fs, n, parent, name, kind);
            if r == None then g == fs
            else
              && r == Some(n) && parent.Some? && parent.value in fs.kids && g.root == fs.root
              && g.kids.Keys == fs.kids.Keys + {n} && g.kids[n] == [] && g.kids[parent.value] == fs.kids[parent.value] + [n]
              && (forall m :: m in fs.kids && m != parent.value ==> g.kids[m] == fs.kids[m])
              && g.up == fs.up[n := parent.value]
              && g.info == fs.info[n := Info(name, kind, None, 0)]
  {
    hide Tree, Sound, FindIn;
  }

  /** A removal takes a leaf other than the root away and closes the gap among its siblings;
      anything else is left alone. */
  lemma RemovesOnlyLeaf(fs: Fs, n: Node)
    requires Valid(fs) && n in fs.kids
    ensures n in fs.up ==> fs.up[n] in fs.kids && n in fs.kids[fs.up[n]]
    ensures var g := Remove(fs, n);
            if n == fs.root || fs.kids[n] != [] then g == fs
            else
              && n in fs.up && g.root == fs.root && g.kids.Keys == fs.kids.Keys - {n} && g.up == fs.up - {n} && g.info == fs.info - {n}
              && (forall m :: m in g.kids && m != fs.up[n] ==> g.kids[m] == fs.kids[m])
              && var s, i := fs.kids[fs.up[n]], IndexOf(fs.kids[fs.up[n]], n);
                 fs.up[n] in g.kids && s[i] == n && g.kids[fs.up[n]] == s[..i] + s[i + 1..]
  {
    hide Tree, Sound, Distinct, IndexOf, NamesDiffer;
    KidsKnown(fs, n);
  }

  lemma RemoveKeeps(fs: Fs, n: Node)
    requires Valid(fs) && n in fs.kids && (n in fs.up ==> fs.up[n] in fs.kids)
    ensures Valid(Remove(fs, n))
  {
    if n != fs.root && fs.kids[n] == [] && n in fs.up {
      OnlyChildOf(fs, n);
      hide Linked, Typed, Named, Height, Without, Remove;
      RemoveIs(fs, n);
      RemoveLinks(fs, n);
      RemoveNames(fs, n, fs.up[n]);
      var h :| Height(fs.kids, fs.up, h);
      RemoveHeight(fs, n, h);
      SoundFewer(fs.info, n);
    }
  }

  lemma RemoveIs(fs: Fs, n: Node)
    requires n in fs.kids && n != fs.root && fs.kids[n] == [] && n in fs.up && fs.up[n] in fs.kids
    ensures Remove(fs, n).root == fs.root && Remove(fs, n).info == fs.info - {n}
  {
    hide Without;
  }

  lemma SoundFewer(info: map<Node, Info>, n: Node)
    requires Sound(info)
    ensures Sound(info - {n})
  {
  }

  lemma OnlyChildOf(fs: Fs, n: Node)
    requires Linked(fs.root, fs.kids, fs.up) && n in fs.up
    ensures fs.up[n] in fs.kids && Distinct(fs.kids[fs.up[n]]) && n in fs.kids[fs.up[n]]
    ensures forall m :: m in fs.kids && n in fs.kids[m] ==> m == fs.up[n]
  {
    hide Distinct;
  }

  lemma RemoveHeight(fs: Fs, n: Node, h: map<Node, nat>)
    requires Height(fs.kids, fs.up, h) && n in fs.kids && (n in fs.up ==> fs.up[n] in fs.kids)
    ensures Height(Remove(fs, n).kids, Remove(fs, n).up, h)
  {
    hide Without;
  }

  lemma RemoveLinks(fs: Fs, n: Node)
    requires Linked(fs.root, fs.kids, fs.up) && n in fs.kids && n != fs.root && fs.kids[n] == []
    ensures Linked(fs.root, Remove(fs, n).kids, Remove(fs, n).up)
  {
    WithoutKeeps(fs.kids[fs.up[n]], n);
    hide Without, Distinct;
  }

  lemma RemoveNames(fs: Fs, n: Node, p: Node)
    requires Typed(fs.kids, fs.info) && Named(fs.kids, fs.info)
    requires n in fs.kids && n != fs.root && fs.kids[n] == [] && n in fs.up && fs.up[n] == p && p in fs.kids && n in fs.kids[p]
    requires Distinct(fs.kids[p]) && forall m :: m in fs.kids && n in fs.kids[m] ==> m == p
    ensures Typed(Remove(fs, n).kids, Remove(fs, n).info) && Named(Remove(fs, n).kids, Remove(fs, n).info)
  {
    var fs' := Remove(fs, n);
    WithoutKeeps(fs.kids[p], n);
    hide Without, Distinct, NamesDiffer;
    forall m | m in fs'.kids ensures NamesDiffer(fs'.kids[m], fs'.info) {
      assert NamesDiffer(fs.kids[m], fs.info);
      if m == p {
        NamesFewer(fs.kids[p], n, fs.info);
      }
      NamesSame(fs'.kids[m], fs.info, fs'.info);
    }
  }

  lemma RenameKeeps(fs: Fs, n: Node, name: string)
    requires Valid(fs) && n in fs.kids && n in fs.info
    ensures Valid(Rename(fs, n, name).0)
  {
    if Rename(fs, n, name).1 {
      var info' := fs.info[n := fs.info[n].(name := name)];
      forall m | m in fs.kids ensures NamesDiffer(fs.kids[m], info') {
        RenameNames(fs, n, name, m);
      }
      assert Named(fs.kids, info');
      PutTyped(fs.kids, fs.info, n, info'[n]);
      PutSound(fs.info, n, info'[n]);
      hide NamesDiffer, Height, Linked, Named, Typed, FindIn, Sound;
    }
  }

  lemma PutSound(info: map<Node, Info>, n: Node, new_: Info)
    requires Sound(info) && n in info && new_ == info[n].(name := new_.name)
    ensures Sound(info[n := new_])
  {
  }

  lemma PutTyped(kids: map<Node, seq<Node>>, info: map<Node, Info>, n: Node, new_: Info)
    requires Typed(kids, info) && n in info && new_.kind == info[n].kind
    ensures Typed(kids, info[n := new_])
  {
  }

  lemma RenameNames(fs: Fs, n: Node, name: string, m: Node)
    requires Tree(fs) && n in fs.kids && n in fs.info && Rename(fs, n, name).1 && m in fs.kids
    ensures NamesDiffer(fs.kids[m], fs.info[n := fs.info[n].(name := name)])
  {
    KidsKnown(fs, m);
    hide NamesDiffer, Tree, Distinct, Rename;
    if n in fs.kids[m] {
      NameIsFree(fs, n, name, m);
      NamesChange(fs.kids[m], fs.info, n, fs.info[n].(name := name));
    } else {
      NamesSame(fs.kids[m], fs.info, fs.info[n := fs.info[n].(name := name)]);
    }
  }

  lemma NameIsFree(fs: Fs, n: Node, name: string, m: Node)
    requires n in fs.up && fs.up[n] == m && m in fs.kids && n in fs.info && Rename(fs, n, name).1
    requires forall c :: c in fs.kids[m] ==> c in fs.info
    ensures forall c :: c in fs.kids[m] ==> fs.info[c].name != name
  {
    FindsByName(fs.info, fs.kids[m], name);
    hide FindIn;
  }

  lemma NamesChange(s: seq<Node>, info: map<Node, Info>, n: Node, new_: Info)
    requires NamesDiffer(s, info) && forall c :: c in s && c in info ==> info[c].name != new_.name
    ensures NamesDiffer(s, info[n := new_])
  {
  }

  /** Renaming fails exactly when a sibling, perhaps the node itself, has the name; the root has no siblings. */
  lemma RenameFailsIff(fs: Fs, n: Node, name: string)
    requires Valid(fs) && n in fs.kids && n in fs.info
    ensures !Rename(fs, n, name).1 <==>
              n in fs.up && fs.up[n] in fs.kids && exists c :: c in fs.kids[fs.up[n]] && c in fs.info && fs.info[c].name == name
  {
    hide Tree, NamesDiffer, Distinct, Sound, FindIn;
    if n in fs.up {
      KidsKnown(fs, n);
      KidsKnown(fs, fs.up[n]);
      FindsByName(fs.info, fs.kids[fs.up[n]], name);
    }
  }

  /** A renaming that succeeds gives the node its name and changes nothing else; one that
      fails changes nothing at all. */
  lemma RenamesOnlyThat(fs: Fs, n: Node, name: string)
    requires Valid(fs) && n in fs.kids && n in fs.info
    ensures var (g, ok) := Rename(fs, n, name);
            if ok then
              && g.root == fs.root && g.kids == fs.kids && g.up == fs.up && g.info.Keys == fs.info.Keys
              && g.info[n] == Info(name, fs.info[n].kind, fs.info[n].data, fs.info[n].size)
              && (forall m :: m in fs.info && m != n ==> g.info[m] == fs.info[m])
            else g == fs
  {
    hide Tree, Sound, FindIn;
  }

  /** Then the node is found under its new name and nothing under the old one. */
  lemma RenamedIsFound(fs: Fs, n: Node, name: string)
    requires Valid(fs) && n in fs.kids && n in fs.info && n in fs.up && Rename(fs, n, name).1
    ensures Find(Rename(fs, n, name).0, Some(fs.up[n]), name) == Some(n)
    ensures Find(Rename(fs, n, name).0, Some(fs.up[n]), fs.info[n].name) == None
  {
    hide Tree, Sound, FindIn, Distinct, NamesDiffer;
    var g := Rename(fs, n, name).0;
    RenameKeeps(fs, n, name);
    RenamesOnlyThat(fs, n, name);
    RenameFailsIff(fs, n, name);
    KidsKnown(fs, n);
    KidsKnown(fs, fs.up[n]);
    KidsKnown(g, fs.up[n]);
    FindsByName(g.info, g.kids[fs.up[n]], name);
    FindsByName(g.info, g.kids[fs.up[n]], fs.info[n].name);
    OldNameGone(fs, g, n);
  }

  lemma OldNameGone(fs: Fs, g: Fs, n: Node)
    requires n in fs.up && fs.up[n] in fs.kids && n in fs.kids[fs.up[n]] && NamesDiffer(fs.kids[fs.up[n]], fs.info)
    requires n in g.info && g.info[n].name != fs.info[n].name
    requires forall m :: m in fs.info && m != n ==> m in g.info && g.info[m] == fs.info[m]
    ensures forall c :: c in fs.kids[fs.up[n]] ==> c in g.info && g.info[c].name != fs.info[n].name
  {
  }

  /** A write changes one file only: its data to the bytes and its size to their number. A
      write of nothing to a file takes its data away, and a directory is left alone. */
  lemma WritesOnlyThat(fs: Fs, n: Node, bytes: seq<Byte>)
    requires n in fs.info
    ensures var (g, ok) := Write(fs, n, bytes);
            && g.root == fs.root && g.kids == fs.kids && g.up == fs.up && g.info.Keys == fs.info.Keys
            && (forall m :: m in fs.info && m != n ==> g.info[m] == fs.info[m])
            && (ok <==> fs.info[n].kind == File && bytes != [])
            && (fs.info[n].kind == Directory ==> g == fs)
            && (ok ==> g.info[n] == Info(fs.info[n].name, File, Some(bytes), |bytes|))
            && (fs.info[n].kind == File && bytes == [] ==> g.info[n] == Info(fs.info[n].name, File, None, fs.info[n].size))
  {
  }

  lemma ReadsOnlyFiles(info: Info, size: nat, offset: nat)
    requires info.size > 0 ==> info.data.Some? && |info.data.value| == info.size
    ensures info.kind == Directory || offset >= info.size ==> Read(info, size, offset) == []
    ensures info.kind == File && offset < info.size ==>
              && Read(info, size, offset) <= info.data.value[offset..]
              && |Read(info, size, offset)| == (if size <= info.size - offset then size else info.size - offset)
  {
  }

  /** Writing keeps sizes and data in step exactly when something is written or nothing was there. */
  lemma WriteKeepsIff(fs: Fs, n: Node, bytes: seq<Byte>)
    requires Valid(fs) && n in fs.kids && n in fs.info && fs.info[n].kind == File
    ensures Tree(Write(fs, n, bytes).0)
    ensures Write(fs, n, bytes).1 <==> bytes != []
    ensures Sound(Write(fs, n, bytes).0.info) <==> bytes != [] || fs.info[n].size == 0
  {
    SoundWrite(fs, n, bytes);
    hide Tree, Sound;
    InfoKeeps(fs, Write(fs, n, bytes).0);
  }

  lemma SoundWrite(fs: Fs, n: Node, bytes: seq<Byte>)
    requires Sound(fs.info) && n in fs.info && fs.info[n].kind == File
    ensures Sound(Write(fs, n, bytes).0.info) <==> bytes != [] || fs.info[n].size == 0
  {
    var info' := Write(fs, n, bytes).0.info;
    if bytes == [] && fs.info[n].size != 0 {
      assert info'[n].size > 0 && info'[n].data == None;
    }
  }

  /** Names and kinds are all the tree asks of the nodes. */
  lemma InfoKeeps(fs: Fs, fs': Fs)
    requires Tree(fs) && fs' == fs.(info := fs'.info) && fs'.info.Keys == fs.info.Keys
    requires forall n :: n in fs.info ==> fs'.info[n].kind == fs.info[n].kind && fs'.info[n].name == fs.info[n].name
    ensures Tree(fs')
  {
    hide Linked, Height;
    forall n | n in fs'.kids ensures NamesDiffer(fs'.kids[n], fs'.info) {
      NamesSame(fs.kids[n], fs.info, fs'.info);
    }
  }

  /** What was written is read back, in any pieces. */
  lemma ReadsWhatWasWritten(fs: Fs, n: Node, bytes: seq<Byte>, size: nat, offset: nat)
    requires n in fs.info && fs.info[n].kind == File && bytes != []
    ensures var info := Write(fs, n, bytes).0.info[n];
            && info.data == Some(bytes) && info.size == |bytes|
            && Read(info, size, offset) == if offset >= |bytes| then [] else bytes[offset..][..if size < |bytes| - offset then size else |bytes| - offset]
  {
  }
}
