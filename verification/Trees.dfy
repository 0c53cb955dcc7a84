/** The in-memory tree the archive verifier builds: directories are dictionaries, leaves
    carry either file contents or, as in the verifier itself, a Git mode and object ID. */
module Trees {
  import opened Bytes
  import opened Results
  import opened GitObjects

  type Path = seq<bytes>

  datatype Tree<+L> = Dir(children: map<bytes, Tree<L>>) | Leaf(value: L)

  /** What a tree has at a path. */
  datatype Spot<+L> = Absent | Folder | Holds(value: L)

  function At<L>(t: Tree<L>, p: Path): Spot<L> {
    if p == [] then
      match t
      case Dir(_) => Folder
      case Leaf(v) => Holds(v)
    else if t.Dir? && p[0] in t.children then At(t.children[p[0]], p[1..])
    else Absent
  }

  lemma OneStep<L>(t: Tree<L>, n: bytes)
    requires t.Dir?
    ensures At(t, [n]) == if n in t.children then At(t.children[n], []) else Absent
  {
    var p: Path := [n];
    assert p[1..] == [];
  }

  /** A tree is determined by what it has at each path. */
  lemma {:induction false} TreeExtensional<L(!new)>(t: Tree<L>, u: Tree<L>)
    requires forall p :: At(t, p) == At(u, p)
    ensures t == u
  {
    assert At(t, []) == At(u, []);
    if t.Dir? {
      forall n ensures n in t.children <==> n in u.children {
        OneStep(t, n);
        OneStep(u, n);
        assert At(t, [n]) == At(u, [n]);
      }
      forall n | n in t.children ensures t.children[n] == u.children[n] {
        forall p ensures At(t.children[n], p) == At(u.children[n], p) {
          assert At(t, [n] + p) == At(u, [n] + p);
          assert ([n] + p)[1..] == p;
        }
        TreeExtensional(t.children[n], u.children[n]);
      }
    }
  }

  // ---------- adding one archive member ----------

  /** Walks to the parent of path, creating directories on the way, and puts a leaf or, for
      None, an empty directory unless one is there. Fails if something is in the way. */
  function Put<L>(dir: map<bytes, Tree<L>>, path: Path, leaf: Option<L>): Option<map<bytes, Tree<L>>>
    requires path != []
    decreases |path|
  {
    var name := path[0];
    if |path| == 1 then
      match leaf
      case Some(v) => if name in dir then None else Some(dir[name := Leaf(v)])
      case None =>
        if name !in dir then Some(dir[name := Dir(map[])])
        else if dir[name].Dir? then Some(dir)
        else None
    else
      var item := if name in dir then dir[name] else Dir(map[]);
      if item.Leaf? then None
      else
        match Put(item.children, path[1..], leaf)
        case None => None
        case Some(sub) => Some(dir[name := Dir(sub)])
  }

  predicate ProperPrefix(p: Path, q: Path) {
    |p| < |q| && p == q[..|p|]
  }

  /** When adding a member fails. */
  ghost predicate InTheWay<L>(t: Tree<L>, path: Path, leaf: Option<L>) {
    || (exists p :: ProperPrefix(p, path) && At(t, p).Holds?)
    || At(t, path).Holds?
    || (leaf.Some? && At(t, path) != Absent)
  }

  function SpotOf<L>(leaf: Option<L>): Spot<L> {
    match leaf
    case Some(v) => Holds(v)
    case None => Folder
  }

  lemma {:induction false} PutFailsExactly<L>(dir: map<bytes, Tree<L>>, path: Path, leaf: Option<L>)
    requires path != []
    ensures Put(dir, path, leaf).None? <==> InTheWay(Dir(dir), path, leaf)
    decreases |path|
  {
    var name, t := path[0], Dir(dir);
    assert At(t, []) == Folder;
    if |path| == 1 {
      assert path[1..] == [];
      forall p | ProperPrefix(p, path) ensures !At(t, p).Holds? {
        assert p == [];
      }
      assert name in dir ==> At(t, path) == At(dir[name], []);
    } else {
      var item := if name in dir then dir[name] else Dir(map[]);
      assert name !in dir ==> forall p :: p != [] ==> At(item, p) == Absent;
      assert name in dir ==> At(t, path) == At(item, path[1..]);
      assert path == [name] + path[1..];
      if item.Leaf? {
        assert At(t, [name]) == At(item, []);
        assert ProperPrefix([name], path) && At(t, [name]).Holds?;
      } else {
        PutFailsExactly(item.children, path[1..], leaf);
        forall p | ProperPrefix(p, path[1..]) && At(item, p).Holds?
          ensures ProperPrefix([name] + p, path) && At(t, [name] + p).Holds?
        {
          assert ([name] + p)[1..] == p;
          assert p != [];
        }
        forall p | ProperPrefix(p, path) && At(t, p).Holds?
          ensures ProperPrefix(p[1..], path[1..]) && At(item, p[1..]).Holds?
        {
          assert p[0] == name;
        }
      }
    }
  }

  /** What adding a member changes: the path itself and the directories above it. */
  lemma {:induction false} PutAt<L>(dir: map<bytes, Tree<L>>, path: Path, leaf: Option<L>, q: Path)
    requires path != [] && Put(dir, path, leaf).Some?
    ensures At(Dir(Put(dir, path, leaf).value), q) ==
            if q == path then SpotOf(leaf)
            else if ProperPrefix(q, path) then Folder
            else At(Dir(dir), q)
    decreases |path|
  {
    var name := path[0];
    if q == [] {
    } else if q[0] != name {
    } else if |path| == 1 {
      if |q| > 1 {
        assert q[1..] != [];
      } else {
        assert q == path;
      }
    } else {
      var item := if name in dir then dir[name] else Dir(map[]);
      PutAt(item.children, path[1..], leaf, q[1..]);
      assert q == path <==> q[1..] == path[1..];
      assert ProperPrefix(q, path) <==> ProperPrefix(q[1..], path[1..]) by {
        assert path == [name] + path[1..] && q == [name] + q[1..];
      }
      assert name !in dir && q[1..] != [] ==> At(item, q[1..]) == Absent;
    }
  }

  // ---------- contents and their hashes ----------

  datatype Item =
    | Blob(executable: bool, content: bytes)
    | Link(target: bytes)
    | Submodule(commit: Oid)

  type Contents = Tree<Item>
  type Node = Tree<Stamp>

  function BlobId(h: Hash, content: bytes): Oid {
    ObjectId(h, BlobKind, content)
  }

  function StampOf(h: Hash, item: Item): Stamp {
    match item
    case Blob(x, content) => Stamp(if x then ExecMode else FileMode, BlobId(h, content))
    case Link(target) => Stamp(LinkMode, BlobId(h, target))
    case Submodule(commit) => Stamp(GitlinkMode, commit)
  }

  function HashTree(h: Hash, t: Contents): Node {
    match t
    case Dir(c) => Dir(map n | n in c :: HashTree(h, c[n]))
    case Leaf(item) => Leaf(StampOf(h, item))
  }

  function HashDir(h: Hash, c: map<bytes, Contents>): map<bytes, Node> {
    map n | n in c :: HashTree(h, c[n])
  }

  function StampLeaf(h: Hash, leaf: Option<Item>): Option<Stamp> {
    match leaf
    case Some(i) => Some(StampOf(h, i))
    case None => None
  }

  lemma HashDirUpdate(h: Hash, dir: map<bytes, Contents>, name: bytes, t: Contents)
    ensures HashDir(h, dir[name := t]) == HashDir(h, dir)[name := HashTree(h, t)]
    ensures t.Dir? ==> HashTree(h, t) == Dir(HashDir(h, t.children))
    ensures HashDir(h, map[]) == map[]
  {
  }

  /** Hashing leaf by leaf commutes with building the tree. */
  lemma {:induction false} PutHash(h: Hash, dir: map<bytes, Contents>, path: Path, leaf: Option<Item>)
    requires path != []
    ensures Put(HashDir(h, dir), path, StampLeaf(h, leaf))
            == match Put(dir, path, leaf)
               case None => None
               case Some(d) => Some(HashDir(h, d))
    decreases |path|
  {
    var name, empty: Contents := path[0], Dir(map[]);
    HashDirUpdate(h, dir, name, empty);
    if |path| > 1 {
      var item := if name in dir then dir[name] else empty;
      HashDirUpdate(h, dir, name, item);
      if item.Dir? {
        PutHash(h, item.children, path[1..], leaf);
        var sub := Put(item.children, path[1..], leaf);
        if sub.Some? {
          HashDirUpdate(h, dir, name, Dir(sub.value));
        }
      }
    } else if leaf.Some? {
      HashDirUpdate(h, dir, name, Leaf(leaf.value));
    }
  }

  lemma {:induction false} HashAt(h: Hash, t: Contents, p: Path)
    ensures At(HashTree(h, t), p) == match At(t, p)
                                     case Absent => Absent
                                     case Folder => Folder
                                     case Holds(i) => Holds(StampOf(h, i))
    decreases |p|
  {
    if p != [] && t.Dir? && p[0] in t.children {
      HashAt(h, t.children[p[0]], p[1..]);
    }
  }

  // ---------- Merkle identifiers ----------

  ghost function NodeEntries(h: Hash, t: Node): Entries
    requires t.Dir?
    decreases t, 0
  {
    map n | n in t.children :: NodeStamp(h, t.children[n])
  }

  /** The entry a parent directory has for this node. */
  ghost function NodeStamp(h: Hash, t: Node): Stamp
    decreases t, 1
  {
    match t
    case Dir(_) => Stamp(TreeMode, TreeId(h, NodeEntries(h, t)))
    case Leaf(s) => s
  }

  ghost function RootId(h: Hash, t: Node): Oid
    requires t.Dir?
  {
    TreeId(h, NodeEntries(h, t))
  }

  /** Names Git accepts, and no leaf that claims to be a tree. */
  ghost predicate ValidNode(t: Node) {
    match t
    case Leaf(s) => s.mode != TreeMode
    case Dir(c) => forall n <- c :: ValidName(n) && ValidNode(c[n])
  }

  /** Every byte string hashed to compute the identifier of a tree. */
  ghost function TreeObjects(h: Hash, t: Node): set<bytes> {
    match t
    case Leaf(_) => {}
    case Dir(c) => {TreeBytes(NodeEntries(h, t))} + set n, x | n in c && x in TreeObjects(h, c[n]) :: x
  }

  lemma CollisionGrows(h: Hash, s: set<bytes>, t: set<bytes>, s': set<bytes>, t': set<bytes>)
    requires Collision(h, s, t) && s <= s' && t <= t'
    ensures Collision(h, s', t')
  {
    var x, y :| x in s && y in t && x != y && h(x) == h(y);
    assert x in s' && y in t';
  }

  /** Two trees with one identifier are equal, or two of their tree objects collide. */
  lemma {:induction false} MerkleInjective(h: Hash, t: Node, u: Node)
    requires ValidNode(t) && ValidNode(u)
    requires NodeStamp(h, t) == NodeStamp(h, u)
    ensures t == u || Collision(h, TreeObjects(h, t), TreeObjects(h, u))
    decreases t
  {
    if t.Dir? {
      assert u.Dir?;
      var m, n := NodeEntries(h, t), NodeEntries(h, u);
      TreeIdInjective(h, m, n);
      if m != n {
        CollisionGrows(h, {TreeBytes(m)}, {TreeBytes(n)}, TreeObjects(h, t), TreeObjects(h, u));
      } else {
        assert t.children.Keys == m.Keys == n.Keys == u.children.Keys;
        if !Collision(h, TreeObjects(h, t), TreeObjects(h, u)) {
          forall k | k in t.children ensures t.children[k] == u.children[k] {
            assert m[k] == n[k];
            MerkleInjective(h, t.children[k], u.children[k]);
            if t.children[k] != u.children[k] {
              CollisionGrows(h, TreeObjects(h, t.children[k]), TreeObjects(h, u.children[k]),
                             TreeObjects(h, t), TreeObjects(h, u));
            }
          }
        }
      }
    }
  }
}
