/** Directories and link counts. */
module LinkState {
  const ROOT := 1

  datatype Kind = Free | Directory | File | Device

  /** An entry with inode number 0 is empty. */
  datatype Dirent = Dirent(inum: nat, name: string)

  /** `nlink` is the `short` of the inode. */
  datatype Inode = Inode(kind: Kind, nlink: int, ents: seq<Dirent>)

  type Table = seq<Inode>

  const BLANK := Inode(Free, 0, [])

  /** A count stored in 16 bits with sign. */
  function Short(x: int): int {
    (x + 0x8000) % 0x1_0000 - 0x8000
  }

  lemma ShortStep(x: int)
    ensures Short(Short(x) + 1) == Short(x + 1) && Short(Short(x) - 1) == Short(x - 1)
  {
    ShortMod(x + 0x8000, 1);
    ShortMod(x + 0x8000, -1);
  }

  lemma ShortMod(y: int, d: int)
    ensures (y % 0x1_0000 + d) % 0x1_0000 == (y + d) % 0x1_0000
  {
  }

  /** What a count says about the number that it stands for. */
  lemma ShortIs(x: nat)
    ensures Short(x) == 0 <==> x % 0x1_0000 == 0
    ensures Short(x) < 1 <==> x % 0x1_0000 == 0 || x % 0x1_0000 >= 0x8000
    ensures Short(x) == x <==> x <= 0x7fff
  {
    var r := x % 0x1_0000;
    ShortMod(x, 0x8000);
    assert (x + 0x8000) % 0x1_0000 == if r < 0x8000 then r + 0x8000 else r - 0x8000;
  }

  // ---------------------------------------------------------------- references

  predicate Names(e: Dirent, i: nat) {
    e.inum == i && e.name != "."
  }

  /** The entries that name inode `i`, other than ".", in directories that are still linked. */
  ghost function Refs(t: Table, linked: set<nat>, i: nat): set<(nat, nat)> {
    set d, k | d in linked && d < |t| && 0 <= k < |t[d].ents| && Names(t[d].ents[k], i) :: (d, k)
  }

  function Put(ents: seq<Dirent>, k: nat, e: Dirent): (r: seq<Dirent>)
    requires k <= |ents|
    ensures |r| >= |ents| && k < |r| && r[k] == e && |r| <= |ents| + 1
    ensures forall j :: 0 <= j < |ents| && j != k ==> r[j] == ents[j]
    ensures k < |ents| ==> |r| == |ents|
  {
    if k < |ents| then ents[k := e] else ents + [e]
  }

  /** Position of the first entry with this name; the end if there is none. */
  function Find(ents: seq<Dirent>, name: string): (k: nat)
    ensures k <= |ents| && (k < |ents| ==> ents[k].inum != 0 && ents[k].name == name)
    ensures forall j :: 0 <= j < k ==> ents[j].inum == 0 || ents[j].name != name
  {
    if ents == [] then 0
    else if ents[0].inum != 0 && ents[0].name == name then 0
    else 1 + Find(ents[1..], name)
  }

  /** Position of the first empty entry; the end if there is none. */
  function Hole(ents: seq<Dirent>): (k: nat)
    ensures k <= |ents| && (k < |ents| ==> ents[k].inum == 0) && forall j :: 0 <= j < k ==> ents[j].inum != 0
  {
    if ents == [] then 0 else if ents[0].inum == 0 then 0 else 1 + Hole(ents[1..])
  }

  /** Writing one entry. */
  lemma RefsPut(t: Table, linked: set<nat>, d: nat, k: nat, e: Dirent, i: nat)
    requires d < |t| && k <= |t[d].ents| && d in linked
    ensures
      var t' := t[d := t[d].(ents := Put(t[d].ents, k, e))];
      Refs(t', linked, i) == Refs(t, linked, i) - {(d, k)} + if Names(e, i) then {(d, k)} else {}
  {
    var t' := t[d := t[d].(ents := Put(t[d].ents, k, e))];
    var r, r' := Refs(t, linked, i), Refs(t', linked, i);
    forall x, y ensures (x, y) in r' <==> (x, y) in r - {(d, k)} + if Names(e, i) then {(d, k)} else {} {
      assert (x, y) in r <==> x in linked && x < |t| && 0 <= y < |t[x].ents| && Names(t[x].ents[y], i);
      assert (x, y) in r' <==> x in linked && x < |t'| && 0 <= y < |t'[x].ents| && Names(t'[x].ents[y], i);
    }
  }

  /** Counts, kinds and unlinked inodes do not matter. */
  lemma RefsSame(t: Table, t': Table, linked: set<nat>, i: nat)
    requires |t'| == |t| && forall d :: d in linked && d < |t| ==> t'[d].ents == t[d].ents
    ensures Refs(t', linked, i) == Refs(t, linked, i)
  {
  }

  /** A directory with "." and ".." only enters, or leaves, the tree. */
  lemma RefsDir(t: Table, linked: set<nat>, c: nat, p: nat, i: nat)
    requires c < |t| && c !in linked && Fresh(t[c].ents, c, p) && i != 0
    ensures Refs(t, linked + {c}, i) == Refs(t, linked, i) + if i == p then {(c, 1)} else {}
    ensures (c, 1) !in Refs(t, linked, i)
  {
    var r, r' := Refs(t, linked, i), Refs(t, linked + {c}, i);
    forall x, y ensures (x, y) in r' <==> (x, y) in r + if i == p then {(c, 1)} else {} {
      assert (x, y) in r <==> x in linked && x < |t| && 0 <= y < |t[x].ents| && Names(t[x].ents[y], i);
      assert (x, y) in r' <==> x in linked + {c} && x < |t| && 0 <= y < |t[x].ents| && Names(t[x].ents[y], i);
    }
  }

  /** "." and "..", then nothing. */
  ghost predicate Fresh(ents: seq<Dirent>, c: nat, p: nat) {
    && |ents| >= 2 && ents[0] == Dirent(c, ".") && ents[1] == Dirent(p, "..")
    && forall k :: 2 <= k < |ents| ==> ents[k].inum == 0
  }

  // ---------------------------------------------------------------- the invariant

  /** Where a directory other than the root has its name: the parent, the position there, and how far from the root. */
  datatype Place = Place(dir: nat, pos: nat, depth: nat)

  type Home = map<nat, Place>

  function Depth(home: Home, d: nat): nat {
    if d in home then home[d].depth else 0
  }

  /** An entry after the first two. */
  ghost predicate EntryOk(t: Table, linked: set<nat>, home: Home, d: nat, k: nat, e: Dirent) {
    e.inum != 0 ==>
      && e.name != "." && e.name != ".." && e.inum < |t| && !t[e.inum].kind.Free?
      && (t[e.inum].kind.Directory? ==>
            e.inum in linked && e.inum in home && home[e.inum].dir == d && home[e.inum].pos == k)
  }

  ghost predicate DirOk(t: Table, linked: set<nat>, home: Home, d: nat) {
    && 0 < d < |t| && t[d].kind.Directory? && |t[d].ents| >= 2
    && t[d].ents[0] == Dirent(d, ".") && t[d].ents[1].name == ".." && t[d].ents[1].inum in linked
    && (forall k :: 2 <= k < |t[d].ents| ==> EntryOk(t, linked, home, d, k, t[d].ents[k]))
    && (if d == ROOT then t[d].ents[1].inum == ROOT
          else d in home && HomeOk(t, linked, home, d, home[d].dir, home[d].pos))
  }

  ghost predicate HomeOk(t: Table, linked: set<nat>, home: Home, d: nat, p: nat, k: nat) {
    && d in home && home[d].depth == Depth(home, p) + 1 && d < |t| && |t[d].ents| >= 2 && t[d].ents[1].inum == p
    && p in linked && p < |t| && 2 <= k < |t[p].ents| && t[p].ents[k].inum == d
  }

  /** The linked directories form a tree, and every entry in them names an inode in use. */
  ghost predicate Tree(t: Table, linked: set<nat>, home: Home) {
    && ROOT in linked && ROOT !in home && (forall d :: d in home ==> d in linked)
    && forall d {:trigger DirOk(t, linked, home, d)} :: d in linked ==> DirOk(t, linked, home, d)
  }

  /** The link count of an inode is the number of entries that name it, as far as 16 bits can hold it. */
  ghost predicate CountOk(t: Table, linked: set<nat>, i: nat)
    requires i < |t|
  {
    if t[i].kind.Free? then t[i] == BLANK && Refs(t, linked, i) == {} else t[i].nlink == Short(|Refs(t, linked, i)|)
  }

  ghost predicate Counts(t: Table, linked: set<nat>) {
    forall i {:trigger CountOk(t, linked, i)} :: 0 < i < |t| ==> CountOk(t, linked, i)
  }

  /** Nothing but "." and ".."; what ".." named may be free by now. */
  ghost predicate Hollow(ents: seq<Dirent>, d: nat, n: nat) {
    forall k :: 0 <= k < |ents| && ents[k].inum != 0 ==>
      ents[k].inum < n && (ents[k] == Dirent(d, ".") || ents[k].name == "..")
  }

  /** A directory that is not linked has been removed, or is not in place yet: it is empty. */
  ghost predicate Hollows(t: Table, linked: set<nat>) {
    forall d :: 0 < d < |t| && d !in linked && t[d].kind.Directory? ==> Hollow(t[d].ents, d, |t|)
  }

  ghost predicate Sound(t: Table, linked: set<nat>, home: Home) {
    Tree(t, linked, home) && Counts(t, linked) && Hollows(t, linked)
  }

  /** The link count is right exactly as long as it fits, and what it says when it does not. */
  lemma CountIsExact(t: Table, linked: set<nat>, home: Home, i: nat)
    requires Sound(t, linked, home) && 0 < i < |t| && !t[i].kind.Free?
    ensures t[i].nlink == |Refs(t, linked, i)| <==> |Refs(t, linked, i)| <= 0x7fff
    ensures t[i].nlink == 0 <==> |Refs(t, linked, i)| % 0x1_0000 == 0
    ensures t[i].nlink < 1 <==> |Refs(t, linked, i)| % 0x1_0000 == 0 || |Refs(t, linked, i)| % 0x1_0000 >= 0x8000
  {
    hide Short, Refs;
    assert CountOk(t, linked, i);
    ShortIs(|Refs(t, linked, i)|);
  }

  /** The names on the way from the root to a directory. */
  ghost function PathTo(t: Table, linked: set<nat>, home: Home, d: nat): (path: seq<nat>)
    requires Tree(t, linked, home) && d in linked
    decreases Depth(home, d)
  {
    assert DirOk(t, linked, home, d);
    if d == ROOT then [ROOT] else PathTo(t, linked, home, home[d].dir) + [d]
  }

  /** Directory `d` has an entry, other than "." and "..", for inode `i`. */
  ghost predicate Holds(t: Table, d: nat, i: nat) {
    d < |t| && i != 0 && exists k :: 2 <= k < |t[d].ents| && t[d].ents[k].inum == i
  }

  /** Every directory on the path but the first is contained in the one before. */
  ghost predicate Descends(t: Table, path: seq<nat>) {
    forall j {:trigger path[j]} :: 0 < j < |path| ==> Holds(t, path[j - 1], path[j])
  }

  lemma DescendsOne(t: Table, path: seq<nat>, d: nat)
    requires Descends(t, path) && |path| > 0 && Holds(t, path[|path| - 1], d)
    ensures Descends(t, path + [d])
  {
    var longer := path + [d];
    forall j | 0 < j < |longer| ensures Holds(t, longer[j - 1], longer[j]) {
      assert j < |path| ==> longer[j] == path[j] && longer[j - 1] == path[j - 1];
    }
  }

  /** The linked directories form a tree: each of them is at the end of a path of names that starts at the root, and no
      other directory contains it or contains it twice. */
  lemma {:induction false} Reachable(t: Table, linked: set<nat>, home: Home, d: nat)
    requires Tree(t, linked, home) && d in linked
    ensures
      var path := PathTo(t, linked, home, d);
      && 0 < |path| == Depth(home, d) + 1 && path[0] == ROOT && path[|path| - 1] == d
      && (forall j :: 0 <= j < |path| ==> path[j] in linked) && Descends(t, path)
    decreases Depth(home, d)
  {
    assert DirOk(t, linked, home, d);
    if d != ROOT {
      Reachable(t, linked, home, home[d].dir);
      DescendsOne(t, PathTo(t, linked, home, home[d].dir), d);
    }
  }

  /** Which directories are linked is not a choice: the table decides it. */
  lemma {:induction false} LinkedUnique(t: Table, linked: set<nat>, home: Home, linked': set<nat>, home': Home, d: nat)
    requires Tree(t, linked, home) && Tree(t, linked', home') && d in linked
    ensures d in linked'
    decreases Depth(home, d)
  {
    assert DirOk(t, linked, home, d);
    if d != ROOT {
      LinkedUnique(t, linked, home, linked', home', home[d].dir);
      assert DirOk(t, linked', home', home[d].dir);
      assert EntryOk(t, linked', home', home[d].dir, home[d].pos, t[home[d].dir].ents[home[d].pos]);
    }
  }

  /** Every inode that a linked directory contains is in use; a directory among them is linked and contained once. */
  lemma OneParent(t: Table, linked: set<nat>, home: Home, d: nat, k: nat, i: nat)
    requires Tree(t, linked, home) && d in linked && d < |t| && 2 <= k < |t[d].ents| && i != 0 && t[d].ents[k].inum == i
    ensures i < |t| && !t[i].kind.Free?
    ensures t[i].kind.Directory? ==> i in linked && i in home && (d, k) == (home[i].dir, home[i].pos)
  {
    assert DirOk(t, linked, home, d);
    assert EntryOk(t, linked, home, d, k, t[d].ents[k]);
  }

  /** What a caller can see of it: a directory is linked if and only if something names it, so a link count other than 0
      means that it is linked, and up to 65535 names so does the converse. */
  lemma LinkedSeen(t: Table, linked: set<nat>, home: Home, d: nat)
    requires Sound(t, linked, home) && 0 < d < |t| && t[d].kind.Directory?
    ensures d in linked <==> Refs(t, linked, d) != {}
    ensures t[d].nlink != 0 ==> d in linked
    ensures d in linked && |Refs(t, linked, d)| < 0x1_0000 ==> t[d].nlink != 0
  {
    if d in linked {
      assert DirOk(t, linked, home, d);
      if d == ROOT {
        There(t, linked, d, 1, d);
      } else {
        NamedAt(t, linked, home, home[d].dir, home[d].pos);
        There(t, linked, home[d].dir, home[d].pos, d);
      }
    } else {
      UnlinkedUnnamed(t, linked, home, d);
    }
    CountIsExact(t, linked, home, d);
  }

  lemma UnlinkedUnnamed(t: Table, linked: set<nat>, home: Home, d: nat)
    requires Tree(t, linked, home) && 0 < d < |t| && t[d].kind.Directory? && d !in linked
    ensures Refs(t, linked, d) == {}
  {
    forall x, y ensures (x, y) !in Refs(t, linked, d) {
      if x in linked && x < |t| && 0 <= y < |t[x].ents| {
        assert DirOk(t, linked, home, x);
        assert y >= 2 ==> EntryOk(t, linked, home, x, y, t[x].ents[y]);
      }
    }
  }

  /** An empty directory is named by its entry in its parent only. */
  lemma EmptyRefs(t: Table, linked: set<nat>, home: Home, d: nat)
    requires Tree(t, linked, home) && d in linked && d != ROOT && d in home && DirOk(t, linked, home, d)
    requires forall k :: 2 <= k < |t[d].ents| ==> t[d].ents[k].inum == 0
    ensures Refs(t, linked, d) == {(home[d].dir, home[d].pos)} && Fresh(t[d].ents, d, home[d].dir)
  {
    var r := Refs(t, linked, d);
    forall x, y ensures (x, y) in r <==> (x, y) == (home[d].dir, home[d].pos) {
      assert (x, y) in r <==> x in linked && x < |t| && 0 <= y < |t[x].ents| && Names(t[x].ents[y], d);
      if x in linked {
        assert DirOk(t, linked, home, x);
        if 2 <= y < |t[x].ents| {
          assert EntryOk(t, linked, home, x, y, t[x].ents[y]);
        }
      }
      assert DirOk(t, linked, home, home[d].dir);
    }
  }

  // ---------------------------------------------------------------- files

  function WithEntry(t: Table, d: nat, k: nat, e: Dirent): (t': Table)
    requires d < |t| && k <= |t[d].ents|
    ensures |t'| == |t|
  {
    t[d := t[d].(ents := Put(t[d].ents, k, e))]
  }

  function WithCount(t: Table, i: nat, nlink: int): (t': Table)
    requires i < |t|
    ensures |t'| == |t|
  {
    t[i := t[i].(nlink := nlink)]
  }

  lemma TreeCount(t: Table, linked: set<nat>, home: Home, i: nat, nlink: int)
    requires Tree(t, linked, home) && i < |t|
    ensures Tree(WithCount(t, i, nlink), linked, home)
  {
    var t' := WithCount(t, i, nlink);
    forall d | d in linked ensures DirOk(t', linked, home, d) {
      assert DirOk(t, linked, home, d);
      forall k | 2 <= k < |t'[d].ents| ensures EntryOk(t', linked, home, d, k, t'[d].ents[k]) {
        assert EntryOk(t, linked, home, d, k, t[d].ents[k]);
      }
    }
  }

  /** The entry written is empty or names a file, and so was the entry before. */
  lemma TreePut(t: Table, linked: set<nat>, home: Home, d: nat, k: nat, e: Dirent)
    requires Tree(t, linked, home) && d in linked && d < |t| && 2 <= k <= |t[d].ents|
    requires EntryOk(t, linked, home, d, k, e) && (e.inum != 0 ==> !t[e.inum].kind.Directory?)
    requires k < |t[d].ents| && t[d].ents[k].inum != 0 ==>
              t[d].ents[k].inum < |t| && !t[t[d].ents[k].inum].kind.Directory?
    ensures Tree(WithEntry(t, d, k, e), linked, home)
  {
    var t' := WithEntry(t, d, k, e);
    assert DirOk(t, linked, home, d);
    forall x | x in linked ensures DirOk(t', linked, home, x) {
      assert DirOk(t, linked, home, x);
      forall j | 2 <= j < |t'[x].ents| ensures EntryOk(t', linked, home, x, j, t'[x].ents[j]) {
        assert j < |t[x].ents| ==> EntryOk(t, linked, home, x, j, t[x].ents[j]);
      }
    }
  }

  /** One reference and one link more for inode `i`, the same for all others. */
  lemma CountMore(t: Table, t': Table, linked: set<nat>, linked': set<nat>, i: nat, j: nat, x: (nat, nat))
    requires 0 < j < |t| && |t'| == |t| && CountOk(t, linked, j) && t'[j].kind == t[j].kind
    requires (t[j].kind.Free? ==> j != i && t'[j] == t[j])
    requires t'[j].nlink == (if j == i then Short(t[j].nlink + 1) else t[j].nlink)
    requires Refs(t', linked', j) == Refs(t, linked, j) + (if j == i then {x} else {}) && x !in Refs(t, linked, j)
    ensures CountOk(t', linked', j)
  {
    hide Refs, Short;
    ShortStep(|Refs(t, linked, j)|);
  }

  lemma CountLess(t: Table, t': Table, linked: set<nat>, linked': set<nat>, i: nat, j: nat, x: (nat, nat))
    requires 0 < j < |t| && |t'| == |t| && CountOk(t, linked, j) && t'[j].kind == t[j].kind
    requires (t[j].kind.Free? ==> j != i && t'[j] == t[j])
    requires t'[j].nlink == (if j == i then Short(t[j].nlink - 1) else t[j].nlink)
    requires Refs(t', linked', j) == Refs(t, linked, j) - (if j == i then {x} else {})
    requires (j == i ==> x in Refs(t, linked, j))
    ensures CountOk(t', linked', j)
  {
    hide Refs, Short;
    ShortStep(|Refs(t, linked, j)|);
  }

  /** One entry more for file `i`, and one link more. */
  lemma AddName(t: Table, linked: set<nat>, home: Home, d: nat, k: nat, e: Dirent)
    requires Sound(t, linked, home) && d in linked && d < |t| && 2 <= k <= |t[d].ents|
    requires (k < |t[d].ents| ==> t[d].ents[k].inum == 0)
    requires 0 < e.inum < |t| && (t[e.inum].kind.File? || t[e.inum].kind.Device?) && e.name != "." && e.name != ".."
    ensures Sound(WithEntry(WithCount(t, e.inum, Short(t[e.inum].nlink + 1)), d, k, e), linked, home)
  {
    hide Tree, Refs, Short, CountOk;
    var i := e.inum;
    LinkedDir(t, linked, home, d);
    var t1 := WithCount(t, i, Short(t[i].nlink + 1));
    var t2 := WithEntry(t1, d, k, e);
    TreeCount(t, linked, home, i, Short(t[i].nlink + 1));
    TreePut(t1, linked, home, d, k, e);
    forall j | 0 < j < |t| ensures CountOk(t2, linked, j) {
      RefsSame(t, t1, linked, j);
      RefsPut(t1, linked, d, k, e, j);
      NotThere(t, linked, d, k, j);
      CountMore(t, t2, linked, linked, i, j, (d, k));
    }
  }

  lemma NotThere(t: Table, linked: set<nat>, d: nat, k: nat, j: nat)
    requires d < |t| && (k < |t[d].ents| ==> t[d].ents[k].inum == 0) && j != 0
    ensures (d, k) !in Refs(t, linked, j)
  {
  }

  /** One entry less for file `i`, and one link less. */
  lemma DropName(t: Table, linked: set<nat>, home: Home, d: nat, k: nat)
    requires Sound(t, linked, home) && d in linked && d < |t| && 2 <= k < |t[d].ents|
    requires var i := t[d].ents[k].inum; 0 < i < |t| && (t[i].kind.File? || t[i].kind.Device?)
    ensures
      var i := t[d].ents[k].inum;
      Sound(WithCount(WithEntry(t, d, k, Dirent(0, "")), i, Short(t[i].nlink - 1)), linked, home)
  {
    hide Tree, Refs, Short, CountOk;
    var i := t[d].ents[k].inum;
    var t1 := WithEntry(t, d, k, Dirent(0, ""));
    var t2 := WithCount(t1, i, Short(t[i].nlink - 1));
    NamedAt(t, linked, home, d, k);
    LinkedDir(t, linked, home, d);
    TreePut(t, linked, home, d, k, Dirent(0, ""));
    TreeCount(t1, linked, home, i, Short(t[i].nlink - 1));
    forall j | 0 < j < |t| ensures CountOk(t2, linked, j) {
      RefsPut(t, linked, d, k, Dirent(0, ""), j);
      RefsSame(t1, t2, linked, j);
      There(t, linked, d, k, j);
      CountLess(t, t2, linked, linked, i, j, (d, k));
    }
  }

  lemma There(t: Table, linked: set<nat>, d: nat, k: nat, j: nat)
    requires d in linked && d < |t| && k < |t[d].ents| && t[d].ents[k].name != "."
    ensures (d, k) in Refs(t, linked, j) <==> t[d].ents[k].inum == j
  {
  }

  lemma LinkedDir(t: Table, linked: set<nat>, home: Home, d: nat)
    requires Sound(t, linked, home) && d in linked
    ensures 0 < d < |t| && t[d].kind.Directory? && |t[d].ents| >= 2 && t[d].ents[0] == Dirent(d, ".")
    ensures t[d].ents[1].name == ".."
    ensures t[d].ents[1].inum != 0
    ensures forall k :: 0 <= k < |t[d].ents| ==> t[d].ents[k].inum < |t|
  {
    assert DirOk(t, linked, home, d);
    assert DirOk(t, linked, home, t[d].ents[1].inum);
    forall k | 0 <= k < |t[d].ents| ensures t[d].ents[k].inum < |t| {
      assert k >= 2 ==> EntryOk(t, linked, home, d, k, t[d].ents[k]);
    }
  }

  lemma NamedAt(t: Table, linked: set<nat>, home: Home, d: nat, k: nat)
    requires Tree(t, linked, home) && d in linked && d < |t| && 2 <= k < |t[d].ents| && t[d].ents[k].inum != 0
    ensures EntryOk(t, linked, home, d, k, t[d].ents[k]) && t[d].ents[k].name != "."
  {
    assert DirOk(t, linked, home, d);
  }

  // ---------------------------------------------------------------- inodes that no entry names

  /** Inode `i` changes, no linked directory does, and no entry in them names it. */
  lemma TreeOther(t: Table, linked: set<nat>, home: Home, i: nat, q: Inode)
    requires Tree(t, linked, home) && 0 < i < |t| && i !in linked && Refs(t, linked, i) == {}
    ensures Tree(t[i := q], linked, home)
  {
    var t' := t[i := q];
    forall d | d in linked ensures DirOk(t', linked, home, d) {
      assert DirOk(t, linked, home, d);
      forall k | 2 <= k < |t'[d].ents| ensures EntryOk(t', linked, home, d, k, t'[d].ents[k]) {
        assert EntryOk(t, linked, home, d, k, t[d].ents[k]);
        NotNamed(t, linked, home, d, k, i);
      }
    }
  }

  lemma NotNamed(t: Table, linked: set<nat>, home: Home, d: nat, k: nat, i: nat)
    requires d in linked && d < |t| && 2 <= k < |t[d].ents| && EntryOk(t, linked, home, d, k, t[d].ents[k])
    requires Refs(t, linked, i) == {} && i != 0
    ensures t[d].ents[k].inum != i
  {
    if t[d].ents[k].inum == i {
      There(t, linked, d, k, i);
    }
  }

  /** An inode in use, or given back, with no links and no names. */
  lemma SoundOther(t: Table, linked: set<nat>, home: Home, i: nat, q: Inode)
    requires Sound(t, linked, home) && 0 < i < |t| && i !in linked && Refs(t, linked, i) == {} && q.nlink == 0
    requires (q.kind.Free? ==> q == BLANK)
    requires q.kind.Directory? ==> Hollow(q.ents, i, |t|)
    ensures Sound(t[i := q], linked, home)
  {
    hide Tree, Refs;
    TreeOther(t, linked, home, i, q);
    var t' := t[i := q];
    forall j | 0 < j < |t| ensures CountOk(t', linked, j) {
      assert CountOk(t, linked, j);
      RefsSame(t, t', linked, j);
    }
  }

  lemma FreeIsOther(t: Table, linked: set<nat>, home: Home, i: nat)
    requires Sound(t, linked, home) && 0 < i < |t| && t[i].kind.Free?
    ensures i !in linked && Refs(t, linked, i) == {}
  {
    assert CountOk(t, linked, i);
    assert i in linked ==> DirOk(t, linked, home, i);
  }

  // ---------------------------------------------------------------- directories

  /** An unlinked directory with "." and ".." gets its name in `d`. */
  lemma AddDir(t: Table, linked: set<nat>, home: Home, d: nat, k: nat, e: Dirent)
    requires Sound(t, linked, home) && d in linked && d < |t| && 2 <= k <= |t[d].ents|
    requires (k < |t[d].ents| ==> t[d].ents[k].inum == 0)
    requires var c := e.inum;
              0 < c < |t| && c !in linked && Refs(t, linked, c) == {} && t[c].kind.Directory? && t[c].nlink == 0
              && Fresh(t[c].ents, c, d)
    requires e.name != "." && e.name != ".." && !t[d].kind.Free?
    ensures
      var c := e.inum;
      var t1 := WithCount(WithEntry(WithCount(t, c, 1), d, k, e), d, Short(t[d].nlink + 1));
      Sound(t1, linked + {c}, home[c := Place(d, k, Depth(home, d) + 1)])
  {
    hide Tree, Refs, Short, CountOk, Fresh;
    var c, linked' := e.inum, linked + {e.inum};
    var ta := WithCount(t, d, Short(t[d].nlink + 1));
    var tb := WithCount(ta, c, 1);
    var tc := WithEntry(tb, d, k, e);
    assert tc == WithCount(WithEntry(WithCount(t, c, 1), d, k, e), d, Short(t[d].nlink + 1));
    ShortIs(1);
    TreeAddDir(t, tc, linked, home, d, k, e);
    forall j | 0 < j < |t| ensures CountOk(tc, linked', j) {
      RefsSame(t, ta, linked', j);
      RefsDir(t, linked, c, d, j);
      CountMore(t, ta, linked, linked', d, j, (c, 1));
      RefsSame(ta, tb, linked', j);
      RefsPut(tb, linked', d, k, e, j);
      NotThere(ta, linked', d, k, j);
      CountMore(ta, tc, linked', linked', c, j, (d, k));
    }
  }

  lemma TreeAddDir(t: Table, t': Table, linked: set<nat>, home: Home, d: nat, k: nat, e: Dirent)
    requires Tree(t, linked, home) && d in linked && d < |t| && 2 <= k <= |t[d].ents|
    requires (k < |t[d].ents| ==> t[d].ents[k].inum == 0)
    requires var c := e.inum;
              0 < c < |t| && c !in linked && Refs(t, linked, c) == {} && t[c].kind.Directory? && Fresh(t[c].ents, c, d)
    requires e.name != "." && e.name != ".."
    requires |t'| == |t| && forall i ::
              0 <= i < |t| ==> t'[i].kind == t[i].kind && t'[i].ents == if i == d then Put(t[d].ents, k, e)
              else t[i].ents
    ensures Tree(t', linked + {e.inum}, home[e.inum := Place(d, k, Depth(home, d) + 1)])
  {
    var c, linked', home' := e.inum, linked + {e.inum}, home[e.inum := Place(d, k, Depth(home, d) + 1)];
    assert DirOk(t, linked, home, ROOT);
    forall x | x in linked' ensures DirOk(t', linked', home', x) {
      if x != c {
        OldDir(t, t', linked, home, d, k, e, x);
      } else {
        NewDir(t, t', linked, home, d, k, e);
      }
    }
  }

  lemma OldDir(t: Table, t': Table, linked: set<nat>, home: Home, d: nat, k: nat, e: Dirent, x: nat)
    requires Tree(t, linked, home) && d in linked && d < |t| && 2 <= k <= |t[d].ents|
    requires (k < |t[d].ents| ==> t[d].ents[k].inum == 0)
    requires var c := e.inum; 0 < c < |t| && c !in linked && Refs(t, linked, c) == {} && t[c].kind.Directory?
    requires e.name != "." && e.name != ".." && x in linked
    requires |t'| == |t| && forall i ::
              0 <= i < |t| ==> t'[i].kind == t[i].kind && t'[i].ents == if i == d then Put(t[d].ents, k, e)
              else t[i].ents
    ensures DirOk(t', linked + {e.inum}, home[e.inum := Place(d, k, Depth(home, d) + 1)], x)
  {
    hide Refs;
    var c, linked', home' := e.inum, linked + {e.inum}, home[e.inum := Place(d, k, Depth(home, d) + 1)];
    assert DirOk(t, linked, home, x);
    forall j | 2 <= j < |t'[x].ents| ensures EntryOk(t', linked', home', x, j, t'[x].ents[j]) {
      if !(x == d && j == k) {
        assert EntryOk(t, linked, home, x, j, t[x].ents[j]);
        NotNamed(t, linked, home, x, j, c);
      }
    }
    if x != ROOT {
      assert HomeOk(t, linked, home, x, home[x].dir, home[x].pos);
    }
  }

  lemma NewDir(t: Table, t': Table, linked: set<nat>, home: Home, d: nat, k: nat, e: Dirent)
    requires Tree(t, linked, home) && d in linked && d < |t| && 2 <= k <= |t[d].ents|
    requires var c := e.inum; 0 < c < |t| && c !in linked && t[c].kind.Directory? && Fresh(t[c].ents, c, d)
    requires |t'| == |t| && forall i ::
              0 <= i < |t| ==> t'[i].kind == t[i].kind && t'[i].ents == if i == d then Put(t[d].ents, k, e)
              else t[i].ents
    ensures DirOk(t', linked + {e.inum}, home[e.inum := Place(d, k, Depth(home, d) + 1)], e.inum)
  {
    var c, linked', home' := e.inum, linked + {e.inum}, home[e.inum := Place(d, k, Depth(home, d) + 1)];
    forall j | 2 <= j < |t'[c].ents| ensures EntryOk(t', linked', home', c, j, t'[c].ents[j]) {
    }
  }

  /** An empty directory loses its name in `d`. */
  lemma DropDir(t: Table, linked: set<nat>, home: Home, d: nat, k: nat)
    requires Sound(t, linked, home) && d in linked && d < |t| && 2 <= k < |t[d].ents|
    requires var c := t[d].ents[k].inum;
              0 < c < |t| && c != d && t[c].kind.Directory? && forall j ::
              2 <= j < |t[c].ents| ==> t[c].ents[j].inum == 0
    ensures
      var c := t[d].ents[k].inum;
      && t[c].nlink == 1 && c in linked
      && Sound(WithCount(WithCount(WithEntry(t, d, k, Dirent(0, "")), d, Short(t[d].nlink - 1)), c, 0), linked - {c},
            home - {c})
  {
    hide Tree, Refs, Short, CountOk, Fresh;
    var c := t[d].ents[k].inum;
    DirNamed(t, linked, home, d, k);
    EmptyRefs(t, linked, home, c);
    OneLink(t, linked, c, (d, k));
    var linked' := linked - {c};
    var ta := WithEntry(WithCount(t, c, 0), d, k, Dirent(0, ""));
    var tb := WithCount(ta, d, Short(t[d].nlink - 1));
    assert tb == WithCount(WithCount(WithEntry(t, d, k, Dirent(0, "")), d, Short(t[d].nlink - 1)), c, 0);
    ShortIs(0);
    TreeDropDir(t, tb, linked, home, d, k);
    forall j | 0 < j < |t| ensures CountOk(tb, linked', j) {
      RefsSame(t, WithCount(t, c, 0), linked, j);
      RefsPut(WithCount(t, c, 0), linked, d, k, Dirent(0, ""), j);
      There(t, linked, d, k, j);
      CountLess(t, ta, linked, linked, c, j, (d, k));
      RefsDir(ta, linked', c, d, j);
      assert linked' + {c} == linked;
      RefsSame(ta, tb, linked', j);
      CountLess(ta, tb, linked, linked', d, j, (c, 1));
    }
  }

  lemma OneLink(t: Table, linked: set<nat>, c: nat, x: (nat, nat))
    requires 0 < c < |t| && Counts(t, linked) && Refs(t, linked, c) == {x} && !t[c].kind.Free?
    ensures t[c].nlink == 1
  {
    assert CountOk(t, linked, c);
    ShortIs(1);
  }

  lemma DirNamed(t: Table, linked: set<nat>, home: Home, d: nat, k: nat)
    requires Tree(t, linked, home) && d in linked && d < |t| && 2 <= k < |t[d].ents|
    requires var c := t[d].ents[k].inum; 0 < c < |t| && t[c].kind.Directory?
    ensures var c := t[d].ents[k].inum;
              c in linked && c != ROOT && c in home && home[c].dir == d && home[c].pos == k && DirOk(t, linked, home, c)
    ensures t[d].ents[k].name != "." && t[d].kind.Directory? && d > 0
  {
    assert DirOk(t, linked, home, d);
    assert EntryOk(t, linked, home, d, k, t[d].ents[k]);
    assert DirOk(t, linked, home, t[d].ents[k].inum);
  }

  lemma TreeDropDir(t: Table, t': Table, linked: set<nat>, home: Home, d: nat, k: nat)
    requires Tree(t, linked, home) && d in linked && d < |t| && 2 <= k < |t[d].ents|
    requires var c := t[d].ents[k].inum;
              0 < c < |t| && c != d && t[c].kind.Directory? && forall j ::
              2 <= j < |t[c].ents| ==> t[c].ents[j].inum == 0
    requires |t'| == |t| && forall i ::
              0 <= i < |t| ==> t'[i].kind == t[i].kind && t'[i].ents == if i == d then Put(t[d].ents, k, Dirent(0, ""))
              else t[i].ents
    ensures Tree(t', linked - {t[d].ents[k].inum}, home - {t[d].ents[k].inum})
  {
    var c := t[d].ents[k].inum;
    var linked', home' := linked - {c}, home - {c};
    DirNamed(t, linked, home, d, k);
    forall x | x in linked' ensures DirOk(t', linked', home', x) {
      assert DirOk(t, linked, home, x);
      forall j | 2 <= j < |t'[x].ents| ensures EntryOk(t', linked', home', x, j, t'[x].ents[j]) {
        if !(x == d && j == k) {
          assert EntryOk(t, linked, home, x, j, t[x].ents[j]);
        }
      }
      if x != ROOT {
        assert HomeOk(t, linked, home, x, home[x].dir, home[x].pos);
      }
    }
  }
}
