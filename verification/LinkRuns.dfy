/** Calls that lead from the empty image to the states in which link counts, or removed directories, go wrong. */
module LinkRuns {
  import opened LinkState
  import opened Links

  /** Entries of 16 bytes that fit the largest file, 268 blocks of 1024 bytes. */
  const MAXENTS := 17152

  const PER_DIR := 8192

  function Digit(k: nat): char {
    'a' + (k % 16) as char
  }

  /** A name of four letters for each number below 65536. */
  function Name(k: nat): string {
    [Digit(k), Digit(k / 16), Digit(k / 16 / 16), Digit(k / 16 / 16 / 16)]
  }

  lemma DigitsDiffer(j: nat, k: nat)
    requires Digit(j) == Digit(k) && j / 16 == k / 16
    ensures j == k
  {
  }

  lemma LastDigit(j: nat, k: nat)
    requires Digit(j) == Digit(k) && j < 16 && k < 16
    ensures j == k
  {
  }

  lemma NamesDiffer(j: nat, k: nat)
    requires j < 0x1_0000 && k < 0x1_0000 && Name(j) == Name(k)
    ensures j == k
  {
    hide Digit;
    assert Name(j)[0] == Name(k)[0] && Name(j)[1] == Name(k)[1] && Name(j)[2] == Name(k)[2] && Name(j)[3] == Name(k)[3];
    LastDigit(j / 16 / 16 / 16, k / 16 / 16 / 16);
    DigitsDiffer(j / 16 / 16, k / 16 / 16);
    DigitsDiffer(j / 16, k / 16);
    DigitsDiffer(j, k);
  }

  /** The directory holds the first `n` names, all of them for inode `ip`. */
  ghost predicate Holding(ents: seq<Dirent>, ip: nat, n: nat) {
    && |ents| == 2 + n && ents[0].inum != 0 && ents[1].inum != 0 && ents[0].name == "." && ents[1].name == ".."
    && forall j :: 2 <= j < 2 + n ==> ents[j] == Dirent(ip, Name(j - 2))
  }

  lemma NextName(ents: seq<Dirent>, ip: nat, n: nat)
    requires Holding(ents, ip, n) && ip != 0 && n < 0x1_0000
    ensures CanEnter(ents, Name(n), true) && Hole(ents) == |ents|
    ensures Holding(Put(ents, Hole(ents), Dirent(ip, Name(n))), ip, n + 1)
  {
    var k := Find(ents, Name(n));
    if k < |ents| {
      assert ents[k].name == Name(n) && |Name(n)| == 4;
      NamesDiffer(k - 2, n);
    }
  }

  /** The first `n` names go into an empty directory. */
  method Fill(ft: FileTree, ip: nat, dp: nat, n: nat)
    requires ft.Valid() && 0 < ip < |ft.inodes| && ft.inodes[ip].kind.File? && dp in ft.linked && 0 < dp < |ft.inodes|
    requires ft.inodes[dp].kind.Directory? && Holding(ft.inodes[dp].ents, ip, 0) && n <= PER_DIR
    modifies ft`inodes
    ensures ft.Valid() && |ft.inodes| == |old(ft.inodes)| && ft.inodes[ip].kind.File? && |ft.inodes[dp].ents| == 2 + n
    ensures forall j :: 0 <= j < |ft.inodes| && j != ip && j != dp ==> ft.inodes[j] == old(ft.inodes)[j]
    ensures ft.inodes[ip].ents == old(ft.inodes)[ip].ents && ft.inodes[dp].kind == old(ft.inodes)[dp].kind
    ensures |Refs(ft.inodes, ft.linked, ip)| == old(|Refs(ft.inodes, ft.linked, ip)|) + n
  {
    hide Sound, Refs, Holding, Name;
    var k := 0;
    while k < n
      invariant 0 <= k <= n && ft.Valid() && |ft.inodes| == |old(ft.inodes)|
      invariant ft.inodes[ip].kind.File? && ft.inodes[dp].kind.Directory? && Holding(ft.inodes[dp].ents, ip, k)
      invariant forall j :: 0 <= j < |ft.inodes| && j != ip && j != dp ==> ft.inodes[j] == old(ft.inodes)[j]
      invariant ft.inodes[ip].ents == old(ft.inodes)[ip].ents
      invariant |Refs(ft.inodes, ft.linked, ip)| == old(|Refs(ft.inodes, ft.linked, ip)|) + k
    {
      NextName(ft.inodes[dp].ents, ip, k);
      var r := ft.Link(ip, dp, Name(k), true);
      k := k + 1;
    }
    HoldingSize(ft.inodes[dp].ents, ip, n);
  }

  lemma HoldingSize(ents: seq<Dirent>, ip: nat, n: nat)
    requires Holding(ents, ip, n)
    ensures |ents| == 2 + n
  {
  }

  lemma FreshHolds(t: Table, linked: set<nat>, home: Home, d: nat, ip: nat)
    requires Sound(t, linked, home) && d in linked && d < |t| && |t[d].ents| == 2
    ensures Holding(t[d].ents, ip, 0)
  {
    LinkedDir(t, linked, home, d);
  }

  /** The root has the file `ip` and `q` directories. */
  ghost predicate RootHas(ents: seq<Dirent>, ip: nat, q: nat) {
    && (forall k :: 0 <= k < |ents| ==> ents[k].inum != 0)
    && |ents| == 3 + q && ents[0].name == "." && ents[1].name == ".." && ents[2] == Dirent(ip, "f")
    && forall k :: 3 <= k < 3 + q ==> ents[k].name == Name(k - 3)
  }

  lemma RootNext(ents: seq<Dirent>, ip: nat, q: nat, i: nat)
    requires RootHas(ents, ip, q) && q < 0x1_0000 && i != 0
    ensures CanEnter(ents, Name(q), true) && RootHas(Put(ents, Hole(ents), Dirent(i, Name(q))), ip, q + 1)
  {
    var k := Find(ents, Name(q));
    if k < |ents| {
      assert ents[k].name == Name(q) && |Name(q)| == 4;
      NamesDiffer(k - 3, q);
    }
  }

  /** No directory is larger than a file can be. */
  ghost predicate DirsFit(t: Table) {
    forall d :: 0 <= d < |t| ==> |t[d].ents| <= MAXENTS
  }

  /** Inodes from `n` on are free. */
  ghost predicate FreeAbove(t: Table, n: nat) {
    n < |t| && forall j :: n <= j < |t| ==> t[j].kind.Free?
  }

  lemma FreeAboveFirst(t: Table, n: nat)
    requires FreeAbove(t, n) && n > 0
    ensures 0 < FirstFree(t) <= n
  {
    assert t[n].kind.Free?;
  }

  /** A file with one name, in the root. */
  method OneFile() returns (ft: FileTree, ip: nat)
    ensures fresh(ft) && ft.Valid() && |ft.inodes| == 16 && FreeAbove(ft.inodes, 3) && DirsFit(ft.inodes)
    ensures 1 < ip < 16 && ip !in ft.linked && ft.inodes[ip].kind.File? && ROOT in ft.linked
    ensures ft.inodes[ROOT].kind.Directory?
    ensures RootHas(ft.inodes[ROOT].ents, ip, 0) && |Refs(ft.inodes, ft.linked, ip)| == 1
  {
    ft := new FileTree(16);
    var t := ft.inodes;
    assert t[ROOT].ents[0].name == "." && t[ROOT].ents[1].name == "..";
    FreeAboveFirst(t, 2);
    var r;
    r, ip := ft.Create(ROOT, "f", File, true, true, true);
    OneName(ft.inodes, ft.linked, ft.home, ip);
  }

  lemma OneName(t: Table, linked: set<nat>, home: Home, i: nat)
    requires Sound(t, linked, home) && linked == {ROOT} && 1 < i < |t| && t[i].kind.File?
    requires ROOT < |t| && |t[ROOT].ents| == 3 && t[ROOT].ents[2] == Dirent(i, "f")
    ensures |Refs(t, linked, i)| == 1
  {
    var r := Refs(t, linked, i);
    LinkedDir(t, linked, home, ROOT);
    assert DirOk(t, linked, home, ROOT);
    forall x, y ensures (x, y) in r <==> (x, y) == (ROOT, 2) {
      assert (x, y) in r <==> x in linked && x < |t| && 0 <= y < |t[x].ents| && Names(t[x].ents[y], i);
    }
    assert r == {(ROOT, 2)};
  }

  /** A file with `n` names in directories of at most 8194 entries. */
  method ManyNames(n: nat) returns (ft: FileTree, ip: nat)
    requires 1 <= n <= 0x1_0000
    ensures fresh(ft) && ft.Valid() && DirsFit(ft.inodes) && 0 < ip < |ft.inodes| && ft.inodes[ip].kind.File?
    ensures |Refs(ft.inodes, ft.linked, ip)| == n && ft.inodes[ip].nlink == Short(n)
    ensures ROOT < |ft.inodes| && ft.inodes[ROOT].kind.Directory? && Find(ft.inodes[ROOT].ents, "f") == 2
    ensures |ft.inodes[ROOT].ents| > 2 && ft.inodes[ROOT].ents[2] == Dirent(ip, "f")
  {
    hide Sound, Refs, RootHas, Short, Holding;
    ft, ip := OneFile();
    var q, done := 0, 1;
    while done < n
      invariant fresh(ft) && ft.Valid() && |ft.inodes| == 16 && 1 < ip < 16 && ft.inodes[ip].kind.File?
      invariant ip !in ft.linked
      invariant ROOT in ft.linked && ft.inodes[ROOT].kind.Directory? && RootHas(ft.inodes[ROOT].ents, ip, q)
      invariant DirsFit(ft.inodes) && FreeAbove(ft.inodes, 3 + q) && q <= 8
      invariant |Refs(ft.inodes, ft.linked, ip)| == done <= n && (done < n ==> done == 1 + q * PER_DIR)
    {
      var m := if n - done < PER_DIR then n - done else PER_DIR;
      AddDirectory(ft, ip, q, m);
      q, done := q + 1, done + m;
    }
    CountIs(ft.inodes, ft.linked, ft.home, ip);
    RootSize(ft.inodes[ROOT].ents, ip, q);
    FindIs(ft.inodes[ROOT].ents, "f", 2);
  }

  lemma CountIs(t: Table, linked: set<nat>, home: Home, i: nat)
    requires Sound(t, linked, home) && 0 < i < |t| && !t[i].kind.Free?
    ensures t[i].nlink == Short(|Refs(t, linked, i)|)
  {
    assert CountOk(t, linked, i);
  }

  /** One more directory in the root, with `m` names for the file. */
  method AddDirectory(ft: FileTree, ip: nat, q: nat, m: nat)
    requires ft.Valid() && |ft.inodes| == 16 && 1 < ip < 16 && ft.inodes[ip].kind.File? && ip !in ft.linked
    requires ROOT in ft.linked && ft.inodes[ROOT].kind.Directory? && RootHas(ft.inodes[ROOT].ents, ip, q)
    requires DirsFit(ft.inodes) && FreeAbove(ft.inodes, 3 + q) && q < 8 && m <= PER_DIR
    modifies ft
    ensures ft.Valid() && |ft.inodes| == 16 && ft.inodes[ip].kind.File? && ip !in ft.linked
    ensures ROOT in ft.linked && ft.inodes[ROOT].kind.Directory? && RootHas(ft.inodes[ROOT].ents, ip, q + 1)
    ensures DirsFit(ft.inodes) && FreeAbove(ft.inodes, 4 + q)
    ensures |Refs(ft.inodes, ft.linked, ip)| == old(|Refs(ft.inodes, ft.linked, ip)|) + m
  {
    hide Sound, Refs, RootHas, Short, Holding, Name;
    FreeAboveFirst(ft.inodes, 3 + q);
    FreeIsOther(ft.inodes, ft.linked, ft.home, FirstFree(ft.inodes));
    RootNext(ft.inodes[ROOT].ents, ip, q, FirstFree(ft.inodes));
    RootSize(ft.inodes[ROOT].ents, ip, q);
    ghost var t, linked, home := ft.inodes, ft.linked, ft.home;
    var r, dp := ft.Create(ROOT, Name(q), Directory, true, true, true);
    OtherNames(t, linked, ft.inodes, dp, ROOT, Name(q), ip);
    FreshHolds(ft.inodes, ft.linked, ft.home, dp, ip);
    Fill(ft, ip, dp, m);
  }

  lemma RootSize(ents: seq<Dirent>, ip: nat, q: nat)
    requires RootHas(ents, ip, q)
    ensures |ents| == 3 + q && ents[2] == Dirent(ip, "f") && ents[0].name == "." && ents[1].name == ".." && forall k ::
              0 <= k < |ents| ==> ents[k].inum != 0
  {
  }

  /** A new directory adds no name for a file. */
  lemma OtherNames(t: Table, linked: set<nat>, t': Table, c: nat, d: nat, name: string, ip: nat)
    requires Made(t, t', c, d, name, Directory) && d in linked && c !in linked && ip != c && ip != d && ip != 0
    ensures Refs(t', linked + {c}, ip) == Refs(t, linked, ip)
  {
    var r, r' := Refs(t, linked, ip), Refs(t', linked + {c}, ip);
    forall x, y ensures (x, y) in r' <==> (x, y) in r {
      assert (x, y) in r <==> x in linked && x < |t| && 0 <= y < |t[x].ents| && Names(t[x].ents[y], ip);
      assert (x, y) in r' <==> x in linked + {c} && x < |t'| && 0 <= y < |t'[x].ents| && Names(t'[x].ents[y], ip);
    }
  }

  // ---------------------------------------------------------------- what goes wrong

  /** 32768 names make the link count negative, and then unlink panics. */
  method NegativeCount() returns (ft: FileTree, ip: nat, r: Outcome)
    ensures fresh(ft) && ft.Valid() && DirsFit(ft.inodes) && 0 < ip < |ft.inodes| && ft.inodes[ip].kind.File?
    ensures |Refs(ft.inodes, ft.linked, ip)| == 0x8000 && ft.inodes[ip].nlink == -0x8000 && r == Panics
  {
    hide Refs, Sound;
    ft, ip := ManyNames(0x8000);
    r := ft.Unlink(ROOT, "f");
  }

  /** 65536 names make it 0, and the next iput frees an inode that all of them still name. */
  method FreedWhileNamed() returns (ft: FileTree, ip: nat, ghost before: Table)
    ensures fresh(ft) && !ft.Valid() && DirsFit(before) && 0 < ip < |before| && ft.inodes == before[ip := BLANK]
    ensures Sound(before, ft.linked, ft.home) && before[ip].kind.File? && |Refs(before, ft.linked, ip)| == 0x1_0000
    ensures Refs(ft.inodes, ft.linked, ip) == Refs(before, ft.linked, ip) && ft.inodes[ip].kind.Free?
  {
    hide Refs, Sound;
    ft, ip := ManyNames(0x1_0000);
    before := ft.inodes;
    ft.Reclaim(ip);
    FileNotLinked(before, ft.linked, ft.home, ip);
    RefsSame(before, ft.inodes, ft.linked, ip);
  }

  lemma FileNotLinked(t: Table, linked: set<nat>, home: Home, i: nat)
    requires Sound(t, linked, home) && i < |t| && t[i].kind.File?
    ensures i !in linked
  {
    assert i in linked ==> DirOk(t, linked, home, i);
  }

  /** A directory "d" in the root is made and removed again; a process that has it as its current directory keeps it. */
  method MadeAndRemoved() returns (ft: FileTree, cwd: nat)
    ensures fresh(ft) && ft.Valid() && |ft.inodes| == 16 && FreeAbove(ft.inodes, 3) && 0 < cwd < 16 && cwd !in ft.linked
    ensures ft.inodes[cwd].kind.Directory? && ft.inodes[cwd].ents == [Dirent(cwd, "."), Dirent(ROOT, "..")]
  {
    hide Sound, Refs;
    ft := new FileTree(16);
    ghost var t := ft.inodes;
    assert t[ROOT].ents[0].name == "." && t[ROOT].ents[1].name == "..";
    FreeAboveFirst(t, 2);
    var r, d := ft.Create(ROOT, "d", Directory, true, true, true);
    ghost var u := ft.inodes;
    assert Find(u[ROOT].ents, "d") == 2;
    CountRunOver(u, ft.linked, ft.home, d);
    var x := ft.Unlink(ROOT, "d");
    cwd := d;
  }

  /** A process removes its current directory and creates a file in it: the file has a link, and no directory that can
      be reached names it. */
  method CreatedInRemoved() returns (ft: FileTree, ip: nat)
    ensures fresh(ft) && !ft.Valid() && 0 < ip < |ft.inodes|
    ensures ft.inodes[ip] == Inode(File, 1, []) && Refs(ft.inodes, ft.linked, ip) == {}
  {
    hide Sound, Refs;
    var cwd;
    ft, cwd := MadeAndRemoved();
    ghost var t, linked := ft.inodes, ft.linked;
    FreeAboveFirst(t, 3);
    FreeIsOther(t, ft.linked, ft.home, FirstFree(t));
    assert Find(t[cwd].ents, "f") == 2;
    var r;
    r, ip := ft.Create(cwd, "f", File, true, true, true);
    assert ft.linked == linked;
    RefsSame(t, ft.inodes, ft.linked, ip);
  }

  lemma FindIs(ents: seq<Dirent>, name: string, k: nat)
    requires k < |ents| && ents[k].inum != 0 && ents[k].name == name
    requires forall j :: 0 <= j < k ==> ents[j].inum == 0 || ents[j].name != name
    ensures Find(ents, name) == k
  {
  }

  /** A directory "d" in the root with a directory "e" in it. */
  method TwoDirectories() returns (ft: FileTree, d: nat, e: nat)
    ensures fresh(ft) && ft.Valid() && |ft.inodes| == 16 && 1 < d < 16 && 1 < e < 16 && d != e && d in ft.linked
    ensures e in ft.linked
    ensures ft.inodes[ROOT].kind.Directory? && ROOT in ft.linked
    ensures ft.inodes[ROOT].ents == [Dirent(ROOT, "."), Dirent(ROOT, ".."), Dirent(d, "d")]
    ensures ft.inodes[d].kind.Directory? && ft.inodes[d].ents == [Dirent(d, "."), Dirent(ROOT, ".."), Dirent(e, "e")]
    ensures ft.inodes[e].kind.Directory? && ft.inodes[e].ents == [Dirent(e, "."), Dirent(d, "..")]
    ensures ft.inodes[d].nlink == 2 && ft.inodes[e].nlink == 1
  {
    hide Sound, Refs;
    ft := new FileTree(16);
    ghost var t := ft.inodes;
    assert t[ROOT].ents[0].name == "." && t[ROOT].ents[1].name == "..";
    FreeAboveFirst(t, 2);
    var r;
    r, d := ft.Create(ROOT, "d", Directory, true, true, true);
    t := ft.inodes;
    FreeAboveFirst(t, 3);
    assert Find(t[d].ents, "e") == 2;
    r, e := ft.Create(d, "e", Directory, true, true, true);
    ShortIs(2);
  }

  /** Both are removed, the inner one first; a process has it as its current directory, nobody refers to the outer
      one. */
  method BothRemoved() returns (ft: FileTree, d: nat, e: nat)
    ensures fresh(ft) && ft.Valid() && |ft.inodes| == 16 && 1 < d < 16 && 1 < e < 16 && d != e && e !in ft.linked
    ensures ft.inodes[d] == BLANK && ft.inodes[e].kind.Directory?
    ensures ft.inodes[e].ents == [Dirent(e, "."), Dirent(d, "..")]
  {
    hide Sound, Refs, RunOver;
    ft, d, e := TwoDirectories();
    ghost var t := ft.inodes;
    FindIs(t[d].ents, "e", 2);
    CountRunOver(t, ft.linked, ft.home, e);
    var x := ft.Unlink(d, "e");
    DropOuter(ft, d, e);
  }

  lemma EmptyHasOneLink(t: Table, linked: set<nat>, home: Home, d: nat, k: nat)
    requires Sound(t, linked, home) && d in linked && d < |t| && 2 <= k < |t[d].ents|
    requires var c := t[d].ents[k].inum; 0 < c < |t| && t[c].kind.Directory? && Removable(t[c])
    ensures t[t[d].ents[k].inum].nlink == 1
  {
    hide Sound, Refs, Short;
    DirGone(t, linked, home, d, k);
  }

  method DropOuter(ft: FileTree, d: nat, e: nat)
    requires ft.Valid() && |ft.inodes| == 16 && 1 < d < 16 && 1 < e < 16 && d != e && d in ft.linked && e !in ft.linked
    requires ft.inodes[ROOT].kind.Directory? && ROOT in ft.linked && ft.inodes[d].kind.Directory?
    requires Removable(ft.inodes[d])
    requires ft.inodes[ROOT].ents == [Dirent(ROOT, "."), Dirent(ROOT, ".."), Dirent(d, "d")]
    modifies ft
    ensures ft.Valid() && |ft.inodes| == 16 && ft.inodes[d] == BLANK && e !in ft.linked
    ensures ft.inodes[e].kind == old(ft.inodes)[e].kind && ft.inodes[e].ents == old(ft.inodes)[e].ents
  {
    hide Sound, Refs, RunOver, Short, Find, WithEntry, WithCount;
    ghost var t := ft.inodes;
    FindIs(t[ROOT].ents, "d", 2);
    EmptyHasOneLink(t, ft.linked, ft.home, ROOT, 2);
    CountRunOver(t, ft.linked, ft.home, d);
    var x := ft.Unlink(ROOT, "d");
    LinkedSeen(ft.inodes, ft.linked, ft.home, d);
    ft.Reclaim(d);
  }

  /** Then ".." of the current directory names a free inode, and creating it, or linking to it, panics. */
  method ParentGone() returns (r: Creation, x: Outcome)
    ensures r == Panicked && x == Panics
  {
    hide Sound, Refs;
    var ft, d, e := BothRemoved();
    FindIs(ft.inodes[e].ents, "..", 1);
    var ip, _ := ft.Dirlookup(e, "..");
    x := ft.Link(ip, e, "x", true);
    r, ip := ft.Create(e, "..", File, true, true, true);
  }
}
