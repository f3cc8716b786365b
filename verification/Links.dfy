/** link, unlink and create (kernel/sysfile.c) with the directory operations they use (kernel/fs.c). Path names are
    already resolved: `dp` is the parent directory that nameiparent found, 0 if it found none. */
module Links {
  import opened LinkState

  datatype Outcome = Done | Failed | Panics

  datatype Creation = Created | Found | Refused | Panicked

  class FileTree {
    var inodes: Table
    /** Directories that can be reached from the root by names; see `LinkState.Reachable`. */
    ghost var linked: set<nat>
    ghost var home: Home

    ghost predicate Valid()
      reads this
    {
      Sound(inodes, linked, home)
    }

    /** An image with the root directory only. */
    constructor (ninodes: nat)
      requires ninodes > ROOT
      ensures Valid() && linked == {ROOT} && inodes == RootOnly(ninodes)
    {
      inodes := RootOnly(ninodes);
      linked, home := {ROOT}, map[];
      new;
      FirstTree(inodes);
    }

    /** dirlookup: the first entry with the name; inode 0 if there is none. */
    method Dirlookup(dp: nat, name: string) returns (inum: nat, off: nat)
      requires dp < |inodes| && inodes[dp].kind.Directory?
      ensures off == Find(inodes[dp].ents, name)
      ensures inum == if off < |inodes[dp].ents| then inodes[dp].ents[off].inum else 0
      ensures inum == 0 <==> off == |inodes[dp].ents|
    {
      off := 0;
      while off < |inodes[dp].ents|
        invariant off <= |inodes[dp].ents|
        invariant forall k :: 0 <= k < off ==> inodes[dp].ents[k].inum == 0 || inodes[dp].ents[k].name != name
      {
        var de := inodes[dp].ents[off];
        if de.inum != 0 && de.name == name {
          return de.inum, off;
        }
        off := off + 1;
      }
      inum := 0;
    }

    /** dirlink. A new entry at the end needs space; an empty slot does not. */
    method Dirlink(dp: nat, name: string, inum: nat, space: bool) returns (r: int)
      requires dp < |inodes| && inodes[dp].kind.Directory?
      modifies this`inodes
      ensures r == if CanEnter(old(inodes)[dp].ents, name, space) then 0 else -1
      ensures r == -1 ==> inodes == old(inodes)
      ensures r == 0 ==> inodes == WithEntry(old(inodes), dp, Hole(old(inodes)[dp].ents), Dirent(inum, name))
    {
      var other, _ := Dirlookup(dp, name);
      if other != 0 {
        return -1;
      }
      var at := 0;
      while at < |inodes[dp].ents|
        invariant at <= |inodes[dp].ents| && inodes == old(inodes)
        invariant forall k :: 0 <= k < at ==> inodes[dp].ents[k].inum != 0
      {
        if inodes[dp].ents[at].inum == 0 {
          break;
        }
        at := at + 1;
      }
      if at == |inodes[dp].ents| && !space {
        return -1;
      }
      inodes := WithEntry(inodes, dp, at, Dirent(inum, name));
      return 0;
    }

    method IsDirEmpty(d: nat) returns (r: bool)
      requires d < |inodes|
      ensures r <==> forall k :: 2 <= k < |inodes[d].ents| ==> inodes[d].ents[k].inum == 0
    {
      var off := 2;
      while off < |inodes[d].ents|
        invariant 2 <= off && forall k :: 2 <= k < off && k < |inodes[d].ents| ==> inodes[d].ents[k].inum == 0
      {
        if inodes[d].ents[off].inum != 0 {
          return false;
        }
        off := off + 1;
      }
      r := true;
    }

    /** ialloc: the first free inode gets its type; 0 if there is none. */
    method Ialloc(kind: Kind) returns (i: nat)
      requires Valid() && !kind.Free?
      modifies this`inodes
      ensures Valid() && i < |inodes| == |old(inodes)|
      ensures i == FirstFree(old(inodes))
      ensures i == 0 ==> inodes == old(inodes)
      ensures i != 0 ==> inodes == old(inodes)[i := Inode(kind, 0, [])] && i !in linked && Refs(inodes, linked, i) == {}
    {
      hide Sound, Refs;
      HasRoot(inodes, linked, home);
      i := 1;
      while i < |inodes|
        invariant 1 <= i <= |inodes| && inodes == old(inodes) && forall j :: 0 < j < i ==> !inodes[j].kind.Free?
      {
        if inodes[i].kind.Free? {
          FirstFreeIs(inodes, i);
          FreeIsOther(inodes, linked, home, i);
          SoundOther(inodes, linked, home, i, Inode(kind, 0, []));
          RefsSame(inodes, inodes[i := Inode(kind, 0, [])], linked, i);
          inodes := inodes[i := Inode(kind, 0, [])];
          return;
        }
        i := i + 1;
      }
      FirstFreeIs(inodes, 0);
      i := 0;
    }

    /** sys_link of inode `ip`, 0 if the old path names none. ".." of a removed directory may name a free inode, and
        then ilock panics. A name in a directory that has been removed, as the current directory of a process may be,
        spoils the link count. */
    method Link(ip: nat, dp: nat, name: string, space: bool) returns (r: Outcome)
      requires Valid() && ip < |inodes| && IsParent(inodes, dp)
      modifies this`inodes
      ensures r == Panics <==> ip != 0 && old(inodes)[ip].kind.Free?
      ensures r == Done <==>
                && ip != 0 && (old(inodes)[ip].kind.File? || old(inodes)[ip].kind.Device?)
                && dp != 0 && CanEnter(old(inodes)[dp].ents, name, space)
      ensures r != Done ==> inodes == old(inodes)
      ensures r == Done ==> inodes == Linking(old(inodes), ip, dp, name)
      ensures Valid() <==> r != Done || dp in linked
      ensures r == Done && dp in linked ==>
                var x := (dp, Hole(old(inodes)[dp].ents));
                x !in old(Refs(inodes, linked, ip)) && Refs(inodes, linked, ip) == old(Refs(inodes, linked, ip)) + {x}
    {
      hide Sound, Refs;
      if ip == 0 {
        return Failed;
      }
      if inodes[ip].kind.Free? {
        return Panics;
      }
      if inodes[ip].kind.Directory? {
        return Failed;
      }
      ghost var t := inodes;
      inodes := WithCount(inodes, ip, Short(inodes[ip].nlink + 1));
      if dp != 0 {
        var done := Dirlink(dp, name, ip, space);
        if done == 0 {
          if dp in linked {
            NameAdded(t, linked, home, ip, dp, name);
          } else {
            StrayName(t, linked, home, ip, dp, name);
          }
          return Done;
        }
      }
      BackAgain(t, linked, home, ip);
      inodes := WithCount(inodes, ip, Short(inodes[ip].nlink - 1));
      return Failed;
    }

    /** sys_unlink. It panics exactly when the link count of the named inode has run over. */
    method Unlink(dp: nat, name: string) returns (r: Outcome)
      requires Valid() && IsParent(inodes, dp)
      modifies this`inodes, this`linked, this`home
      ensures Valid()
      ensures old(Targets(inodes, dp, name)) <==>
                && dp != 0 && name != "." && name != ".."
                && exists k ::
                     var e := old(inodes)[dp].ents; 0 <= k < |e| && e[k].inum != 0 && e[k].name == name
      ensures r == Panics <==>
                old(Targets(inodes, dp, name) && RunOver(|Refs(inodes, linked, Target(inodes, dp, name))|))
      ensures r == Done <==> old(
                && Targets(inodes, dp, name) && !RunOver(|Refs(inodes, linked, Target(inodes, dp, name))|)
                && var q := inodes[Target(inodes, dp, name)];
                   q.kind.Directory? ==> forall k :: 2 <= k < |q.ents| ==> q.ents[k].inum == 0)
      ensures r != Done ==> inodes == old(inodes) && linked == old(linked) && home == old(home)
      ensures r == Done ==> Unlinked(old(inodes), inodes, dp, Find(old(inodes)[dp].ents, name))
      ensures r == Done ==>
                && linked ==
                      old(linked) - (if old(inodes[Target(inodes, dp, name)].kind.Directory?)
                      then old({Target(inodes, dp, name)}) else {})
                && Refs(inodes, linked, old(Target(inodes, dp, name))) ==
                   old(Refs(inodes, linked, Target(inodes, dp, name))) - {(dp, Find(old(inodes)[dp].ents, name))}
    {
      hide Sound, Refs, Short, Find, RunOver;
      if dp == 0 {
        return Failed;
      }
      if name == "." || name == ".." {
        return Failed;
      }
      var ip, off := Dirlookup(dp, name);
      if ip == 0 {
        return Failed;
      }
      NotHollow(inodes, linked, home, dp, off);
      LinkedDir(inodes, linked, home, dp);
      Entry(inodes, linked, home, dp, off);
      CountRunOver(inodes, linked, home, ip);
      if inodes[ip].nlink < 1 {
        return Panics;
      }
      ghost var t := inodes;
      if inodes[ip].kind.Directory? {
        var empty := IsDirEmpty(ip);
        if !empty {
          return Failed;
        }
        DirGone(t, linked, home, dp, off);
        linked, home := linked - {ip}, home - {ip};
      } else {
        NameGone(t, linked, home, dp, off);
      }
      inodes := WithEntry(inodes, dp, off, Dirent(0, ""));
      if inodes[ip].kind.Directory? {
        inodes := WithCount(inodes, dp, Short(inodes[dp].nlink - 1));
      }
      ZeroShort();
      inodes := WithCount(inodes, ip, Short(inodes[ip].nlink - 1));
      return Done;
    }

    /** The entries "." and ".." of a new directory. */
    method MakeDots(ip: nat, dp: nat, dot: bool, dotdot: bool) returns (ok: bool)
      requires ip < |inodes| && inodes[ip].kind.Directory? && inodes[ip].ents == [] && ip != 0
      modifies this`inodes
      ensures ok == (dot && dotdot)
      ensures |inodes| == |old(inodes)| && inodes == old(inodes)[ip := inodes[ip]] && inodes[ip].kind.Directory?
      ensures ok ==> inodes[ip] == old(inodes)[ip].(ents := [Dirent(ip, "."), Dirent(dp, "..")])
    {
      var r := Dirlink(ip, ".", ip, dot);
      if r < 0 {
        return false;
      }
      assert inodes[ip].ents == [Dirent(ip, ".")];
      r := Dirlink(ip, "..", dp, dotdot);
      if r < 0 {
        return false;
      }
      return true;
    }

    /** create after ialloc: the new inode gets its first link and its name, or is freed again. */
    method Enter(ip: nat, dp: nat, name: string, dot: bool, dotdot: bool, space: bool) returns (made: bool)
      requires Valid() && 0 < ip < |inodes| && dp != 0 && ip != dp && IsParent(inodes, dp)
      requires ip !in linked && Refs(inodes, linked, ip) == {}
      requires inodes[ip] == Inode(inodes[ip].kind, 0, []) && !inodes[ip].kind.Free?
      modifies this`inodes, this`linked, this`home
      ensures made ==
                (CanEnter(old(inodes)[dp].ents, name, space) && (old(inodes)[ip].kind.Directory? ==> dot && dotdot))
      ensures !made ==> inodes == old(inodes)[ip := BLANK] && linked == old(linked) && home == old(home)
      ensures made ==> Made(old(inodes)[ip := BLANK], inodes, ip, dp, name, old(inodes)[ip].kind)
      ensures made ==> (Valid() <==> dp in old(linked))
      ensures made ==>
                linked == old(linked) + (if dp in old(linked) && old(inodes)[ip].kind.Directory? then {ip} else {})
    {
      hide Sound, Refs, Short, Find, Hole;
      ghost var t := inodes;
      inodes := WithCount(inodes, ip, 1);
      var ok := true;
      if inodes[ip].kind.Directory? {
        ok := MakeDots(ip, dp, dot, dotdot);
      }
      if ok {
        var r := Dirlink(dp, name, ip, space);
        if r == 0 {
          if inodes[ip].kind.Directory? {
            inodes := WithCount(inodes, dp, Short(inodes[dp].nlink + 1));
          }
          if dp !in linked {
            StrayInode(t, inodes, linked, home, ip);
          } else if inodes[ip].kind.Directory? {
            NewDirectory(t, inodes, linked, home, dp, ip, name);
            linked, home := linked + {ip}, home[ip := Place(dp, Hole(t[dp].ents), Depth(home, dp) + 1)];
          } else {
            ZeroShort();
            NameAdded(t, linked, home, ip, dp, name);
          }
          return true;
        }
      }
      inodes := WithCount(inodes, ip, 0);
      // iunlockput: nobody else refers to the inode, so it is freed
      inodes := inodes[ip := BLANK];
      return false;
    }

    /** create. `dot`, `dotdot` and `space` say whether there is space for the three entries. An inode created in a
        directory that has been removed keeps a link for ever. */
    method Create(dp: nat, name: string, kind: Kind, dot: bool, dotdot: bool, space: bool)
        returns (r: Creation, ip: nat)
      requires Valid() && IsParent(inodes, dp) && !kind.Free?
      modifies this`inodes, this`linked, this`home
      ensures r == Created <==>
                && dp != 0 && CanEnter(old(inodes)[dp].ents, name, space) && (kind.Directory? ==> dot && dotdot)
                && exists j :: 0 < j < |old(inodes)| && old(inodes)[j].kind.Free?
      ensures r == Found <==>
                dp != 0 && kind.File? && exists i: nat ::
                  Finds(old(inodes), dp, name, i) && (old(inodes)[i].kind.File? || old(inodes)[i].kind.Device?)
      ensures r == Panicked <==> dp != 0 && exists i: nat ::
                Finds(old(inodes), dp, name, i) && old(inodes)[i].kind.Free?
      ensures r != Created ==> inodes == old(inodes) && linked == old(linked) && home == old(home)
      ensures r == Found ==> Finds(inodes, dp, name, ip)
      ensures r == Panicked ==> dp !in linked && name == ".."
      ensures r == Created ==> ip == FirstFree(old(inodes)) && Made(old(inodes), inodes, ip, dp, name, kind)
      ensures Valid() <==> r != Created || dp in old(linked)
      ensures r == Created ==> linked == old(linked) + if dp in old(linked) && kind.Directory? then {ip} else {}
    {
      hide Sound, Refs, Made;
      if dp == 0 {
        return Refused, 0;
      }
      var found, off := Dirlookup(dp, name);
      if found != 0 {
        EntryInRange(inodes, linked, home, dp, off);
        if inodes[found].kind.Free? {
          return Panicked, 0;
        }
        if kind.File? && (inodes[found].kind.File? || inodes[found].kind.Device?) {
          return Found, found;
        }
        return Refused, 0;
      }
      ip := Ialloc(kind);
      if ip == 0 {
        return Refused, 0;
      }
      FreeBlank(old(inodes), linked, home, ip);
      assert inodes[ip := BLANK] == old(inodes);
      var entered := Enter(ip, dp, name, dot, dotdot, space);
      if entered {
        return Created, ip;
      }
      return Refused, 0;
    }

    /** The end of iput for the last reference to an inode: it is freed if its link count is 0. That leaves the file
        tree intact unless 65536 names, or a multiple of that, have made the count 0. */
    method Reclaim(ip: nat)
      requires Valid() && 0 < ip < |inodes| && !inodes[ip].kind.Free?
      modifies this`inodes
      ensures inodes == if |Refs(old(inodes), linked, ip)| % 0x1_0000 == 0 then old(inodes)[ip := BLANK]
                else old(inodes)
      ensures Valid() <==> Refs(old(inodes), linked, ip) == {} || |Refs(old(inodes), linked, ip)| % 0x1_0000 != 0
    {
      hide Sound, Refs;
      CountIsExact(inodes, linked, home, ip);
      if inodes[ip].nlink == 0 {
        if Refs(inodes, linked, ip) == {} {
          UnnamedUnlinked(inodes, linked, home, ip);
          SoundOther(inodes, linked, home, ip, BLANK);
        } else {
          FreedInUse(inodes, linked, home, ip);
        }
        inodes := inodes[ip := BLANK];
      }
    }
  }

  // ---------------------------------------------------------------- what the operations promise

  /** nameiparent found no parent, or a directory, which may have been removed. */
  predicate IsParent(t: Table, dp: nat) {
    dp != 0 ==> dp < |t| && t[dp].kind.Directory?
  }

  /** The name is new and there is an empty entry, or space for one more. */
  ghost predicate CanEnter(ents: seq<Dirent>, name: string, space: bool) {
    && (forall k :: 0 <= k < |ents| && ents[k].inum != 0 ==> ents[k].name != name)
    && (space || exists k :: 0 <= k < |ents| && ents[k].inum == 0)
  }

  function Linking(t: Table, ip: nat, dp: nat, name: string): Table
    requires ip < |t| && dp < |t|
  {
    WithEntry(WithCount(t, ip, Short(t[ip].nlink + 1)), dp, Hole(t[dp].ents), Dirent(ip, name))
  }

  /** There is an entry to remove. */
  predicate Targets(t: Table, dp: nat, name: string)
    requires IsParent(t, dp)
  {
    dp != 0 && name != "." && name != ".." && Find(t[dp].ents, name) < |t[dp].ents|
    && t[dp].ents[Find(t[dp].ents, name)].inum < |t|
  }

  function Target(t: Table, dp: nat, name: string): nat
    requires IsParent(t, dp) && Targets(t, dp, name)
  {
    t[dp].ents[Find(t[dp].ents, name)].inum
  }

  /** The 16-bit count for `n` names is below 1. */
  predicate RunOver(n: nat) {
    n % 0x1_0000 == 0 || n % 0x1_0000 >= 0x8000
  }

  predicate Removable(q: Inode) {
    q.kind.Directory? ==> forall k :: 2 <= k < |q.ents| ==> q.ents[k].inum == 0
  }

  /** Entry `k` of directory `dp` is empty; no other entry and no kind has changed. */
  ghost predicate Unlinked(t: Table, t': Table, dp: nat, k: nat) {
    && |t'| == |t| && dp < |t| && 2 <= k < |t[dp].ents|
    && forall j :: 0 <= j < |t| ==>
         t'[j].kind == t[j].kind && t'[j].ents == if j == dp then t[dp].ents[k := Dirent(0, "")] else t[j].ents
  }

  /** The free inode `ip` has become a `kind` with one link, named `name` in directory `dp`; nothing else has
      changed. */
  ghost predicate Made(t: Table, t': Table, ip: nat, dp: nat, name: string, kind: Kind) {
    && |t'| == |t| && 0 < ip < |t| && 0 < dp < |t| && ip != dp && t[ip].kind.Free?
    && t'[ip] == Inode(kind, 1, if kind.Directory? then [Dirent(ip, "."), Dirent(dp, "..")] else [])
    && t'[dp].kind == t[dp].kind && t'[dp].ents == Put(t[dp].ents, Hole(t[dp].ents), Dirent(ip, name))
    && t'[dp].nlink == (if kind.Directory? then Short(t[dp].nlink + 1) else t[dp].nlink)
    && forall j :: 0 <= j < |t| && j != ip && j != dp ==> t'[j] == t[j]
  }

  /** The first entry of directory `dp` with the name stands for inode `i`. */
  ghost predicate Finds(t: Table, dp: nat, name: string, i: nat) {
    && dp < |t| && 0 < i < |t|
    && exists k :: 0 <= k < |t[dp].ents| && t[dp].ents[k] == Dirent(i, name) && Unnamed(t[dp].ents, name, k)
  }

  /** No entry before position `n` has the name. */
  ghost predicate Unnamed(ents: seq<Dirent>, name: string, n: nat) {
    forall j :: 0 <= j < n && j < |ents| && ents[j].inum != 0 ==> ents[j].name != name
  }

  /** The first free inode; 0 if there is none. */
  function FirstFree(t: Table): (i: nat)
    ensures i != 0 ==> i < |t| && t[i].kind.Free? && forall j :: 0 < j < i ==> !t[j].kind.Free?
    ensures i == 0 ==> forall j :: 0 < j < |t| ==> !t[j].kind.Free?
  {
    FreeFrom(t, 1)
  }

  function FreeFrom(t: Table, n: nat): (i: nat)
    requires n > 0
    ensures i != 0 ==> n <= i < |t| && t[i].kind.Free? && forall j :: n <= j < i ==> !t[j].kind.Free?
    ensures i == 0 ==> forall j :: n <= j < |t| ==> !t[j].kind.Free?
    decreases |t| - n
  {
    if n >= |t| then 0 else if t[n].kind.Free? then n else FreeFrom(t, n + 1)
  }

  lemma FirstFreeIs(t: Table, i: nat)
    requires (i == 0 && forall j :: 0 < j < |t| ==> !t[j].kind.Free?) ||
             (0 < i < |t| && t[i].kind.Free? && forall j :: 0 < j < i ==> !t[j].kind.Free?)
    ensures i == FirstFree(t)
  {
  }

  // ---------------------------------------------------------------- removed directories

  /** What dirlookup finds in a directory under another name than "." and "..": the directory is linked. */
  lemma NotHollow(t: Table, linked: set<nat>, home: Home, d: nat, k: nat)
    requires Sound(t, linked, home) && 0 < d < |t| && t[d].kind.Directory? && k < |t[d].ents| && t[d].ents[k].inum != 0
    requires t[d].ents[k].name != "." && t[d].ents[k].name != ".."
    ensures d in linked
  {
  }

  /** A name in a directory that is not linked, and one link more. */
  lemma StrayName(t: Table, linked: set<nat>, home: Home, ip: nat, dp: nat, name: string)
    requires Sound(t, linked, home) && 0 < ip < |t| && !t[ip].kind.Free? && dp < |t| && dp !in linked
    ensures !Sound(Linking(t, ip, dp, name), linked, home)
  {
    hide Refs, Short;
    var t' := Linking(t, ip, dp, name);
    assert CountOk(t, linked, ip);
    RefsSame(t, t', linked, ip);
    ShortStep(|Refs(t, linked, ip)|);
    ShortMoves(|Refs(t, linked, ip)|);
    assert Sound(t', linked, home) ==> CountOk(t', linked, ip);
  }

  lemma ShortMoves(n: nat)
    ensures Short(n + 1) != Short(n)
  {
    ShortMod(n + 0x8000, 1);
  }

  /** An inode with a link that no entry of a linked directory names. */
  lemma StrayInode(t: Table, t': Table, linked: set<nat>, home: Home, ip: nat)
    requires |t'| == |t| && 0 < ip < |t| && Refs(t, linked, ip) == {} && !t'[ip].kind.Free? && t'[ip].nlink == 1
    requires forall d :: d in linked && d < |t| ==> t'[d].ents == t[d].ents
    ensures !Sound(t', linked, home)
  {
    hide Refs;
    RefsSame(t, t', linked, ip);
    ZeroShort();
    assert Sound(t', linked, home) ==> CountOk(t', linked, ip);
  }

  /** Whatever dirlookup finds in a linked directory, or under a real name, is an inode. */
  lemma EntryInRange(t: Table, linked: set<nat>, home: Home, d: nat, k: nat)
    requires Sound(t, linked, home) && 0 < d < |t| && t[d].kind.Directory? && k < |t[d].ents| && t[d].ents[k].inum != 0
    ensures t[d].ents[k].inum < |t| && (t[t[d].ents[k].inum].kind.Free? ==> d !in linked && t[d].ents[k].name == "..")
  {
    if d in linked {
      assert DirOk(t, linked, home, d);
      assert DirOk(t, linked, home, t[d].ents[1].inum);
      assert k >= 2 ==> EntryOk(t, linked, home, d, k, t[d].ents[k]);
    } else {
      assert Hollow(t[d].ents, d, |t|);
    }
  }

  // ---------------------------------------------------------------- names

  /** The new name goes after "." and "..". */
  lemma NameAdded(t: Table, linked: set<nat>, home: Home, ip: nat, dp: nat, name: string)
    requires Sound(t, linked, home) && 0 < ip < |t| && (t[ip].kind.File? || t[ip].kind.Device?)
    requires dp in linked && dp < |t| && Find(t[dp].ents, name) == |t[dp].ents|
    ensures Sound(Linking(t, ip, dp, name), linked, home)
    ensures (dp, Hole(t[dp].ents)) !in Refs(t, linked, ip)
    ensures Refs(Linking(t, ip, dp, name), linked, ip) == Refs(t, linked, ip) + {(dp, Hole(t[dp].ents))}
  {
    hide Sound, Refs, Short;
    var k := Hole(t[dp].ents);
    SlotAfter(t, linked, home, dp, name);
    AddName(t, linked, home, dp, k, Dirent(ip, name));
    var t1 := WithCount(t, ip, Short(t[ip].nlink + 1));
    RefsSame(t, t1, linked, ip);
    RefsPut(t1, linked, dp, k, Dirent(ip, name), ip);
    NotThere(t, linked, dp, k, ip);
  }

  /** A file loses the name at entry `k` of directory `d`. */
  lemma NameGone(t: Table, linked: set<nat>, home: Home, d: nat, k: nat)
    requires Sound(t, linked, home) && d in linked && d < |t| && 2 <= k < |t[d].ents|
    requires var i := t[d].ents[k].inum; 0 < i < |t| && (t[i].kind.File? || t[i].kind.Device?)
    ensures
      var i := t[d].ents[k].inum;
      var t' := WithCount(WithEntry(t, d, k, Dirent(0, "")), i, Short(t[i].nlink - 1));
      Sound(t', linked, home) && Refs(t', linked, i) == Refs(t, linked, i) - {(d, k)}
  {
    hide Sound, Refs, Short;
    var i := t[d].ents[k].inum;
    DropName(t, linked, home, d, k);
    RefsPut(t, linked, d, k, Dirent(0, ""), i);
    var t1 := WithEntry(t, d, k, Dirent(0, ""));
    RefsSame(t1, WithCount(t1, i, Short(t[i].nlink - 1)), linked, i);
  }

  lemma CountRunOver(t: Table, linked: set<nat>, home: Home, i: nat)
    requires Sound(t, linked, home) && 0 < i < |t| && !t[i].kind.Free?
    ensures t[i].nlink < 1 <==> RunOver(|Refs(t, linked, i)|)
  {
    hide Sound, Refs;
    CountIsExact(t, linked, home, i);
  }

  /** An empty directory loses its name. */
  lemma DirGone(t: Table, linked: set<nat>, home: Home, d: nat, k: nat)
    requires Sound(t, linked, home) && d in linked && d < |t| && 2 <= k < |t[d].ents|
    requires var c := t[d].ents[k].inum; 0 < c < |t| && t[c].kind.Directory? && Removable(t[c])
    ensures
      var c := t[d].ents[k].inum;
      var t' := WithCount(WithCount(WithEntry(t, d, k, Dirent(0, "")), d, Short(t[d].nlink - 1)), c, 0);
      && t[c].nlink == 1 && c != d && c in linked
      && Sound(t', linked - {c}, home - {c}) && Refs(t', linked - {c}, c) == Refs(t, linked, c) - {(d, k)}
  {
    hide Refs, Short;
    var c := t[d].ents[k].inum;
    DropDir(t, linked, home, d, k);
    DirNamed(t, linked, home, d, k);
    EmptyRefs(t, linked, home, c);
    var t' := WithCount(WithCount(WithEntry(t, d, k, Dirent(0, "")), d, Short(t[d].nlink - 1)), c, 0);
    UnlinkedUnnamed(t', linked - {c}, home - {c}, c);
  }

  lemma UnnamedUnlinked(t: Table, linked: set<nat>, home: Home, i: nat)
    requires Sound(t, linked, home) && 0 < i < |t| && Refs(t, linked, i) == {}
    ensures i !in linked
  {
    hide Refs;
    if i in linked {
      assert DirOk(t, linked, home, i);
      LinkedSeen(t, linked, home, i);
    }
  }

  /** A free inode that an entry still names. */
  lemma FreedInUse(t: Table, linked: set<nat>, home: Home, i: nat)
    requires Sound(t, linked, home) && 0 < i < |t| && Refs(t, linked, i) != {}
    ensures !Sound(t[i := BLANK], linked, home)
  {
    var t' := t[i := BLANK];
    var x :| x in Refs(t, linked, i);
    if i in linked {
      assert Sound(t', linked, home) ==> DirOk(t', linked, home, i);
    } else {
      RefsSame(t, t', linked, i);
      assert Sound(t', linked, home) ==> CountOk(t', linked, i);
    }
  }

  function RootOnly(ninodes: nat): (t: Table)
    ensures |t| == ninodes
    ensures forall i :: 0 <= i < |t| ==>
              t[i] == if i == ROOT then Inode(Directory, 1, [Dirent(ROOT, "."), Dirent(ROOT, "..")]) else BLANK
  {
    seq(ninodes, i => if i == ROOT then Inode(Directory, 1, [Dirent(ROOT, "."), Dirent(ROOT, "..")]) else BLANK)
  }

  lemma FirstTree(t: Table)
    requires |t| > ROOT && t == RootOnly(|t|)
    ensures Sound(t, {ROOT}, map[])
  {
    assert DirOk(t, {ROOT}, map[], ROOT);
    forall i | 0 < i < |t| ensures CountOk(t, {ROOT}, i) {
      var r := Refs(t, {ROOT}, i);
      forall x, y ensures (x, y) in r <==> i == ROOT && (x, y) == (ROOT, 1) {
        assert (x, y) in r <==> x in {ROOT} && x < |t| && 0 <= y < |t[x].ents| && Names(t[x].ents[y], i);
      }
      if i == ROOT {
        assert r == {(ROOT, 1)};
        ShortIs(1);
      } else {
        assert r == {};
      }
    }
  }

  lemma HasRoot(t: Table, linked: set<nat>, home: Home)
    requires Sound(t, linked, home)
    ensures |t| > ROOT
  {
    LinkedDir(t, linked, home, ROOT);
  }

  /** The name is new in a linked directory, so it is neither "." nor "..", and it goes after these two. */
  lemma SlotAfter(t: Table, linked: set<nat>, home: Home, d: nat, name: string)
    requires Sound(t, linked, home) && d in linked && d < |t| && Find(t[d].ents, name) == |t[d].ents|
    ensures 2 <= Hole(t[d].ents) && name != "." && name != ".."
  {
    hide Sound;
    LinkedDir(t, linked, home, d);
    assert t[d].ents[0].name != name && t[d].ents[1].name != name;
  }

  /** Taking the additional link back. */
  lemma BackAgain(t: Table, linked: set<nat>, home: Home, i: nat)
    requires Sound(t, linked, home) && 0 < i < |t| && !t[i].kind.Free?
    ensures Short(Short(t[i].nlink + 1) - 1) == t[i].nlink
    ensures WithCount(WithCount(t, i, Short(t[i].nlink + 1)), i, t[i].nlink) == t
  {
    assert CountOk(t, linked, i);
    var n := |Refs(t, linked, i)|;
    ShortStep(n);
    ShortStep(n + 1);
  }

  /** What an entry that dirlookup has found by another name than "." and ".." stands for. */
  lemma Entry(t: Table, linked: set<nat>, home: Home, d: nat, k: nat)
    requires Sound(t, linked, home) && d in linked && d < |t| && k < |t[d].ents| && t[d].ents[k].inum != 0
    requires t[d].ents[k].name != "." && t[d].ents[k].name != ".."
    ensures 2 <= k && 0 < t[d].ents[k].inum < |t| && !t[t[d].ents[k].inum].kind.Free?
  {
    assert DirOk(t, linked, home, d);
    assert k >= 2 ==> EntryOk(t, linked, home, d, k, t[d].ents[k]);
  }

  lemma ZeroShort()
    ensures Short(0) == 0 && Short(1) == 1
  {
    ShortIs(0);
    ShortIs(1);
  }

  lemma NewDirectory(t: Table, t': Table, linked: set<nat>, home: Home, d: nat, c: nat, name: string)
    requires Sound(t, linked, home) && d in linked && d < |t| && Find(t[d].ents, name) == |t[d].ents|
    requires 0 < c < |t| && c != d && t[c] == Inode(Directory, 0, []) && c !in linked && Refs(t, linked, c) == {}
    requires
      var t1 := t[c := Inode(Directory, 1, [Dirent(c, "."), Dirent(d, "..")])];
      t' == WithCount(WithEntry(t1, d, Hole(t[d].ents), Dirent(c, name)), d, Short(t[d].nlink + 1))
    ensures Sound(t', linked + {c}, home[c := Place(d, Hole(t[d].ents), Depth(home, d) + 1)])
  {
    hide Sound, Refs, Short;
    SlotAfter(t, linked, home, d, name);
    LinkedDir(t, linked, home, d);
    var t0 := t[c := Inode(Directory, 0, [Dirent(c, "."), Dirent(d, "..")])];
    SoundOther(t, linked, home, c, t0[c]);
    RefsSame(t, t0, linked, c);
    AddDir(t0, linked, home, d, Hole(t[d].ents), Dirent(c, name));
    assert WithCount(t0, c, 1) == t[c := Inode(Directory, 1, [Dirent(c, "."), Dirent(d, "..")])];
  }

  lemma FreeBlank(t: Table, linked: set<nat>, home: Home, i: nat)
    requires Sound(t, linked, home) && 0 < i < |t| && t[i].kind.Free?
    ensures t[i := BLANK] == t
  {
    assert CountOk(t, linked, i);
  }
}
