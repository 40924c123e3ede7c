/** The inode table of fisopfs (fisopfs/fs.c): linear searches over an array of inodes and a
    bitmap, and the finite map from names to slots that they maintain. */
module Inodes {

  const MAX_INODES: nat := 64
  const MAX_PATH: nat := 200
  const MAX_CONTENT: nat := 1024
  const ROOT_PATH: string := "/"
  const EEXIST: int := 17
  const ENOTDIR: int := 20
  const EISDIR: int := 21
  const ENOSPC: int := 28
  const ENAMETOOLONG: int := 36
  const ENOTEMPTY: int := 39

  datatype Kind = Dir | File

  // type, path and directory_path of struct inode
  datatype Inode = Inode(kind: Kind, path: string, directory: string)

  // An inode after memset: type 0 is FS_DIR.
  const EMPTY: Inode := Inode(Dir, "", "")

  datatype Fs = Fs(inodes: seq<Inode>, used: seq<bool>)

  datatype Outcome = Outcome(fs: Fs, err: int)

  // ---------------------------------------------------------------- paths

  // strrchr(path, '/'), or -1
  function LastSlash(path: string): (i: int)
    ensures -1 <= i < |path| && (i >= 0 ==> path[i] == '/')
    ensures forall j :: i < j < |path| ==> path[j] != '/'
  {
    if path == "" then -1
    else if path[|path| - 1] == '/' then |path| - 1
    else LastSlash(path[..|path| - 1])
  }

  // remove_slash on a path that starts with a slash: its last component.
  function Final(path: string): (name: string)
    ensures '/' !in name
  {
    path[LastSlash(path) + 1..]
  }

  // The directory a path names, without the leading slash; the root for the top level.
  function Parent(path: string): string
    requires path != ""
  {
    var i := LastSlash(path[1..]);
    if i <= 0 then ROOT_PATH else path[1..][..i]
  }

  // A path from the root whose last component is not empty.
  predicate Proper(path: string) { path != "" && path[0] == '/' && Final(path) != "" }

  /** The lengths the creating operations handle: what their buffers of MAX_PATH hold, and what
      they refuse.  They test against MAX_CONTENT, so a path of 201 to 1025 characters passes
      the test and overruns the buffers. */
  predicate Handled(path: string) { |path| <= MAX_PATH || |path| - 1 > MAX_CONTENT }

  lemma {:induction false} LastSlashOfRest(path: string)
    requires path != "" && path[0] == '/'
    ensures LastSlash(path) >= 0 && LastSlash(path[1..]) == LastSlash(path) - 1
  {
    if |path| > 1 && path[|path| - 1] != '/' {
      assert path[..|path| - 1][1..] == path[1..][..|path[1..]| - 1];
      LastSlashOfRest(path[..|path| - 1]);
    }
  }

  /** A path is its parent and its last component; directly below the root, also behind a
      doubled slash, the parent is the root. */
  lemma PathParts(path: string)
    requires Proper(path)
    ensures LastSlash(path) <= 1 ==> Parent(path) == ROOT_PATH
    ensures LastSlash(path) > 1 ==> path == "/" + Parent(path) + "/" + Final(path)
  {
    LastSlashOfRest(path);
    hide LastSlash;
    if LastSlash(path) > 1 {
      Cut(path, LastSlash(path));
    }
  }

  lemma Cut(path: string, i: nat)
    requires 1 < i < |path| && path[0] == '/' == path[i]
    ensures path[1..][..i - 1] == path[1..i] && path == "/" + path[1..i] + "/" + path[i + 1..]
  {
  }

  // ---------------------------------------------------------------- searches

  // The first inode from `i` up with this name, whatever the bitmap says, or -1.
  function Find(inodes: seq<Inode>, name: string, i: nat): (r: int)
    requires i <= |inodes|
    ensures r == -1 || (i <= r < |inodes| && inodes[r].path == name)
    ensures r == -1 ==> forall j :: i <= j < |inodes| ==> inodes[j].path != name
    decreases |inodes| - i
  {
    if i == |inodes| then -1 else if inodes[i].path == name then i else Find(inodes, name, i + 1)
  }

  function GetIndex(fs: Fs, path: string): int {
    if path == ROOT_PATH then 0 else Find(fs.inodes, Final(path), 0)
  }

  // The lowest slot from `i` up that the bitmap calls free, or -1.
  function FirstFree(used: seq<bool>, i: nat): (r: int)
    requires i <= |used|
    ensures r == -1 || (i <= r < |used| && !used[r])
    ensures forall j :: i <= j < |used| && (r == -1 || j < r) ==> used[j]
    decreases |used| - i
  {
    if i == |used| then -1 else if !used[i] then i else FirstFree(used, i + 1)
  }

  // next_free_inodo
  function NextFree(fs: Fs, name: string): int {
    if Find(fs.inodes, name, 0) >= 0 then -EEXIST
    else if FirstFree(fs.used, 0) < 0 then -ENOSPC
    else FirstFree(fs.used, 0)
  }

  // ---------------------------------------------------------------- operations

  function Insert(fs: Fs, i: nat, x: Inode): Fs
    requires i < |fs.inodes| == |fs.used|
  {
    Fs(fs.inodes[i := x], fs.used[i := true])
  }

  function Clear(fs: Fs, i: nat, x: Inode): Fs
    requires i < |fs.inodes| == |fs.used|
  {
    Fs(fs.inodes[i := x], fs.used[i := false])
  }

  predicate Shape(fs: Fs) { |fs.inodes| == |fs.used| == MAX_INODES }

  function CreateFileIn(fs: Fs, path: string, kind: Kind): Outcome
    requires Shape(fs) && path != ""
  {
    if |path| - 1 > MAX_CONTENT then Outcome(fs, -ENAMETOOLONG)
    else
      var i := NextFree(fs, Final(path));
      if i < 0 then Outcome(fs, i)
      else Outcome(Insert(fs, i, Inode(kind, Final(path), if kind == File then Parent(path) else ROOT_PATH)), 0)
  }

  function CreateDirIn(fs: Fs, path: string): Outcome
    requires Shape(fs) && path != ""
  {
    if |path| - 1 > MAX_CONTENT then Outcome(fs, -ENAMETOOLONG)
    else
      var i := NextFree(fs, Final(path));
      if i < 0 then Outcome(fs, i) else Outcome(Insert(fs, i, Inode(Dir, Final(path), Parent(path))), 0)
  }

  // The first used inode from `i` up with this name.
  function FindUsed(fs: Fs, name: string, i: nat): (r: int)
    requires Shape(fs) && i <= MAX_INODES
    ensures r == -1 || (i <= r < MAX_INODES && fs.used[r] && fs.inodes[r].path == name)
    ensures r == -1 ==> forall j :: i <= j < MAX_INODES && fs.used[j] ==> fs.inodes[j].path != name
    decreases MAX_INODES - i
  {
    if i == MAX_INODES then -1
    else if fs.used[i] && fs.inodes[i].path == name then i
    else FindUsed(fs, name, i + 1)
  }

  // delete_file takes the name itself, not a path.
  function DeleteFileIn(fs: Fs, name: string): Outcome
    requires Shape(fs)
  {
    var i := FindUsed(fs, name, 0);
    if i < 0 || fs.inodes[i].kind != File then Outcome(fs, -1) else Outcome(Clear(fs, i, EMPTY), 0)
  }

  // unlink leaves type and directory_path behind.
  function UnlinkIn(fs: Fs, path: string): Outcome
    requires Shape(fs)
  {
    var i := GetIndex(fs, path);
    if i < 0 then Outcome(fs, -1)
    else if fs.inodes[i].kind == Dir then Outcome(fs, -EISDIR)
    else Outcome(Clear(fs, i, fs.inodes[i].(path := "")), 0)
  }

  // Some slot, used or not, names this directory.
  predicate HasEntries(fs: Fs, name: string) {
    exists j :: 0 <= j < |fs.inodes| && fs.inodes[j].directory == name
  }

  function DeleteDirIn(fs: Fs, path: string): Outcome
    requires Shape(fs)
  {
    var i := GetIndex(fs, path);
    if i < 0 then Outcome(fs, i)
    else if fs.inodes[i].kind == File then Outcome(fs, -ENOTDIR)
    else if HasEntries(fs, Final(path)) then Outcome(fs, -ENOTEMPTY)
    else Outcome(Clear(fs, i, EMPTY), 0)
  }

  // ---------------------------------------------------------------- the map

  /** Live names are distinct and not empty, free slots have no name, and slot 0 is the root
      directory. */
  ghost predicate Inv(fs: Fs) {
    && Shape(fs)
    && fs.used[0] && fs.inodes[0] == Inode(Dir, ROOT_PATH, "")
    && (forall i :: 0 <= i < MAX_INODES ==> (fs.used[i] <==> fs.inodes[i].path != ""))
    && (forall i, j :: 0 <= i < j < MAX_INODES && fs.inodes[i].path == fs.inodes[j].path ==> fs.inodes[i].path == "")
    && (forall i :: 0 < i < MAX_INODES ==> '/' !in fs.inodes[i].path)
  }

  // The table as a finite map from names to slots.
  ghost function Names(fs: Fs): map<string, nat>
    requires Inv(fs)
  {
    map i | 0 <= i < MAX_INODES && fs.inodes[i].path != "" :: fs.inodes[i].path := i
  }

  ghost predicate HasRoom(fs: Fs) {
    exists i :: 0 <= i < |fs.used| && !fs.used[i]
  }

  // `i` is the lowest slot free.
  ghost predicate Lowest(fs: Fs, i: int) {
    0 <= i < |fs.used| && !fs.used[i] && forall j :: 0 <= j < i ==> fs.used[j]
  }

  lemma NamesAt(fs: Fs, name: string)
    requires Inv(fs) && name != ""
    ensures name in Names(fs) <==> Find(fs.inodes, name, 0) >= 0
    ensures name in Names(fs) ==> Names(fs)[name] == Find(fs.inodes, name, 0) && Names(fs)[name] < MAX_INODES
    ensures name in Names(fs) ==> fs.inodes[Names(fs)[name]].path == name && fs.used[Names(fs)[name]]
  {
    var i := Find(fs.inodes, name, 0);
    if i >= 0 {
      assert fs.inodes[i].path in Names(fs);
    }
  }

  /** get_index_inodo, which never looks at the bitmap, agrees with the map. */
  lemma LookupLaw(fs: Fs, path: string)
    requires Inv(fs) && (path == ROOT_PATH || Proper(path))
    ensures var name := if path == ROOT_PATH then ROOT_PATH else Final(path);
      GetIndex(fs, path) == if name in Names(fs) then Names(fs)[name] else -1
  {
    NamesAt(fs, ROOT_PATH);
    if path != ROOT_PATH {
      NamesAt(fs, Final(path));
    }
  }

  lemma InsertLaw(fs: Fs, i: nat, x: Inode)
    requires Inv(fs) && i < MAX_INODES && !fs.used[i] && x.path != "" && '/' !in x.path && x.path !in Names(fs)
    ensures Inv(Insert(fs, i, x)) && Names(Insert(fs, i, x)) == Names(fs)[x.path := i]
  {
    InsertKeeps(fs, i, x);
    var t := Insert(fs, i, x);
    assert fs.inodes[i].path == "";
    hide Inv, Names;
    NoEmptyName(fs);
    NoEmptyName(t);
    NamedIff(t, x.path, i);
    forall n | n in Names(fs)
      ensures n != x.path && n in Names(t) && Names(t)[n] == Names(fs)[n]
    {
      NamesAt(fs, n);
      NamedIff(t, n, Names(fs)[n]);
    }
    forall n | n in Names(t) && n != x.path
      ensures n in Names(fs)
    {
      NamesAt(t, n);
      NamedIff(fs, n, Names(t)[n]);
    }
  }

  lemma InsertKeeps(fs: Fs, i: nat, x: Inode)
    requires Inv(fs) && i < MAX_INODES && !fs.used[i] && x.path != "" && '/' !in x.path && x.path !in Names(fs)
    ensures Inv(Insert(fs, i, x))
  {
    NamesAt(fs, x.path);
  }

  lemma ClearKeeps(fs: Fs, i: nat, x: Inode)
    requires Inv(fs) && 0 < i < MAX_INODES && x.path == ""
    ensures Inv(Clear(fs, i, x))
  {
  }

  lemma ClearLaw(fs: Fs, i: nat, x: Inode)
    requires Inv(fs) && 0 < i < MAX_INODES && fs.used[i] && x.path == ""
    ensures Inv(Clear(fs, i, x)) && Names(Clear(fs, i, x)) == Names(fs) - {fs.inodes[i].path}
  {
    ClearKeeps(fs, i, x);
    var t, gone := Clear(fs, i, x), fs.inodes[i].path;
    assert gone != "";
    hide Inv, Names;
    NoEmptyName(fs);
    NoEmptyName(t);
    NamedIff(fs, gone, i);
    forall n | n in Names(t)
      ensures n != gone && n in Names(fs) && Names(fs)[n] == Names(t)[n]
    {
      NamesAt(t, n);
      NamedIff(fs, n, Names(t)[n]);
    }
    forall n | n in Names(fs) && n != gone
      ensures n in Names(t)
    {
      NamesAt(fs, n);
      NamedIff(t, n, Names(fs)[n]);
    }
  }

  lemma NoEmptyName(fs: Fs)
    requires Inv(fs)
    ensures "" !in Names(fs)
  {
  }

  lemma NamedIff(fs: Fs, name: string, i: nat)
    requires Inv(fs) && name != "" && i < MAX_INODES
    ensures Shape(fs) && (fs.inodes[i].path == name <==> name in Names(fs) && Names(fs)[name] == i)
  {
    NamesAt(fs, name);
  }

  // ---------------------------------------------------------------- what each operation does to it

  // Creating in the lowest free slot, or an error that changes nothing.
  ghost predicate Created(fs: Fs, o: Outcome, path: string, kind: Kind, directory: string)
    requires Inv(fs) && Inv(o.fs)
  {
    var name := Final(path);
    if |path| - 1 > MAX_CONTENT then o == Outcome(fs, -ENAMETOOLONG)
    else if name in Names(fs) then o == Outcome(fs, -EEXIST)
    else if !HasRoom(fs) then o == Outcome(fs, -ENOSPC)
    else
      && o.err == 0 && name in Names(o.fs) && Lowest(fs, Names(o.fs)[name])
      && Names(o.fs) == Names(fs)[name := Names(o.fs)[name]]
      && o.fs.inodes[Names(o.fs)[name]] == Inode(kind, name, directory)
  }

  lemma CreateIn(fs: Fs, path: string, kind: Kind, directory: string, o: Outcome)
    requires Inv(fs) && Proper(path) && Handled(path)
    requires o == if |path| - 1 > MAX_CONTENT then Outcome(fs, -ENAMETOOLONG)
      else if NextFree(fs, Final(path)) < 0 then Outcome(fs, NextFree(fs, Final(path)))
      else Outcome(Insert(fs, NextFree(fs, Final(path)), Inode(kind, Final(path), directory)), 0)
    ensures Inv(o.fs) && Created(fs, o, path, kind, directory)
  {
    hide Inv;
    InvShape(fs);
    var name, i := Final(path), FirstFree(fs.used, 0);
    NamesAt(fs, name);
    if NextFree(fs, name) >= 0 && |path| - 1 <= MAX_CONTENT {
      InsertLaw(fs, i, Inode(kind, name, directory));
    }
  }

  lemma InvShape(fs: Fs)
    requires Inv(fs)
    ensures Shape(fs) && fs.used[0] && fs.inodes[0] == Inode(Dir, ROOT_PATH, "")
    ensures Names(fs).Keys >= {ROOT_PATH} && Names(fs)[ROOT_PATH] == 0
  {
    NamesAt(fs, ROOT_PATH);
  }

  lemma CreateFileLaw(fs: Fs, path: string, kind: Kind)
    requires Inv(fs) && Proper(path) && Handled(path)
    ensures Shape(fs) && Inv(CreateFileIn(fs, path, kind).fs)
    ensures Created(fs, CreateFileIn(fs, path, kind), path, kind, if kind == File then Parent(path) else ROOT_PATH)
  {
    CreateIn(fs, path, kind, if kind == File then Parent(path) else ROOT_PATH, CreateFileIn(fs, path, kind));
  }

  lemma CreateDirLaw(fs: Fs, path: string)
    requires Inv(fs) && Proper(path) && Handled(path)
    ensures Shape(fs) && Inv(CreateDirIn(fs, path).fs) && Created(fs, CreateDirIn(fs, path), path, Dir, Parent(path))
  {
    CreateIn(fs, path, Dir, Parent(path), CreateDirIn(fs, path));
  }

  // unlink takes a file's name out of the map; a directory, the root too, stays.
  lemma UnlinkLaw(fs: Fs, path: string)
    requires Inv(fs) && (path == ROOT_PATH || Proper(path))
    ensures Shape(fs)
    ensures var o, name := UnlinkIn(fs, path), if path == ROOT_PATH then ROOT_PATH else Final(path);
      && Inv(o.fs)
      && if name !in Names(fs) then o == Outcome(fs, -1)
         else if fs.inodes[Names(fs)[name]].kind == Dir then o == Outcome(fs, -EISDIR)
         else o.err == 0 && Names(o.fs) == Names(fs) - {name}
  {
    hide Inv;
    InvShape(fs);
    LookupLaw(fs, path);
    var i := GetIndex(fs, path);
    NamesAt(fs, if path == ROOT_PATH then ROOT_PATH else Final(path));
    if i >= 0 && fs.inodes[i].kind == File {
      ClearLaw(fs, i, fs.inodes[i].(path := ""));
    }
  }

  // delete_dir takes out a directory no slot names as its parent; never the root.
  lemma DeleteDirLaw(fs: Fs, path: string)
    requires Inv(fs) && (path == ROOT_PATH || Proper(path))
    ensures Shape(fs)
    ensures var o, name := DeleteDirIn(fs, path), if path == ROOT_PATH then ROOT_PATH else Final(path);
      && Inv(o.fs)
      && if name !in Names(fs) then o == Outcome(fs, -1)
         else if fs.inodes[Names(fs)[name]].kind == File then o == Outcome(fs, -ENOTDIR)
         else if name == ROOT_PATH || HasEntries(fs, name) then o == Outcome(fs, -ENOTEMPTY)
         else o.err == 0 && Names(o.fs) == Names(fs) - {name}
  {
    hide Inv;
    InvShape(fs);
    LookupLaw(fs, path);
    var i := GetIndex(fs, path);
    NamesAt(fs, if path == ROOT_PATH then ROOT_PATH else Final(path));
    if path == ROOT_PATH {
      assert Final(ROOT_PATH) == "" && fs.inodes[0].directory == "";
    } else if i >= 0 && fs.inodes[i].kind == Dir && !HasEntries(fs, Final(path)) {
      ClearLaw(fs, i, EMPTY);
    }
  }

  lemma DeleteFileLaw(fs: Fs, name: string)
    requires Inv(fs) && name != ""
    ensures Shape(fs)
    ensures var o := DeleteFileIn(fs, name);
      && Inv(o.fs)
      && if name !in Names(fs) || fs.inodes[Names(fs)[name]].kind == Dir then o == Outcome(fs, -1)
         else o.err == 0 && Names(o.fs) == Names(fs) - {name}
  {
    InvShape(fs);
    NamesAt(fs, name);
    UsedIsNamed(fs, name);
    hide Inv;
    var i := FindUsed(fs, name, 0);
    if i >= 0 && fs.inodes[i].kind == File {
      ClearLaw(fs, i, EMPTY);
    }
  }

  // The search that reads the bitmap finds what the one that does not finds.
  lemma UsedIsNamed(fs: Fs, name: string)
    requires Inv(fs) && name != ""
    ensures FindUsed(fs, name, 0) == Find(fs.inodes, name, 0)
  {
    var i, j := FindUsed(fs, name, 0), Find(fs.inodes, name, 0);
    assert i >= 0 ==> j >= 0;
    assert j >= 0 ==> fs.used[j];
  }

  // ---------------------------------------------------------------- whole runs

  datatype Event =
    | CreatesFile(path: string, kind: Kind)
    | CreatesDir(path: string)
    | DeletesFile(name: string)
    | Unlinks(path: string)
    | DeletesDir(path: string)

  predicate Legal(ev: Event) {
    match ev
    case CreatesFile(path, _) => Proper(path) && Handled(path)
    case CreatesDir(path) => Proper(path) && Handled(path)
    case DeletesFile(name) => name != ""
    case Unlinks(path) => path == ROOT_PATH || Proper(path)
    case DeletesDir(path) => path == ROOT_PATH || Proper(path)
  }

  function Apply(fs: Fs, ev: Event): Outcome
    requires Shape(fs) && Legal(ev)
  {
    match ev
    case CreatesFile(path, kind) => CreateFileIn(fs, path, kind)
    case CreatesDir(path) => CreateDirIn(fs, path)
    case DeletesFile(name) => DeleteFileIn(fs, name)
    case Unlinks(path) => UnlinkIn(fs, path)
    case DeletesDir(path) => DeleteDirIn(fs, path)
  }

  lemma ApplyKeeps(fs: Fs, ev: Event)
    requires Inv(fs) && Legal(ev)
    ensures Shape(fs) && Inv(Apply(fs, ev).fs)
  {
    match ev
    case CreatesFile(path, kind) => CreateFileLaw(fs, path, kind);
    case CreatesDir(path) => CreateDirLaw(fs, path);
    case DeletesFile(name) => DeleteFileLaw(fs, name);
    case Unlinks(path) => UnlinkLaw(fs, path);
    case DeletesDir(path) => DeleteDirLaw(fs, path);
  }

  ghost function Run(fs: Fs, evs: seq<Event>): (r: Fs)
    requires Inv(fs) && forall i :: 0 <= i < |evs| ==> Legal(evs[i])
    ensures Inv(r)
    decreases |evs|
  {
    if evs == [] then fs
    else
      ApplyKeeps(fs, evs[0]);
      Run(Apply(fs, evs[0]).fs, evs[1..])
  }

  // initialize_fs
  ghost predicate Fresh(fs: Fs) {
    && Shape(fs) && fs.used[0] && fs.inodes[0] == Inode(Dir, ROOT_PATH, "")
    && forall i :: 1 <= i < MAX_INODES ==> !fs.used[i] && fs.inodes[i] == EMPTY
  }

  /** After any sequence of operations on a new file system the root is in slot 0, names are
      distinct, free slots have none, and every search agrees with the map. */
  lemma {:induction false} EveryRunIsAMap(fs: Fs, evs: seq<Event>, path: string)
    requires Inv(fs) && (forall i :: 0 <= i < |evs| ==> Legal(evs[i])) && (path == ROOT_PATH || Proper(path))
    ensures var t, name := Run(fs, evs), if path == ROOT_PATH then ROOT_PATH else Final(path);
      && Inv(t) && ROOT_PATH in Names(t) && Names(t)[ROOT_PATH] == 0
      && GetIndex(t, path) == if name in Names(t) then Names(t)[name] else -1
    decreases |evs|
  {
    hide Inv, Names, Apply, Proper, Handled, Legal;
    if evs == [] {
      InvShape(fs);
      LookupLaw(fs, path);
    } else {
      ApplyKeeps(fs, evs[0]);
      EveryRunIsAMap(Apply(fs, evs[0]).fs, evs[1..], path);
    }
  }

  lemma FreshInv(fs: Fs)
    requires Fresh(fs)
    ensures Inv(fs) && Names(fs) == map[ROOT_PATH := 0]
  {
    assert fs.inodes[0].path == ROOT_PATH;
  }

  // ---------------------------------------------------------------- removing directories

  // The directory a path names, as its entries record it.
  function DirName(path: string): string
    requires path != ""
  {
    path[1..]
  }

  ghost predicate Empty(fs: Fs, directory: string) {
    Shape(fs) && forall j :: 0 <= j < MAX_INODES && fs.used[j] ==> fs.inodes[j].directory != directory
  }

  // A free slot still names the directory.
  ghost predicate LeftBehind(fs: Fs, directory: string) {
    Shape(fs) && exists j :: 0 <= j < MAX_INODES && !fs.used[j] && fs.inodes[j].directory == directory
  }

  ghost predicate IsDir(fs: Fs, path: string)
    requires Inv(fs)
  {
    Proper(path) && Final(path) in Names(fs) && Names(fs)[Final(path)] < |fs.inodes|
    && fs.inodes[Names(fs)[Final(path)]].kind == Dir
  }

  lemma FinalOfTop(path: string)
    requires Proper(path)
    ensures Final(path) == DirName(path) <==> '/' !in DirName(path)
  {
    LastSlashOfRest(path);
    var i := LastSlash(path);
    if i > 0 {
      assert DirName(path)[i - 1] == '/';
    }
  }

  /** rmdir is to remove a directory exactly when it is empty.  It does for a directory of the
      root if and only if this is not an empty one that a free slot still names; deeper down
      it looks for the entries of another directory, that of its last component in the root. */
  lemma RmdirIff(fs: Fs, path: string)
    requires Inv(fs) && IsDir(fs, path)
    ensures var d, r := DirName(path), DeleteDirIn(fs, path);
      && (r.err == 0 || r == Outcome(fs, -ENOTEMPTY))
      && ((r.err == 0 <==> Empty(fs, d)) <==>
            if '/' in d then Empty(fs, d) <==> !HasEntries(fs, Final(path)) else !(Empty(fs, d) && LeftBehind(fs, d)))
  {
    hide Inv;
    InvShape(fs);
    DeleteDirLaw(fs, path);
    FinalOfTop(path);
    hide Final, LastSlash;
    assert Final(path) != ROOT_PATH by { assert '/' !in Final(path); }
    var d := DirName(path);
    assert HasEntries(fs, d) <==> !Empty(fs, d) || LeftBehind(fs, d);
  }

  /** What unlink leaves: every other slot, and of the file's own slot its kind and the name of
      its directory. */
  lemma UnlinkLeaves(fs: Fs, path: string)
    requires Inv(fs) && (path == ROOT_PATH || Proper(path)) && Shape(fs) && UnlinkIn(fs, path).err == 0
    ensures var t, i := UnlinkIn(fs, path).fs, GetIndex(fs, path);
      && Inv(t) && 0 < i < MAX_INODES && fs.used[i] && fs.inodes[i].kind == File
      && !t.used[i] && t.inodes[i] == Inode(File, "", fs.inodes[i].directory)
      && forall j :: 0 <= j < MAX_INODES && j != i ==> t.inodes[j] == fs.inodes[j] && t.used[j] == fs.used[j]
  {
    hide Names, Proper, Final, Find;
    UnlinkLaw(fs, path);
    LookupLaw(fs, path);
    hide Inv;
    InvShape(fs);
    SlotInUse(fs, path);
  }

  lemma SlotInUse(fs: Fs, path: string)
    requires Inv(fs) && (path == ROOT_PATH || Proper(path)) && GetIndex(fs, path) >= 0
    ensures GetIndex(fs, path) < MAX_INODES && fs.used[GetIndex(fs, path)]
  {
    NamesAt(fs, if path == ROOT_PATH then ROOT_PATH else Final(path));
    LookupLaw(fs, path);
    InvShape(fs);
    hide Inv;
  }

  // So the directory cannot be removed any more, whatever else it holds.
  lemma RmdirAfterUnlink(fs: Fs, path: string, dir: string)
    requires Inv(fs) && (path == ROOT_PATH || Proper(path)) && Shape(fs) && UnlinkIn(fs, path).err == 0
    requires Inv(UnlinkIn(fs, path).fs) && IsDir(UnlinkIn(fs, path).fs, dir)
    requires 0 <= GetIndex(fs, path) < MAX_INODES && Final(dir) == fs.inodes[GetIndex(fs, path)].directory
    ensures DeleteDirIn(UnlinkIn(fs, path).fs, dir) == Outcome(UnlinkIn(fs, path).fs, -ENOTEMPTY)
  {
    UnlinkLeaves(fs, path);
    assert dir != ROOT_PATH;
    hide Inv, Final, UnlinkIn, GetIndex;
    var t := UnlinkIn(fs, path).fs;
    DeleteDirLaw(t, dir);
    assert HasEntries(t, Final(dir));
  }

  // delete_file leaves nothing.
  lemma DeleteFileLeaves(fs: Fs, name: string)
    requires Inv(fs) && name != "" && Shape(fs) && DeleteFileIn(fs, name).err == 0
    ensures var t, i := DeleteFileIn(fs, name).fs, Find(fs.inodes, name, 0);
      && 0 <= i < MAX_INODES && !t.used[i] && t.inodes[i] == EMPTY
      && (forall j :: 0 <= j < MAX_INODES && j != i ==> t.inodes[j] == fs.inodes[j] && t.used[j] == fs.used[j])
  {
    UsedIsNamed(fs, name);
  }

  lemma SmallPaths()
    ensures Final("/a") == "a" && Final("/a/b") == "b" && Final("/a/f") == Final("/a/b/f") == "f"
    ensures Parent("/a") == ROOT_PATH && Parent("/a/b") == Parent("/a/f") == "a" && Parent("/a/b/f") == "a/b"
    ensures DirName("/a") == "a" && DirName("/a/b") == "a/b"
  {
    assert LastSlash("/a") == 0 && LastSlash("/a/b") == LastSlash("/a/f") == 2 && LastSlash("/a/b/f") == 4;
    assert DirName("/a") == "a" && DirName("/a/b") == "a/b" && DirName("/a/f") == "a/f";
    assert DirName("/a/b/f") == "a/b/f";
    assert LastSlash("a") == -1 && LastSlash("a/b") == LastSlash("a/f") == 1 && LastSlash("a/b/f") == 3;
  }

  // The first slots hold these inodes and the others are as initialize_fs left them.
  ghost predicate Holds(fs: Fs, xs: seq<Inode>) {
    && Shape(fs) && |xs| < MAX_INODES
    && (forall j :: 0 <= j < |xs| ==> fs.used[j] && fs.inodes[j] == xs[j])
    && (forall j :: |xs| <= j < MAX_INODES ==> !fs.used[j] && fs.inodes[j] == EMPTY)
  }

  lemma NextIs(fs: Fs, xs: seq<Inode>, x: Inode)
    requires Holds(fs, xs) && |xs| + 1 < MAX_INODES && x.path != ""
      && forall j :: 0 <= j < |xs| ==> xs[j].path != x.path
    ensures NextFree(fs, x.path) == |xs| && Holds(Insert(fs, |xs|, x), xs + [x])
  {
    assert !fs.used[|xs|];
  }

  // mkdir /a, mkdir /a/b, create /a/b/f, rmdir /a/b: removed with the file in it.
  lemma NestedRmdir(fs: Fs) returns (a: Outcome, b: Outcome, c: Outcome)
    requires Fresh(fs)
    ensures Shape(a.fs) && Shape(b.fs) && Shape(c.fs) && a.err == b.err == c.err == 0
    ensures a == CreateDirIn(fs, "/a") && b == CreateDirIn(a.fs, "/a/b") && c == CreateFileIn(b.fs, "/a/b/f", File)
    ensures DeleteDirIn(c.fs, "/a/b").err == 0 && !Empty(c.fs, DirName("/a/b"))
  {
    SmallPaths();
    hide Final, Parent, LastSlash, DirName, NextFree;
    var root, x, y, z := fs.inodes[0], Inode(Dir, "a", ROOT_PATH), Inode(Dir, "b", "a"), Inode(File, "f", "a/b");
    NextIs(fs, [root], x);
    a := CreateDirIn(fs, "/a");
    NextIs(a.fs, [root] + [x], y);
    b := CreateDirIn(a.fs, "/a/b");
    NextIs(b.fs, [root] + [x] + [y], z);
    c := CreateFileIn(b.fs, "/a/b/f", File);
    assert c.fs.inodes[3] == z && c.fs.inodes[1] == x && c.fs.inodes[2] == y;
    assert "/a/b" != ROOT_PATH && GetIndex(c.fs, "/a/b") == 2;
  }

  // mkdir /a, create /a/f, unlink /a/f, rmdir /a: not empty, it says.
  lemma RmdirOfEmptied(fs: Fs) returns (a: Outcome, b: Outcome, c: Outcome)
    requires Fresh(fs)
    ensures Shape(a.fs) && Shape(b.fs) && Shape(c.fs) && a.err == b.err == c.err == 0
    ensures a == CreateDirIn(fs, "/a") && b == CreateFileIn(a.fs, "/a/f", File) && c == UnlinkIn(b.fs, "/a/f")
    ensures DeleteDirIn(c.fs, "/a").err == -ENOTEMPTY && Empty(c.fs, DirName("/a"))
  {
    SmallPaths();
    hide Final, Parent, LastSlash, DirName, NextFree;
    var root, x, y := fs.inodes[0], Inode(Dir, "a", ROOT_PATH), Inode(File, "f", "a");
    NextIs(fs, [root], x);
    a := CreateDirIn(fs, "/a");
    NextIs(a.fs, [root] + [x], y);
    b := CreateFileIn(a.fs, "/a/f", File);
    assert b.fs.inodes[1] == x && b.fs.inodes[2] == y;
    assert "/a/f" != ROOT_PATH && GetIndex(b.fs, "/a/f") == 2;
    c := UnlinkIn(b.fs, "/a/f");
    assert c.fs.inodes[2].directory == "a" && c.fs.inodes[1] == x;
    assert "/a" != ROOT_PATH && GetIndex(c.fs, "/a") == 1;
  }

  // Exactly the slots in use name a directory, the root's own excepted.
  ghost predicate Clean(fs: Fs) {
    Shape(fs) && forall j :: 0 < j < MAX_INODES ==> (fs.used[j] <==> fs.inodes[j].directory != "")
  }

  lemma ParentNotEmpty(path: string)
    requires path != ""
    ensures Parent(path) != ""
  {
  }

  /** Only unlink leaves the name of a directory in a free slot: every other step, and every
      one that fails, keeps the table clean. */
  lemma StepKeepsCleanIff(fs: Fs, ev: Event)
    requires Inv(fs) && Legal(ev) && Clean(fs)
    ensures Shape(fs) && Inv(Apply(fs, ev).fs)
    ensures Clean(Apply(fs, ev).fs) <==> !(ev.Unlinks? && Apply(fs, ev).err == 0)
  {
    hide Inv, Final, LastSlash, Parent, Find, FindUsed, FirstFree, HasEntries;
    ApplyKeeps(fs, ev);
    InvShape(fs);
    match ev {
      case CreatesFile(path, kind) => ParentNotEmpty(path);
      case CreatesDir(path) => ParentNotEmpty(path);
      case DeletesFile(name) =>
      case Unlinks(path) =>
        if Apply(fs, ev).err == 0 {
          UnlinkLeaves(fs, path);
        }
      case DeletesDir(path) =>
    }
  }

  lemma {:induction false} RunKeepsClean(fs: Fs, evs: seq<Event>)
    requires Inv(fs) && Clean(fs) && forall i :: 0 <= i < |evs| ==> Legal(evs[i]) && !evs[i].Unlinks?
    ensures Clean(Run(fs, evs))
    decreases |evs|
  {
    hide Inv, Apply, Legal, Clean;
    if evs != [] {
      StepKeepsCleanIff(fs, evs[0]);
      RunKeepsClean(Apply(fs, evs[0]).fs, evs[1..]);
    }
  }

  // Without unlink rmdir is exact on the directories of the root.
  lemma RmdirWithoutUnlink(fs: Fs, evs: seq<Event>, path: string)
    requires Fresh(fs) && Inv(fs) && forall i :: 0 <= i < |evs| ==> Legal(evs[i]) && !evs[i].Unlinks?
    requires IsDir(Run(fs, evs), path) && '/' !in DirName(path)
    ensures var t := Run(fs, evs); Shape(t) && (DeleteDirIn(t, path).err == 0 <==> Empty(t, DirName(path)))
  {
    assert Clean(fs);
    hide Inv, Legal, Apply, IsDir, Empty, DeleteDirIn;
    RunKeepsClean(fs, evs);
    CleanRmdir(Run(fs, evs), path);
  }

  lemma CleanRmdir(fs: Fs, path: string)
    requires Inv(fs) && Clean(fs) && IsDir(fs, path) && '/' !in DirName(path)
    ensures Shape(fs) && (DeleteDirIn(fs, path).err == 0 <==> Empty(fs, DirName(path)))
  {
    RmdirIff(fs, path);
    FinalOfTop(path);
    InvShape(fs);
    hide Inv, Final, DeleteDirIn;
  }

  // ---------------------------------------------------------------- the code

  class SuperBlock {
    const inodes: array<Inode>
    const bitmap: array<bool>

    constructor (inodes: array<Inode>, bitmap: array<bool>)
      ensures this.inodes == inodes && this.bitmap == bitmap
    {
      this.inodes, this.bitmap := inodes, bitmap;
    }

    ghost predicate Valid() { inodes.Length == bitmap.Length == MAX_INODES }

    ghost function Abs(): (fs: Fs)
      requires Valid()
      reads inodes, bitmap
      ensures Shape(fs)
    {
      Fs(inodes[..], bitmap[..])
    }

    method InitializeFs()
      requires Valid()
      modifies inodes, bitmap
      ensures Fresh(Abs()) && Inv(Abs())
    {
      for i := 0 to MAX_INODES
        invariant forall j :: 0 <= j < i ==> inodes[j] == EMPTY && !bitmap[j]
      {
        inodes[i] := EMPTY;
        bitmap[i] := false;
      }
      inodes[0] := Inode(Dir, ROOT_PATH, "");
      bitmap[0] := true;
      FreshInv(Abs());
    }

    method GetIndexInodo(path: string) returns (index: int)
      requires Valid()
      ensures index == GetIndex(Abs(), path)
    {
      if path == ROOT_PATH {
        return 0;
      }
      var newPath := Final(path);
      for i := 0 to MAX_INODES
        invariant Find(inodes[..], newPath, i) == Find(inodes[..], newPath, 0)
      {
        if newPath == inodes[i].path {
          return i;
        }
      }
      return -1;
    }

    method NextFreeInodo(name: string) returns (index: int)
      requires Valid()
      ensures index == NextFree(Abs(), name)
    {
      var existe, nextFree := false, -ENOSPC;
      var i := 0;
      while i < MAX_INODES && !existe
        invariant 0 <= i <= MAX_INODES
        invariant existe <==> exists j :: 0 <= j < i && inodes[j].path == name
        invariant nextFree == -ENOSPC || (0 <= nextFree < i && !bitmap[nextFree])
        invariant forall j :: 0 <= j < i && (nextFree < 0 || j < nextFree) ==> bitmap[j]
      {
        if !bitmap[i] && nextFree < 0 {
          nextFree := i;
        }
        if inodes[i].path == name {
          existe := true;
        }
        i := i + 1;
      }
      if existe {
        return -EEXIST;
      }
      return nextFree;
    }

    method CreateFile(path: string, kind: Kind) returns (err: int)
      requires Valid() && path != ""
      modifies inodes, bitmap
      ensures Outcome(Abs(), err) == CreateFileIn(old(Abs()), path, kind)
    {
      hide LastSlash, Final, Parent, Find, FirstFree;
      if |path| - 1 > MAX_CONTENT {
        return -ENAMETOOLONG;
      }
      var finalPath := Final(path);
      var i := NextFreeInodo(finalPath);
      if i < 0 {
        return i;
      }
      var directory := ROOT_PATH;
      if kind == File {
        directory := PathPadre(path);
      }
      inodes[i] := Inode(kind, finalPath, directory);
      bitmap[i] := true;
      return 0;
    }

    method CreateDir(path: string) returns (err: int)
      requires Valid() && path != ""
      modifies inodes, bitmap
      ensures Outcome(Abs(), err) == CreateDirIn(old(Abs()), path)
    {
      hide LastSlash, Final, Parent, Find, FirstFree;
      if |path| - 1 > MAX_CONTENT {
        return -ENAMETOOLONG;
      }
      var finalPath := Final(path);
      var i := NextFreeInodo(finalPath);
      if i < 0 {
        return i;
      }
      var directory := PathPadre(path);
      inodes[i] := Inode(Dir, finalPath, directory);
      bitmap[i] := true;
      return 0;
    }

    // get_path_padre on the path without its first character; the root when nothing is left.
    static method PathPadre(path: string) returns (padre: string)
      requires path != ""
      ensures padre == Parent(path)
    {
      padre := path[1..];
      var ultimo := LastSlash(padre);
      if ultimo >= 0 {
        padre := padre[..ultimo];
      } else {
        padre := "";
      }
      if padre == "" {
        padre := ROOT_PATH;
      }
    }

    method DeleteFile(name: string) returns (err: int)
      requires Valid()
      modifies inodes, bitmap
      ensures Outcome(Abs(), err) == DeleteFileIn(old(Abs()), name)
    {
      for i := 0 to MAX_INODES
        invariant Abs() == old(Abs()) && FindUsed(Abs(), name, i) == FindUsed(Abs(), name, 0)
      {
        if bitmap[i] && inodes[i].path == name {
          if inodes[i].kind != File {
            return -1;
          }
          inodes[i] := EMPTY;
          bitmap[i] := false;
          return 0;
        }
      }
      return -1;
    }

    method Unlink(path: string) returns (err: int)
      requires Valid()
      modifies inodes, bitmap
      ensures Outcome(Abs(), err) == UnlinkIn(old(Abs()), path)
    {
      hide LastSlash, Final, Find;
      var i := GetIndexInodo(path);
      if i < 0 {
        return -1;
      }
      if inodes[i].kind == Dir {
        return -EISDIR;
      }
      bitmap[i] := false;
      inodes[i] := inodes[i].(path := "");
      return 0;
    }

    // The search of delete_dir for what the directory holds.
    method NamedAsParent(name: string) returns (found: bool)
      requires Valid()
      ensures found <==> HasEntries(Abs(), name)
    {
      for j := 0 to MAX_INODES
        invariant forall k :: 0 <= k < j ==> inodes[k].directory != name
      {
        if inodes[j].directory == name {
          return true;
        }
      }
      return false;
    }

    method DeleteDir(path: string) returns (err: int)
      requires Valid()
      modifies inodes, bitmap
      ensures Outcome(Abs(), err) == DeleteDirIn(old(Abs()), path)
    {
      hide LastSlash, Final, Find;
      var pos := GetIndexInodo(path);
      if pos < 0 {
        return pos;
      }
      if inodes[pos].kind == File {
        return -ENOTDIR;
      }
      var newPath := Final(path);
      var occupied := NamedAsParent(newPath);
      if occupied {
        return -ENOTEMPTY;
      }
      bitmap[pos] := false;
      inodes[pos] := EMPTY;
      return 0;
    }
  }
}
