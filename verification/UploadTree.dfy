/** File trees below an upload root: a map from paths to nodes, the root itself left implicit. */
module UploadTree {
  import opened Wrappers
  import opened StorageKeys

  type Byte = b: int | 0 <= b < 256
  type Bytes = seq<Byte>

  /** A symbolic link carries the bytes that opening it would read, if it leads to a file. */
  datatype Node = File(data: Bytes) | Folder | Symlink(leadsTo: Option<Bytes>) | Special

  type Tree = map<Path, Node>

  function Parent(p: Path): Path
    requires |p| > 0
  {
    p[..|p| - 1]
  }

  predicate IsFolder(t: Tree, p: Path) {
    p == [] || (p in t && t[p].Folder?)
  }

  /** Every entry has a legal name and lies in a folder. */
  predicate WellFormed(t: Tree) {
    forall p :: p in t ==> GoodPath(p) && IsFolder(t, Parent(p))
  }

  /** The regular files. */
  function FilesOf(t: Tree): map<Path, Bytes> {
    map p | p in t && t[p].File? :: t[p].data
  }

  /** What following a path to its content reads. */
  function Reads(t: Tree, p: Path): Option<Bytes> {
    if p !in t then None
    else match t[p]
      case File(data) => Some(data)
      case Symlink(leadsTo) => leadsTo
      case _ => None
  }

  /** Every folder on the way to an entry is there. */
  lemma {:induction false} AncestorIsFolder(t: Tree, p: Path, k: nat)
    requires WellFormed(t) && p in t && k < |p|
    ensures IsFolder(t, p[..k])
    decreases |p|
  {
    if k < |p| - 1 {
      assert Parent(p)[..k] == p[..k];
      AncestorIsFolder(t, Parent(p), k);
    }
  }

  /** A path strictly above another. */
  predicate Above(p: Path, q: Path) {
    p < q
  }

  /** A path on the way to another, ends included. */
  predicate OnWay(p: Path, q: Path) {
    p <= q
  }

  lemma AboveIsFolder(t: Tree, p: Path, q: Path)
    requires WellFormed(t) && q in t && Above(p, q) && p != []
    ensures p in t && t[p].Folder?
  {
    AncestorIsFolder(t, q, |p|);
    assert q[..|p|] == p;
  }

  /** A file has nothing below it: no path extends a file's path. */
  lemma FilesAreLeaves(t: Tree, p: Path, q: Path)
    requires WellFormed(t) && p in FilesOf(t) && q in t
    ensures !Above(p, q)
  {
    if Above(p, q) {
      AboveIsFolder(t, p, q);
    }
  }

  ghost predicate NoNesting(files: map<Path, Bytes>) {
    forall p, q :: p in files && q in files ==> !Above(p, q)
  }

  // ---------------------------------------------------------------- making folders

  /** `mkdir(parents=True, exist_ok=True)`: None when something that is no folder is in the way. */
  function AddFolders(t: Tree, p: Path): Option<Tree>
    decreases |p|
  {
    if p == [] then Some(t)
    else match AddFolders(t, Parent(p))
      case None => None
      case Some(r) =>
        if p !in r then Some(r[p := Folder])
        else if r[p].Folder? then Some(r)
        else None
  }

  ghost predicate ClearWay(t: Tree, p: Path) {
    forall x :: x in t && OnWay(x, p) ==> t[x].Folder?
  }

  lemma GoodParent(p: Path)
    requires GoodPath(p)
    ensures Parent(p) != [] ==> GoodPath(Parent(p))
  {
    forall c | c in Parent(p)
      ensures c in p
    {
    }
  }

  lemma WayThroughParent(p: Path)
    requires p != []
    ensures forall x :: OnWay(x, p) <==> OnWay(x, Parent(p)) || x == p
    ensures forall x :: Above(x, p) <==> OnWay(x, Parent(p))
    ensures !OnWay(p, Parent(p))
  {
    assert p == Parent(p) + [p[|p| - 1]];
    forall x | OnWay(x, p) && |x| < |p|
      ensures OnWay(x, Parent(p))
    {
      assert x == p[..|x|] == Parent(p)[..|x|];
    }
  }

  /** Exactly the missing folders on the way appear, and nothing else changes. */
  lemma {:induction false} AddFoldersIs(t: Tree, p: Path)
    requires WellFormed(t) && (p != [] ==> GoodPath(p))
    ensures AddFolders(t, p).Some? <==> ClearWay(t, p)
    ensures AddFolders(t, p).Some? ==>
              var r := AddFolders(t, p).value;
              && WellFormed(r) && IsFolder(r, p)
              && (forall x :: x in r <==> x in t || (x != [] && OnWay(x, p)))
              && (forall x :: x in t ==> r[x] == t[x])
              && (forall x :: x in r && x !in t ==> r[x].Folder?)
    decreases |p|
  {
    if p == [] {
      assert forall x :: x in t ==> !OnWay(x, p);
    } else {
      GoodParent(p);
      AddFoldersIs(t, Parent(p));
      WayThroughParent(p);
    }
  }

  /** Create a file that must not exist yet, with the folders above it. */
  function PutFile(t: Tree, p: Path, data: Bytes): Option<Tree>
    requires |p| > 0
  {
    match AddFolders(t, Parent(p))
    case None => None
    case Some(r) => if p in r then None else Some(r[p := File(data)])
  }

  // ---------------------------------------------------------------- trees made of files only

  /** The least tree holding these files: no folder without a file below it, nothing but files and folders. */
  ghost predicate IsUnpacked(t: Tree, files: map<Path, Bytes>) {
    && WellFormed(t)
    && FilesOf(t) == files
    && forall x :: x in t && !t[x].File? ==> t[x].Folder? && exists q :: q in files && Above(x, q)
  }

  /** A file goes in exactly when no other file's path extends it or is extended by it. */
  lemma PutFileUnpacks(t: Tree, files: map<Path, Bytes>, p: Path, data: Bytes)
    requires IsUnpacked(t, files) && GoodPath(p) && p !in files
    ensures PutFile(t, p, data).Some? <==> forall q :: q in files ==> !Above(q, p) && !Above(p, q)
    ensures PutFile(t, p, data).Some? ==> IsUnpacked(PutFile(t, p, data).value, files[p := data])
  {
    assert |p| > 0;
    hide *;
    if PutFile(t, p, data).Some? {
      PutFileApart(t, files, p, data);
      PutFileFits(t, files, p, data);
    } else {
      PutFileRefused(t, files, p, data);
    }
  }

  lemma PutFileApart(t: Tree, files: map<Path, Bytes>, p: Path, data: Bytes)
    requires IsUnpacked(t, files) && GoodPath(p) && PutFile(t, p, data).Some?
    ensures forall q :: q in files ==> !Above(q, p) && !Above(p, q)
  {
    GoodParent(p);
    AddFoldersIs(t, Parent(p));
    WayThroughParent(p);
    hide AddFolders, GoodPath, OnWay;
    forall q | q in files
      ensures !Above(q, p) && !Above(p, q)
    {
      assert q in FilesOf(t);
      if Above(p, q) {
        AboveIsFolder(t, p, q);
      }
    }
  }

  lemma PutFileFits(t: Tree, files: map<Path, Bytes>, p: Path, data: Bytes)
    requires IsUnpacked(t, files) && GoodPath(p) && p !in files && PutFile(t, p, data).Some?
    ensures IsUnpacked(PutFile(t, p, data).value, files[p := data])
  {
    GoodParent(p);
    AddFoldersIs(t, Parent(p));
    WayThroughParent(p);
    hide AddFolders, GoodPath, OnWay, Above;
    var r := AddFolders(t, Parent(p)).value;
    assert forall x :: x in r && x !in t ==> Above(x, p);
    AddedFileFits(t, r, files, p, data);
  }

  lemma AddedFileFits(t: Tree, r: Tree, files: map<Path, Bytes>, p: Path, data: Bytes)
    requires IsUnpacked(t, files) && GoodPath(p) && p !in r
    requires WellFormed(r) && IsFolder(r, Parent(p))
    requires forall x :: x in t ==> x in r && r[x] == t[x]
    requires forall x :: x in r && x !in t ==> r[x].Folder? && Above(x, p)
    ensures IsUnpacked(r[p := File(data)], files[p := data])
  {
    hide GoodPath, Above;
    var u := r[p := File(data)];
    assert WellFormed(u);
    FilesWith(t, r, p, data);
    forall x | x in u && !u[x].File?
      ensures u[x].Folder? && exists q :: q in files[p := data] && Above(x, q)
    {
      if x in t {
        var q :| q in files && Above(x, q);
        assert q in files[p := data];
      } else {
        assert p in files[p := data] && Above(x, p);
      }
    }
  }

  lemma FilesWith(t: Tree, r: Tree, p: Path, data: Bytes)
    requires forall x :: x in t ==> x in r && r[x] == t[x]
    requires forall x :: x in r && x !in t ==> r[x].Folder?
    ensures FilesOf(r[p := File(data)]) == FilesOf(t)[p := data]
  {
  }

  lemma PutFileRefused(t: Tree, files: map<Path, Bytes>, p: Path, data: Bytes)
    requires IsUnpacked(t, files) && GoodPath(p) && p !in files && PutFile(t, p, data).None?
    ensures exists q :: q in files && (Above(q, p) || Above(p, q))
  {
    GoodParent(p);
    AddFoldersIs(t, Parent(p));
    WayThroughParent(p);
    hide AddFolders, GoodPath, OnWay, Above;
    if AddFolders(t, Parent(p)).None? {
      var x :| x in t && OnWay(x, Parent(p)) && !t[x].Folder?;
      assert t[x].File? && x in FilesOf(t) && Above(x, p);
    } else {
      assert p in t && p !in FilesOf(t);
    }
  }

  lemma UnpackedInside(a: Tree, b: Tree, files: map<Path, Bytes>, x: Path)
    requires IsUnpacked(a, files) && WellFormed(b) && FilesOf(b) == files && x in a
    ensures x in b && a[x] == b[x]
  {
    assert GoodPath(x);
    hide GoodPath;
    if a[x].File? {
      assert x in FilesOf(a);
    } else {
      var q :| q in files && Above(x, q);
      assert q in FilesOf(b);
      AboveIsFolder(b, x, q);
    }
  }

  /** Files determine the tree they unpack to. */
  lemma UnpackedIsUnique(a: Tree, b: Tree, files: map<Path, Bytes>)
    requires IsUnpacked(a, files) && IsUnpacked(b, files)
    ensures a == b
  {
    hide WellFormed, FilesOf;
    forall x | x in a
      ensures x in b && a[x] == b[x]
    {
      UnpackedInside(a, b, files, x);
    }
    forall x | x in b
      ensures x in a
    {
      UnpackedInside(b, a, files, x);
    }
  }
}
