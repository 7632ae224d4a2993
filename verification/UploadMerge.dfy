/** Copying a legacy upload tree into a directory that another process may be adding to. */
module UploadMerge {
  import opened Wrappers
  import opened StorageKeys
  import opened UploadTree
  import Artifact
  import ArtifactCreation
  import opened Directory

  /** The target tree at one moment, and the temporary file this run has in it, if any. */
  datatype Moment = Moment(tree: Tree, live: Option<Path>)

  /** Everything but the run's own temporary file is still there, unchanged. */
  ghost predicate Keeps(a: Moment, b: Moment) {
    forall p :: p in a.tree && a.live != Some(p) ==> p in b.tree && b.tree[p] == a.tree[p] && b.live != Some(p)
  }

  /** Nothing that was ever in the target is changed or removed later. */
  ghost predicate NeverOverwrites(trace: seq<Moment>) {
    forall i, j :: 0 <= i <= j < |trace| ==> Keeps(trace[i], trace[j])
  }

  lemma NeverOverwritesNext(trace: seq<Moment>, next: Moment)
    requires |trace| > 0 && NeverOverwrites(trace) && Keeps(trace[|trace| - 1], next)
    ensures NeverOverwrites(trace + [next])
  {
    var all := trace + [next];
    forall i, j | 0 <= i <= j < |all|
      ensures Keeps(all[i], all[j])
    {
      if i < |trace| == j {
        assert Keeps(trace[i], trace[|trace| - 1]);
      }
    }
  }

  /** What another process adds: only new entries, and only where they fit. */
  function Joined(nodes: Tree, added: Tree): Tree {
    if WellFormed(added + nodes) then added + nodes else nodes
  }

  class Target {
    var nodes: Tree
    var clock: nat
    ghost var live: Option<Path>
    ghost var trace: seq<Moment>
    const fails: nat -> bool
    const others: nat -> Tree
    const partial: nat -> Bytes

    ghost predicate Valid()
      reads this
    {
      && |trace| > 0 && trace[|trace| - 1] == Moment(nodes, live)
      && NeverOverwrites(trace)
      && WellFormed(nodes)
      && (live.Some? ==> live.value in nodes && nodes[live.value].File?)
    }

    /** No call fails and nobody else writes. */
    ghost predicate Quiet()
    {
      forall t :: !fails(t) && others(t) == map[]
    }

    constructor (nodes: Tree, fails: nat -> bool, others: nat -> Tree, partial: nat -> Bytes)
      requires WellFormed(nodes)
      ensures Valid() && this.nodes == nodes && live == None && trace == [Moment(nodes, None)]
      ensures this.fails == fails && this.others == others && this.partial == partial
    {
      this.nodes, this.fails, this.others, this.partial, clock := nodes, fails, others, partial, 0;
      live := None;
      trace := [Moment(nodes, None)];
    }

    method Become(next: Tree, ghost mine: Option<Path>)
      requires Valid() && WellFormed(next) && (mine.Some? ==> mine.value in next && next[mine.value].File?)
      requires Keeps(Moment(nodes, live), Moment(next, mine))
      modifies this`nodes, this`live, this`trace
      ensures Valid() && nodes == next && live == mine && trace == old(trace) + [Moment(next, mine)]
    {
      NeverOverwritesNext(trace, Moment(next, mine));
      nodes := next;
      live := mine;
      trace := trace + [Moment(next, mine)];
    }

    /** Every system call takes a moment in which others may add entries, and may fail. */
    method Tick(ghost origin: seq<Moment>) returns (fault: bool)
      requires Valid() && Extends(origin, trace)
      modifies this`nodes, this`live, this`trace, this`clock
      ensures Valid() && live == old(live) && Extends(origin, trace)
      ensures forall p :: p in old(nodes) ==> p in nodes && nodes[p] == old(nodes)[p]
      ensures Quiet() ==> !fault && nodes == old(nodes)
    {
      hide WellFormed;
      fault := fails(clock);
      var next := Joined(nodes, others(clock));
      clock := clock + 1;
      assert Quiet() ==> next == nodes by {
        assert map[] + nodes == nodes;
      }
      Become(next, live);
    }
  }

  // ---------------------------------------------------------------- one file

  datatype Step = Copied | Identical | Failed

  predicate SameDigest(env: Artifact.Env, a: Bytes, b: Bytes) {
    env.sha(a) == env.sha(b) && |a| == |b|
  }

  /** `Path.exists` follows links, so a dangling one does not exist. */
  predicate Present(t: Tree, p: Path) {
    p in t && t[p] != Symlink(None)
  }

  function TemporaryPath(p: Path, uuid: string): Path
    requires |p| > 0
  {
    Parent(p) + ["." + p[|p| - 1] + ".migrate-" + uuid]
  }

  lemma TemporaryIsGood(p: Path, uuid: string)
    requires GoodPath(p) && '/' !in uuid
    ensures var t := TemporaryPath(p, uuid); GoodPath(t) && t != p && Parent(t) == Parent(p) && t != []
  {
    var t, name := TemporaryPath(p, uuid), "." + p[|p| - 1] + ".migrate-" + uuid;
    assert p[|p| - 1] in p;
    assert |name| > |p[|p| - 1]| && |name| > 2;
    forall c | c in t
      ensures GoodName(c)
    {
      assert c in p || c == name;
    }
    assert t[|p| - 1] == name;
  }

  /** A new entry in an existing folder fits. */
  lemma EntryFits(t: Tree, p: Path, e: Node)
    requires WellFormed(t) && GoodPath(p) && IsFolder(t, Parent(p))
    requires p !in t || (t[p].File? && e.File?)
    ensures WellFormed(t[p := e])
  {
    hide GoodPath;
  }

  lemma FileLeaves(t: Tree, p: Path)
    requires WellFormed(t) && p in t && t[p].File?
    ensures WellFormed(t - {p})
  {
    hide GoodPath;
  }

  /** Copy through the temporary file and link it into place; a link never replaces anything. */
  method CopyAndLink(env: Artifact.Env, data: Bytes, target: Target, destination: Path, temporary: Path,
                     ghost origin: seq<Moment>)
    returns (r: Step)
    requires target.Valid() && Extends(origin, target.trace)
    requires GoodPath(destination) && IsFolder(target.nodes, Parent(destination)) && GoodPath(temporary)
             && IsFolder(target.nodes, Parent(temporary))
    requires temporary != destination && target.live == Some(temporary)
    modifies target
    ensures target.Valid() && Extends(origin, target.trace) && target.live == Some(temporary)
    ensures r == Copied ==>
              destination !in old(target.nodes) && destination in target.nodes
                  && target.nodes[destination] == File(data)
    ensures r == Identical ==>
              destination in target.nodes && target.nodes[destination].File?
                  && SameDigest(env, data, target.nodes[destination].data)
    ensures target.Quiet() ==>
              target.nodes == if r == Copied then
                  old(target.nodes)[temporary := File(data)][destination := File(data)]
                      else old(target.nodes)[temporary := File(data)]
    ensures target.Quiet() && destination !in old(target.nodes) ==> r == Copied
    ensures target.Quiet() && destination in old(target.nodes) && !old(target.nodes)[destination].File? ==> r == Failed
  {
    hide WellFormed, GoodPath, NeverOverwrites, Extends, SameDigest;
    var fault := target.Tick(origin);
    if fault {
      return Failed;
    }
    Rewrite(target, temporary, target.partial(target.clock), origin);
    fault := target.Tick(origin);
    if fault {
      return Failed;
    }
    ghost var half := target.nodes;
    Rewrite(target, temporary, data, origin);
    assert target.Quiet() ==> target.nodes == old(target.nodes)[temporary := File(data)] by {
      if target.Quiet() {
        assert half == old(target.nodes)[temporary := half[temporary]];
        WrittenTwice(old(target.nodes), temporary, half[temporary], File(data));
      }
    }
    fault := target.Tick(origin);
    if fault {
      return Failed;
    }
    if destination in target.nodes {
      if !target.nodes[destination].File? || !SameDigest(env, data, target.nodes[destination].data) {
        return Failed;
      }
      return Identical;
    }
    EntryFits(target.nodes, destination, target.nodes[temporary]);
    Link(target, temporary, destination, origin);
    fault := target.Tick(origin);
    r := if fault then Failed else Copied;
  }

  lemma WrittenTwice(t: Tree, p: Path, a: Node, b: Node)
    ensures t[p := a][p := b] == t[p := b]
  {
  }

  method Rewrite(target: Target, temporary: Path, data: Bytes, ghost origin: seq<Moment>)
    requires target.Valid() && Extends(origin, target.trace) && target.live == Some(temporary)
    modifies target`nodes, target`live, target`trace
    ensures target.Valid() && Extends(origin, target.trace) && target.live == Some(temporary)
    ensures target.nodes == old(target.nodes)[temporary := File(data)]
  {
    assert WellFormed(target.nodes[temporary := File(data)]) by {
      EntryFits(target.nodes, temporary, File(data));
    }
    hide WellFormed;
    target.Become(target.nodes[temporary := File(data)], Some(temporary));
  }

  method Link(target: Target, temporary: Path, destination: Path, ghost origin: seq<Moment>)
    requires target.Valid() && Extends(origin, target.trace) && target.live == Some(temporary)
    requires destination !in target.nodes && WellFormed(target.nodes[destination := target.nodes[temporary]])
    modifies target`nodes, target`live, target`trace
    ensures target.Valid() && Extends(origin, target.trace) && target.live == Some(temporary)
    ensures target.nodes == old(target.nodes)[destination := old(target.nodes)[temporary]]
  {
    hide WellFormed;
    target.Become(target.nodes[destination := target.nodes[temporary]], Some(temporary));
  }

  ghost predicate CompatibleAt(env: Artifact.Env, t: Tree, p: Path, data: Bytes)
    requires |p| > 0
  {
    ClearWay(t, Parent(p)) && (p in t ==> t[p].File? && SameDigest(env, data, t[p].data))
  }

  /** The tree with the folders above a path, and the file itself if nothing stood there. */
  function With(t: Tree, p: Path, data: Bytes): Tree
    requires |p| > 0
  {
    match AddFolders(t, Parent(p))
    case None => t
    case Some(r) => if p in r then r else r[p := File(data)]
  }

  /** Remove the run's temporary file, whatever the copy came to. */
  method Discard(target: Target, temporary: Path, ghost origin: seq<Moment>) returns (ok: bool)
    requires target.Valid() && Extends(origin, target.trace) && target.live == Some(temporary)
    modifies target
    ensures target.Valid() && Extends(origin, target.trace) && (ok ==> target.live == None)
    ensures forall p :: p in old(target.nodes) && p != temporary ==>
              p in target.nodes && target.nodes[p] == old(target.nodes)[p]
    ensures target.Quiet() ==> ok && target.nodes == old(target.nodes) - {temporary}
  {
    var fault := target.Tick(origin);
    if fault {
      return false;
    }
    FileLeaves(target.nodes, temporary);
    hide WellFormed;
    target.Become(target.nodes - {temporary}, None);
    ok := true;
  }

  /** Make the folders above a path that are missing. */
  method MakeFolders(target: Target, p: Path, ghost origin: seq<Moment>) returns (ok: bool)
    requires target.Valid() && Extends(origin, target.trace) && target.live == None && (p != [] ==> GoodPath(p))
    modifies target
    ensures target.Valid() && Extends(origin, target.trace) && target.live == None
    ensures ok ==> IsFolder(target.nodes, p)
    ensures forall x :: x in old(target.nodes) ==> x in target.nodes && target.nodes[x] == old(target.nodes)[x]
    ensures target.Quiet() ==>
              && (ok <==> AddFolders(old(target.nodes), p).Some?)
              && (ok ==> target.nodes == AddFolders(old(target.nodes), p).value)
  {
    hide WellFormed, GoodPath, NeverOverwrites, Extends, AddFolders, OnWay;
    var fault := target.Tick(origin);
    AddFoldersIs(target.nodes, p);
    var folders := AddFolders(target.nodes, p);
    if fault || folders == None {
      return false;
    }
    ghost var before := target.trace;
    target.Become(folders.value, None);
    ExtendsNext(origin, before, Moment(folders.value, None));
    fault := target.Tick(origin);
    ok := !fault;
  }

  lemma ExtendsNext(origin: seq<Moment>, trace: seq<Moment>, next: Moment)
    requires Extends(origin, trace)
    ensures Extends(origin, trace + [next])
  {
  }

  /** Create the temporary file exclusively, copy and link, and discard it. */
  method CopyAside(env: Artifact.Env, data: Bytes, target: Target, destination: Path, temporary: Path,
                   ghost origin: seq<Moment>) returns (r: Step)
    requires target.Valid() && Extends(origin, target.trace) && target.live == None
    requires GoodPath(destination) && IsFolder(target.nodes, Parent(destination))
    requires GoodPath(temporary) && Parent(temporary) == Parent(destination) && temporary != destination
    modifies target
    ensures target.Valid() && Extends(origin, target.trace) && (r != Failed ==> target.live == None)
    ensures r == Copied ==>
              destination !in old(target.nodes) && destination in target.nodes
                  && target.nodes[destination] == File(data)
    ensures r == Identical ==>
              destination in target.nodes && target.nodes[destination].File?
                  && SameDigest(env, data, target.nodes[destination].data)
    ensures target.Quiet() && temporary !in old(target.nodes) ==>
              && target.nodes == (if r == Copied then old(target.nodes)[destination := File(data)]
                                   else old(target.nodes))
              && (destination !in old(target.nodes) ==> r == Copied)
              && (destination in old(target.nodes) && !old(target.nodes)[destination].File? ==> r == Failed)
  {
    hide WellFormed, GoodPath, NeverOverwrites, Extends, SameDigest;
    var fault := target.Tick(origin);
    if fault || temporary in target.nodes {
      return Failed;
    }
    EntryFits(target.nodes, temporary, File([]));
    ghost var before, middle := target.trace, target.nodes;
    target.Become(target.nodes[temporary := File([])], Some(temporary));
    ExtendsNext(origin, before, Moment(target.nodes, Some(temporary)));
    r := CopyAndLink(env, data, target, destination, temporary, origin);
    var discarded := Discard(target, temporary, origin);
    WithoutTemporary(middle, temporary, destination, data);
    if !discarded {
      return Failed;
    }
  }

  lemma WithoutTemporary(t: Tree, temporary: Path, destination: Path, data: Bytes)
    requires temporary !in t && temporary != destination
    ensures t[temporary := File([])][temporary := File(data)] - {temporary} == t
    ensures t[temporary := File([])][temporary := File(data)][destination := File(data)] - {temporary}
            == t[destination := File(data)]
  {
  }

  /** One upload: identical, copied, or a conflict. */
  method MergeFile(env: Artifact.Env, p: Path, data: Bytes, target: Target, uuid: string, ghost origin: seq<Moment>)
    returns (r: Step)
    requires target.Valid() && Extends(origin, target.trace) && target.live == None && GoodPath(p) && '/' !in uuid
    modifies target
    ensures target.Valid() && Extends(origin, target.trace) && (r != Failed ==> target.live == None)
    ensures r == Copied ==> p !in old(target.nodes) && p in target.nodes && target.nodes[p] == File(data)
    ensures r == Identical ==>
              && p in target.nodes && target.nodes[p].File?
              && env.sha(target.nodes[p].data) == env.sha(data) && |target.nodes[p].data| == |data|
    ensures target.Quiet() && TemporaryPath(p, uuid) !in old(target.nodes) ==>
              && (r != Failed <==> CompatibleAt(env, old(target.nodes), p, data))
              && (r != Failed ==>
                   target.nodes == With(old(target.nodes), p, data) && (r == Copied <==> p !in old(target.nodes)))
  {
    assert forall a, b :: SameDigest(env, a, b) ==> env.sha(b) == env.sha(a) && |b| == |a|;
    KeyRoundTrip(p);
    GoodParent(p);
    TemporaryIsGood(p, uuid);
    FoldersLeave(target.nodes, p, uuid);
    hide WellFormed, GoodPath, NeverOverwrites, Extends, AddFolders, ClearWay, SameDigest, TemporaryPath, KeyOf, Names;
    var destination := Names(KeyOf(p));
    var made := MakeFolders(target, Parent(destination), origin);
    if !made {
      return Failed;
    }
    var fault := target.Tick(origin);
    if fault {
      return Failed;
    }
    if Present(target.nodes, destination) {
      if !target.nodes[destination].File? || !SameDigest(env, data, target.nodes[destination].data) {
        return Failed;
      }
      fault := target.Tick(origin);
      return if fault then Failed else Identical;
    }
    r := CopyAside(env, data, target, destination, TemporaryPath(destination, uuid), origin);
  }

  /** Making the folders above a file touches neither the file's own name nor its temporary one. */
  lemma FoldersLeave(t: Tree, p: Path, uuid: string)
    requires WellFormed(t) && GoodPath(p) && '/' !in uuid
    ensures AddFolders(t, Parent(p)).Some? <==> ClearWay(t, Parent(p))
    ensures AddFolders(t, Parent(p)).Some? ==>
              var r := AddFolders(t, Parent(p)).value;
              && (p in r <==> p in t) && (p in t ==> r[p] == t[p])
              && (TemporaryPath(p, uuid) in r <==> TemporaryPath(p, uuid) in t)
  {
    GoodParent(p);
    TemporaryIsGood(p, uuid);
    AddFoldersIs(t, Parent(p));
    WayThroughParent(p);
    WayThroughParent(TemporaryPath(p, uuid));
    hide WellFormed, GoodPath, AddFolders, OnWay, TemporaryPath, ClearWay;
  }

  // ---------------------------------------------------------------- the whole tree

  datatype Merge = Merged(copied: nat, identical: nat) | MergeFailed

  /** The target holds this upload, by digest and size. */
  ghost predicate Held(env: Artifact.Env, files: map<Path, Bytes>, nodes: Tree, p: Path) {
    p in files && p in nodes && nodes[p].File? && SameDigest(env, files[p], nodes[p].data)
  }

  ghost predicate NoLinks(t: Tree) {
    forall p :: p in t ==> !t[p].Symlink?
  }

  /** No link in the source, and every upload fits beside what the target already has. */
  ghost predicate Mergeable(env: Artifact.Env, source: Tree, target: Tree) {
    NoLinks(source) && forall p :: p in source && source[p].File? && |p| > 0 ==>
        CompatibleAt(env, target, p, source[p].data)
  }

  /** The target so far: all it had, and of the source only files already done and the folders above them. */
  ghost predicate Merging(source: Tree, start: Tree, done: set<Path>, nodes: Tree) {
    && (forall x :: x in start ==> x in nodes && nodes[x] == start[x])
    && (forall x :: x in nodes && x !in start ==> x in source && nodes[x] == source[x])
    && (forall x :: x in nodes && x !in start && source[x].File? ==> x in done)
    && (forall x :: x in nodes && x !in start && source[x].Folder? ==> exists q :: q in done && Above(x, q))
    && (forall x :: x in nodes && x !in start ==> source[x].File? || source[x].Folder?)
    && (forall x :: x in done ==> x in nodes && x in source && source[x].File?)
  }

  lemma ParentsAreFolders(t: Tree, p: Path, x: Path)
    requires WellFormed(t) && p in t && |p| > 0 && x in t && OnWay(x, Parent(p))
    ensures t[x].Folder? && Above(x, p)
  {
    WayThroughParent(p);
    assert x != [];
    AboveIsFolder(t, x, p);
  }

  lemma AncestorInSource(t: Tree, p: Path, x: Path)
    requires WellFormed(t) && p in t && x != [] && |p| > 0 && OnWay(x, Parent(p))
    ensures x in t && t[x].Folder? && Above(x, p)
  {
    WayThroughParent(p);
    AboveIsFolder(t, x, p);
  }

  /** While merging, the next upload fits the target as it is now exactly when it fitted the target as it was. */
  lemma SameCompatibility(env: Artifact.Env, source: Tree, start: Tree, done: set<Path>, nodes: Tree, p: Path)
    requires WellFormed(source) && p in source && source[p].File? && p !in done && |p| > 0
             && Merging(source, start, done, nodes)
    ensures p in nodes <==> p in start
    ensures CompatibleAt(env, nodes, p, source[p].data) <==> CompatibleAt(env, start, p, source[p].data)
  {
    hide WellFormed, OnWay, Above, SameDigest;
    forall x | x in nodes && x !in start && OnWay(x, Parent(p))
      ensures nodes[x].Folder?
    {
      ParentsAreFolders(source, p, x);
    }
    if CompatibleAt(env, start, p, source[p].data) {
      assert ClearWay(nodes, Parent(p));
    }
  }

  /** Adding an upload brings in only it and folders of the source above it. */
  lemma WithIs(source: Tree, nodes: Tree, p: Path)
    requires WellFormed(source) && WellFormed(nodes) && p in source && source[p].File? && GoodPath(p)
             && ClearWay(nodes, Parent(p))
    ensures var next := With(nodes, p, source[p].data);
            && p in next
            && (forall x :: x in nodes ==> x in next && next[x] == nodes[x])
            && (forall x :: x in next && x !in nodes ==>
                  x in source && next[x] == source[x] && (x == p || (source[x].Folder? && Above(x, p))))
  {
    GoodParent(p);
    AddFoldersIs(nodes, Parent(p));
    WayThroughParent(p);
    hide GoodPath, WellFormed, AddFolders, OnWay, Above, ClearWay;
    var next := With(nodes, p, source[p].data);
    forall x | x in next && x !in nodes && x != p
      ensures x in source && next[x] == source[x] && source[x].Folder? && Above(x, p)
    {
      AncestorInSource(source, p, x);
    }
  }

  lemma MergingStep(source: Tree, start: Tree, done: set<Path>, nodes: Tree, p: Path)
    requires WellFormed(source) && WellFormed(nodes) && Merging(source, start, done, nodes)
    requires p in source && source[p].File? && GoodPath(p) && ClearWay(nodes, Parent(p))
    ensures Merging(source, start, done + {p}, With(nodes, p, source[p].data))
  {
    WithIs(source, nodes, p);
    hide GoodPath, WellFormed, Above, ClearWay, With;
    var next := With(nodes, p, source[p].data);
    forall x | x in next && x !in start
      ensures x in source && next[x] == source[x] && (source[x].File? || source[x].Folder?)
      ensures source[x].File? ==> x in done + {p}
      ensures source[x].Folder? ==> exists q :: q in done + {p} && Above(x, q)
    {
      if x in nodes && source[x].Folder? {
        var q :| q in done && Above(x, q);
        assert q in done + {p};
      }
      assert p in done + {p};
    }
  }

  lemma KeptSince(before: seq<Moment>, after: seq<Moment>)
    requires |before| > 0 && Extends(before, after) && NeverOverwrites(after)
    ensures Keeps(before[|before| - 1], after[|after| - 1])
  {
    assert after[|before| - 1] == before[|before| - 1];
  }

  /** The temporary names are nobody else's: what `uuid4` is trusted for. */
  ghost predicate FreshNames(uuids: nat -> string, source: Tree, target: Tree) {
    forall p, k :: p in source && |p| > 0 ==>
        TemporaryPath(p, uuids(k)) !in source && TemporaryPath(p, uuids(k)) !in target
  }

  /** The uploads among the first entries of a listing. */
  ghost function Before(files: map<Path, Bytes>, listing: seq<Path>, k: nat): set<Path>
    requires k <= |listing|
  {
    set p | p in listing[..k] && p in files
  }

  lemma BeforeNext(files: map<Path, Bytes>, listing: seq<Path>, k: nat)
    requires k < |listing| && forall i, j :: 0 <= i < j < |listing| ==> listing[i] != listing[j]
    ensures listing[k] !in Before(files, listing, k)
    ensures Before(files, listing, k + 1) == Before(files, listing, k) + if listing[k] in files then {listing[k]}
            else {}
  {
    assert listing[..k + 1] == listing[..k] + [listing[k]];
  }

  lemma BeforeAll(files: map<Path, Bytes>, listing: seq<Path>)
    requires forall p :: p in files ==> p in listing
    ensures Before(files, listing, |listing|) == files.Keys
    ensures Before(files, listing, 0) == {}
  {
    assert listing[..|listing|] == listing;
  }

  /** What holds between two uploads, whoever else writes. */
  ghost predicate Progress(env: Artifact.Env, files: map<Path, Bytes>, start: Tree, done: set<Path>,
                           placed: set<Path>, nodes: Tree, copied: nat, identical: nat) {
    && (forall p :: p in start ==> p in nodes)
    && (forall p :: p in done ==> Held(env, files, nodes, p))
    && (forall p :: p in placed ==> p in done && p !in start && p in nodes && nodes[p] == File(files[p]))
    && copied == |placed| && copied + identical == |done|
  }

  lemma ProgressStep(env: Artifact.Env, files: map<Path, Bytes>, start: Tree, done: set<Path>, placed: set<Path>,
                     nodes: Tree, next: Tree, copied: nat, identical: nat, p: Path, step: Step)
    requires Progress(env, files, start, done, placed, nodes, copied, identical)
    requires Keeps(Moment(nodes, None), Moment(next, None)) && p in files && p !in done
    requires step == Copied ==> p !in nodes && p in next && next[p] == File(files[p])
    requires step == Identical ==> p in next && next[p].File? && SameDigest(env, files[p], next[p].data)
    requires step != Failed
    ensures step == Copied ==> Progress(env, files, start, done + {p}, placed + {p}, next, copied + 1, identical)
    ensures step == Identical ==> Progress(env, files, start, done + {p}, placed, next, copied, identical + 1)
  {
    assert forall q :: q in nodes ==> q in next && next[q] == nodes[q];
    StillHeld(env, files, start, done, placed, nodes, next, copied, identical);
    assert Held(env, files, next, p) by {
      assert step == Copied ==> SameDigest(env, files[p], files[p]);
    }
    hide Held, Keeps, SameDigest;
    assert p !in placed;
    if step == Copied {
      assert |placed + {p}| == |placed| + 1;
    }
    assert |done + {p}| == |done| + 1;
  }

  /** What holds as well when nobody else writes and no name is taken. */
  ghost predicate QuietProgress(env: Artifact.Env, source: Tree, start: Tree, done: set<Path>, placed: set<Path>,
                                nodes: Tree) {
    && Merging(source, start, done, nodes)
    && placed == done - start.Keys
    && forall p :: p in done ==>
        |p| > 0 && p in source && source[p].File? && CompatibleAt(env, start, p, source[p].data)
  }

  lemma QuietStep(env: Artifact.Env, source: Tree, start: Tree, done: set<Path>, placed: set<Path>, nodes: Tree,
                  p: Path)
    requires WellFormed(source) && WellFormed(nodes) && QuietProgress(env, source, start, done, placed, nodes)
    requires p in source && source[p].File? && p !in done && GoodPath(p)
    ensures CompatibleAt(env, nodes, p, source[p].data) ==>
              QuietProgress(env, source, start, done + {p}, if p in nodes then placed
                             else placed + {p}, With(nodes, p, source[p].data))
    ensures Mergeable(env, source, start) ==> CompatibleAt(env, nodes, p, source[p].data)
  {
    SameCompatibility(env, source, start, done, nodes, p);
    hide WellFormed, GoodPath, Merging, With, SameDigest, ClearWay;
    if CompatibleAt(env, nodes, p, source[p].data) {
      MergingStep(source, start, done, nodes, p);
    }
  }

  lemma NameIsFree(uuids: nat -> string, source: Tree, start: Tree, done: set<Path>, nodes: Tree, p: Path, k: nat)
    requires FreshNames(uuids, source, start) && Merging(source, start, done, nodes) && p in source && |p| > 0
    ensures TemporaryPath(p, uuids(k)) !in nodes
  {
    hide TemporaryPath, Above;
  }

  lemma AllDone(env: Artifact.Env, source: Tree, start: Tree, placed: set<Path>, nodes: Tree)
    requires QuietProgress(env, source, start, FilesOf(source).Keys, placed, nodes) && NoLinks(source)
    ensures Mergeable(env, source, start)
  {
    hide Merging, CompatibleAt;
    forall p | p in source && source[p].File? && |p| > 0
      ensures CompatibleAt(env, start, p, source[p].data)
    {
      assert p in FilesOf(source).Keys;
    }
  }

  /** One upload, counted. */
  method MergeEntry(env: Artifact.Env, source: Tree, p: Path, target: Target, uuids: nat -> string, copied: nat,
                    identical: nat, ghost start: Tree, ghost done: set<Path>, ghost placed: set<Path>,
                    ghost origin: seq<Moment>)
    returns (ok: bool, copied': nat, identical': nat, ghost placed': set<Path>)
    requires target.Valid() && target.live == None && Extends(origin, target.trace) && WellFormed(source)
    requires p in source && source[p].File? && p !in done && GoodPath(p) && forall k :: '/' !in uuids(k)
    requires Progress(env, FilesOf(source), start, done, placed, target.nodes, copied, identical)
    requires target.Quiet() && FreshNames(uuids, source, start) ==>
              QuietProgress(env, source, start, done, placed, target.nodes)
    modifies target
    ensures target.Valid() && Extends(origin, target.trace)
    ensures ok ==>
              target.live == None && Progress(env, FilesOf(source), start, done + {p}, placed', target.nodes, copied',
                                              identical')
    ensures ok && target.Quiet() && FreshNames(uuids, source, start) ==>
              QuietProgress(env, source, start, done + {p}, placed', target.nodes)
    ensures target.Quiet() && FreshNames(uuids, source, start) && Mergeable(env, source, start) ==> ok
  {
    hide WellFormed, GoodPath, NeverOverwrites, Extends, Keeps, Progress, QuietProgress, Mergeable, Merging,
         CompatibleAt, FreshNames, TemporaryPath, With;
    copied', identical', placed' := copied, identical, placed;
    ghost var before, trace := target.nodes, target.trace;
    if target.Quiet() && FreshNames(uuids, source, start) {
      QuietStepAt(env, uuids, source, start, done, placed, before, p, target.clock);
    }
    ExtendsItself(trace);
    var step := MergeFile(env, p, source[p].data, target, uuids(target.clock), trace);
    ExtendsOn(origin, trace, target.trace);
    if step == Failed {
      ok := false;
      return;
    }
    KeptSince(trace, target.trace);
    ProgressStep(env, FilesOf(source), start, done, placed, before, target.nodes, copied, identical, p, step);
    ok := true;
    if step == Copied {
      copied' := copied + 1;
      placed' := placed + {p};
    } else {
      identical' := identical + 1;
    }
  }

  /** The merge after the first `k` entries of the listing. */
  ghost predicate Upto(env: Artifact.Env, source: Tree, start: Tree, listing: seq<Path>, k: nat, placed: set<Path>,
                       nodes: Tree, copied: nat, identical: nat)
    requires k <= |listing|
  {
    && NoLinkAmong(source, listing[..k])
    && Progress(env, FilesOf(source), start, Before(FilesOf(source), listing, k), placed, nodes, copied, identical)
  }

  ghost predicate QuietUpto(env: Artifact.Env, source: Tree, start: Tree, listing: seq<Path>, k: nat,
                            placed: set<Path>, nodes: Tree)
    requires k <= |listing|
  {
    QuietProgress(env, source, start, Before(FilesOf(source), listing, k), placed, nodes)
  }

  /** Nobody else writes and no temporary name is taken. */
  ghost predicate Alone(target: Target, uuids: nat -> string, source: Tree, start: Tree) {
    target.Quiet() && FreshNames(uuids, source, start)
  }

  ghost predicate GoodListing(source: Tree, listing: seq<Path>) {
    && (forall i :: 0 <= i < |listing| ==> listing[i] in source && GoodPath(listing[i]))
    && (forall p :: p in source ==> p in listing)
    && (forall i, j :: 0 <= i < j < |listing| ==> listing[i] != listing[j])
  }

  /** One entry of the listing: a link stops the merge, an upload is merged, anything else is passed over. */
  method MergeNext(env: Artifact.Env, source: Tree, listing: seq<Path>, k: nat, target: Target, uuids: nat -> string,
                   copied: nat, identical: nat, ghost start: Tree, ghost placed: set<Path>, ghost origin: seq<Moment>)
    returns (ok: bool, copied': nat, identical': nat, ghost placed': set<Path>)
    requires target.Valid() && target.live == None && Extends(origin, target.trace) && WellFormed(source)
    requires k < |listing| && GoodListing(source, listing) && forall i :: '/' !in uuids(i)
    requires Upto(env, source, start, listing, k, placed, target.nodes, copied, identical)
    requires Alone(target, uuids, source, start) ==> QuietUpto(env, source, start, listing, k, placed, target.nodes)
    modifies target
    ensures target.Valid() && Extends(origin, target.trace)
    ensures ok ==>
              target.live == None && Upto(env, source, start, listing, k + 1, placed', target.nodes, copied',
                                          identical')
    ensures ok && Alone(target, uuids, source, start) ==>
              QuietUpto(env, source, start, listing, k + 1, placed', target.nodes)
    ensures Alone(target, uuids, source, start) && Mergeable(env, source, start) ==> ok
  {
    copied', identical', placed' := copied, identical, placed;
    var p := listing[k];
    BeforeNext(FilesOf(source), listing, k);
    hide WellFormed, GoodPath, NeverOverwrites, Extends, Progress, QuietProgress, Mergeable, FreshNames, Before,
         NoLinkAmong;
    if source[p].Symlink? {
      LinkStops(env, source, start, p);
      return false, copied', identical', placed';
    }
    NoLinkNext(source, listing, k);
    ok := true;
    if source[p].File? {
      ok, copied', identical', placed' :=
        MergeEntry(env, source, p, target, uuids, copied, identical, start, Before(FilesOf(source), listing, k),
                   placed, origin);
    }
  }

  /** Copy what is missing, count what is there already, and stop at the first conflict. */
  method MergeTrees(env: Artifact.Env, source: Tree, target: Target, uuids: nat -> string)
    returns (r: Merge, ghost placed: set<Path>)
    requires target.Valid() && target.live == None && WellFormed(source) && Artifact.Faithful(env)
    requires forall k :: '/' !in uuids(k)
    modifies target
    ensures target.Valid() && Extends(old(target.trace), target.trace) && (r.Merged? ==> target.live == None)
    ensures r.Merged? ==>
              && NoLinks(source)
              && Progress(env, FilesOf(source), old(target.nodes), FilesOf(source).Keys, placed, target.nodes,
                          r.copied, r.identical)
    ensures target.Quiet() && FreshNames(uuids, source, old(target.nodes)) ==>
              && (r.Merged? <==> Mergeable(env, source, old(target.nodes)))
              && (r.Merged? ==>
                   QuietProgress(env, source, old(target.nodes), FilesOf(source).Keys, placed, target.nodes))
  {
    ghost var start, origin := target.nodes, target.trace;
    var listing := env.listing(source);
    ListingIs(env, source);
    NothingUpto(env, source, listing, start, origin);
    hide WellFormed, GoodListing, NeverOverwrites, Extends, Upto, QuietUpto, Progress, QuietProgress, Mergeable,
         FreshNames, NoLinks, FilesOf, Artifact.Faithful;
    var copied, identical := 0, 0;
    placed := {};
    for k := 0 to |listing|
      invariant target.Valid() && target.live == None && Extends(origin, target.trace)
      invariant Upto(env, source, start, listing, k, placed, target.nodes, copied, identical)
      invariant Alone(target, uuids, source, start) ==> QuietUpto(env, source, start, listing, k, placed, target.nodes)
    {
      var ok;
      ok, copied, identical,
          placed := MergeNext(env, source, listing, k, target, uuids, copied, identical, start, placed, origin);
      if !ok {
        return MergeFailed, placed;
      }
    }
    EverythingUpto(env, source, listing, start, placed, target.nodes, copied, identical);
    r := Merged(copied, identical);
  }

  lemma NothingUpto(env: Artifact.Env, source: Tree, listing: seq<Path>, start: Tree, origin: seq<Moment>)
    requires GoodListing(source, listing)
    ensures Upto(env, source, start, listing, 0, {}, start, 0, 0)
            && QuietUpto(env, source, start, listing, 0, {}, start)
    ensures Extends(origin, origin)
  {
    BeforeAll(FilesOf(source), listing);
    NothingMerged(env, source, FilesOf(source), start, origin);
    hide Progress, QuietProgress, NoLinkAmong, Before;
    assert listing[..0] == [];
  }

  lemma EverythingUpto(env: Artifact.Env, source: Tree, listing: seq<Path>, start: Tree, placed: set<Path>,
                       nodes: Tree, copied: nat, identical: nat)
    requires GoodListing(source, listing)
             && Upto(env, source, start, listing, |listing|, placed, nodes, copied, identical)
    ensures NoLinks(source)
            && Progress(env, FilesOf(source), start, FilesOf(source).Keys, placed, nodes, copied, identical)
    ensures QuietUpto(env, source, start, listing, |listing|, placed, nodes) ==>
              QuietProgress(env, source, start, FilesOf(source).Keys, placed, nodes) && Mergeable(env, source, start)
  {
    BeforeAll(FilesOf(source), listing);
    hide Progress, QuietProgress, NoLinks, NoLinkAmong, Before, Mergeable;
    assert listing[..|listing|] == listing;
    EveryEntryListed(source, listing);
    if QuietUpto(env, source, start, listing, |listing|, placed, nodes) {
      AllDone(env, source, start, placed, nodes);
    }
  }

  lemma ListingIs(env: Artifact.Env, source: Tree)
    requires Artifact.Faithful(env) && WellFormed(source)
    ensures GoodListing(source, env.listing(source))
  {
    var listing := env.listing(source);
    assert Artifact.Lists(listing, source);
    assert forall i :: 0 <= i < |listing| ==> listing[i] in listing;
  }

  lemma NothingMerged(env: Artifact.Env, source: Tree, files: map<Path, Bytes>, start: Tree, origin: seq<Moment>)
    ensures Progress(env, files, start, {}, {}, start, 0, 0) && QuietProgress(env, source, start, {}, {}, start)
    ensures Extends(origin, origin) && NoLinkAmong(source, [])
  {
  }

  lemma LinkStops(env: Artifact.Env, source: Tree, start: Tree, p: Path)
    requires p in source && source[p].Symlink?
    ensures !Mergeable(env, source, start)
  {
    hide CompatibleAt;
  }

  ghost predicate NoLinkAmong(source: Tree, listing: seq<Path>) {
    forall p :: p in listing && p in source ==> !source[p].Symlink?
  }

  lemma NoLinkNext(source: Tree, listing: seq<Path>, k: nat)
    requires k < |listing| && NoLinkAmong(source, listing[..k])
             && (listing[k] in source ==> !source[listing[k]].Symlink?)
    ensures NoLinkAmong(source, listing[..k + 1])
  {
    assert listing[..k + 1] == listing[..k] + [listing[k]];
  }

  lemma EveryEntryListed(source: Tree, listing: seq<Path>)
    requires (forall p :: p in source ==> p in listing) && NoLinkAmong(source, listing)
    ensures NoLinks(source)
  {
  }

  lemma ExtendsItself(trace: seq<Moment>)
    ensures Extends(trace, trace)
  {
  }

  lemma ExtendsOn(a: seq<Moment>, b: seq<Moment>, c: seq<Moment>)
    requires Extends(a, b) && Extends(b, c)
    ensures Extends(a, c)
  {
  }

  lemma QuietStepAt(env: Artifact.Env, uuids: nat -> string, source: Tree, start: Tree, done: set<Path>,
                    placed: set<Path>, nodes: Tree, p: Path, k: nat)
    requires WellFormed(source) && WellFormed(nodes) && QuietProgress(env, source, start, done, placed, nodes)
             && FreshNames(uuids, source, start)
    requires p in source && source[p].File? && p !in done && GoodPath(p)
    ensures |p| > 0 && TemporaryPath(p, uuids(k)) !in nodes
    ensures CompatibleAt(env, nodes, p, source[p].data) ==>
              QuietProgress(env, source, start, done + {p}, if p in nodes then placed
                             else placed + {p}, With(nodes, p, source[p].data))
    ensures Mergeable(env, source, start) ==> CompatibleAt(env, nodes, p, source[p].data)
  {
    assert |p| > 0;
    QuietStep(env, source, start, done, placed, nodes, p);
    hide WellFormed, GoodPath, Merging, With, CompatibleAt, Mergeable, FreshNames, TemporaryPath;
    NameIsFree(uuids, source, start, done, nodes, p, k);
  }

  /** Whoever else adds files meanwhile, nothing in the target is ever changed or removed, and success means every
      upload is there. */
  method MergeUploadRoots(env: Artifact.Env, source: ArtifactCreation.Root, target: Target, usable: bool,
                          sameRoot: bool, uuids: nat -> string)
    returns (r: Merge, ghost placed: set<Path>)
    requires target.Valid() && target.live == None && Artifact.Faithful(env)
    requires (source.Real? ==> WellFormed(source.tree)) && forall k :: '/' !in uuids(k)
    modifies target
    ensures target.Valid() && Extends(old(target.trace), target.trace) && (r.Merged? ==> target.live == None)
    ensures NeverOverwrites(target.trace) && target.trace[|target.trace| - 1].tree == target.nodes
    ensures forall p :: p in old(target.nodes) ==> p in target.nodes && target.nodes[p] == old(target.nodes)[p]
    ensures r.Merged? ==> source.Real? && usable
    ensures r.Merged? && sameRoot ==> r == Merged(0, 0)
    ensures r.Merged? && !sameRoot ==>
              && NoLinks(source.tree)
              && Progress(env, FilesOf(source.tree), old(target.nodes), FilesOf(source.tree).Keys, placed,
                          target.nodes, r.copied, r.identical)
    ensures target.Quiet() && source.Real? && FreshNames(uuids, source.tree, old(target.nodes)) ==>
              && (r.Merged? <==> usable && (sameRoot || Mergeable(env, source.tree, old(target.nodes))))
              && (r.Merged? && !sameRoot ==>
                    QuietProgress(env, source.tree, old(target.nodes), FilesOf(source.tree).Keys, placed, target.nodes))
  {
    hide WellFormed, NeverOverwrites, Progress, QuietProgress, Mergeable, FreshNames, NoLinks, FilesOf,
         Artifact.Faithful;
    placed := {};
    if !source.Real? {
      return MergeFailed, placed;
    }
    if !usable {
      return MergeFailed, placed;
    }
    if sameRoot {
      return Merged(0, 0), placed;
    }
    r, placed := MergeTrees(env, source.tree, target, uuids);
    KeptSince(old(target.trace), target.trace);
    if r == MergeFailed {
      return;
    }
    ghost var origin, before, nodes := target.trace, target.trace, target.nodes;
    ExtendsItself(origin);
    var fault := target.Tick(origin);
    if fault {
      r := MergeFailed;
    } else {
      StillHeld(env, FilesOf(source.tree), old(target.nodes), FilesOf(source.tree).Keys, placed, nodes, target.nodes,
                r.copied, r.identical);
    }
    ExtendsOn(old(target.trace), origin, target.trace);
  }

  lemma StillHeld(env: Artifact.Env, files: map<Path, Bytes>, start: Tree, done: set<Path>, placed: set<Path>,
                  nodes: Tree, next: Tree, copied: nat, identical: nat)
    requires Progress(env, files, start, done, placed, nodes, copied, identical)
    requires forall p :: p in nodes ==> p in next && next[p] == nodes[p]
    ensures Progress(env, files, start, done, placed, next, copied, identical)
  {
    hide SameDigest;
    forall p | p in done
      ensures Held(env, files, next, p)
    {
      assert Held(env, files, nodes, p);
    }
  }

  // ---------------------------------------------------------------- what the history says

  /** A path never shows a part of an upload: at each moment it is absent, or whole, or the run's own temporary file. */
  lemma NeverPartial(trace: seq<Moment>, k: nat, p: Path)
    requires NeverOverwrites(trace) && k < |trace| && p in trace[|trace| - 1].tree
    ensures p !in trace[k].tree || trace[k].live == Some(p) || trace[k].tree[p] == trace[|trace| - 1].tree[p]
  {
    assert Keeps(trace[k], trace[|trace| - 1]);
  }

  // ---------------------------------------------------------------- what success says

  lemma HeldIsSame(env: Artifact.Env, files: map<Path, Bytes>, nodes: Tree, p: Path)
    requires Artifact.CollisionFree(env) && Held(env, files, nodes, p)
    ensures p in FilesOf(nodes) && FilesOf(nodes)[p] == files[p]
  {
    assert env.sha(files[p]) == env.sha(nodes[p].data);
  }

  lemma OldOrNew(source: Tree, start: Tree, done: set<Path>, nodes: Tree)
    requires Merging(source, start, done, nodes)
    ensures forall p :: p in FilesOf(start) ==> p in FilesOf(nodes) && FilesOf(nodes)[p] == FilesOf(start)[p]
    ensures forall p :: p in FilesOf(nodes) ==> p in FilesOf(start) || p in FilesOf(source)
  {
    hide Above;
  }

  lemma UnionIs(a: map<Path, Bytes>, b: map<Path, Bytes>, c: map<Path, Bytes>)
    requires forall p :: p in a ==> p in c && c[p] == a[p]
    requires forall p :: p in b ==> p in c && c[p] == b[p]
    requires forall p :: p in c ==> p in a || p in b
    ensures c == a + b
  {
  }

  /** Without collisions, a quiet merge leaves the union of the two sets of files. */
  lemma MergedIsUnion(env: Artifact.Env, source: Tree, start: Tree, placed: set<Path>, nodes: Tree, copied: nat,
                      identical: nat)
    requires Artifact.CollisionFree(env)
    requires QuietProgress(env, source, start, FilesOf(source).Keys, placed, nodes)
    requires Progress(env, FilesOf(source), start, FilesOf(source).Keys, placed, nodes, copied, identical)
    ensures FilesOf(nodes) == FilesOf(start) + FilesOf(source)
  {
    OldOrNew(source, start, FilesOf(source).Keys, nodes);
    var files := FilesOf(source);
    forall p | p in files
      ensures Held(env, files, nodes, p)
    {
    }
    hide *;
    forall p | p in files
      ensures p in FilesOf(nodes) && FilesOf(nodes)[p] == files[p]
    {
      HeldIsSame(env, files, nodes, p);
    }
    UnionIs(FilesOf(start), files, FilesOf(nodes));
  }

  /** A quiet merge copies exactly the uploads the target did not have. */
  lemma CopiedAreMissing(env: Artifact.Env, source: Tree, start: Tree, placed: set<Path>, nodes: Tree, copied: nat,
                         identical: nat)
    requires QuietProgress(env, source, start, FilesOf(source).Keys, placed, nodes)
    requires Progress(env, FilesOf(source), start, FilesOf(source).Keys, placed, nodes, copied, identical)
    ensures copied == |FilesOf(source).Keys - start.Keys| && copied + identical == |FilesOf(source)|
  {
    hide Merging, CompatibleAt, Held, FilesOf;
  }

  /** A target that holds every upload has nothing to copy and nothing to refuse. */
  lemma HeldIsMergeable(env: Artifact.Env, source: Tree, start: Tree, placed: set<Path>, nodes: Tree, copied: nat,
                        identical: nat)
    requires NoLinks(source) && WellFormed(nodes)
    requires Progress(env, FilesOf(source), start, FilesOf(source).Keys, placed, nodes, copied, identical)
    ensures Mergeable(env, source, nodes)
  {
    hide WellFormed, OnWay, Above, SameDigest;
    forall p | p in source && source[p].File? && |p| > 0
      ensures CompatibleAt(env, nodes, p, source[p].data)
    {
      assert Held(env, FilesOf(source), nodes, p);
      forall x | x in nodes && OnWay(x, Parent(p))
        ensures nodes[x].Folder?
      {
        ParentsAreFolders(nodes, p, x);
      }
    }
  }

  lemma NothingMissing(env: Artifact.Env, files: map<Path, Bytes>, start: Tree, placed: set<Path>, nodes: Tree,
                       copied: nat, identical: nat)
    requires Progress(env, files, start, files.Keys, placed, nodes, copied, identical)
    requires forall p :: p in files ==> p in start
    ensures copied == 0 && identical == |files|
  {
    hide Held;
    assert placed == {} by {
      forall p
        ensures p !in placed
      {
      }
    }
  }

  /** A second run copies nothing, even among other writers; on a quiet target it also succeeds. */
  method MergeTwice(env: Artifact.Env, source: Tree, target: Target, uuids: nat -> string)
    returns (first: Merge, second: Merge)
    requires target.Valid() && target.live == None && Artifact.Faithful(env) && WellFormed(source) && forall k ::
              '/' !in uuids(k)
    modifies target
    ensures target.Valid() && Extends(old(target.trace), target.trace)
    ensures first.Merged? && second.Merged? ==> second == Merged(0, |FilesOf(source)|)
    ensures target.Quiet() && FreshNames(uuids, source, old(target.nodes)) && first.Merged? ==> second.Merged?
  {
    hide WellFormed, NeverOverwrites, Progress, QuietProgress, Mergeable, FreshNames, NoLinks, FilesOf, Extends,
         Artifact.Faithful;
    ghost var origin, start := target.trace, target.nodes;
    ghost var placed;
    first, placed := MergeUploadRoots(env, ArtifactCreation.Real(source), target, true, false, uuids);
    second := MergeFailed;
    if first.Merged? {
      ghost var middle, nodes := target.trace, target.nodes;
      HeldIsMergeable(env, source, start, placed, nodes, first.copied, first.identical);
      HeldIsPresent(env, FilesOf(source), start, placed, nodes, first.copied, first.identical);
      if target.Quiet() && FreshNames(uuids, source, start) {
        StillFresh(env, uuids, source, start, placed, nodes);
      }
      ghost var again;
      second, again := MergeUploadRoots(env, ArtifactCreation.Real(source), target, true, false, uuids);
      ExtendsOn(origin, middle, target.trace);
      if second.Merged? {
        NothingMissing(env, FilesOf(source), nodes, again, target.nodes, second.copied, second.identical);
      }
    }
  }

  lemma HeldIsPresent(env: Artifact.Env, files: map<Path, Bytes>, start: Tree, placed: set<Path>, nodes: Tree,
                      copied: nat, identical: nat)
    requires Progress(env, files, start, files.Keys, placed, nodes, copied, identical)
    ensures forall p :: p in files ==> p in nodes
  {
    forall p | p in files
      ensures p in nodes
    {
      assert Held(env, files, nodes, p);
    }
  }

  lemma StillFresh(env: Artifact.Env, uuids: nat -> string, source: Tree, start: Tree, placed: set<Path>, nodes: Tree)
    requires FreshNames(uuids, source, start) && QuietProgress(env, source, start, FilesOf(source).Keys, placed, nodes)
    ensures FreshNames(uuids, source, nodes)
  {
    hide TemporaryPath, Above, CompatibleAt;
  }
}
