/** Unpacking a verified artifact and putting its uploads in place by renames. */
module ArtifactRestore {
  import opened Wrappers
  import opened StorageKeys
  import opened UploadTree
  import opened Artifact
  import opened Directory
  import ArtifactIntegrity
  import ArtifactCreation

  // ---------------------------------------------------------------- what an artifact holds

  ghost predicate Verified(env: Env, file: Option<Node>) {
    AcceptableFile(env, file, ManifestIn(env, MembersIn(env, file)))
  }

  lemma VerifiedManifest(env: Env, file: Option<Node>)
    ensures forall m :: AcceptableFile(env, file, m) ==> m == ManifestIn(env, MembersIn(env, file))
    ensures (exists m :: AcceptableFile(env, file, m)) <==> Verified(env, file)
  {
    hide AcceptableFile, ManifestIn, MembersIn;
    forall m | AcceptableFile(env, file, m)
      ensures m == ManifestIn(env, MembersIn(env, file))
    {
      AcceptedManifest(env, file, m);
    }
  }

  function Payload(members: seq<Member>, key: string): Bytes {
    match PayloadOf(members, UploadMember(key)) case Some(data) => data case None => []
  }

  /** The files named by the rows. */
  function RowFiles(env: Env, members: seq<Member>, rows: seq<Json>): map<Path, Bytes> {
    if |rows| == 0 then map[]
    else
      var key := RowKey(env, rows[|rows| - 1]);
      RowFiles(env, members, rows[..|rows| - 1])[Names(key) := Payload(members, key)]
  }

  function UploadsIn(env: Env, file: Option<Node>): map<Path, Bytes> {
    var members := MembersIn(env, file);
    RowFiles(env, members, ArtifactIntegrity.Rows(ManifestIn(env, members)))
  }

  ghost predicate RowsVerified(env: Env, members: seq<Member>, rows: seq<Json>) {
    && NamesOk(members)
    && DistinctKeys(env, rows)
    && forall row :: row in rows ==> RowOk(env, members, row)
  }

  lemma VerifiedRows(env: Env, file: Option<Node>)
    requires Verified(env, file)
    ensures RowsVerified(env, MembersIn(env, file), ArtifactIntegrity.Rows(ManifestIn(env, MembersIn(env, file))))
  {
    hide ManifestOk, DatabaseOk, RowOk, DistinctNames, DistinctKeys, ValidMemberName;
  }

  /** Each row names a file of its own. */
  lemma {:induction false} RowFilesAre(env: Env, members: seq<Member>, rows: seq<Json>)
    requires RowsVerified(env, members, rows)
    ensures forall row :: row in rows ==>
              GoodPath(Names(RowKey(env, row))) && KeyOf(Names(RowKey(env, row))) == RowKey(env, row)
    ensures forall row :: row in rows ==> Names(RowKey(env, row)) in RowFiles(env, members, rows)
    ensures forall p :: p in RowFiles(env, members, rows) ==> exists row :: row in rows && p == Names(RowKey(env, row))
    ensures forall p :: p in RowFiles(env, members, rows) ==>
              RowFiles(env, members, rows)[p] == Payload(members, KeyOf(p))
  {
    hide RowKey, RowOk, NamesOk, GoodPath, KeyOf, Names, Payload;
    if |rows| > 0 {
      var n := |rows| - 1;
      assert rows == rows[..n] + [rows[n]];
      assert RowsVerified(env, members, rows[..n]);
      RowFilesAre(env, members, rows[..n]);
      assert rows[n] in rows;
      ArtifactIntegrity.RowDescribesMember(env, members, rows[n]);
      RowPath(env, members, rows[n]);
    }
  }

  lemma RowPath(env: Env, members: seq<Member>, row: Json)
    requires RowOk(env, members, row) && RowKey(env, row) != "."
    ensures KeyOf(Names(RowKey(env, row))) == RowKey(env, row)
  {
    hide Matches, SafeStorageKey, RowKey, KeyOf, Names;
    PathRoundTrip(RowKey(env, row));
  }

  lemma NextRow(env: Env, members: seq<Member>, rows: seq<Json>, i: nat)
    requires RowsVerified(env, members, rows) && i < |rows|
    ensures var p := Names(RowKey(env, rows[i]));
            |p| > 0 && GoodPath(p) && p !in RowFiles(env, members, rows[..i])
            && RowFiles(env, members, rows[..i + 1])
                == RowFiles(env, members, rows[..i])[p := Payload(members, RowKey(env, rows[i]))]
    ensures PayloadOf(members, UploadMember(RowKey(env, rows[i]))) == Some(Payload(members, RowKey(env, rows[i])))
  {
    hide RowKey, RowOk, NamesOk, KeyOf, Names;
    assert rows[..i + 1][..i] == rows[..i];
    assert rows[i] in rows;
    ArtifactIntegrity.RowDescribesMember(env, members, rows[i]);
    RowPath(env, members, rows[i]);
    RowFilesAre(env, members, rows[..i]);
  }

  lemma {:induction false} RowFilesGrow(env: Env, members: seq<Member>, rows: seq<Json>, i: nat)
    requires i <= |rows|
    ensures forall p :: p in RowFiles(env, members, rows[..i]) ==> p in RowFiles(env, members, rows)
    decreases |rows| - i
  {
    if i < |rows| {
      assert rows[..i + 1][..i] == rows[..i];
      RowFilesGrow(env, members, rows, i + 1);
    } else {
      assert rows[..i] == rows;
    }
  }

  // ---------------------------------------------------------------- extraction

  /** Only one entry of the directory differs. */
  ghost predicate OnlyAt(before: Entries, now: Entries, name: string) {
    forall other :: other != name ==> Lookup(now, other) == Lookup(before, other)
  }

  ghost predicate OnlyAtSince(before: Entries, trace: seq<Entries>, start: nat, name: string) {
    forall k :: start <= k < |trace| ==> OnlyAt(before, trace[k], name)
  }

  const COPY_BUFFER_BYTES := 1024 * 1024

  /** Opening for writing replaces a file or makes one; through a link or a device the bytes go elsewhere and the
      entry stays. */
  predicate WritesHere(entries: Entries, output: string) {
    output in entries ==> entries[output].FileEntry?
  }

  /** The output is its old self, or holds a first part of the dump; nothing else differs. */
  ghost predicate Overwriting(before: Entries, now: Entries, output: string, dump: Bytes) {
    && OnlyAt(before, now, output)
    && (|| Lookup(now, output) == Lookup(before, output)
        || (WritesHere(before, output) && exists k ::
             0 <= k <= |dump| && Lookup(now, output) == Some(FileEntry(dump[..k]))))
  }

  ghost predicate OverwritingSince(before: Entries, trace: seq<Entries>, start: nat, output: string, dump: Bytes) {
    forall k :: start <= k < |trace| ==> Overwriting(before, trace[k], output, dump)
  }

  function DumpIn(env: Env, file: Option<Node>): Bytes {
    match PayloadOf(MembersIn(env, file), DATABASE_ARCHIVE_PATH) case Some(data) => data case None => []
  }

  /** Verify, then overwrite the output in place: a failure on the way can leave a first part of the dump there. */
  method ExtractDatabase(env: Env, file: Option<Node>, dir: Folder, output: string) returns (ok: bool)
    requires dir.Valid()
    modifies dir
    ensures dir.Valid() && Extends(old(dir.trace), dir.trace)
    ensures OverwritingSince(old(dir.entries), dir.trace, |old(dir.trace)|, output, DumpIn(env, file))
    ensures !Verified(env, file) ==> !ok && dir.entries == old(dir.entries) && dir.trace == old(dir.trace)
    ensures ok ==>
              && Verified(env, file) && POSTGRES_CUSTOM_MAGIC <= DumpIn(env, file)
              && dir.entries == (if WritesHere(old(dir.entries), output) then
                                  old(dir.entries)[output := FileEntry(DumpIn(env, file))]
                                 else old(dir.entries))
    ensures (forall t :: !dir.fails(t)) ==>
              (ok <==> Verified(env, file) && (output in old(dir.entries) ==> !old(dir.entries)[output].DirEntry?))
  {
    VerifiedManifest(env, file);
    var verdict := VerifyArtifact(env, file);
    if !verdict.Accepted? {
      return false;
    }
    VerifiedDump(env, file);
    var dump := DumpIn(env, file);
    ok := WriteDump(dir, output, dump);
  }

  lemma VerifiedDump(env: Env, file: Option<Node>)
    requires Verified(env, file)
    ensures POSTGRES_CUSTOM_MAGIC <= DumpIn(env, file)
    ensures PayloadOf(MembersIn(env, file), DATABASE_ARCHIVE_PATH) == Some(DumpIn(env, file))
  {
    hide NamesOk, ManifestOk, UploadsOk, Matches, PayloadOf, ManifestIn;
  }

  method WriteDump(dir: Folder, output: string, dump: Bytes) returns (ok: bool)
    requires dir.Valid()
    modifies dir
    ensures dir.Valid() && Extends(old(dir.trace), dir.trace)
    ensures OverwritingSince(old(dir.entries), dir.trace, |old(dir.trace)|, output, dump)
    ensures ok ==>
              dir.entries == if WritesHere(old(dir.entries), output) then old(dir.entries)[output := FileEntry(dump)]
                  else old(dir.entries)
    ensures (forall t :: !dir.fails(t)) ==>
              (ok <==> (output in old(dir.entries) ==> !old(dir.entries)[output].DirEntry?))
  {
    hide OnlyAt;
    ghost var before, origin := dir.entries, dir.trace;
    var fault := dir.Tick();
    if fault {
      return false;
    }
    fault := dir.Tick();
    if fault || (output in dir.entries && dir.entries[output].DirEntry?) {
      return false;
    }
    var here := WritesHere(dir.entries, output);
    if here {
      PartIsOverwriting(before, output, dump, 0);
      assert dump[..0] == [];
      dir.Write(output, FileEntry([]));
    }
    var k := 0;
    while k < |dump|
      invariant dir.Valid() && Extends(origin, dir.trace) && k <= |dump|
      invariant OverwritingSince(before, dir.trace, |origin|, output, dump)
      invariant dir.entries == if here then before[output := FileEntry(dump[..k])] else before
    {
      fault := dir.Tick();
      if fault {
        return false;
      }
      k := if k + COPY_BUFFER_BYTES < |dump| then k + COPY_BUFFER_BYTES else |dump|;
      if here {
        PartIsOverwriting(before, output, dump, k);
        dir.Write(output, FileEntry(dump[..k]));
        assert dir.entries == before[output := FileEntry(dump[..k])];
      }
    }
    assert dump[..|dump|] == dump;
    fault := dir.Tick();
    if fault {
      return false;
    }
    fault := dir.Tick();
    ok := !fault;
  }

  lemma PartIsOverwriting(before: Entries, output: string, dump: Bytes, k: nat)
    requires k <= |dump| && WritesHere(before, output)
    ensures Overwriting(before, before[output := FileEntry(dump[..k])], output, dump)
  {
  }

  /** Create the staging directory and unpack every upload into it. */
  method ExtractUploads(env: Env, file: Option<Node>, dir: Folder, staging: string) returns (ok: bool)
    requires dir.Valid() && staging !in dir.entries
    modifies dir
    ensures dir.Valid() && Extends(old(dir.trace), dir.trace)
    ensures OnlyAtSince(old(dir.entries), dir.trace, |old(dir.trace)|, staging)
            && OnlyAt(old(dir.entries), dir.entries, staging)
    ensures staging in dir.entries ==> dir.entries[staging].DirEntry?
    ensures ok ==>
              Verified(env, file) && staging in dir.entries
                  && IsUnpacked(dir.entries[staging].tree, UploadsIn(env, file))
    ensures (forall t :: !dir.fails(t)) ==> (ok <==> Verified(env, file) && NoNesting(UploadsIn(env, file)))
  {
    VerifiedManifest(env, file);
    var verdict := VerifyArtifact(env, file);
    if !verdict.Accepted? {
      return false;
    }
    var members := env.untar(file.value.data).value;
    var rows := ArtifactIntegrity.Rows(verdict.manifest);
    VerifiedRows(env, file);
    ok := UnpackRows(env, members, rows, dir, staging);
  }

  /** One change to the staging directory, unless it fails. */
  method Restage(dir: Folder, staging: string, tree: Tree, ghost before: Entries, ghost origin: seq<Entries>)
    returns (ok: bool)
    requires dir.Valid() && Extends(origin, dir.trace)
    requires OnlyAtSince(before, dir.trace, |origin|, staging) && OnlyAt(before, dir.entries, staging)
    modifies dir
    ensures dir.Valid() && Extends(origin, dir.trace)
    ensures OnlyAtSince(before, dir.trace, |origin|, staging) && OnlyAt(before, dir.entries, staging)
    ensures ok <==> !dir.fails(old(dir.clock))
    ensures ok ==> staging in dir.entries && dir.entries[staging] == DirEntry(tree)
    ensures !ok ==> dir.entries == old(dir.entries)
  {
    var fault := dir.Tick();
    if fault {
      return false;
    }
    dir.Write(staging, DirEntry(tree));
    ok := true;
  }

  /** Make the folders, create the file exclusively, then fill it. */
  method UnpackFile(dir: Folder, staging: string, tree: Tree, destination: Path, data: Bytes, ghost before: Entries,
                    ghost origin: seq<Entries>) returns (ok: bool, next: Tree)
    requires dir.Valid() && Extends(origin, dir.trace) && |destination| > 0
    requires OnlyAtSince(before, dir.trace, |origin|, staging) && OnlyAt(before, dir.entries, staging)
    requires staging in dir.entries && dir.entries[staging].DirEntry?
    modifies dir
    ensures dir.Valid() && Extends(origin, dir.trace)
    ensures OnlyAtSince(before, dir.trace, |origin|, staging) && OnlyAt(before, dir.entries, staging)
    ensures staging in dir.entries && dir.entries[staging].DirEntry?
    ensures ok ==> PutFile(tree, destination, data) == Some(next) && dir.entries[staging] == DirEntry(next)
    ensures (forall t :: !dir.fails(t)) ==> (ok <==> PutFile(tree, destination, data).Some?)
  {
    hide AddFolders, OnlyAtSince, OnlyAt, Extends;
    next := tree;
    var folders := AddFolders(tree, Parent(destination));
    if folders == None {
      return false, next;
    }
    ok := Restage(dir, staging, folders.value, before, origin);
    if !ok {
      return;
    }
    if destination in folders.value {
      return false, next;
    }
    ok := Restage(dir, staging, folders.value[destination := File([])], before, origin);
    if !ok {
      return;
    }
    next := folders.value[destination := File(data)];
    assert folders.value[destination := File([])][destination := File(data)] == next;
    ok := Restage(dir, staging, next, before, origin);
  }

  method UnpackRows(env: Env, members: seq<Member>, rows: seq<Json>, dir: Folder, staging: string) returns (ok: bool)
    requires dir.Valid() && staging !in dir.entries && RowsVerified(env, members, rows)
    modifies dir
    ensures dir.Valid() && Extends(old(dir.trace), dir.trace)
    ensures OnlyAtSince(old(dir.entries), dir.trace, |old(dir.trace)|, staging)
            && OnlyAt(old(dir.entries), dir.entries, staging)
    ensures staging in dir.entries ==> dir.entries[staging].DirEntry?
    ensures ok ==> staging in dir.entries && IsUnpacked(dir.entries[staging].tree, RowFiles(env, members, rows))
    ensures (forall t :: !dir.fails(t)) ==> (ok <==> NoNesting(RowFiles(env, members, rows)))
  {
    Untouched(dir.entries, dir.trace, staging);
    hide RowKey, RowOk, NamesOk, Payload, GoodPath, Names, IsUnpacked, Above, RowsVerified, PutFile, OnlyAtSince,
         OnlyAt, Extends;
    ghost var before, origin := dir.entries, dir.trace;
    var tree: Tree := map[];
    ok := Restage(dir, staging, tree, before, origin);
    if !ok {
      return;
    }
    NothingUnpacked();
    for i := 0 to |rows|
      invariant dir.Valid() && Extends(origin, dir.trace)
      invariant OnlyAtSince(before, dir.trace, |origin|, staging) && OnlyAt(before, dir.entries, staging)
      invariant staging in dir.entries && dir.entries[staging] == DirEntry(tree)
      invariant IsUnpacked(tree, RowFiles(env, members, rows[..i])) && NoNesting(RowFiles(env, members, rows[..i]))
    {
      NextRow(env, members, rows, i);
      var key := RowKey(env, rows[i]);
      FileStep(tree, RowFiles(env, members, rows[..i]), Names(key), Payload(members, key),
               RowFiles(env, members, rows));
      RowFilesGrow(env, members, rows, i + 1);
      ok, tree := UnpackFile(dir, staging, tree, Names(key), Payload(members, key), before, origin);
      if !ok {
        return;
      }
    }
    assert rows[..|rows|] == rows;
    ok := true;
  }

  /** The next file goes in exactly when it does not nest with the earlier ones; if it does, no later row can mend
      it. */
  lemma FileStep(tree: Tree, files: map<Path, Bytes>, p: Path, data: Bytes, all: map<Path, Bytes>)
    requires IsUnpacked(tree, files) && GoodPath(p) && p !in files && NoNesting(files) && |p| > 0
    ensures PutFile(tree, p, data).Some? <==> NoNesting(files[p := data])
    ensures PutFile(tree, p, data).Some? ==> IsUnpacked(PutFile(tree, p, data).value, files[p := data])
    ensures NoNesting(all) && (forall q :: q in files[p := data] ==> q in all) ==> NoNesting(files[p := data])
  {
    hide GoodPath, IsUnpacked, PutFile, Above;
    PutFileUnpacks(tree, files, p, data);
    NestingStep(files, p, data);
  }

  lemma Untouched(before: Entries, trace: seq<Entries>, name: string)
    ensures Extends(trace, trace) && OnlyAtSince(before, trace, |trace|, name) && OnlyAt(before, before, name)
  {
  }

  lemma NothingUnpacked()
    ensures IsUnpacked(map[], map[])
  {
  }

  lemma NestingStep(files: map<Path, Bytes>, p: Path, data: Bytes)
    requires NoNesting(files) && p !in files
    ensures NoNesting(files[p := data]) <==> forall q :: q in files ==> !Above(q, p) && !Above(p, q)
  {
  }

  // ---------------------------------------------------------------- removal and installation

  /** `shutil.rmtree`: entries go one at a time, and any removal may fail. */
  method RemoveTree(dir: Folder, name: string) returns (ok: bool)
    requires dir.Valid() && name in dir.entries && dir.entries[name].DirEntry?
    modifies dir
    ensures dir.Valid() && Extends(old(dir.trace), dir.trace)
    ensures OnlyAtSince(old(dir.entries), dir.trace, |old(dir.trace)|, name)
            && OnlyAt(old(dir.entries), dir.entries, name)
    ensures ok ==> dir.entries == old(dir.entries) - {name}
    ensures (forall t :: !dir.fails(t)) ==> ok
  {
    Untouched(dir.entries, dir.trace, name);
    hide OnlyAtSince, OnlyAt, Extends;
    ghost var before, origin := dir.entries, dir.trace;
    var tree := dir.entries[name].tree;
    while tree != map[]
      invariant dir.Valid() && Extends(origin, dir.trace)
      invariant OnlyAtSince(before, dir.trace, |origin|, name) && OnlyAt(before, dir.entries, name)
      invariant name in dir.entries
      decreases |tree|
    {
      TreeHasEntry(tree);
      var p :| p in tree;
      ok := Restage(dir, name, tree - {p}, before, origin);
      if !ok {
        return;
      }
      tree := tree - {p};
    }
    var fault := dir.Tick();
    if fault {
      return false;
    }
    RemovedAt(before, dir.entries, dir.trace, |origin|, name);
    ExtendsMore(origin, dir.trace, dir.entries - {name});
    dir.Forget(name);
    ok := true;
  }

  lemma TreeHasEntry(tree: Tree)
    ensures tree == map[] || exists p :: p in tree
  {
    if !exists p :: p in tree {
      assert tree == map[];
    }
  }

  lemma RemovedAt(before: Entries, now: Entries, trace: seq<Entries>, start: nat, name: string)
    requires OnlyAtSince(before, trace, start, name) && OnlyAt(before, now, name)
    ensures OnlyAt(before, now - {name}, name) && OnlyAtSince(before, trace + [now - {name}], start, name)
    ensures name in before ==> now - {name} == before - {name}
  {
    forall other | other != name
      ensures other in now <==> other in before
      ensures other in now ==> now[other] == before[other]
    {
      assert Lookup(now, other) == Lookup(before, other);
    }
  }

  lemma ExtendsMore(origin: seq<Entries>, trace: seq<Entries>, next: Entries)
    requires Extends(origin, trace)
    ensures Extends(origin, trace + [next])
  {
  }

  /** How an installation ends; all but the first are exceptions in the source. */
  datatype Installation = Installed | Refused | RolledBack | Stranded | Lingering

  /** The target is its old self, or the staged tree, or away with its old self whole under the other name. */
  ghost predicate Whole(before: Entries, now: Entries, source: string, target: string, previous: string) {
    && (|| Lookup(now, target) == Lookup(before, target)
        || (Lookup(now, target) == Lookup(before, source) && source in before && before[source].DirEntry?)
        || (target !in now && target in before && Lookup(now, previous) == Lookup(before, target)))
    && forall name :: name != source && name != target && name != previous ==> Lookup(now, name) == Lookup(before, name)
  }

  ghost predicate WholeSince(before: Entries, trace: seq<Entries>, start: nat, source: string, target: string,
                             previous: string) {
    forall k :: start <= k < |trace| ==> Whole(before, trace[k], source, target, previous)
  }

  predicate PlainTree(e: Entry) {
    e.DirEntry? && forall p :: p in e.tree ==> e.tree[p].File? || e.tree[p].Folder?
  }

  predicate Installable(before: Entries, source: string, target: string, sameParent: bool) {
    && source in before && PlainTree(before[source]) && sameParent && source != target
    && (target in before ==> before[target].DirEntry?)
  }

  /** Move the old tree aside, move the staged tree in, and drop the old one; undo the first move if the second fails.
      One failure alone never leaves the old tree aside. */
  method InstallStagedUploads(dir: Folder, source: string, target: string, previous: string, sameParent: bool)
    returns (r: Installation)
    requires dir.Valid() && previous !in dir.entries && previous != source && previous != target
    modifies dir
    ensures dir.Valid() && Extends(old(dir.trace), dir.trace)
    ensures WholeSince(old(dir.entries), dir.trace, |old(dir.trace)|, source, target, previous)
    ensures r.Installed? ==>
              Installable(old(dir.entries), source, target, sameParent)
                  && dir.entries == Renamed(old(dir.entries), source, target)
    ensures r.Refused? || r.RolledBack? ==> dir.entries == old(dir.entries)
    ensures r.Lingering? ==>
              source in old(dir.entries) && OnlyAt(Renamed(old(dir.entries), source, target), dir.entries, previous)
    ensures r.Stranded? ==> target in old(dir.entries) && dir.entries == Renamed(old(dir.entries), target, previous)
    ensures (forall t :: !dir.fails(t)) ==>
              (r.Installed? <==> Installable(old(dir.entries), source, target, sameParent)) && !r.Stranded?
                  && !r.Lingering?
    ensures r.Stranded? && source != target ==> exists t, u :: t < u && dir.fails(t) && dir.fails(u)
  {
    ghost var before, origin := dir.entries, dir.trace;
    var fault := dir.Tick();
    if fault || source !in dir.entries || !dir.entries[source].DirEntry? {
      return Refused;
    }
    fault := dir.Tick();
    if fault || !sameParent {
      return Refused;
    }
    fault := dir.Tick();
    if fault || !PlainTree(dir.entries[source]) {
      return Refused;
    }
    if Exists(dir.entries, target) {
      if !dir.entries[target].DirEntry? {
        return Refused;
      }
      var aside := dir.Rename(target, previous);
      if !aside {
        return Refused;
      }
    }
    r := Swap(dir, source, target, previous, before, origin);
  }

  /** The renames after the old tree has been moved aside, if there was one. */
  method Swap(dir: Folder, source: string, target: string, previous: string, ghost before: Entries,
              ghost origin: seq<Entries>)
    returns (r: Installation)
    requires dir.Valid() && previous !in before && previous != source && previous != target
    requires source in before
    requires if Exists(before, target) then before[target].DirEntry?
             && dir.entries == Renamed(before, target, previous) else dir.entries == before
    requires before[source].DirEntry?
    requires Extends(origin, dir.trace) && WholeSince(before, dir.trace, |origin|, source, target, previous)
    modifies dir
    ensures dir.Valid() && Extends(origin, dir.trace)
            && WholeSince(before, dir.trace, |origin|, source, target, previous)
    ensures r.Installed? ==>
              && source != target && (target in before ==> before[target].DirEntry?)
              && dir.entries == Renamed(before, source, target)
    ensures r.Refused? || r.RolledBack? ==> dir.entries == before
    ensures r.Lingering? ==> OnlyAt(Renamed(before, source, target), dir.entries, previous)
    ensures r.Stranded? ==> target in before && dir.entries == Renamed(before, target, previous)
    ensures (forall t :: !dir.fails(t)) ==>
              (r.Installed? <==> source != target && (target in before ==> before[target].DirEntry?)) && !r.Stranded?
                  && !r.Lingering?
    ensures r.Stranded? && source != target ==> exists t, u :: t < u && dir.fails(t) && dir.fails(u)
  {
    hide WholeSince, Whole, Extends, PlainTree, OnlyAt, OnlyAtSince;
    ghost var middle := dir.entries;
    SwapMoves(before, middle, source, target, previous);
    ghost var trace, moment := dir.trace, dir.clock;
    var moved := dir.Rename(source, target);
    if !moved {
      if Exists(dir.entries, previous) && !Exists(dir.entries, target) {
        var back := dir.Rename(previous, target);
        if !back {
          assert source != target ==> dir.fails(moment) && dir.fails(moment + 1);
          return Stranded;
        }
        OneMoreWhole(before, origin, trace, before, source, target, previous);
        return RolledBack;
      }
      return RolledBack;
    }
    ghost var now := dir.entries;
    OneMoreWhole(before, origin, trace, now, source, target, previous);
    if Exists(dir.entries, previous) {
      trace := dir.trace;
      var removed := RemoveTree(dir, previous);
      DroppingIsWhole(before, now, dir.entries, origin, trace, dir.trace, source, target, previous);
      if !removed {
        return Lingering;
      }
    }
    var fault := dir.Tick();
    r := if fault then Lingering else Installed;
  }

  /** Where the two renames lead. */
  lemma SwapMoves(before: Entries, middle: Entries, source: string, target: string, previous: string)
    requires previous !in before && previous != source && previous != target && source in before
             && before[source].DirEntry?
    requires if Exists(before, target) then before[target].DirEntry? && middle == Renamed(before, target, previous)
             else middle == before
    ensures previous in middle <==> Exists(before, target)
    ensures previous in middle ==>
              target in before && Renamed(middle, previous, target) == before && middle[previous].DirEntry?
                  && target !in middle
    ensures Whole(before, before, source, target, previous)
    ensures CanRename(middle, source, target) <==> source != target && (target in before ==> before[target].DirEntry?)
    ensures CanRename(middle, source, target) ==>
              var now := Renamed(middle, source, target);
              && Whole(before, now, source, target, previous)
              && now - {previous} == Renamed(before, source, target)
              && OnlyAt(Renamed(before, source, target), now, previous)
              && (previous in now <==> previous in middle) && (previous in now ==> now[previous].DirEntry?)
              && Lookup(now, target) == Lookup(before, source)
    ensures previous !in middle ==> middle == before
  {
    if previous in middle {
      assert Renamed(middle, previous, target) == before;
    }
    if CanRename(middle, source, target) {
      var now := Renamed(middle, source, target);
      assert now - {previous} == Renamed(before, source, target);
    }
  }

  lemma OneMoreWhole(before: Entries, origin: seq<Entries>, trace: seq<Entries>, next: Entries, source: string,
                     target: string, previous: string)
    requires Extends(origin, trace) && WholeSince(before, trace, |origin|, source, target, previous)
    requires Whole(before, next, source, target, previous)
    ensures Extends(origin, trace + [next]) && WholeSince(before, trace + [next], |origin|, source, target, previous)
  {
    hide Whole;
  }

  /** Dropping the old tree, however far it gets, leaves the new one whole. */
  lemma DroppingIsWhole(before: Entries, now: Entries, end: Entries, origin: seq<Entries>, trace: seq<Entries>,
                        after: seq<Entries>, source: string, target: string, previous: string)
    requires previous != source && previous != target && source in before && before[source].DirEntry?
    requires Extends(origin, trace) && WholeSince(before, trace, |origin|, source, target, previous)
             && Extends(trace, after)
    requires Whole(before, now, source, target, previous) && Lookup(now, target) == Lookup(before, source)
    requires OnlyAtSince(now, after, |trace|, previous) && OnlyAt(now, end, previous)
    ensures Extends(origin, after) && WholeSince(before, after, |origin|, source, target, previous)
    ensures OnlyAt(Renamed(before, source, target), now, previous) ==>
              OnlyAt(Renamed(before, source, target), end, previous)
  {
    forall k | |origin| <= k < |after|
      ensures Whole(before, after[k], source, target, previous)
    {
      if k < |trace| {
        assert after[k] == trace[k];
      } else {
        assert OnlyAt(now, after[k], previous);
      }
    }
  }

  // ---------------------------------------------------------------- restoring

  function StagingName(target: string, uuid: string): string {
    "." + target + ".restore-" + uuid
  }

  function PreviousName(target: string, uuid: string): string {
    "." + target + ".previous-" + uuid
  }

  lemma NamesAreApart(target: string, a: string, b: string)
    ensures StagingName(target, a) != target && PreviousName(target, b) != target
            && StagingName(target, a) != PreviousName(target, b)
  {
    assert |StagingName(target, a)| > |target| && |PreviousName(target, b)| > |target|;
    assert StagingName(target, a)[|target| + 2] == 'r' && PreviousName(target, b)[|target| + 2] == 'p';
  }

  ghost predicate Unpacks(env: Env, file: Option<Node>, e: Option<Entry>) {
    e.Some? && e.value.DirEntry? && Verified(env, file) && IsUnpacked(e.value.tree, UploadsIn(env, file))
  }

  /** The target is its old self, or the artifact's uploads, or away with its old self whole under the other name. */
  ghost predicate Restoring(env: Env, file: Option<Node>, before: Entries, now: Entries, target: string,
                            staging: string, previous: string) {
    && (|| Lookup(now, target) == Lookup(before, target)
        || Unpacks(env, file, Lookup(now, target))
        || (target !in now && target in before && Lookup(now, previous) == Lookup(before, target)))
    && forall name :: name != staging && name != target && name != previous ==>
        Lookup(now, name) == Lookup(before, name)
  }

  ghost predicate RestoringSince(env: Env, file: Option<Node>, before: Entries, trace: seq<Entries>, start: nat,
                                 target: string, staging: string, previous: string) {
    forall k :: start <= k < |trace| ==> Restoring(env, file, before, trace[k], target, staging, previous)
  }

  lemma StagingIsSafe(env: Env, file: Option<Node>, before: Entries, trace: seq<Entries>, start: nat, target: string,
                      staging: string, previous: string)
    requires OnlyAtSince(before, trace, start, staging) && staging != target
    ensures RestoringSince(env, file, before, trace, start, target, staging, previous)
  {
    hide Unpacks;
    forall k | start <= k < |trace|
      ensures Restoring(env, file, before, trace[k], target, staging, previous)
    {
      assert OnlyAt(before, trace[k], staging);
    }
  }

  lemma WholeIsSafe(env: Env, file: Option<Node>, before: Entries, middle: Entries, now: Entries, target: string,
                    staging: string, previous: string)
    requires OnlyAt(before, middle, staging) && staging != target && staging != previous
    requires Unpacks(env, file, Lookup(middle, staging)) && Whole(middle, now, staging, target, previous)
    ensures Restoring(env, file, before, now, target, staging, previous)
  {
    hide Unpacks;
    assert Lookup(middle, target) == Lookup(before, target);
  }

  lemma InstallIsSafe(env: Env, file: Option<Node>, before: Entries, middle: Entries, origin: seq<Entries>,
                      trace: seq<Entries>, after: seq<Entries>, target: string, staging: string, previous: string)
    requires OnlyAt(before, middle, staging) && staging != target && staging != previous
             && Unpacks(env, file, Lookup(middle, staging))
    requires Extends(origin, trace) && RestoringSince(env, file, before, trace, |origin|, target, staging, previous)
    requires Extends(trace, after) && WholeSince(middle, after, |trace|, staging, target, previous)
    ensures Extends(origin, after) && RestoringSince(env, file, before, after, |origin|, target, staging, previous)
  {
    hide Unpacks, Whole, Restoring, OnlyAt;
    forall k | |origin| <= k < |after|
      ensures Restoring(env, file, before, after[k], target, staging, previous)
    {
      if k < |trace| {
        assert after[k] == trace[k];
      } else {
        WholeIsSafe(env, file, before, middle, after[k], target, staging, previous);
      }
    }
  }

  lemma SweepIsSafe(env: Env, file: Option<Node>, before: Entries, middle: Entries, origin: seq<Entries>,
                    trace: seq<Entries>, after: seq<Entries>, target: string, staging: string, previous: string)
    requires staging != target && staging != previous
    requires Extends(origin, trace) && RestoringSince(env, file, before, trace, |origin|, target, staging, previous)
    requires Restoring(env, file, before, middle, target, staging, previous)
    requires Extends(trace, after) && OnlyAtSince(middle, after, |trace|, staging)
    ensures Extends(origin, after) && RestoringSince(env, file, before, after, |origin|, target, staging, previous)
  {
    hide Unpacks;
    forall k | |origin| <= k < |after|
      ensures Restoring(env, file, before, after[k], target, staging, previous)
    {
      if k < |trace| {
        assert after[k] == trace[k];
      } else {
        assert OnlyAt(middle, after[k], staging);
        assert Lookup(after[k], target) == Lookup(middle, target)
            && Lookup(after[k], previous) == Lookup(middle, previous);
      }
    }
  }

  /** Whatever fails and wherever it stops, no moment shows a part of a tree at the target. */
  method RestoreUploads(env: Env, file: Option<Node>, dir: Folder, target: string, uuid: string, other: string)
    returns (r: Installation, swept: bool)
    requires dir.Valid() && StagingName(target, uuid) !in dir.entries && PreviousName(target, other) !in dir.entries
    modifies dir
    ensures dir.Valid() && Extends(old(dir.trace), dir.trace)
    ensures RestoringSince(env, file, old(dir.entries), dir.trace, |old(dir.trace)|, target,
                           StagingName(target, uuid), PreviousName(target, other))
    ensures r.Installed? ==>
              && Unpacks(env, file, Lookup(dir.entries, target))
              && dir.entries == old(dir.entries)[target := dir.entries[target]]
    ensures r.Refused? || r.RolledBack? ==> OnlyAt(old(dir.entries), dir.entries, StagingName(target, uuid))
    ensures r.Installed? ==> swept
    ensures (forall t :: !dir.fails(t)) ==>
              && swept
              && (r.Installed? <==>
                    && Verified(env, file) && NoNesting(UploadsIn(env, file))
                    && (target in old(dir.entries) ==> old(dir.entries)[target].DirEntry?))
              && (!r.Installed? ==> dir.entries == old(dir.entries))
  {
    var staging, previous := StagingName(target, uuid), PreviousName(target, other);
    NamesAreApart(target, uuid, other);
    hide StagingName, PreviousName, Verified, UploadsIn, Restoring, RestoringSince, OnlyAtSince, WholeSince, Extends,
         NoNesting, Unpacks, OnlyAt, PlainTree, IsUnpacked;
    ghost var before, origin := dir.entries, dir.trace;
    NamesStay(before, staging, previous);
    var extracted := ExtractUploads(env, file, dir, staging);
    StagingIsSafe(env, file, before, dir.trace, |origin|, target, staging, previous);
    ghost var middle, trace := dir.entries, dir.trace;
    r := Refused;
    if extracted {
      StagedTree(env, file, middle, staging);
      r := InstallStagedUploads(dir, staging, target, previous, true);
      InstallIsSafe(env, file, before, middle, origin, trace, dir.trace, target, staging, previous);
      AfterInstall(before, middle, dir.entries, target, staging, previous, r);
    }
    ghost var end := dir.entries;
    trace := dir.trace;
    LastIsSafe(env, file, before, origin, trace, end, target, staging, previous);
    AfterSweep(before, end, staging);
    swept := true;
    if Exists(dir.entries, staging) {
      swept := RemoveTree(dir, staging);
      SweepIsSafe(env, file, before, end, origin, trace, dir.trace, target, staging, previous);
    }
  }

  lemma NamesStay(before: Entries, staging: string, previous: string)
    requires previous !in before && staging != previous
    ensures forall now :: OnlyAt(before, now, staging) ==> previous !in now
  {
    forall now | OnlyAt(before, now, staging)
      ensures previous !in now
    {
      assert Lookup(now, previous) == Lookup(before, previous);
    }
  }

  lemma StagedTree(env: Env, file: Option<Node>, middle: Entries, staging: string)
    requires Verified(env, file) && staging in middle && middle[staging].DirEntry?
             && IsUnpacked(middle[staging].tree, UploadsIn(env, file))
    ensures Unpacks(env, file, Lookup(middle, staging)) && PlainTree(middle[staging])
  {
    hide Verified, UploadsIn;
  }

  /** What an installation leaves of the staging directory and of everything else. */
  lemma AfterInstall(before: Entries, middle: Entries, end: Entries, target: string, staging: string,
                     previous: string, r: Installation)
    requires staging !in before && previous !in before && staging != target && staging != previous && previous != target
    requires OnlyAt(before, middle, staging) && staging in middle && middle[staging].DirEntry? && previous !in middle
    requires r.Installed? ==> end == Renamed(middle, staging, target)
    requires r.Refused? || r.RolledBack? ==> end == middle
    requires r.Lingering? ==> OnlyAt(Renamed(middle, staging, target), end, previous)
    requires r.Stranded? ==> target in middle && end == Renamed(middle, target, previous)
    ensures Lookup(middle, target) == Lookup(before, target)
    ensures staging in end ==> end[staging].DirEntry?
    ensures r.Installed? ==>
              staging !in end && end == before[target := middle[staging]]
                  && Lookup(end, target) == Lookup(middle, staging)
  {
    assert Lookup(middle, target) == Lookup(before, target);
    assert middle - {staging} == before by {
      forall name | name != staging
        ensures name in middle <==> name in before
        ensures name in middle ==> middle[name] == before[name]
      {
        assert Lookup(middle, name) == Lookup(before, name);
      }
    }
    if r.Lingering? {
      assert Lookup(end, staging) == Lookup(Renamed(middle, staging, target), staging) == None;
    }
  }

  lemma AfterSweep(before: Entries, end: Entries, staging: string)
    requires staging !in before
    ensures OnlyAt(before, end, staging) ==> end - {staging} == before
    ensures OnlyAt(before, end, staging) && staging !in end ==> end == before
    ensures forall now :: OnlyAt(before, end, staging) && OnlyAt(end, now, staging) ==> OnlyAt(before, now, staging)
  {
    if OnlyAt(before, end, staging) {
      forall name | name != staging
        ensures name in end <==> name in before
        ensures name in end ==> end[name] == before[name]
      {
        assert Lookup(end, name) == Lookup(before, name);
      }
    }
  }

  lemma LastIsSafe(env: Env, file: Option<Node>, before: Entries, origin: seq<Entries>, trace: seq<Entries>,
                   now: Entries, target: string, staging: string, previous: string)
    requires |origin| > 0 && origin[|origin| - 1] == before && Extends(origin, trace) && trace[|trace| - 1] == now
    requires RestoringSince(env, file, before, trace, |origin|, target, staging, previous)
    ensures Restoring(env, file, before, now, target, staging, previous)
  {
    hide Unpacks;
    if |trace| == |origin| {
      assert trace == origin;
    }
  }

  // ---------------------------------------------------------------- the round trip

  function ArchiveFile(env: Env, meta: ArtifactCreation.Meta, dump: Bytes, t: Tree): Option<Node> {
    Some(File(env.tar(ArtifactCreation.ArchiveOf(env, meta, dump, t))))
  }

  lemma ArchiveMembers(env: Env, meta: ArtifactCreation.Meta, dump: Bytes, t: Tree)
    requires Faithful(env) && ArtifactCreation.GoodNames(t)
    ensures MembersIn(env, ArchiveFile(env, meta, dump, t)) == ArtifactCreation.ArchiveOf(env, meta, dump, t)
  {
    hide Faithful, Archivable, ArtifactCreation.GoodNames, ArtifactCreation.ArchiveOf;
    ArtifactCreation.ArchiveIsArchivable(env, meta, dump, t);
    ArtifactCreation.ReadsBack(env, ArtifactCreation.ArchiveOf(env, meta, dump, t));
  }

  lemma ArchiveIsVerified(env: Env, meta: ArtifactCreation.Meta, dump: Bytes, t: Tree)
    requires Faithful(env) && ArtifactCreation.GoodNames(t) && POSTGRES_CUSTOM_MAGIC <= dump
    ensures var file := ArchiveFile(env, meta, dump, t);
            && MembersIn(env, file) == ArtifactCreation.ArchiveOf(env, meta, dump, t)
            && (Verified(env, file) <==> ArtifactCreation.ManifestFits(env, meta, dump, t))
            && (Verified(env, file) ==>
                 ManifestIn(env, MembersIn(env, file)) == ArtifactCreation.ManifestOf(env, meta, dump, t))
  {
    hide Faithful, Archivable, Acceptable, AcceptableFile, ManifestIn, ArtifactCreation.GoodNames,
         ArtifactCreation.ArchiveOf, ArtifactCreation.ManifestOf, ArtifactCreation.ManifestFits,
         POSTGRES_CUSTOM_MAGIC, MembersIn;
    var members := ArtifactCreation.ArchiveOf(env, meta, dump, t);
    ArchiveMembers(env, meta, dump, t);
    VerifiedManifest(env, ArchiveFile(env, meta, dump, t));
    ArtifactCreation.QuietArchiveAcceptedIff(env, meta, dump, t);
    ArtifactCreation.ArchiveIsArchivable(env, meta, dump, t);
    ArtifactCreation.AcceptsArchive(env, members);
  }

  lemma RowFilesOfPaths(env: Env, members: seq<Member>, t: Tree, paths: seq<Path>)
    requires Faithful(env) && RowsVerified(env, members, ArtifactCreation.RowsFor(env, t, paths))
    requires forall p :: p in paths ==> GoodPath(p)
    ensures forall p :: p in paths <==> p in RowFiles(env, members, ArtifactCreation.RowsFor(env, t, paths))
    ensures forall p :: p in paths ==>
              RowFiles(env, members, ArtifactCreation.RowsFor(env, t, paths))[p] == Payload(members, KeyOf(p))
  {
    hide Faithful, ArtifactCreation.Row, ArtifactCreation.DataAt, RowKey, KeyOf, Names, GoodPath, RowFiles,
         RowsVerified, Payload;
    var rows := ArtifactCreation.RowsFor(env, t, paths);
    RowFilesAre(env, members, rows);
    forall i | 0 <= i < |rows|
      ensures rows[i] in rows && paths[i] in paths && Names(RowKey(env, rows[i])) == paths[i]
    {
      assert paths[i] in paths;
      ArtifactCreation.RowReads(env, paths[i], ArtifactCreation.DataAt(t, paths[i]));
      KeyRoundTrip(paths[i]);
    }
    forall p | p in RowFiles(env, members, rows)
      ensures p in paths
    {
      var row :| row in rows && p == Names(RowKey(env, row));
      var i :| 0 <= i < |rows| && rows[i] == row;
    }
    forall p | p in paths
      ensures p in RowFiles(env, members, rows)
    {
      var i :| 0 <= i < |paths| && paths[i] == p;
      assert rows[i] in rows;
    }
  }

  lemma ArchiveRowsVerified(env: Env, meta: ArtifactCreation.Meta, dump: Bytes, t: Tree)
    requires Faithful(env) && ArtifactCreation.GoodNames(t)
    ensures RowsVerified(env, ArtifactCreation.ArchiveOf(env, meta, dump, t),
                         ArtifactCreation.RowsFor(env, t, ArtifactCreation.TreePaths(env, t)))
  {
    hide Faithful, ArtifactCreation.GoodNames, ArtifactCreation.ArchiveOf, ArtifactCreation.TreePaths,
         ArtifactCreation.RowsFor, NamesOk, RowOk, DistinctKeys, Listed;
    ArtifactCreation.ArchiveNames(env, meta, dump, t);
    ArtifactCreation.ArchiveRows(env, meta, dump, t);
  }

  lemma ArchiveRowFiles(env: Env, meta: ArtifactCreation.Meta, dump: Bytes, t: Tree)
    requires Faithful(env) && ArtifactCreation.GoodNames(t)
    ensures RowFiles(env, ArtifactCreation.ArchiveOf(env, meta, dump, t),
                     ArtifactCreation.RowsFor(env, t, ArtifactCreation.TreePaths(env, t))) == FilesOf(t)
  {
    hide Faithful, ArtifactCreation.GoodNames, ArtifactCreation.ArchiveOf, ArtifactCreation.TreePaths,
         ArtifactCreation.ManifestOf, ArtifactCreation.RowsFor, ArtifactCreation.DataAt, RowsVerified, PayloadOf,
         KeyOf, GoodPath, UploadMember, FilesOf, RowFiles, MANIFEST_NAME, DATABASE_ARCHIVE_PATH;
    ArtifactCreation.PathsAreGood(env, t);
    ArtifactCreation.ArchivePayloads(env, meta, dump, t);
    ArchiveRowsVerified(env, meta, dump, t);
    RowFilesOfPaths(env, ArtifactCreation.ArchiveOf(env, meta, dump, t), t, ArtifactCreation.TreePaths(env, t));
  }

  /** A backup of a quiet tree gives back the same dump and exactly the same files, and always unpacks. */
  lemma QuietRoundTrip(env: Env, meta: ArtifactCreation.Meta, dump: Bytes, t: Tree)
    requires Faithful(env) && WellFormed(t) && POSTGRES_CUSTOM_MAGIC <= dump
             && ArtifactCreation.ManifestFits(env, meta, dump, t)
    ensures var file := ArchiveFile(env, meta, dump, t);
            && Verified(env, file)
            && PayloadOf(MembersIn(env, file), DATABASE_ARCHIVE_PATH) == Some(dump)
            && UploadsIn(env, file) == FilesOf(t)
            && NoNesting(UploadsIn(env, file))
  {
    ArtifactCreation.WellFormedNames(t);
    ArchiveIsVerified(env, meta, dump, t);
    ArchiveUploads(env, meta, dump, t);
    ArtifactCreation.ArchivePayloads(env, meta, dump, t);
    hide *;
    TreesDoNotNest(t);
  }

  lemma ArchiveUploads(env: Env, meta: ArtifactCreation.Meta, dump: Bytes, t: Tree)
    requires Faithful(env) && ArtifactCreation.GoodNames(t) && POSTGRES_CUSTOM_MAGIC <= dump
             && ArtifactCreation.ManifestFits(env, meta, dump, t)
    ensures UploadsIn(env, ArchiveFile(env, meta, dump, t)) == FilesOf(t)
  {
    var rows := ArtifactCreation.RowsFor(env, t, ArtifactCreation.TreePaths(env, t));
    ArchiveIsVerified(env, meta, dump, t);
    ArchiveRowFiles(env, meta, dump, t);
    ArtifactCreation.ManifestReads(env, meta, dump, rows);
    ArtifactCreation.UploadsRead(rows);
    hide Faithful, ArtifactCreation.GoodNames, ArtifactCreation.ArchiveOf, ArtifactCreation.TreePaths,
         ArtifactCreation.Manifest, ArtifactCreation.UploadFields, ArtifactCreation.DatabaseFields,
         ArtifactCreation.RowsFor, ArtifactCreation.ManifestFits, RowFiles, FilesOf, ManifestIn, MembersIn,
         ArchiveFile, Verified, Get, POSTGRES_CUSTOM_MAGIC;
  }

  lemma TreesDoNotNest(t: Tree)
    requires WellFormed(t)
    ensures NoNesting(FilesOf(t))
  {
    hide WellFormed, Above;
    forall p, q | p in FilesOf(t) && q in FilesOf(t)
      ensures !Above(p, q)
    {
      FilesAreLeaves(t, p, q);
    }
  }

  /** What is restored is the old tree without its empty folders and special entries. */
  lemma RestoredTree(t: Tree, restored: Tree)
    requires WellFormed(t) && IsUnpacked(restored, FilesOf(t))
    ensures forall x :: x in restored ==> x in t && t[x] == restored[x]
    ensures restored == t <==> IsUnpacked(t, FilesOf(t))
  {
    hide WellFormed, FilesOf, Above;
    forall x | x in restored
      ensures x in t && t[x] == restored[x]
    {
      UnpackedInside(restored, t, FilesOf(t), x);
    }
    if IsUnpacked(t, FilesOf(t)) {
      UnpackedIsUnique(t, restored, FilesOf(t));
    }
  }

  /** Verification does not look for nested keys: an archive can verify and yet never unpack. */
  lemma NestedKeysVerify(env: Env, meta: ArtifactCreation.Meta, x: Bytes, y: Bytes)
    requires Faithful(env)
    requires ArtifactCreation.ManifestFits(env, meta, POSTGRES_CUSTOM_MAGIC,
                                           map[["a"] := File(x), ["a", "b"] := File(y)])
    ensures var file := ArchiveFile(env, meta, POSTGRES_CUSTOM_MAGIC, map[["a"] := File(x), ["a", "b"] := File(y)]);
            Verified(env, file) && !NoNesting(UploadsIn(env, file))
  {
    var t: Tree := map[["a"] := File(x), ["a", "b"] := File(y)];
    var p: Path, q: Path := ["a"], ["a", "b"];
    assert GoodPath(p) && GoodPath(q);
    assert p in FilesOf(t) && q in FilesOf(t) && Above(p, q);
    ArchiveIsVerified(env, meta, POSTGRES_CUSTOM_MAGIC, t);
    ArchiveUploads(env, meta, POSTGRES_CUSTOM_MAGIC, t);
  }
}
