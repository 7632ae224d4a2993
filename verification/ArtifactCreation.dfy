/** Building an artifact: hash everything, copy everything, verify, then publish by one rename. */
module ArtifactCreation {
  import opened Wrappers
  import opened StorageKeys
  import opened UploadTree
  import opened Artifact
  import opened Directory
  import ArtifactIntegrity

  /** What stands at the upload root: nothing, something that is no real directory, or a tree. */
  datatype Root = Absent | Unsafe | Real(tree: Tree)

  /** The disk at every moment, and what an unfinished archive holds. */
  datatype World = World(dump: nat -> Option<Node>, uploads: nat -> Root, partial: nat -> Bytes)

  /** At every moment the upload root is a well-formed tree, if it is one at all. */
  ghost predicate Disk(w: World) {
    forall t :: WellFormed(TreeAt(w.uploads(t)))
  }

  datatype Meta = Meta(createdAt: string, deploymentMode: string, databaseName: string)

  function TreeAt(root: Root): Tree {
    if root.Real? then root.tree else map[]
  }

  function Content(node: Option<Node>): Option<Bytes> {
    match node
    case Some(File(data)) => Some(data)
    case Some(Symlink(leadsTo)) => leadsTo
    case _ => None
  }

  // ---------------------------------------------------------------- what is written

  function Row(env: Env, path: Path, data: Bytes): Json {
    Obj(map["storage_key" := Str(KeyOf(path)), "size_bytes" := Int(|data|), "sha256" := Str(env.sha(data))])
  }

  function DatabaseFields(env: Env, meta: Meta, dump: Bytes): map<string, Json> {
    map[
      "name" := Str(meta.databaseName),
      "format" := Str("postgresql-custom"),
      "archive_path" := Str(DATABASE_ARCHIVE_PATH),
      "size_bytes" := Int(|dump|),
      "sha256" := Str(env.sha(dump))]
  }

  function UploadFields(rows: seq<Json>): map<string, Json> {
    map[
      "archive_prefix" := Str(UPLOADS_PREFIX + "/"),
      "file_count" := Int(|rows|),
      "total_size_bytes" := Int(TotalSize(rows)),
      "files" := Arr(rows)]
  }

  function Manifest(env: Env, meta: Meta, dump: Bytes, rows: seq<Json>): map<string, Json> {
    map[
      "schema_version" := Int(SCHEMA_VERSION),
      "application" := Str("portfolio-ai"),
      "created_at" := Str(meta.createdAt),
      "deployment_mode" := Str(meta.deploymentMode),
      "database" := Obj(DatabaseFields(env, meta, dump)),
      "uploads" := Obj(UploadFields(rows))]
  }

  function FilePaths(t: Tree, listing: seq<Path>): seq<Path> {
    if |listing| == 0 then []
    else
      var p := listing[|listing| - 1];
      var before := FilePaths(t, listing[..|listing| - 1]);
      if p in t && t[p].File? then before + [p] else before
  }

  function DataAt(t: Tree, p: Path): Bytes {
    match Reads(t, p) case Some(data) => data case None => []
  }

  function RowsFor(env: Env, t: Tree, paths: seq<Path>): seq<Json> {
    seq(|paths|, i requires 0 <= i < |paths| => Row(env, paths[i], DataAt(t, paths[i])))
  }

  function UploadMembers(t: Tree, paths: seq<Path>): seq<Member> {
    seq(|paths|, i requires 0 <= i < |paths| => Member(UploadMember(KeyOf(paths[i])), Regular, DataAt(t, paths[i])))
  }

  function TreePaths(env: Env, t: Tree): seq<Path> {
    FilePaths(t, env.listing(t))
  }

  function ManifestOf(env: Env, meta: Meta, dump: Bytes, t: Tree): map<string, Json> {
    Manifest(env, meta, dump, RowsFor(env, t, TreePaths(env, t)))
  }

  function Header(env: Env, manifest: map<string, Json>, dump: Bytes): seq<Member> {
    [Member(MANIFEST_NAME, Regular, env.dumps(Obj(manifest))), Member(DATABASE_ARCHIVE_PATH, Regular, dump)]
  }

  /** The archive of a dump and a tree that do not move. */
  function ArchiveOf(env: Env, meta: Meta, dump: Bytes, t: Tree): seq<Member> {
    Header(env, ManifestOf(env, meta, dump, t), dump) + UploadMembers(t, TreePaths(env, t))
  }

  // ---------------------------------------------------------------- a disk at rest

  /** Nothing fails, nothing moves, and there is a dump and a tree to back up. */
  ghost predicate AtRest(w: World, fails: nat -> bool, dump: Bytes, root: Root) {
    && (forall t :: !fails(t) && w.dump(t) == Some(File(dump)) && w.uploads(t) == root)
    && POSTGRES_CUSTOM_MAGIC <= dump
    && root != Unsafe
    && WellFormed(TreeAt(root))
    && forall p :: p in TreeAt(root) ==> !TreeAt(root)[p].Symlink?
  }

  /** The dump and the uploads do not move, whatever they are. */
  ghost predicate Steady(w: World, found: Option<Node>, root: Root) {
    forall t :: w.dump(t) == found && w.uploads(t) == root
  }

  /** What can be backed up: a regular file in the custom format, and no upload root or one without symbolic links. */
  ghost predicate Sound(found: Option<Node>, root: Root) {
    && found.Some? && found.value.File? && [80, 71, 68, 77, 80] <= found.value.data
    && SoundRoot(root)
  }

  ghost predicate SoundRoot(root: Root) {
    root != Unsafe && forall p :: p in TreeAt(root) ==> !TreeAt(root)[p].Symlink?
  }

  predicate ManifestFits(env: Env, meta: Meta, dump: Bytes, t: Tree) {
    |env.dumps(Obj(ManifestOf(env, meta, dump, t)))| <= MAX_MANIFEST_BYTES
  }

  // ---------------------------------------------------------------- the two passes

  /** First pass: a row for every upload. */
  method HashUploads(env: Env, w: World, dir: Folder) returns (ok: bool, rows: seq<Json>, paths: seq<Path>)
    requires Disk(w) && Faithful(env)
    modifies dir`clock
    ensures (forall row :: row in rows ==> Plain(row)) && forall p :: p in paths ==> GoodPath(p)
    ensures forall dump, root :: AtRest(w, dir.fails, dump, root) ==>
              ok && paths == TreePaths(env, TreeAt(root)) && rows == RowsFor(env, TreeAt(root), paths)
    ensures forall found, root :: Steady(w, found, root) && ok ==> SoundRoot(root)
  {
    hide Lists, WellFormed, Row, Plain, GoodPath;
    rows, paths := [], [];
    var root := w.uploads(dir.clock);
    var fault := dir.Tick();
    if fault || root == Unsafe {
      return false, rows, paths;
    }
    if root == Absent {
      NothingToList(env);
      return true, rows, paths;
    }
    var listing := env.listing(root.tree);
    ListedPathsAreGood(env, root.tree);
    for k := 0 to |listing|
      invariant (forall row :: row in rows ==> Plain(row)) && forall p :: p in paths ==> GoodPath(p)
      invariant forall dump :: AtRest(w, dir.fails, dump, root) ==>
                  paths == FilePaths(root.tree, listing[..k]) && rows == RowsFor(env, root.tree, paths)
      invariant (exists found :: Steady(w, found, root)) ==> NoLinkIn(root.tree, listing[..k])
    {
      assert listing[..k + 1][..k] == listing[..k];
      var p := listing[k];
      var now := TreeAt(w.uploads(dir.clock));
      fault := dir.Tick();
      if fault || (p in now && now[p].Symlink?) {
        return false, rows, paths;
      }
      if p in now && now[p].File? {
        var data := Reads(TreeAt(w.uploads(dir.clock)), p);
        fault := dir.Tick();
        if fault || data == None {
          return false, rows, paths;
        }
        ghost var before := paths;
        RowIsPlain(env, p, data.value);
        rows := rows + [Row(env, p, data.value)];
        paths := paths + [p];
        assert RowsFor(env, root.tree, paths) == RowsFor(env, root.tree, before) + [Row(env, p, DataAt(root.tree, p))];
      }
    }
    assert listing[..|listing|] == listing;
    if NoLinkIn(root.tree, listing) {
      NoLinkAnywhere(env, root.tree);
    }
    ok := true;
  }

  ghost predicate NoLinkIn(t: Tree, listing: seq<Path>) {
    forall p :: p in listing && p in t ==> !t[p].Symlink?
  }

  lemma NoLinkAnywhere(env: Env, t: Tree)
    requires Faithful(env) && NoLinkIn(t, env.listing(t))
    ensures SoundRoot(Real(t))
  {
    assert Lists(env.listing(t), t);
  }

  lemma ListedPathsAreGood(env: Env, t: Tree)
    requires Faithful(env) && WellFormed(t)
    ensures forall i :: 0 <= i < |env.listing(t)| ==> GoodPath(env.listing(t)[i])
  {
    hide GoodPath;
    assert Lists(env.listing(t), t);
    assert forall i :: 0 <= i < |env.listing(t)| ==> env.listing(t)[i] in env.listing(t);
  }

  lemma RowIsPlain(env: Env, path: Path, data: Bytes)
    ensures Plain(Row(env, path, data))
  {
    hide KeyOf;
  }

  lemma ManifestIsPlain(env: Env, meta: Meta, dump: Bytes, rows: seq<Json>)
    requires forall row :: row in rows ==> Plain(row)
    ensures Plain(Obj(Manifest(env, meta, dump, rows)))
  {
    assert Plain(Obj(DatabaseFields(env, meta, dump)));
    assert Plain(Arr(rows));
    assert Plain(Obj(UploadFields(rows)));
    hide DatabaseFields, UploadFields;
  }

  lemma RowsArePlain(env: Env, t: Tree, paths: seq<Path>)
    ensures forall row :: row in RowsFor(env, t, paths) ==> Plain(row)
  {
    hide Row, Plain, DataAt;
    var rows := RowsFor(env, t, paths);
    forall row | row in rows
      ensures Plain(row)
    {
      var i :| 0 <= i < |rows| && rows[i] == row;
      RowIsPlain(env, paths[i], DataAt(t, paths[i]));
    }
  }

  lemma NothingToList(env: Env)
    ensures Faithful(env) ==> TreePaths(env, map[]) == [] && RowsFor(env, map[], []) == []
  {
    if Faithful(env) {
      var empty: Tree := map[];
      assert Lists(env.listing(empty), empty);
      var listing := env.listing(empty);
      assert forall i :: 0 <= i < |listing| ==> listing[i] in listing;
    }
  }

  /** Second pass: copy each upload at the size it now has; a file that shrinks under the copy is an error. */
  method CopyUploads(env: Env, w: World, dir: Folder, paths: seq<Path>) returns (ok: bool, members: seq<Member>)
    requires dir.Valid() && forall p :: p in paths ==> GoodPath(p)
    modifies dir`clock
    ensures dir.Valid() && Archivable(members)
    ensures forall dump, root :: AtRest(w, dir.fails, dump, root) && paths == TreePaths(env, TreeAt(root)) ==>
              ok && members == UploadMembers(TreeAt(root), paths)
  {
    hide Lists, WellFormed, GoodPath, ValidMemberName;
    members := [];
    for k := 0 to |paths|
      invariant dir.Valid() && Archivable(members)
      invariant forall dump, root :: AtRest(w, dir.fails, dump, root) && paths == TreePaths(env, TreeAt(root)) ==>
                  members == UploadMembers(TreeAt(root), paths[..k])
    {
      forall dump, root | AtRest(w, dir.fails, dump, root) && paths == TreePaths(env, TreeAt(root))
        ensures Reads(TreeAt(root), paths[k]) == Some(DataAt(TreeAt(root), paths[k]))
        ensures UploadMembers(TreeAt(root), paths[..k + 1]) == UploadMembers(TreeAt(root), paths[..k])
                  + [Member(UploadMember(KeyOf(paths[k])), Regular, DataAt(TreeAt(root), paths[k]))]
      {
        FilePathsAre(TreeAt(root), env.listing(TreeAt(root)));
        assert paths[k] in paths;
      }
      var sized := Reads(TreeAt(w.uploads(dir.clock)), paths[k]);
      var fault := dir.Tick();
      if fault || sized == None {
        return false, members;
      }
      var data := Reads(TreeAt(w.uploads(dir.clock)), paths[k]);
      fault := dir.Tick();
      if fault || data == None || |data.value| < |sized.value| {
        return false, members;
      }
      assert data.value[..|data.value|] == data.value;
      UploadMemberIsGood(paths[k]);
      var payload := data.value[..|sized.value|];
      members := members + [Member(UploadMember(KeyOf(paths[k])), Regular, payload)];
    }
    assert paths[..|paths|] == paths;
    ok := true;
  }

  lemma {:induction false} FilePathsAre(t: Tree, listing: seq<Path>)
    ensures forall p :: p in FilePaths(t, listing) <==> p in listing && p in t && t[p].File?
    ensures (forall i, j :: 0 <= i < j < |listing| ==> listing[i] != listing[j]) ==>
              forall i, j :: 0 <= i < j < |FilePaths(t, listing)| ==>
                  FilePaths(t, listing)[i] != FilePaths(t, listing)[j]
  {
    if |listing| > 0 {
      var n := |listing| - 1;
      var before := FilePaths(t, listing[..n]);
      assert listing == listing[..n] + [listing[n]];
      FilePathsAre(t, listing[..n]);
      forall i | 0 <= i < |before|
        ensures before[i] in listing[..n]
      {
        assert before[i] in before;
      }
    }
  }

  // ---------------------------------------------------------------- what verification makes of it

  lemma KeysAreInjective(p: Path, q: Path)
    requires GoodPath(p) && GoodPath(q) && UploadMember(KeyOf(p)) == UploadMember(KeyOf(q))
    ensures p == q
  {
    UploadMemberInjective(KeyOf(p), KeyOf(q));
    KeyRoundTrip(p);
    KeyRoundTrip(q);
  }

  lemma UploadMemberIsGood(p: Path)
    requires GoodPath(p)
    ensures var name := UploadMember(KeyOf(p));
            ValidMemberName(name) && IsUploadName(name) && name != MANIFEST_NAME && name != DATABASE_ARCHIVE_PATH
  {
    hide ValidMemberName;
    KeyRoundTrip(p);
    UploadMemberValidIff(KeyOf(p));
    FixedNamesAreValid();
    ArtifactIntegrity.PrefixIsUpload(KeyOf(p));
  }

  ghost predicate GoodNames(t: Tree) {
    forall p :: p in t ==> GoodPath(p)
  }

  lemma WellFormedNames(t: Tree)
    requires WellFormed(t)
    ensures GoodNames(t)
  {
  }

  lemma PathsAreGood(env: Env, t: Tree)
    requires Faithful(env) && GoodNames(t)
    ensures forall p :: p in TreePaths(env, t) <==> p in FilesOf(t)
    ensures forall p :: p in TreePaths(env, t) ==> GoodPath(p) && DataAt(t, p) == FilesOf(t)[p]
    ensures var paths := TreePaths(env, t); forall i, j :: 0 <= i < j < |paths| ==> paths[i] != paths[j]
  {
    FilePathsAre(t, env.listing(t));
    assert Lists(env.listing(t), t);
  }

  lemma ArchiveNames(env: Env, meta: Meta, dump: Bytes, t: Tree)
    requires Faithful(env) && GoodNames(t)
    ensures NamesOk(ArchiveOf(env, meta, dump, t))
  {
    hide ValidMemberName, IsUploadName, KeyOf, UploadMember, Faithful, GoodNames, ManifestOf, TreePaths;
    var paths := TreePaths(env, t);
    var members := ArchiveOf(env, meta, dump, t);
    PathsAreGood(env, t);
    FixedNamesAreValid();
    forall i | 0 <= i < |members|
      ensures ValidMemberName(members[i].name) && members[i].kind == Regular
      ensures i >= 2 ==> members[i].name != MANIFEST_NAME && members[i].name != DATABASE_ARCHIVE_PATH
    {
      if i >= 2 {
        assert paths[i - 2] in paths;
        UploadMemberIsGood(paths[i - 2]);
      }
    }
    forall i, j | 0 <= i < j < |members|
      ensures members[i].name != members[j].name
    {
      if i >= 2 {
        assert paths[i - 2] in paths && paths[j - 2] in paths;
        if members[i].name == members[j].name {
          KeysAreInjective(paths[i - 2], paths[j - 2]);
        }
      }
    }
  }

  lemma FileIsFound(members: seq<Member>, name: string, payload: Bytes)
    requires NamesOk(members) && Member(name, Regular, payload) in members
    ensures PayloadOf(members, name) == Some(payload)
  {
    hide ValidMemberName;
    MemberIsFound(members, Member(name, Regular, payload));
  }

  lemma ArchiveHolds(env: Env, meta: Meta, dump: Bytes, t: Tree, p: Path)
    requires Faithful(env) && GoodNames(t) && p in FilesOf(t)
    ensures Member(UploadMember(KeyOf(p)), Regular, FilesOf(t)[p]) in ArchiveOf(env, meta, dump, t)
  {
    PathsAreGood(env, t);
    hide KeyOf, UploadMember, Faithful, GoodNames, ManifestOf, TreePaths, FilesOf, DataAt, Header;
    var paths := TreePaths(env, t);
    assert p in paths;
    var i :| 0 <= i < |paths| && paths[i] == p;
    var copied := UploadMembers(t, paths);
    assert copied[i] == Member(UploadMember(KeyOf(p)), Regular, FilesOf(t)[p]);
    assert copied[i] in copied;
  }

  /** Looking a file up in the archive finds its bytes. */
  lemma ArchivePayloads(env: Env, meta: Meta, dump: Bytes, t: Tree)
    requires Faithful(env) && GoodNames(t)
    ensures var members := ArchiveOf(env, meta, dump, t);
            && PayloadOf(members, MANIFEST_NAME) == Some(env.dumps(Obj(ManifestOf(env, meta, dump, t))))
            && PayloadOf(members, DATABASE_ARCHIVE_PATH) == Some(dump)
            && forall p :: p in FilesOf(t) ==> PayloadOf(members, UploadMember(KeyOf(p))) == Some(FilesOf(t)[p])
  {
    ArchiveNames(env, meta, dump, t);
    hide NamesOk, KeyOf, UploadMember, Faithful, GoodNames, ManifestOf, TreePaths, FilesOf, PayloadOf, MANIFEST_NAME,
         DATABASE_ARCHIVE_PATH;
    var members := ArchiveOf(env, meta, dump, t);
    assert members[0] in members && members[1] in members;
    FileIsFound(members, MANIFEST_NAME, env.dumps(Obj(ManifestOf(env, meta, dump, t))));
    FileIsFound(members, DATABASE_ARCHIVE_PATH, dump);
    forall p | p in FilesOf(t)
      ensures PayloadOf(members, UploadMember(KeyOf(p))) == Some(FilesOf(t)[p])
    {
      ArchiveHolds(env, meta, dump, t, p);
      FileIsFound(members, UploadMember(KeyOf(p)), FilesOf(t)[p]);
    }
  }

  lemma RowReads(env: Env, path: Path, data: Bytes)
    requires Faithful(env) && GoodPath(path)
    ensures RowKey(env, Row(env, path, data)) == KeyOf(path) && RowSize(Row(env, path, data)) == |data|
    ensures SafeStorageKey(KeyOf(path)) && Row(env, path, data).Obj?
    ensures var fields := Row(env, path, data).fields;
            Get(fields, "size_bytes") == Int(|data|) && Get(fields, "sha256") == Str(env.sha(data))
  {
    hide SafeStorageKey;
    KeyRoundTrip(path);
  }

  lemma DatabaseReads(env: Env, meta: Meta, dump: Bytes)
    ensures var database := DatabaseFields(env, meta, dump);
            && Get(database, "format") == Str("postgresql-custom")
               && Get(database, "archive_path") == Str(DATABASE_ARCHIVE_PATH)
            && Get(database, "size_bytes") == Int(|dump|) && Get(database, "sha256") == Str(env.sha(dump))
  {
    hide DATABASE_ARCHIVE_PATH;
    assert "sha256"[0] != "format"[0];
  }

  lemma UploadsRead(rows: seq<Json>)
    ensures var uploads := UploadFields(rows);
            && Get(uploads, "files") == Arr(rows) && Get(uploads, "file_count") == Int(|rows|)
            && Get(uploads, "total_size_bytes") == Int(TotalSize(rows))
  {
    hide TotalSize;
  }

  lemma ManifestReads(env: Env, meta: Meta, dump: Bytes, rows: seq<Json>)
    ensures var m := Manifest(env, meta, dump, rows);
            && Get(m, "schema_version") == Int(SCHEMA_VERSION) && Get(m, "application") == Str("portfolio-ai")
            && Get(m, "database") == Obj(DatabaseFields(env, meta, dump))
               && Get(m, "uploads") == Obj(UploadFields(rows))
  {
    hide DatabaseFields, UploadFields, SCHEMA_VERSION;
  }

  /** What the manifest says of the backup it was made for. */
  predicate Carries(manifest: map<string, Json>, meta: Meta) {
    && Get(manifest, "created_at") == Str(meta.createdAt)
    && Get(manifest, "deployment_mode") == Str(meta.deploymentMode)
    && Get(manifest, "database").Obj? && Get(Get(manifest, "database").fields, "name") == Str(meta.databaseName)
    && Get(manifest, "uploads").Obj? && Get(Get(manifest, "uploads").fields, "archive_prefix") == Str("uploads/")
  }

  lemma ManifestCarries(env: Env, meta: Meta, dump: Bytes, rows: seq<Json>)
    ensures Carries(Manifest(env, meta, dump, rows), meta)
  {
    ManifestReads(env, meta, dump, rows);
    ManifestNames(env, meta, dump, rows);
    DatabaseNamed(env, meta, dump);
    PrefixNamed(rows);
    hide Manifest, DatabaseFields, UploadFields, Get;
  }

  lemma ManifestNames(env: Env, meta: Meta, dump: Bytes, rows: seq<Json>)
    ensures var m := Manifest(env, meta, dump, rows);
            Get(m, "created_at") == Str(meta.createdAt) && Get(m, "deployment_mode") == Str(meta.deploymentMode)
  {
    hide DatabaseFields, UploadFields, SCHEMA_VERSION;
    assert "created_at"[0] != "deployment_mode"[0];
  }

  lemma DatabaseNamed(env: Env, meta: Meta, dump: Bytes)
    ensures Get(DatabaseFields(env, meta, dump), "name") == Str(meta.databaseName)
  {
    hide DATABASE_ARCHIVE_PATH;
  }

  lemma PrefixNamed(rows: seq<Json>)
    ensures Get(UploadFields(rows), "archive_prefix") == Str("uploads/")
  {
    hide TotalSize;
  }

  lemma RowIsOk(env: Env, members: seq<Member>, path: Path, data: Bytes)
    requires Faithful(env) && GoodPath(path) && PayloadOf(members, UploadMember(KeyOf(path))) == Some(data)
    ensures RowOk(env, members, Row(env, path, data)) && RowKey(env, Row(env, path, data)) == KeyOf(path)
  {
    hide SafeStorageKey, UploadMember, PayloadOf, Row, KeyOf, Faithful;
    RowReads(env, path, data);
  }

  /** Rows written for distinct paths are in order whenever the archive holds their bytes. */
  lemma RowsAreOk(env: Env, members: seq<Member>, t: Tree, paths: seq<Path>)
    requires Faithful(env)
    requires forall p :: p in paths ==> GoodPath(p) && PayloadOf(members, UploadMember(KeyOf(p))) == Some(DataAt(t, p))
    requires forall i, j :: 0 <= i < j < |paths| ==> paths[i] != paths[j]
    ensures DistinctKeys(env, RowsFor(env, t, paths))
    ensures forall row :: row in RowsFor(env, t, paths) ==> RowOk(env, members, row)
    ensures forall p :: p in paths ==> Listed(env, RowsFor(env, t, paths), UploadMember(KeyOf(p)))
  {
    hide GoodPath, KeyOf, UploadMember, DataAt, PayloadOf, Row, RowKey, RowOk, Faithful;
    var rows := RowsFor(env, t, paths);
    forall i | 0 <= i < |rows|
      ensures rows[i] in rows && RowOk(env, members, rows[i]) && RowKey(env, rows[i]) == KeyOf(paths[i])
    {
      assert paths[i] in paths;
      RowIsOk(env, members, paths[i], DataAt(t, paths[i]));
    }
    forall i, j | 0 <= i < j < |rows|
      ensures RowKey(env, rows[i]) != RowKey(env, rows[j])
    {
      assert paths[i] in paths && paths[j] in paths;
      if KeyOf(paths[i]) == KeyOf(paths[j]) {
        KeysAreInjective(paths[i], paths[j]);
      }
    }
  }

  lemma UploadIsCopied(env: Env, meta: Meta, dump: Bytes, t: Tree, m: Member)
    requires m in ArchiveOf(env, meta, dump, t) && IsUploadName(m.name)
    ensures exists p :: p in TreePaths(env, t) && m.name == UploadMember(KeyOf(p))
  {
    FixedNamesAreGood();
    hide IsUploadName, KeyOf, UploadMember, ManifestOf, TreePaths, DataAt, MANIFEST_NAME, DATABASE_ARCHIVE_PATH;
    var paths := TreePaths(env, t);
    var members := ArchiveOf(env, meta, dump, t);
    var i :| 0 <= i < |members| && members[i] == m;
    assert paths[i - 2] in paths;
  }

  lemma ArchiveRows(env: Env, meta: Meta, dump: Bytes, t: Tree)
    requires Faithful(env) && GoodNames(t)
    ensures RowsOk(env, ArchiveOf(env, meta, dump, t), RowsFor(env, t, TreePaths(env, t)))
  {
    PathsAreGood(env, t);
    ArchivePayloads(env, meta, dump, t);
    hide GoodPath, IsUploadName, KeyOf, UploadMember, Faithful, GoodNames, ArchiveOf, TreePaths, PayloadOf, FilesOf,
         DataAt, RowOk, RowsFor, Listed, DistinctKeys;
    var members := ArchiveOf(env, meta, dump, t);
    RowsAreOk(env, members, t, TreePaths(env, t));
    forall m | m in members && m.kind == Regular && IsUploadName(m.name)
      ensures Listed(env, RowsFor(env, t, TreePaths(env, t)), m.name)
    {
      UploadIsCopied(env, meta, dump, t, m);
    }
  }

  lemma ArchiveDatabase(env: Env, members: seq<Member>, meta: Meta, dump: Bytes, rows: seq<Json>)
    requires POSTGRES_CUSTOM_MAGIC <= dump && PayloadOf(members, DATABASE_ARCHIVE_PATH) == Some(dump)
    ensures DatabaseOk(env, members, Manifest(env, meta, dump, rows))
  {
    ManifestReads(env, meta, dump, rows);
    DatabaseReads(env, meta, dump);
    hide PayloadOf, Manifest, DatabaseFields, UploadFields, Get, DATABASE_ARCHIVE_PATH, POSTGRES_CUSTOM_MAGIC;
  }

  lemma ArchiveUploads(env: Env, members: seq<Member>, meta: Meta, dump: Bytes, rows: seq<Json>)
    requires RowsOk(env, members, rows)
    ensures UploadsOk(env, members, Manifest(env, meta, dump, rows))
  {
    ManifestReads(env, meta, dump, rows);
    UploadsRead(rows);
    hide RowsOk, Manifest, DatabaseFields, UploadFields, Get, TotalSize;
  }

  lemma ArchiveManifest(env: Env, members: seq<Member>, meta: Meta, dump: Bytes, rows: seq<Json>)
    requires Faithful(env) && forall row :: row in rows ==> Plain(row)
    requires PayloadOf(members, MANIFEST_NAME) == Some(env.dumps(Obj(Manifest(env, meta, dump, rows))))
    ensures ManifestOk(env, members, Manifest(env, meta, dump, rows)) <==>
            |env.dumps(Obj(Manifest(env, meta, dump, rows)))| <= MAX_MANIFEST_BYTES
    ensures forall m :: ManifestOk(env, members, m) ==>
              m == Manifest(env, meta, dump, rows) && |env.dumps(Obj(m))| <= MAX_MANIFEST_BYTES
  {
    ManifestReads(env, meta, dump, rows);
    ManifestIsPlain(env, meta, dump, rows);
    hide Plain, PayloadOf, Get, Manifest, MANIFEST_NAME, MAX_MANIFEST_BYTES;
    var manifest := Manifest(env, meta, dump, rows);
    assert env.loads(env.dumps(Obj(manifest))) == Some(Obj(manifest));
  }

  function ManifestMember(env: Env, manifest: map<string, Json>): Member {
    Member(MANIFEST_NAME, Regular, env.dumps(Obj(manifest)))
  }

  lemma ManifestAlone(env: Env, manifest: map<string, Json>)
    ensures NamesOk([ManifestMember(env, manifest)]) && Archivable([ManifestMember(env, manifest)])
    ensures PayloadOf([ManifestMember(env, manifest)], MANIFEST_NAME) == Some(env.dumps(Obj(manifest)))
    ensures GetMember([ManifestMember(env, manifest)], DATABASE_ARCHIVE_PATH).None?
  {
    FixedNamesAreValid();
    hide ValidMemberName, MANIFEST_NAME, DATABASE_ARCHIVE_PATH;
    var m := ManifestMember(env, manifest);
    FileIsFound([m], MANIFEST_NAME, env.dumps(Obj(manifest)));
    NoOtherMember(m, DATABASE_ARCHIVE_PATH);
  }

  /** An archive holding only its manifest, which describes a database all the same, ends verification with the
      missing-member error. */
  lemma ManifestAloneLacksDatabase(env: Env, meta: Meta, dump: Bytes)
    requires Faithful(env) && |env.dumps(Obj(Manifest(env, meta, dump, [])))| <= MAX_MANIFEST_BYTES
    ensures FileLacksDatabase(env, Some(File(env.tar([ManifestMember(env, Manifest(env, meta, dump, []))]))))
  {
    hide *;
    var manifest := Manifest(env, meta, dump, []);
    var members := [ManifestMember(env, manifest)];
    ManifestAlone(env, manifest);
    ReadsBack(env, members);
    ArchiveManifest(env, members, meta, dump, []);
    ManifestReads(env, meta, dump, []);
    DatabaseReads(env, meta, dump);
    LacksIt(env, members, manifest, DatabaseFields(env, meta, dump), UploadFields([]));
  }

  lemma NoOtherMember(m: Member, name: string)
    requires m.name != name
    ensures GetMember([m], name).None?
  {
    assert [m][..0] == [];
  }

  lemma LacksIt(env: Env, members: seq<Member>, manifest: map<string, Json>, database: map<string, Json>,
                uploads: map<string, Json>)
    requires NamesOk(members) && ManifestOk(env, members, manifest) && env.untar(env.tar(members)) == Some(members)
    requires Get(manifest, "database") == Obj(database) && Get(manifest, "uploads") == Obj(uploads)
    requires Get(database, "format") == Str("postgresql-custom")
             && Get(database, "archive_path") == Str(DATABASE_ARCHIVE_PATH)
    requires GetMember(members, DATABASE_ARCHIVE_PATH).None?
    ensures FileLacksDatabase(env, Some(File(env.tar(members))))
  {
    hide NamesOk, ManifestOk, Get, GetMember;
    assert LacksDatabase(env, members, manifest);
  }

  lemma HeaderIsArchivable(env: Env, manifest: map<string, Json>, dump: Bytes, copied: seq<Member>)
    requires Archivable(copied)
    ensures Archivable(Header(env, manifest, dump) + copied)
  {
    FixedNamesAreValid();
    hide ValidMemberName;
  }

  lemma ArchiveIsArchivable(env: Env, meta: Meta, dump: Bytes, t: Tree)
    requires Faithful(env) && GoodNames(t)
    ensures Archivable(ArchiveOf(env, meta, dump, t))
  {
    PathsAreGood(env, t);
    hide GoodPath, ValidMemberName, UploadMember, KeyOf, DataAt, TreePaths, ManifestOf, Header, Faithful, GoodNames;
    var paths := TreePaths(env, t);
    var copied := UploadMembers(t, paths);
    forall m | m in copied
      ensures m.kind == Regular && ValidMemberName(m.name)
    {
      var i :| 0 <= i < |copied| && copied[i] == m;
      assert paths[i] in paths;
      UploadMemberIsGood(paths[i]);
    }
    HeaderIsArchivable(env, ManifestOf(env, meta, dump, t), dump, copied);
  }

  /** A quiet backup is accepted exactly when its manifest is within the size verification allows. */
  lemma QuietArchiveAcceptedIff(env: Env, meta: Meta, dump: Bytes, t: Tree)
    requires Faithful(env) && GoodNames(t) && POSTGRES_CUSTOM_MAGIC <= dump
    ensures Acceptable(env, ArchiveOf(env, meta, dump, t), ManifestOf(env, meta, dump, t))
       <==> ManifestFits(env, meta, dump, t)
    ensures (exists m :: Acceptable(env, ArchiveOf(env, meta, dump, t), m)) <==> ManifestFits(env, meta, dump, t)
    ensures forall m :: Acceptable(env, ArchiveOf(env, meta, dump, t), m) ==> m == ManifestOf(env, meta, dump, t)
  {
    var rows := RowsFor(env, t, TreePaths(env, t));
    var members := ArchiveOf(env, meta, dump, t);
    ArchiveNames(env, meta, dump, t);
    ArchivePayloads(env, meta, dump, t);
    ArchiveRows(env, meta, dump, t);
    ArchiveDatabase(env, members, meta, dump, rows);
    ArchiveUploads(env, members, meta, dump, rows);
    RowsArePlain(env, t, TreePaths(env, t));
    ArchiveManifest(env, members, meta, dump, rows);
    hide Plain, Faithful, NamesOk, DatabaseOk, UploadsOk, ManifestOk, PayloadOf, ArchiveOf, Manifest, RowsFor,
         TreePaths, GoodNames, FilesOf, MANIFEST_NAME, POSTGRES_CUSTOM_MAGIC, MAX_MANIFEST_BYTES;
  }

  // ---------------------------------------------------------------- publication

  function TemporaryName(output: string, uuid: string): string {
    "." + output + "." + uuid + ".tmp"
  }

  /** The output is what it was or an artifact that verifies, and nothing else but the temporary file differs. */
  ghost predicate Intact(env: Env, before: Entries, now: Entries, output: string, temporary: string) {
    && (|| Lookup(now, output) == Lookup(before, output)
        || (output in now && now[output].FileEntry? && Accepts(env, now[output].data)))
    && forall name :: name != output && name != temporary ==> Lookup(now, name) == Lookup(before, name)
  }

  ghost predicate IntactSince(env: Env, before: Entries, trace: seq<Entries>, start: nat, output: string,
                              temporary: string) {
    forall k :: start <= k < |trace| ==> Intact(env, before, trace[k], output, temporary)
  }

  /** The temporary file has been added, and that is all. */
  ghost predicate OnlyAdds(before: Entries, now: Entries, temporary: string) {
    temporary in now && now[temporary].FileEntry? && now == before[temporary := now[temporary]]
  }

  ghost predicate OnlyAddsSince(before: Entries, trace: seq<Entries>, start: nat, temporary: string) {
    forall k :: start <= k < |trace| ==> OnlyAdds(before, trace[k], temporary)
  }

  /** One write to the temporary file, unless it fails. */
  method Stage(dir: Folder, temporary: string, data: Bytes, ghost before: Entries, ghost origin: seq<Entries>)
    returns (ok: bool)
    requires dir.Valid() && Extends(origin, dir.trace)
    requires dir.entries == before || OnlyAdds(before, dir.entries, temporary)
    requires OnlyAddsSince(before, dir.trace, |origin|, temporary)
    modifies dir
    ensures dir.Valid() && Extends(origin, dir.trace)
    ensures OnlyAddsSince(before, dir.trace, |origin|, temporary)
    ensures ok <==> !dir.fails(old(dir.clock))
    ensures ok ==> dir.entries == before[temporary := FileEntry(data)] && OnlyAdds(before, dir.entries, temporary)
    ensures !ok ==> dir.entries == old(dir.entries)
  {
    var fault := dir.Tick();
    if fault {
      return false;
    }
    dir.Write(temporary, FileEntry(data));
    ok := true;
  }

  /** Open the temporary file and add the manifest. */
  method StageManifest(w: World, dir: Folder, temporary: string, ghost before: Entries, ghost origin: seq<Entries>)
    returns (ok: bool)
    requires dir.Valid() && Extends(origin, dir.trace) && dir.entries == before
    requires OnlyAddsSince(before, dir.trace, |origin|, temporary)
    modifies dir
    ensures dir.Valid() && Extends(origin, dir.trace)
    ensures OnlyAddsSince(before, dir.trace, |origin|, temporary)
    ensures dir.entries == before || OnlyAdds(before, dir.entries, temporary)
    ensures (forall t :: !dir.fails(t)) ==> ok
  {
    hide OnlyAdds, OnlyAddsSince, Extends;
    ok := Stage(dir, temporary, w.partial(dir.clock), before, origin);
    if ok {
      ok := Stage(dir, temporary, w.partial(dir.clock), before, origin);
    }
  }

  /** Add the dump, exactly as long as it was when hashed; a dump that has shrunk is an error. */
  method StageDump(w: World, dir: Folder, temporary: string, size: nat, ghost before: Entries,
                   ghost origin: seq<Entries>) returns (ok: bool, dump: Bytes)
    requires dir.Valid() && Extends(origin, dir.trace)
    requires dir.entries == before || OnlyAdds(before, dir.entries, temporary)
    requires OnlyAddsSince(before, dir.trace, |origin|, temporary)
    modifies dir
    ensures dir.Valid() && Extends(origin, dir.trace)
    ensures OnlyAddsSince(before, dir.trace, |origin|, temporary)
    ensures dir.entries == before || OnlyAdds(before, dir.entries, temporary)
    ensures forall quiet, root :: AtRest(w, dir.fails, quiet, root) && size == |quiet| ==> ok && dump == quiet
  {
    hide WellFormed, OnlyAdds, OnlyAddsSince, Extends;
    var data := Content(w.dump(dir.clock));
    if data == None || |data.value| < size {
      return false, [];
    }
    assert data.value[..|data.value|] == data.value;
    dump := data.value[..size];
    ok := Stage(dir, temporary, w.partial(dir.clock), before, origin);
  }

  /** Write the archive to the temporary file; what it holds before it is closed is anything. */
  method WriteArchive(env: Env, w: World, dir: Folder, temporary: string, manifest: map<string, Json>, size: nat,
                      paths: seq<Path>)
    returns (ok: bool, members: seq<Member>)
    requires dir.Valid() && forall p :: p in paths ==> GoodPath(p)
    modifies dir
    ensures dir.Valid() && Extends(old(dir.trace), dir.trace)
    ensures Archivable(members)
    ensures OnlyAddsSince(old(dir.entries), dir.trace, |old(dir.trace)|, temporary)
    ensures dir.entries == old(dir.entries) || OnlyAdds(old(dir.entries), dir.entries, temporary)
    ensures ok ==> dir.entries == old(dir.entries)[temporary := FileEntry(env.tar(members))]
    ensures ok ==> exists dump, copied :: members == Header(env, manifest, dump) + copied
    ensures forall dump, root ::
              AtRest(w, dir.fails, dump, root) && size == |dump| && paths == TreePaths(env, TreeAt(root)) ==>
              ok && members == Header(env, manifest, dump) + UploadMembers(TreeAt(root), paths)
  {
    hide *;
    ghost var before, origin := dir.entries, dir.trace;
    NothingYet(before, origin, temporary);
    RestNeverFails(w, dir.fails);
    members := [];
    ok := StageManifest(w, dir, temporary, before, origin);
    if !ok {
      return;
    }
    var dump, uploads;
    ok, dump := StageDump(w, dir, temporary, size, before, origin);
    if !ok {
      return;
    }
    ok, uploads := CopyUploads(env, w, dir, paths);
    if !ok {
      return;
    }
    HeaderIsArchivable(env, manifest, dump, uploads);
    members := Header(env, manifest, dump) + uploads;
    ok := Stage(dir, temporary, env.tar(members), before, origin);
  }

  lemma RestNeverFails(w: World, fails: nat -> bool)
    ensures forall dump, root :: AtRest(w, fails, dump, root) ==> forall t :: !fails(t)
  {
  }

  lemma NothingYet(before: Entries, trace: seq<Entries>, temporary: string)
    ensures OnlyAddsSince(before, trace, |trace|, temporary) && Extends(trace, trace) && Archivable([])
  {
  }

  /** `Path.unlink(missing_ok=True)`. */
  method Unlink(dir: Folder, name: string) returns (ok: bool)
    requires dir.Valid()
    modifies dir
    ensures dir.Valid() && Extends(old(dir.trace), dir.trace)
    ensures forall k :: |old(dir.trace)| <= k < |dir.trace| ==> dir.trace[k] == old(dir.entries) - {name}
    ensures dir.entries == old(dir.entries) || dir.entries == old(dir.entries) - {name}
    ensures ok ==> dir.entries == old(dir.entries) - {name}
    ensures (forall t :: !dir.fails(t)) && (name in old(dir.entries) ==> !old(dir.entries)[name].DirEntry?) ==> ok
  {
    var fault := dir.Tick();
    if name !in dir.entries {
      assert dir.entries == dir.entries - {name};
      return true;
    }
    if fault || dir.entries[name].DirEntry? {
      return false;
    }
    dir.Forget(name);
    ok := true;
  }

  lemma StagingIsIntact(env: Env, before: Entries, trace: seq<Entries>, start: nat, output: string, temporary: string)
    requires OnlyAddsSince(before, trace, start, temporary) && temporary != output
    ensures IntactSince(env, before, trace, start, output, temporary)
  {
    hide Accepts;
  }

  lemma TemporaryIsApart(output: string, uuid: string)
    ensures TemporaryName(output, uuid) != output
  {
    assert |TemporaryName(output, uuid)| > |output|;
  }

  /** Among archives starting with this header, only the header's manifest can be accepted. */
  lemma HeaderFixesManifest(env: Env, manifest: map<string, Json>, dump: Bytes, copied: seq<Member>,
                            found: map<string, Json>)
    requires Faithful(env) && Plain(Obj(manifest)) && Acceptable(env, Header(env, manifest, dump) + copied, found)
    ensures found == manifest
  {
    hide Plain, DatabaseOk, UploadsOk, MANIFEST_NAME, DATABASE_ARCHIVE_PATH;
    var members := Header(env, manifest, dump) + copied;
    assert members[0] in members;
    FileIsFound(members, MANIFEST_NAME, env.dumps(Obj(manifest)));
    assert env.loads(env.dumps(Obj(manifest))) == Some(Obj(manifest));
  }

  /** What a quiet backup leaves in the output directory. */
  ghost predicate QuietResult(env: Env, meta: Meta, dump: Bytes, t: Tree, before: Entries, now: Entries,
                              output: string, ok: bool) {
    Settled(before, now, output, env.tar(ArchiveOf(env, meta, dump, t)), ManifestFits(env, meta, dump, t), ok)
  }

  /** Success needs acceptance and an output that is no directory; failure leaves everything as it was. */
  predicate Settled(before: Entries, now: Entries, output: string, data: Bytes, accepted: bool, ok: bool) {
    && (ok <==> accepted && (output in before ==> !before[output].DirEntry?))
    && now == if ok then before[output := FileEntry(data)] else before
  }

  lemma ReadsBack(env: Env, members: seq<Member>)
    requires Faithful(env) && Archivable(members)
    ensures env.untar(env.tar(members)) == Some(members)
  {
    hide Archivable, Plain, Lists;
  }

  lemma AcceptsArchive(env: Env, members: seq<Member>)
    requires Faithful(env) && Archivable(members)
    ensures Accepts(env, env.tar(members)) <==> exists m :: Acceptable(env, members, m)
    ensures forall m :: AcceptableFile(env, Some(File(env.tar(members))), m) <==> Acceptable(env, members, m)
  {
    hide Acceptable, Archivable, Faithful;
    ReadsBack(env, members);
    forall m | Acceptable(env, members, m)
      ensures AcceptableFile(env, Some(File(env.tar(members))), m)
    {
    }
  }

  /** Verify the temporary file, then rename it into place. */
  method Publish(env: Env, dir: Folder, output: string, temporary: string, members: seq<Member>,
                 ghost before: Entries) returns (ok: bool)
    requires dir.Valid() && temporary !in before && temporary != output
    requires dir.entries == before[temporary := FileEntry(env.tar(members))]
    modifies dir
    ensures dir.Valid() && Extends(old(dir.trace), dir.trace)
    ensures IntactSince(env, before, dir.trace, |old(dir.trace)|, output, temporary)
    ensures dir.entries == old(dir.entries) || dir.entries == before[output := FileEntry(env.tar(members))]
    ensures ok ==> Accepts(env, env.tar(members)) && dir.entries == before[output := FileEntry(env.tar(members))]
    ensures (forall t :: !dir.fails(t)) ==>
              (ok <==> Accepts(env, env.tar(members)) && (output in before ==> !before[output].DirEntry?))
    ensures (forall t :: !dir.fails(t)) && !ok ==> dir.entries == old(dir.entries)
  {
    hide AcceptableFile, Genuine, FileLacksDatabase;
    var fault := dir.Tick();
    if fault {
      return false;
    }
    fault := dir.Tick();
    if fault {
      return false;
    }
    var verdict := VerifyArtifact(env, Some(File(dir.entries[temporary].data)));
    if !verdict.Accepted? {
      return false;
    }
    var renamed := dir.Rename(temporary, output);
    if !renamed {
      return false;
    }
    assert dir.entries == before[output := FileEntry(env.tar(members))];
    assert Accepts(env, env.tar(members));
    assert Intact(env, before, dir.entries, output, temporary);
    fault := dir.Tick();
    if fault {
      return false;
    }
    fault := dir.Tick();
    ok := !fault;
  }

  /** The two passes saw this dump and this tree. */
  ghost predicate Hashed(env: Env, meta: Meta, dump: Bytes, t: Tree, manifest: map<string, Json>, size: nat,
                         paths: seq<Path>) {
    size == |dump| && paths == TreePaths(env, t) && manifest == ManifestOf(env, meta, dump, t)
  }

  lemma QuietVerdict(env: Env, meta: Meta, dump: Bytes, t: Tree)
    requires Faithful(env) && GoodNames(t) && POSTGRES_CUSTOM_MAGIC <= dump
    ensures Accepts(env, env.tar(ArchiveOf(env, meta, dump, t))) <==> ManifestFits(env, meta, dump, t)
  {
    hide *;
    QuietArchiveAcceptedIff(env, meta, dump, t);
    ArchiveIsArchivable(env, meta, dump, t);
    AcceptsArchive(env, ArchiveOf(env, meta, dump, t));
  }

  lemma Settles(before: Entries, now: Entries, output: string, temporary: string, data: Bytes, accepted: bool, ok: bool)
    requires temporary !in before && temporary != output
    requires ok <==> accepted && (output in before ==> !before[output].DirEntry?)
    requires now == if ok then before[output := FileEntry(data)] else before[temporary := FileEntry(data)]
    ensures Settled(before, now - {temporary}, output, data, accepted, ok)
  {
    assert now - {temporary} == if ok then before[output := FileEntry(data)] else before;
  }

  lemma QuietPublished(env: Env, meta: Meta, dump: Bytes, t: Tree, data: Bytes, before: Entries, now: Entries,
                       output: string, temporary: string, ok: bool)
    requires Faithful(env) && GoodNames(t) && POSTGRES_CUSTOM_MAGIC <= dump
             && data == env.tar(ArchiveOf(env, meta, dump, t))
    requires temporary !in before && temporary != output
    requires ok <==> Accepts(env, data) && (output in before ==> !before[output].DirEntry?)
    requires now == if ok then before[output := FileEntry(data)] else before[temporary := FileEntry(data)]
    ensures QuietResult(env, meta, dump, t, before, now - {temporary}, output, ok)
  {
    QuietVerdict(env, meta, dump, t);
    hide GoodNames, Faithful, Accepts, ArchiveOf, ManifestFits, POSTGRES_CUSTOM_MAGIC, Settled;
    Settles(before, now, output, temporary, data, Accepts(env, data), ok);
  }

  lemma PublishedManifest(env: Env, manifest: map<string, Json>, dump: Bytes, copied: seq<Member>, members: seq<Member>)
    requires Faithful(env) && Plain(Obj(manifest)) && Archivable(members)
    requires members == Header(env, manifest, dump) + copied && Accepts(env, env.tar(members))
    ensures AcceptableFile(env, Some(File(env.tar(members))), manifest)
  {
    AcceptsArchive(env, members);
    hide Faithful, Plain, Archivable, Accepts, Acceptable, AcceptableFile, Header;
    var found :| Acceptable(env, members, found);
    HeaderFixesManifest(env, manifest, dump, copied, found);
  }

  lemma StillIntact(env: Env, before: Entries, middle: seq<Entries>, trace: seq<Entries>, start: nat, output: string,
                    temporary: string)
    requires start <= |middle| && Extends(middle, trace)
    requires IntactSince(env, before, middle, start, output, temporary)
             && IntactSince(env, before, trace, |middle|, output, temporary)
    ensures IntactSince(env, before, trace, start, output, temporary)
  {
    hide Intact;
    assert forall k :: start <= k < |middle| ==> trace[k] == middle[k];
  }

  method StageAndPublish(env: Env, w: World, dir: Folder, output: string, temporary: string,
                         manifest: map<string, Json>, size: nat, paths: seq<Path>)
    returns (ok: bool)
    requires dir.Valid() && temporary !in dir.entries && temporary != output
    requires Faithful(env) && Plain(Obj(manifest)) && forall p :: p in paths ==> GoodPath(p)
    modifies dir
    ensures dir.Valid() && Extends(old(dir.trace), dir.trace)
    ensures IntactSince(env, old(dir.entries), dir.trace, |old(dir.trace)|, output, temporary)
    ensures temporary in dir.entries ==> dir.entries[temporary].FileEntry?
    ensures ok ==> output in dir.entries && dir.entries[output].FileEntry? && temporary !in dir.entries
    ensures ok ==> Accepts(env, dir.entries[output].data)
    ensures ok ==> AcceptableFile(env, Some(File(dir.entries[output].data)), manifest)
    ensures forall meta, dump, root ::
              AtRest(w, dir.fails, dump, root) && Hashed(env, meta, dump, TreeAt(root), manifest, size, paths) ==>
                QuietResult(env, meta, dump, TreeAt(root), old(dir.entries), dir.entries - {temporary}, output, ok)
  {
    hide WellFormed, Faithful, Accepts, Acceptable, AcceptableFile, Header, TreePaths, UploadMembers, QuietResult,
         POSTGRES_CUSTOM_MAGIC, Intact, Settled, Plain, Archivable, GoodPath;
    ghost var before, start := dir.entries, |dir.trace|;
    var written, members := WriteArchive(env, w, dir, temporary, manifest, size, paths);
    StagingIsIntact(env, before, dir.trace, start, output, temporary);
    ghost var middle := dir.trace;
    if !written {
      return false;
    }
    ok := Publish(env, dir, output, temporary, members, before);
    StillIntact(env, before, middle, dir.trace, start, output, temporary);
    if ok {
      ghost var dump, copied :| members == Header(env, manifest, dump) + copied;
      PublishedManifest(env, manifest, dump, copied, members);
    }
    forall meta, dump, root |
      AtRest(w, dir.fails, dump, root) && Hashed(env, meta, dump, TreeAt(root), manifest, size, paths)
      ensures QuietResult(env, meta, dump, TreeAt(root), before, dir.entries - {temporary}, output, ok)
    {
      WellFormedNames(TreeAt(root));
      assert members == ArchiveOf(env, meta, dump, TreeAt(root));
      QuietPublished(env, meta, dump, TreeAt(root), env.tar(members), before, dir.entries, output, temporary, ok);
    }
  }

  /** The manifest that is read back from the bytes of an artifact. */
  function HeldManifest(env: Env, data: Bytes): map<string, Json> {
    ManifestIn(env, MembersIn(env, Some(File(data))))
  }

  lemma HeldIsAccepted(env: Env, data: Bytes, manifest: map<string, Json>)
    requires AcceptableFile(env, Some(File(data)), manifest)
    ensures HeldManifest(env, data) == manifest
  {
    hide AcceptableFile, ManifestIn, MembersIn;
    AcceptedManifest(env, Some(File(data)), manifest);
  }

  /** Whatever fails, and however the uploads move, the output is its old self or a verified artifact at every
      moment. */
  method CreateArtifact(env: Env, w: World, meta: Meta, dir: Folder, output: string, uuid: string)
    returns (r: Option<map<string, Json>>)
    requires dir.Valid() && TemporaryName(output, uuid) !in dir.entries && Disk(w) && Faithful(env)
    modifies dir
    ensures dir.Valid() && Extends(old(dir.trace), dir.trace)
    ensures IntactSince(env, old(dir.entries), dir.trace, |old(dir.trace)|, output, TemporaryName(output, uuid))
    ensures r.Some? ==>
              output in dir.entries && dir.entries[output].FileEntry? && TemporaryName(output, uuid) !in dir.entries
    ensures r.Some? ==> Accepts(env, dir.entries[output].data)
    ensures r.Some? ==> AcceptableFile(env, Some(File(dir.entries[output].data)), r.value)
    ensures r.Some? ==> Carries(r.value, meta)
    ensures r.Some? ==> HeldManifest(env, dir.entries[output].data) == r.value
    ensures forall dump, root :: AtRest(w, dir.fails, dump, root) ==>
              QuietResult(env, meta, dump, TreeAt(root), old(dir.entries), dir.entries, output, r.Some?)
    ensures forall dump, root :: AtRest(w, dir.fails, dump, root) && r.Some? ==>
              r.value == ManifestOf(env, meta, dump, TreeAt(root))
    ensures forall found, root :: Steady(w, found, root) && r.Some? ==> Sound(found, root)
  {
    hide Disk, Plain, GoodPath, WellFormed, Faithful, Accepts, AcceptableFile, TreePaths, RowsFor, Manifest,
         QuietResult, Intact, TemporaryName, Settled, Carries, HeldManifest, SoundRoot;
    ghost var before, start := dir.entries, |dir.trace|;
    var found := w.dump(dir.clock);
    var fault := dir.Tick();
    if fault || found == None || !found.value.File? {
      return None;
    }
    var head := Content(w.dump(dir.clock));
    fault := dir.Tick();
    if fault || head == None || !(POSTGRES_CUSTOM_MAGIC <= head.value) {
      return None;
    }
    var dump := Content(w.dump(dir.clock));
    fault := dir.Tick();
    if fault || dump == None {
      return None;
    }
    var hashed, rows, paths := HashUploads(env, w, dir);
    if !hashed {
      return None;
    }
    var manifest := Manifest(env, meta, dump.value, rows);
    ManifestIsPlain(env, meta, dump.value, rows);
    ManifestCarries(env, meta, dump.value, rows);
    fault := dir.Tick();
    if fault {
      return None;
    }
    var temporary := TemporaryName(output, uuid);
    TemporaryIsApart(output, uuid);
    var published := StageAndPublish(env, w, dir, output, temporary, manifest, |dump.value|, paths);
    ghost var middle, trace := dir.entries, dir.trace;
    var unlinked := Unlink(dir, temporary);
    r := if published && unlinked then Some(manifest) else None;
    if r.Some? {
      HeldIsAccepted(env, dir.entries[output].data, manifest);
    }
    CleanedUp(env, before, trace, dir.trace, start, middle, dir.entries, output, temporary);
    forall quiet, root | AtRest(w, dir.fails, quiet, root)
      ensures QuietResult(env, meta, quiet, TreeAt(root), before, dir.entries, output, r.Some?)
      ensures manifest == ManifestOf(env, meta, quiet, TreeAt(root))
    {
      assert Hashed(env, meta, quiet, TreeAt(root), manifest, |dump.value|, paths);
    }
  }

  /** Removing the temporary file leaves the output as it was. */
  lemma CleanedUp(env: Env, before: Entries, trace: seq<Entries>, after: seq<Entries>, start: nat, middle: Entries,
                  now: Entries, output: string, temporary: string)
    requires temporary != output && start <= |trace| && Extends(trace, after)
    requires |trace| > 0 && trace[|trace| - 1] == middle && (|trace| == start ==> middle == before)
    requires IntactSince(env, before, trace, start, output, temporary)
    requires forall k :: |trace| <= k < |after| ==> after[k] == middle - {temporary}
    ensures IntactSince(env, before, after, start, output, temporary)
  {
    hide Accepts;
    assert Intact(env, before, middle, output, temporary);
    forall k | start <= k < |after|
      ensures Intact(env, before, after[k], output, temporary)
    {
      assert k < |trace| ==> after[k] == trace[k];
    }
  }
}
