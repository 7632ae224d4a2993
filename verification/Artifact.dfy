/** The backup artifact: an archive of named members whose manifest vouches for every payload. */
module Artifact {
  import opened Wrappers
  import opened StorageKeys
  import opened UploadTree

  const SCHEMA_VERSION := 1
  const MAX_MANIFEST_BYTES := 1024 * 1024
  const POSTGRES_CUSTOM_MAGIC: Bytes := [80, 71, 68, 77, 80]

  // ---------------------------------------------------------------- values

  /** A parsed JSON value; `NonFinite` stands for the NaN and infinity literals Python accepts. */
  datatype Json =
    | Null | Bool(b: bool) | Int(i: int) | Float(r: real) | NonFinite
    | Str(s: string) | Arr(items: seq<Json>) | Obj(fields: map<string, Json>)

  function Get(fields: map<string, Json>, key: string): Json {
    if key in fields then fields[key] else Null
  }

  /** Python's `value == n`: booleans and floats compare by number. */
  predicate EqualsInt(value: Json, n: int) {
    match value
    case Bool(b) => n == if b then 1 else 0
    case Int(i) => i == n
    case Float(r) => r == n as real
    case _ => false
  }

  predicate Truthy(value: Json) {
    match value
    case Null => false
    case Bool(b) => b
    case Int(i) => i != 0
    case Float(r) => r != 0.0
    case NonFinite => true
    case Str(s) => s != ""
    case Arr(items) => items != []
    case Obj(fields) => fields != map[]
  }

  lemma EqualsIntIff(value: Json, n: int)
    ensures EqualsInt(value, n)
       <==> value == Int(n) || value == Float(n as real) || (value == Bool(true) && n == 1)
            || (value == Bool(false) && n == 0)
  {
  }

  lemma FalsyIff(value: Json)
    ensures !Truthy(value)
       <==> value in [Null, Bool(false), Int(0), Float(0.0), Str(""), Arr([]), Obj(map[])]
  {
    var falsy := [Null, Bool(false), Int(0), Float(0.0), Str(""), Arr([]), Obj(map[])];
    assert falsy[0] == Null && falsy[1] == Bool(false) && falsy[2] == Int(0) && falsy[3] == Float(0.0)
        && falsy[4] == Str("") && falsy[5] == Arr([]) && falsy[6] == Obj(map[]);
  }

  datatype Kind = Regular | Directory | Other

  datatype Member = Member(name: string, kind: Kind, payload: Bytes)

  /** The digest, the archive format, the JSON format, Python's `str`, and the order in which a tree is listed. */
  datatype Env = Env(
    sha: Bytes -> string,
    tar: seq<Member> -> Bytes,
    untar: Bytes -> Option<seq<Member>>,
    dumps: Json -> Bytes,
    loads: Bytes -> Option<Json>,
    text: Json -> string,
    listing: Tree -> seq<Path>)

  ghost predicate Lists(paths: seq<Path>, t: Tree) {
    && (forall p :: p in paths <==> p in t)
    && (forall i, j :: 0 <= i < j < |paths| ==> paths[i] != paths[j])
  }

  /** Regular files under valid names: what this tool writes into an archive. */
  ghost predicate Archivable(members: seq<Member>) {
    forall m :: m in members ==> m.kind == Regular && ValidMemberName(m.name)
  }

  /** No floating-point number anywhere: what this tool writes into a manifest. */
  ghost predicate Plain(value: Json) {
    match value
    case Float(_) => false
    case NonFinite => false
    case Arr(items) => forall item :: item in items ==> Plain(item)
    case Obj(fields) => forall key :: key in fields ==> Plain(fields[key])
    case _ => true
  }

  /** Reading back what the tool writes gives it again, and a listing names every entry once. */
  ghost predicate Faithful(env: Env) {
    && (forall ms :: Archivable(ms) ==> env.untar(env.tar(ms)) == Some(ms))
    && (forall j :: Plain(j) ==> env.loads(env.dumps(j)) == Some(j))
    && (forall s :: env.text(Str(s)) == s)
    && (forall t :: Lists(env.listing(t), t))
  }

  ghost predicate CollisionFree(env: Env) {
    forall a, b :: env.sha(a) == env.sha(b) ==> a == b
  }

  // ---------------------------------------------------------------- members

  /** The archive index returns the last member of a name. */
  function GetMember(members: seq<Member>, name: string): (r: Option<Member>)
    ensures r.Some? ==> r.value in members && r.value.name == name
    ensures r.None? ==> forall m :: m in members ==> m.name != name
  {
    if |members| == 0 then None
    else
      var last := members[|members| - 1];
      assert members == members[..|members| - 1] + [last];
      if last.name == name then Some(last) else GetMember(members[..|members| - 1], name)
  }

  function PayloadOf(members: seq<Member>, name: string): Option<Bytes> {
    match GetMember(members, name)
    case None => None
    case Some(m) => if m.kind == Regular then Some(m.payload) else None
  }

  ghost predicate DistinctNames(members: seq<Member>) {
    forall i, j :: 0 <= i < j < |members| ==> members[i].name != members[j].name
  }

  lemma MemberIsFound(members: seq<Member>, m: Member)
    requires DistinctNames(members) && m in members
    ensures GetMember(members, m.name) == Some(m)
  {
    var found := GetMember(members, m.name).value;
    var i :| 0 <= i < |members| && members[i] == found;
    var j :| 0 <= j < |members| && members[j] == m;
  }

  // ---------------------------------------------------------------- acceptance

  ghost predicate NamesOk(members: seq<Member>) {
    && (forall m :: m in members ==> ValidMemberName(m.name) && m.kind != Other)
    && DistinctNames(members)
  }

  predicate ManifestOk(env: Env, members: seq<Member>, manifest: map<string, Json>) {
    var payload := PayloadOf(members, MANIFEST_NAME);
    && payload.Some?
    && |payload.value| <= MAX_MANIFEST_BYTES
    && env.loads(payload.value) == Some(Obj(manifest))
    && EqualsInt(Get(manifest, "schema_version"), SCHEMA_VERSION)
    && Get(manifest, "application") == Str("portfolio-ai")
  }

  predicate Matches(env: Env, members: seq<Member>, name: string, sha: Json, size: Json) {
    var payload := PayloadOf(members, name);
    && payload.Some?
    && EqualsInt(size, |payload.value|)
    && sha == Str(env.sha(payload.value))
  }

  predicate DescribesDatabase(manifest: map<string, Json>) {
    var database := Get(manifest, "database");
    && database.Obj?
    && Get(database.fields, "format") == Str("postgresql-custom")
    && Get(database.fields, "archive_path") == Str(DATABASE_ARCHIVE_PATH)
  }

  predicate DatabaseOk(env: Env, members: seq<Member>, manifest: map<string, Json>) {
    && DescribesDatabase(manifest)
    && var fields := Get(manifest, "database").fields;
    && var payload := PayloadOf(members, DATABASE_ARCHIVE_PATH);
    && payload.Some?
    && POSTGRES_CUSTOM_MAGIC <= payload.value
    && Matches(env, members, DATABASE_ARCHIVE_PATH, Get(fields, "sha256"), Get(fields, "size_bytes"))
  }

  function RowKey(env: Env, row: Json): string {
    if !row.Obj? then ""
    else
      var value := Get(row.fields, "storage_key");
      if Truthy(value) then env.text(value) else ""
  }

  function RowSize(row: Json): int {
    if !row.Obj? then 0
    else match Get(row.fields, "size_bytes")
      case Int(i) => i
      case Bool(b) => if b then 1 else 0
      case _ => 0
  }

  function TotalSize(rows: seq<Json>): int {
    if |rows| == 0 then 0 else TotalSize(rows[..|rows| - 1]) + RowSize(rows[|rows| - 1])
  }

  predicate RowOk(env: Env, members: seq<Member>, row: Json) {
    && row.Obj?
    && SafeStorageKey(RowKey(env, row))
    && Matches(env, members, UploadMember(RowKey(env, row)), Get(row.fields, "sha256"), Get(row.fields, "size_bytes"))
    && (Get(row.fields, "size_bytes").Int? || Get(row.fields, "size_bytes").Bool?)
  }

  ghost predicate DistinctKeys(env: Env, rows: seq<Json>) {
    forall i, j :: 0 <= i < j < |rows| ==> RowKey(env, rows[i]) != RowKey(env, rows[j])
  }

  /** Some row vouches for the member of this name. */
  ghost predicate Listed(env: Env, rows: seq<Json>, name: string) {
    exists row :: row in rows && UploadMember(RowKey(env, row)) == name
  }

  ghost predicate RowsOk(env: Env, members: seq<Member>, rows: seq<Json>) {
    && DistinctKeys(env, rows)
    && (forall row :: row in rows ==> RowOk(env, members, row))
    && (forall m :: m in members && m.kind == Regular && IsUploadName(m.name) ==> Listed(env, rows, m.name))
  }

  ghost predicate UploadsOk(env: Env, members: seq<Member>, manifest: map<string, Json>) {
    && Get(manifest, "uploads").Obj?
    && var fields := Get(manifest, "uploads").fields;
    && Get(fields, "files").Arr?
    && var rows := Get(fields, "files").items;
    && RowsOk(env, members, rows)
    && EqualsInt(Get(fields, "file_count"), |rows|)
    && EqualsInt(Get(fields, "total_size_bytes"), TotalSize(rows))
  }

  /** What a verified archive is. */
  ghost predicate Acceptable(env: Env, members: seq<Member>, manifest: map<string, Json>) {
    && NamesOk(members)
    && ManifestOk(env, members, manifest)
    && DatabaseOk(env, members, manifest)
    && UploadsOk(env, members, manifest)
  }

  /** The one malformed archive whose error is not the tool's own: no member at all holds the database. */
  ghost predicate LacksDatabase(env: Env, members: seq<Member>, manifest: map<string, Json>) {
    && NamesOk(members)
    && ManifestOk(env, members, manifest)
    && DescribesDatabase(manifest)
    && Get(manifest, "uploads").Obj?
    && GetMember(members, DATABASE_ARCHIVE_PATH).None?
  }

  ghost predicate AcceptableFile(env: Env, file: Option<Node>, manifest: map<string, Json>) {
    && file.Some? && file.value.File?
    && var members := env.untar(file.value.data);
    && members.Some?
    && Acceptable(env, members.value, manifest)
  }

  ghost predicate FileLacksDatabase(env: Env, file: Option<Node>) {
    && file.Some? && file.value.File?
    && var members := env.untar(file.value.data);
    && members.Some?
    && exists manifest :: LacksDatabase(env, members.value, manifest)
  }

  ghost predicate Accepts(env: Env, data: Bytes) {
    exists manifest :: AcceptableFile(env, Some(File(data)), manifest)
  }

  // ---------------------------------------------------------------- what a file holds

  function ManifestIn(env: Env, members: seq<Member>): map<string, Json> {
    match PayloadOf(members, MANIFEST_NAME)
    case None => map[]
    case Some(payload) => match env.loads(payload) case Some(Obj(fields)) => fields case _ => map[]
  }

  function MembersIn(env: Env, file: Option<Node>): seq<Member> {
    match file
    case Some(File(data)) => (match env.untar(data) case Some(members) => members case None => [])
    case _ => []
  }

  /** A file is accepted with the manifest it holds and no other. */
  lemma AcceptedManifest(env: Env, file: Option<Node>, manifest: map<string, Json>)
    requires AcceptableFile(env, file, manifest)
    ensures manifest == ManifestIn(env, MembersIn(env, file))
  {
    hide NamesOk, DatabaseOk, UploadsOk, PayloadOf, MANIFEST_NAME;
  }

  ghost predicate HoldsFile(members: seq<Member>, name: string, holds: Bytes -> bool) {
    exists m :: m in members && m.name == name && m.kind == Regular && holds(m.payload)
  }

  /** An artifact of this application and schema: a manifest of at most a mebibyte, a custom-format dump of the size
      and digest it states, uploads below their prefix, and nothing else, no two under one name. */
  ghost predicate Genuine(env: Env, file: Option<Node>, manifest: map<string, Json>) {
    var members, database := MembersIn(env, file), Get(manifest, "database");
    && database.Obj? && Get(database.fields, "format") == Str("postgresql-custom")
    && Get(database.fields, "archive_path") == Str("database.dump")
    && (forall m :: m in members ==>
          m.kind != Other && (m.name == "manifest.json" || m.name == "database.dump" || "uploads/" <= m.name))
    && DistinctNames(members)
    && HoldsFile(members, "manifest.json", data => |data| <= 1048576 && env.loads(data) == Some(Obj(manifest)))
    && HoldsFile(members, "database.dump", data =>
                   && [80, 71, 68, 77, 80] <= data && EqualsInt(Get(database.fields, "size_bytes"), |data|)
                   && Get(database.fields, "sha256") == Str(env.sha(data)))
    && EqualsInt(Get(manifest, "schema_version"), 1) && Get(manifest, "application") == Str("portfolio-ai")
  }

  lemma AcceptedIsGenuine(env: Env, file: Option<Node>, manifest: map<string, Json>)
    requires AcceptableFile(env, file, manifest)
    ensures Genuine(env, file, manifest)
  {
    hide UploadsOk, Parts, AsPosix, Root;
  }

  // ---------------------------------------------------------------- verification

  datatype Verdict = Accepted(manifest: map<string, Json>) | Rejected | MissingDatabase

  method VerifyArtifact(env: Env, file: Option<Node>) returns (v: Verdict)
    ensures v.Accepted? <==> exists manifest :: AcceptableFile(env, file, manifest)
    ensures v.Accepted? ==> AcceptableFile(env, file, v.manifest)
    ensures v.Accepted? ==> Genuine(env, file, v.manifest)
    ensures v.MissingDatabase? <==> FileLacksDatabase(env, file)
  {
    hide Acceptable, LacksDatabase, Genuine;
    if file == None || !file.value.File? {
      return Rejected;
    }
    var archive := env.untar(file.value.data);
    if archive == None {
      return Rejected;
    }
    v := VerifyMembers(env, archive.value);
    if v.Accepted? {
      AcceptedIsGenuine(env, file, v.manifest);
    }
  }

  method VerifyMembers(env: Env, members: seq<Member>) returns (v: Verdict)
    ensures v.Accepted? <==> exists manifest :: Acceptable(env, members, manifest)
    ensures v.Accepted? ==> Acceptable(env, members, v.manifest)
    ensures v.MissingDatabase? <==> exists manifest :: LacksDatabase(env, members, manifest)
  {
    hide NamesOk, UploadsOk, DatabaseOk, ManifestOk, DescribesDatabase, GetMember;
    var named, seen := CheckNames(members);
    if !named {
      return Rejected;
    }
    var found := ManifestFromArchive(env, members);
    if found == None {
      return Rejected;
    }
    var manifest := found.value;
    OneManifest(env, members, manifest);
    if !Get(manifest, "database").Obj? || !Get(manifest, "uploads").Obj? {
      return Rejected;
    }
    var database := CheckDatabase(env, members, manifest);
    if database != Accepted(manifest) {
      return database;
    }
    var uploads := CheckUploads(env, members, seen, manifest);
    v := if uploads then Accepted(manifest) else Rejected;
  }

  /** Only the manifest the archive holds can be the one it is accepted with. */
  lemma OneManifest(env: Env, members: seq<Member>, manifest: map<string, Json>)
    requires NamesOk(members) && ManifestOk(env, members, manifest)
    ensures (exists other :: Acceptable(env, members, other))
       <==> DatabaseOk(env, members, manifest) && UploadsOk(env, members, manifest)
    ensures Acceptable(env, members, manifest)
       <==> DatabaseOk(env, members, manifest) && UploadsOk(env, members, manifest)
    ensures (exists other :: LacksDatabase(env, members, other)) <==>
            DescribesDatabase(manifest) && Get(manifest, "uploads").Obj?
                && GetMember(members, DATABASE_ARCHIVE_PATH).None?
    ensures DatabaseOk(env, members, manifest) ==>
              Get(manifest, "database").Obj? && GetMember(members, DATABASE_ARCHIVE_PATH).Some?
    ensures DescribesDatabase(manifest) ==> Get(manifest, "database").Obj?
    ensures UploadsOk(env, members, manifest) ==> Get(manifest, "uploads").Obj?
  {
    hide NamesOk;
    if Acceptable(env, members, manifest) {
      assert exists other :: Acceptable(env, members, other);
    }
    if LacksDatabase(env, members, manifest) {
      assert exists other :: LacksDatabase(env, members, other);
    }
    forall other | ManifestOk(env, members, other)
      ensures other == manifest
    {
    }
  }

  method CheckNames(members: seq<Member>) returns (ok: bool, seen: set<string>)
    ensures ok <==> NamesOk(members)
    ensures ok ==> forall name :: name in seen <==> exists m :: m in members && m.name == name
  {
    hide ValidMemberName;
    seen := {};
    for i := 0 to |members|
      invariant forall k :: 0 <= k < i ==> ValidMemberName(members[k].name) && members[k].kind != Other
      invariant forall j, k :: 0 <= j < k < i ==> members[j].name != members[k].name
      invariant forall k :: 0 <= k < i ==> members[k].name in seen
      invariant forall name :: name in seen ==> exists k :: 0 <= k < i && members[k].name == name
    {
      var name := members[i].name;
      if !ValidMemberName(name) || members[i].kind == Other {
        assert members[i] in members;
        return false, seen;
      }
      if name in seen {
        return false, seen;
      }
      seen := seen + {name};
    }
    ok := true;
  }

  method ManifestFromArchive(env: Env, members: seq<Member>) returns (r: Option<map<string, Json>>)
    ensures r.Some? ==> ManifestOk(env, members, r.value)
    ensures r.None? ==> forall manifest :: !ManifestOk(env, members, manifest)
  {
    var member := GetMember(members, MANIFEST_NAME);
    if member == None {
      return None;
    }
    if member.value.kind != Regular || |member.value.payload| > MAX_MANIFEST_BYTES {
      return None;
    }
    var parsed := env.loads(member.value.payload);
    if parsed == None || !parsed.value.Obj? {
      return None;
    }
    var manifest := parsed.value.fields;
    if !EqualsInt(Get(manifest, "schema_version"), SCHEMA_VERSION)
        || Get(manifest, "application") != Str("portfolio-ai") {
      return None;
    }
    r := Some(manifest);
  }

  method CheckedPayload(env: Env, members: seq<Member>, name: string, sha: Json, size: Json) returns (ok: bool)
    ensures ok <==> Matches(env, members, name, sha, size)
  {
    var member := GetMember(members, name);
    if member == None || member.value.kind != Regular {
      return false;
    }
    var actual := member.value.payload;
    ok := EqualsInt(size, |actual|) && sha == Str(env.sha(actual));
  }

  method CheckDatabase(env: Env, members: seq<Member>, manifest: map<string, Json>) returns (v: Verdict)
    requires Get(manifest, "database").Obj?
    ensures v == Accepted(manifest) <==> DatabaseOk(env, members, manifest)
    ensures v == MissingDatabase <==> DescribesDatabase(manifest) && GetMember(members, DATABASE_ARCHIVE_PATH).None?
    ensures v == Accepted(manifest) || v == MissingDatabase || v == Rejected
  {
    hide GetMember;
    var database := Get(manifest, "database").fields;
    if Get(database, "format") != Str("postgresql-custom") {
      return Rejected;
    }
    if Get(database, "archive_path") != Str(DATABASE_ARCHIVE_PATH) {
      return Rejected;
    }
    var member := GetMember(members, DATABASE_ARCHIVE_PATH);
    if member == None {
      return MissingDatabase;
    }
    if member.value.kind != Regular || !(POSTGRES_CUSTOM_MAGIC <= member.value.payload) {
      return Rejected;
    }
    var ok := CheckedPayload(env, members, DATABASE_ARCHIVE_PATH, Get(database, "sha256"), Get(database, "size_bytes"));
    v := if ok then Accepted(manifest) else Rejected;
  }

  method CheckUploads(env: Env, members: seq<Member>, seen: set<string>, manifest: map<string, Json>) returns (ok: bool)
    requires NamesOk(members)
    requires forall name :: name in seen <==> exists m :: m in members && m.name == name
    requires Get(manifest, "uploads").Obj?
    ensures ok <==> UploadsOk(env, members, manifest)
  {
    hide ValidMemberName, SafeStorageKey, Matches, UploadMember, EqualsInt, IsUploadName;
    var uploads := Get(manifest, "uploads").fields;
    if !Get(uploads, "files").Arr? {
      return false;
    }
    var rows := Get(uploads, "files").items;
    var good, expected, totalSize := CheckRows(env, members, rows);
    if !good {
      return false;
    }
    var actual := set name | name in seen && IsUploadName(name) && PayloadOf(members, name).Some?;
    ExpectedIsActual(env, members, rows, seen, expected, actual);
    ok := expected == actual
      && EqualsInt(Get(uploads, "file_count"), |rows|)
      && EqualsInt(Get(uploads, "total_size_bytes"), totalSize);
  }

  ghost predicate RowsSoFar(env: Env, members: seq<Member>, rows: seq<Json>, expected: set<string>) {
    && DistinctKeys(env, rows)
    && (forall row :: row in rows ==> RowOk(env, members, row))
    && (forall name :: name in expected <==> Listed(env, rows, name))
  }

  lemma NoRows(env: Env, members: seq<Member>)
    ensures RowsSoFar(env, members, [], {})
  {
  }

  lemma OneMoreRow(env: Env, members: seq<Member>, rows: seq<Json>, row: Json, expected: set<string>)
    requires RowsSoFar(env, members, rows, expected)
    requires RowOk(env, members, row) && UploadMember(RowKey(env, row)) !in expected
    ensures RowsSoFar(env, members, rows + [row], expected + {UploadMember(RowKey(env, row))})
  {
    hide RowOk, RowKey, UploadMember;
    var all := rows + [row];
    forall j | 0 <= j < |rows|
      ensures RowKey(env, rows[j]) != RowKey(env, row)
    {
      assert rows[j] in rows;
      assert Listed(env, rows, UploadMember(RowKey(env, rows[j])));
    }
    assert row in all;
    forall name
      ensures Listed(env, all, name) <==> Listed(env, rows, name) || name == UploadMember(RowKey(env, row))
    {
      if Listed(env, rows, name) {
        var r :| r in rows && UploadMember(RowKey(env, r)) == name;
        assert r in all;
      }
    }
  }

  lemma BadRow(env: Env, members: seq<Member>, rows: seq<Json>, i: nat, expected: set<string>)
    requires i < |rows| && RowsSoFar(env, members, rows[..i], expected)
    requires !RowOk(env, members, rows[i]) || UploadMember(RowKey(env, rows[i])) in expected
    ensures !(DistinctKeys(env, rows) && forall row :: row in rows ==> RowOk(env, members, row))
  {
    hide RowOk, RowKey, UploadMember;
    assert rows[i] in rows;
    var name := UploadMember(RowKey(env, rows[i]));
    if name in expected {
      var r :| r in rows[..i] && UploadMember(RowKey(env, r)) == name;
      var k :| 0 <= k < i && rows[..i][k] == r;
      UploadMemberInjective(RowKey(env, rows[k]), RowKey(env, rows[i]));
    }
  }

  method CheckRows(env: Env, members: seq<Member>, rows: seq<Json>)
    returns (ok: bool, expected: set<string>, totalSize: int)
    ensures ok <==> DistinctKeys(env, rows) && forall row :: row in rows ==> RowOk(env, members, row)
    ensures ok ==> forall name :: name in expected <==> Listed(env, rows, name)
    ensures ok ==> totalSize == TotalSize(rows)
  {
    hide RowOk, RowKey, UploadMember, RowSize, Listed;
    expected, totalSize := {}, 0;
    NoRows(env, members);
    assert rows[..0] == [];
    for i := 0 to |rows|
      invariant RowsSoFar(env, members, rows[..i], expected)
      invariant totalSize == TotalSize(rows[..i])
    {
      var row := rows[i];
      var good := CheckRow(env, members, row, expected);
      if !good {
        BadRow(env, members, rows, i, expected);
        return false, expected, totalSize;
      }
      OneMoreRow(env, members, rows[..i], row, expected);
      assert rows[..i + 1] == rows[..i] + [row];
      expected := expected + {UploadMember(RowKey(env, row))};
      totalSize := totalSize + RowSize(row);
    }
    assert rows[..|rows|] == rows;
    ok := true;
  }

  method CheckRow(env: Env, members: seq<Member>, row: Json, expected: set<string>) returns (ok: bool)
    ensures ok <==> RowOk(env, members, row) && UploadMember(RowKey(env, row)) !in expected
  {
    hide SafeStorageKey, Matches, UploadMember;
    if !row.Obj? {
      return false;
    }
    var key := RowKey(env, row);
    if !SafeStorageKey(key) || UploadMember(key) in expected {
      return false;
    }
    var matched := CheckedPayload(env, members, UploadMember(key), Get(row.fields, "sha256"),
                                  Get(row.fields, "size_bytes"));
    if !matched {
      return false;
    }
    ok := Get(row.fields, "size_bytes").Int? || Get(row.fields, "size_bytes").Bool?;
  }

  lemma ExpectedIsActual(env: Env, members: seq<Member>, rows: seq<Json>, seen: set<string>, expected: set<string>,
                         actual: set<string>)
    requires DistinctNames(members)
    requires forall name :: name in seen <==> exists m :: m in members && m.name == name
    requires forall row :: row in rows ==> RowOk(env, members, row)
    requires forall name :: name in expected <==> Listed(env, rows, name)
    requires actual == set name | name in seen && IsUploadName(name) && PayloadOf(members, name).Some?
    ensures expected == actual <==>
            forall m :: m in members && m.kind == Regular && IsUploadName(m.name) ==> Listed(env, rows, m.name)
  {
    hide SafeStorageKey, EqualsInt;
    forall name | name in expected
      ensures name in actual
    {
      var row :| row in rows && UploadMember(RowKey(env, row)) == name;
      assert RowOk(env, members, row);
      assert IsUploadName(name);
    }
    forall m | m in members && m.kind == Regular && IsUploadName(m.name)
      ensures m.name in actual
    {
      MemberIsFound(members, m);
    }
    if forall m :: m in members && m.kind == Regular && IsUploadName(m.name) ==> Listed(env, rows, m.name) {
      forall name | name in actual
        ensures name in expected
      {
        var m := GetMember(members, name).value;
        assert m in members && m.kind == Regular;
      }
    }
  }
}
