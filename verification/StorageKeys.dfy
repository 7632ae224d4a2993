/** Upload storage keys and archive member names, checked through POSIX path parsing. */
module StorageKeys {
  import Segments

  type Path = seq<string>

  const MANIFEST_NAME := "manifest.json"
  const DATABASE_ARCHIVE_PATH := "database.dump"
  const UPLOADS_PREFIX := "uploads"

  // ---------------------------------------------------------------- POSIX paths

  /** The leading slashes that count: three or more collapse to one. */
  function Root(value: string): string {
    if |value| > 0 && value[0] == '/' then
      if |value| > 1 && value[1] == '/' && (|value| == 2 || value[2] != '/') then "//" else "/"
    else ""
  }

  function DropBlank(parts: seq<string>): (r: seq<string>)
    ensures forall p :: p in r ==> p in parts && p != "" && p != "."
  {
    if |parts| == 0 then []
    else if parts[0] == "" || parts[0] == "." then DropBlank(parts[1..])
    else [parts[0]] + DropBlank(parts[1..])
  }

  function Names(value: string): Path {
    DropBlank(Segments.Split(value, '/'))
  }

  function Parts(value: string): seq<string> {
    if Root(value) == "" then Names(value) else [Root(value)] + Names(value)
  }

  function AsPosix(value: string): string {
    var text := Root(value) + Segments.Join(Names(value), '/');
    if text == "" then "." else text
  }

  // ---------------------------------------------------------------- storage keys

  predicate SafeStorageKey(value: string) {
    && value != ""
    && Root(value) == ""
    && value == AsPosix(value)
    && forall p :: p in Parts(value) ==> p != "" && p != "." && p != ".."
  }

  predicate GoodName(name: string) {
    name != "" && name != "." && name != ".." && '/' !in name
  }

  predicate GoodPath(path: Path) {
    |path| > 0 && forall c :: c in path ==> GoodName(c)
  }

  lemma {:induction false} NothingBlank(parts: seq<string>)
    requires forall p :: p in parts ==> p != "" && p != "."
    ensures DropBlank(parts) == parts
  {
    if |parts| > 0 {
      assert parts[0] in parts;
      forall p | p in parts[1..] ensures p in parts {}
      NothingBlank(parts[1..]);
    }
  }

  lemma RootedStartsBlank(value: string)
    ensures Root(value) == "" || Segments.Split(value, '/')[0] == ""
  {
    if |value| > 0 && value[0] == '/' {
      Segments.SeparatorAtIs(value, '/', 0);
      assert value[..0] == "";
    }
  }

  lemma GoodIsSafe(value: string)
    requires GoodPath(Segments.Split(value, '/'))
    ensures SafeStorageKey(value) && Names(value) == Segments.Split(value, '/')
  {
    var pieces := Segments.Split(value, '/');
    assert pieces[0] in pieces;
    RootedStartsBlank(value);
    NothingBlank(pieces);
    Segments.JoinInvertsSplit(value, '/');
    assert value != "";
  }

  lemma SafeIsGood(value: string)
    requires SafeStorageKey(value) && value != "."
    ensures GoodPath(Segments.Split(value, '/'))
  {
    var pieces, names := Segments.Split(value, '/'), Names(value);
    assert |names| > 0;
    assert value == Segments.Join(names, '/');
    assert Parts(value) == names;
    Segments.JoinInvertsSplit(value, '/');
    forall c | c in names ensures GoodName(c) {
      assert c in pieces;
    }
    Segments.SplitInvertsJoin(names, '/');
  }

  /** The key check accepts the lone dot, and otherwise exactly the slash-joined good paths. */
  lemma SafeKeyIff(value: string)
    ensures SafeStorageKey(value) <==> value == "." || GoodPath(Segments.Split(value, '/'))
    ensures value != "." && SafeStorageKey(value) ==>
              Names(value) == Segments.Split(value, '/') && GoodPath(Names(value))
  {
    hide *;
    if GoodPath(Segments.Split(value, '/')) {
      GoodIsSafe(value);
    }
    if value != "." && SafeStorageKey(value) {
      SafeIsGood(value);
      GoodIsSafe(value);
    }
    DotParts();
  }

  lemma DotParts()
    ensures Segments.Split(".", '/') == ["."] && Names(".") == [] && SafeStorageKey(".")
  {
    Segments.SeparatorAtIs(".", '/', 1);
    assert "."[..1] == ".";
    assert Segments.Split(".", '/') == ["."];
    assert DropBlank(["."]) == DropBlank(["."][1..]) == [];
  }

  /** The key of a file below the upload root. */
  function KeyOf(path: Path): string {
    Segments.Join(path, '/')
  }

  /** Every file below a root has a safe key, and the key names that file alone. */
  lemma KeyRoundTrip(path: Path)
    requires GoodPath(path)
    ensures SafeStorageKey(KeyOf(path)) && KeyOf(path) != "." && Names(KeyOf(path)) == path
  {
    Segments.SplitInvertsJoin(path, '/');
    DotParts();
    assert path[0] in path;
    SafeKeyIff(KeyOf(path));
  }

  lemma PathRoundTrip(key: string)
    requires SafeStorageKey(key) && key != "."
    ensures GoodPath(Names(key)) && KeyOf(Names(key)) == key
  {
    SafeKeyIff(key);
    Segments.JoinInvertsSplit(key, '/');
  }

  // ---------------------------------------------------------------- member names

  function UploadMember(key: string): string {
    UPLOADS_PREFIX + "/" + key
  }

  predicate IsUploadName(name: string) {
    UPLOADS_PREFIX + "/" <= name
  }

  predicate ValidMemberName(name: string) {
    && Root(name) == ""
    && AsPosix(name) == name
    && (forall p :: p in Parts(name) ==> p != "" && p != "." && p != "..")
    && (name == MANIFEST_NAME || name == DATABASE_ARCHIVE_PATH || IsUploadName(name))
  }

  lemma PrefixSplits(key: string)
    ensures Segments.Split(UploadMember(key), '/') == [UPLOADS_PREFIX] + Segments.Split(key, '/')
  {
    Segments.SplitFirst(UPLOADS_PREFIX, key, '/');
    assert UPLOADS_PREFIX + "/" + key == UPLOADS_PREFIX + ['/'] + key;
  }

  lemma FixedNamesAreValid()
    ensures ValidMemberName(MANIFEST_NAME) && ValidMemberName(DATABASE_ARCHIVE_PATH)
    ensures !IsUploadName(MANIFEST_NAME) && !IsUploadName(DATABASE_ARCHIVE_PATH)
    ensures MANIFEST_NAME != DATABASE_ARCHIVE_PATH
  {
    hide Parts, AsPosix, Root;
    FixedNamesAreGood();
    NameIsOnePart(MANIFEST_NAME);
    NameIsOnePart(DATABASE_ARCHIVE_PATH);
  }

  lemma FixedNamesAreGood()
    ensures GoodName(MANIFEST_NAME) && GoodName(DATABASE_ARCHIVE_PATH)
    ensures !IsUploadName(MANIFEST_NAME) && !IsUploadName(DATABASE_ARCHIVE_PATH)
    ensures MANIFEST_NAME != DATABASE_ARCHIVE_PATH
  {
    assert MANIFEST_NAME[0] == 'm' && DATABASE_ARCHIVE_PATH[0] == 'd' && (UPLOADS_PREFIX + "/")[0] == 'u';
  }

  lemma NameIsOnePart(name: string)
    requires GoodName(name)
    ensures Root(name) == "" && AsPosix(name) == name && Parts(name) == [name]
  {
    assert name[..|name|] == name;
    Segments.SeparatorAtIs(name, '/', |name|);
    assert Segments.Split(name, '/') == [name];
    NothingBlank([name]);
  }

  /** Under the prefix, the archive accepts exactly the names of good paths; the lone dot is not one of them. */
  lemma UploadMemberValidIff(key: string)
    ensures ValidMemberName(UploadMember(key)) <==> SafeStorageKey(key) && key != "."
  {
    var name := UploadMember(key);
    PrefixSplits(key);
    SafeKeyIff(name);
    SafeKeyIff(key);
    assert UPLOADS_PREFIX + "/" <= name;
    assert name != "" && name != ".";
    assert ValidMemberName(name) <==> SafeStorageKey(name);
    var pieces := Segments.Split(key, '/');
    assert GoodPath([UPLOADS_PREFIX] + pieces) <==> GoodPath(pieces) by {
      if GoodPath([UPLOADS_PREFIX] + pieces) {
        forall c | c in pieces ensures GoodName(c) {
          assert c in [UPLOADS_PREFIX] + pieces;
        }
      }
      assert GoodName(UPLOADS_PREFIX);
    }
    DotParts();
  }

  lemma UploadMemberInjective(a: string, b: string)
    ensures UploadMember(a) == UploadMember(b) ==> a == b
  {
    assert UploadMember(a)[|UPLOADS_PREFIX| + 1..] == a;
    assert UploadMember(b)[|UPLOADS_PREFIX| + 1..] == b;
  }
}
