/** What acceptance buys: an exact inventory, and content fixed by the manifest. */
module ArtifactIntegrity {
  import opened Wrappers
  import opened StorageKeys
  import opened UploadTree
  import opened Artifact

  function Rows(manifest: map<string, Json>): seq<Json> {
    var uploads := Get(manifest, "uploads");
    if !uploads.Obj? then []
    else match Get(uploads.fields, "files") case Arr(items) => items case _ => []
  }

  // ---------------------------------------------------------------- inventory

  /** A member name with a size. */
  type Entry = (string, int)

  function Total(entries: seq<Entry>): int {
    if |entries| == 0 then 0 else Total(entries[..|entries| - 1]) + entries[|entries| - 1].1
  }

  function RowEntries(env: Env, rows: seq<Json>): seq<Entry> {
    seq(|rows|, i requires 0 <= i < |rows| => (UploadMember(RowKey(env, rows[i])), RowSize(rows[i])))
  }

  /** The upload files an archive holds. */
  function UploadEntries(members: seq<Member>): seq<Entry> {
    if |members| == 0 then []
    else
      var m := members[|members| - 1];
      var before := UploadEntries(members[..|members| - 1]);
      if m.kind == Regular && IsUploadName(m.name) then before + [(m.name, |m.payload|)] else before
  }

  ghost predicate DistinctEntries(entries: seq<Entry>) {
    forall i, j :: 0 <= i < j < |entries| ==> entries[i].0 != entries[j].0
  }

  lemma {:induction false} TotalWithout(entries: seq<Entry>, k: nat)
    requires k < |entries|
    ensures Total(entries) == Total(entries[..k] + entries[k + 1..]) + entries[k].1
  {
    var last := |entries| - 1;
    var without := entries[..k] + entries[k + 1..];
    if k == last {
      assert without == entries[..last];
    } else {
      assert entries[..last][..k] == entries[..k] && entries[..last][k + 1..] == entries[k + 1..last];
      TotalWithout(entries[..last], k);
      assert without[..last - 1] == entries[..k] + entries[k + 1..last];
      assert without[last - 1] == entries[last];
    }
  }

  lemma EntriesWithout(entries: seq<Entry>, k: nat)
    requires DistinctEntries(entries) && k < |entries|
    ensures var without := entries[..k] + entries[k + 1..];
            DistinctEntries(without) && forall e :: e in without <==> e in entries && e != entries[k]
  {
    var without := entries[..k] + entries[k + 1..];
    forall e | e in entries && e != entries[k]
      ensures e in without
    {
      var j :| 0 <= j < |entries| && entries[j] == e;
      assert without[if j < k then j else j - 1] == e;
    }
  }

  lemma FirstIsMember(entries: seq<Entry>)
    ensures |entries| == 0 || exists e :: e in entries && e == entries[0]
  {
    if |entries| > 0 {
      assert entries[0] in entries;
    }
  }

  /** Two listings of the same distinct entries have one length and one total. */
  lemma {:induction false} SameInventory(a: seq<Entry>, b: seq<Entry>)
    requires DistinctEntries(a) && DistinctEntries(b) && forall e :: e in a <==> e in b
    ensures |a| == |b| && Total(a) == Total(b)
  {
    hide DistinctEntries;
    FirstIsMember(b);
    if |a| > 0 {
      var n := |a| - 1;
      assert a[n] in a;
      var k :| 0 <= k < |b| && b[k] == a[n];
      TotalWithout(b, k);
      EntriesWithout(a, n);
      EntriesWithout(b, k);
      assert a[..n] == a[..n] + a[n + 1..];
      SameInventory(a[..n], b[..k] + b[k + 1..]);
    }
  }

  lemma {:induction false} TotalOfRows(env: Env, rows: seq<Json>)
    ensures Total(RowEntries(env, rows)) == TotalSize(rows)
  {
    if |rows| > 0 {
      var n := |rows| - 1;
      assert RowEntries(env, rows)[..n] == RowEntries(env, rows[..n]);
      TotalOfRows(env, rows[..n]);
    }
  }

  lemma {:induction false} UploadEntriesAre(members: seq<Member>)
    requires DistinctNames(members)
    ensures DistinctEntries(UploadEntries(members))
    ensures forall e :: e in UploadEntries(members) <==>
              exists m :: m in members && m.kind == Regular && IsUploadName(m.name) && e == (m.name, |m.payload|)
  {
    hide IsUploadName;
    if |members| > 0 {
      var n := |members| - 1;
      assert members == members[..n] + [members[n]];
      UploadEntriesAre(members[..n]);
      var before := UploadEntries(members[..n]);
      forall i | 0 <= i < |before|
        ensures before[i].0 != members[n].name
      {
        assert before[i] in before;
      }
    }
  }

  /** A manifest row of an accepted archive carries the size and digest of the very member it names, never the lone
      dot. */
  lemma RowDescribesMember(env: Env, members: seq<Member>, row: Json)
    requires NamesOk(members) && RowOk(env, members, row)
    ensures RowKey(env, row) != "." && GoodPath(Names(RowKey(env, row)))
    ensures var p := PayloadOf(members, UploadMember(RowKey(env, row)));
            p.Some? && RowSize(row) == |p.value| && Get(row.fields, "sha256") == Str(env.sha(p.value))
  {
    hide IsUploadName, DistinctNames;
    var name := UploadMember(RowKey(env, row));
    var m := GetMember(members, name).value;
    assert ValidMemberName(m.name);
    UploadMemberValidIff(RowKey(env, row));
    PathRoundTrip(RowKey(env, row));
  }

  lemma PrefixIsUpload(key: string)
    ensures IsUploadName(UploadMember(key))
  {
  }

  /** The rows and the upload files of an accepted archive are in exact correspondence, and both totals are the
      archive's own. */
  lemma AcceptedInventoryIsExact(env: Env, members: seq<Member>, manifest: map<string, Json>)
    requires Acceptable(env, members, manifest)
    ensures forall name :: IsUploadName(name) ==>
              (PayloadOf(members, name).Some? <==> Listed(env, Rows(manifest), name))
    ensures |Rows(manifest)| == |UploadEntries(members)|
    ensures TotalSize(Rows(manifest)) == Total(UploadEntries(members))
    ensures EqualsInt(Get(Get(manifest, "uploads").fields, "file_count"), |UploadEntries(members)|)
    ensures EqualsInt(Get(Get(manifest, "uploads").fields, "total_size_bytes"), Total(UploadEntries(members)))
  {
    hide ValidMemberName, EqualsInt, ManifestOk, DatabaseOk, UploadMember, IsUploadName, RowOk, RowKey, RowSize;
    var rows := Rows(manifest);
    assert RowsOk(env, members, rows);
    var a, b := RowEntries(env, rows), UploadEntries(members);
    TotalOfRows(env, rows);
    UploadEntriesAre(members);
    forall i, j | 0 <= i < j < |a|
      ensures a[i].0 != a[j].0
    {
      UploadMemberInjective(RowKey(env, rows[i]), RowKey(env, rows[j]));
    }
    forall i | 0 <= i < |rows|
      ensures a[i] in b && PayloadOf(members, a[i].0).Some?
    {
      assert rows[i] in rows;
      RowDescribesMember(env, members, rows[i]);
      PrefixIsUpload(RowKey(env, rows[i]));
      var m := GetMember(members, a[i].0).value;
      assert m in members && m.kind == Regular && a[i] == (m.name, |m.payload|);
    }
    forall m | m in members && m.kind == Regular && IsUploadName(m.name)
      ensures (m.name, |m.payload|) in a
    {
      MemberIsFound(members, m);
      var row :| row in rows && UploadMember(RowKey(env, row)) == m.name;
      var i :| 0 <= i < |rows| && rows[i] == row;
      RowDescribesMember(env, members, row);
      assert a[i] == (m.name, |m.payload|);
    }
    SameInventory(a, b);
    forall name | IsUploadName(name) && PayloadOf(members, name).Some?
      ensures Listed(env, rows, name)
    {
      var m := GetMember(members, name).value;
      assert m in members;
    }
    forall name | Listed(env, rows, name)
      ensures PayloadOf(members, name).Some?
    {
      var row :| row in rows && UploadMember(RowKey(env, row)) == name;
      RowDescribesMember(env, members, row);
    }
  }

  // ---------------------------------------------------------------- tamper evidence

  lemma SameRowSamePayload(env: Env, a: seq<Member>, b: seq<Member>, row: Json)
    requires CollisionFree(env) && NamesOk(a) && NamesOk(b) && RowOk(env, a, row) && RowOk(env, b, row)
    ensures PayloadOf(a, UploadMember(RowKey(env, row))) == PayloadOf(b, UploadMember(RowKey(env, row)))
  {
    hide NamesOk, RowOk, RowKey, PayloadOf;
    RowDescribesMember(env, a, row);
    RowDescribesMember(env, b, row);
  }

  /** If the digest has no collisions, two accepted archives with one manifest hold the same database and the same
      uploads. */
  lemma ManifestFixesContent(env: Env, a: seq<Member>, b: seq<Member>, manifest: map<string, Json>)
    requires CollisionFree(env) && Acceptable(env, a, manifest) && Acceptable(env, b, manifest)
    ensures PayloadOf(a, DATABASE_ARCHIVE_PATH) == PayloadOf(b, DATABASE_ARCHIVE_PATH)
    ensures forall key :: PayloadOf(a, UploadMember(key)) == PayloadOf(b, UploadMember(key))
  {
    AcceptedInventoryIsExact(env, a, manifest);
    AcceptedInventoryIsExact(env, b, manifest);
    hide NamesOk, ManifestOk, UploadMember, RowOk, RowKey, PayloadOf, IsUploadName, EqualsInt;
    forall key
      ensures PayloadOf(a, UploadMember(key)) == PayloadOf(b, UploadMember(key))
    {
      var name := UploadMember(key);
      PrefixIsUpload(key);
      if Listed(env, Rows(manifest), name) {
        var row :| row in Rows(manifest) && UploadMember(RowKey(env, row)) == name;
        SameRowSamePayload(env, a, b, row);
      }
    }
  }
}
