/** One directory whose entries change step by step, with every state it has been in. */
module Directory {
  import opened Wrappers
  import opened UploadTree

  /** `LinkEntry` is a symbolic link: live if it leads somewhere. */
  datatype Entry = FileEntry(data: Bytes) | DirEntry(tree: Tree) | LinkEntry(live: bool) | OtherEntry

  type Entries = map<string, Entry>

  function Lookup(entries: Entries, name: string): Option<Entry> {
    if name in entries then Some(entries[name]) else None
  }

  /** `Path.exists`, which follows links. */
  predicate Exists(entries: Entries, name: string) {
    name in entries && entries[name] != LinkEntry(false)
  }

  predicate EmptyDirectory(e: Entry) {
    e.DirEntry? && e.tree == map[]
  }

  /** One history continues another. */
  ghost predicate Extends<T>(before: seq<T>, after: seq<T>) {
    |before| <= |after| && after[..|before|] == before
  }

  class Folder {
    var entries: Entries
    var clock: nat
    const fails: nat -> bool
    ghost var trace: seq<Entries>

    ghost predicate Valid()
      reads this
    {
      |trace| > 0 && trace[|trace| - 1] == entries
    }

    constructor (entries: Entries, fails: nat -> bool)
      ensures Valid() && this.entries == entries && this.fails == fails && trace == [entries]
    {
      this.entries, this.fails, clock := entries, fails, 0;
      trace := [entries];
    }

    /** Every system call takes a moment, and may fail. */
    method Tick() returns (fault: bool)
      modifies this`clock
      ensures clock == old(clock) + 1 && fault == fails(old(clock))
    {
      fault := fails(clock);
      clock := clock + 1;
    }

    method Write(name: string, e: Entry)
      requires Valid()
      modifies this`entries, this`trace
      ensures Valid() && entries == old(entries)[name := e] && trace == old(trace) + [entries]
    {
      entries := entries[name := e];
      trace := trace + [entries];
    }

    method Forget(name: string)
      requires Valid()
      modifies this`entries, this`trace
      ensures Valid() && entries == old(entries) - {name} && trace == old(trace) + [entries]
    {
      entries := entries - {name};
      trace := trace + [entries];
    }

    /** POSIX rename within the directory: in one step, or not at all. */
    method Rename(source: string, target: string) returns (ok: bool)
      requires Valid()
      modifies this
      ensures Valid() && clock == old(clock) + 1
      ensures ok <==> !fails(old(clock)) && CanRename(old(entries), source, target)
      ensures ok ==> entries == Renamed(old(entries), source, target) && trace == old(trace) + [entries]
      ensures !ok ==> entries == old(entries) && trace == old(trace)
    {
      var fault := Tick();
      ok := !fault && CanRename(entries, source, target);
      if ok {
        entries := Renamed(entries, source, target);
        trace := trace + [entries];
      }
    }
  }

  /** A file replaces anything but a directory, a directory only an empty one. */
  predicate CanRename(entries: Entries, source: string, target: string) {
    && source in entries
    && (target !in entries || source == target
        || (if entries[source].DirEntry? then EmptyDirectory(entries[target]) else !entries[target].DirEntry?))
  }

  function Renamed(entries: Entries, source: string, target: string): Entries
    requires source in entries
  {
    (entries - {source})[target := entries[source]]
  }
}
