// The record store: one file per entity, the latest record of an entity wins.

module RecordStore {
  import opened Options
  import opened CohortTypes
  import opened StringOrder
  import opened FileNames

  const SUFFIX := ".json"

  function Path(id: EntityID): string {
    EncodeEntity(id) + SUFFIX
  }

  function Stem(name: string): string
    requires |name| >= |SUFFIX|
  {
    name[..|name| - |SUFFIX|]
  }

  predicate HasSuffix(name: string) {
    |name| >= |SUFFIX| && name[|name| - |SUFFIX|..] == SUFFIX
  }

  // A file name some non-empty id is stored under.
  predicate StoreName(name: string) {
    HasSuffix(name) && Stem(name) != "" && '/' !in Stem(name)
  }

  datatype StoreError = EmptyEntity | NotFound | DiskFailed

  datatype DirEntry = DirEntry(name: string, isDir: bool)

  predicate Shown(e: DirEntry) {
    !e.isDir && HasSuffix(e.name) && e.name[0] != '.'
  }

  // The last record written for an id; ids that decode alike share their file.
  function LastWrite(records: seq<Record>, id: EntityID): Option<Record> {
    if records == [] then None
    else
      var n := |records| - 1;
      if DecodeEntity(records[n].entity) == DecodeEntity(id) then Some(records[n]) else LastWrite(records[..n], id)
  }

  // Among ids without "%2F" nobody's record is overwritten by another entity's.
  lemma {:induction false} LastWriteIsOwn(records: seq<Record>, id: EntityID)
    requires EscapeFree(id) && forall k :: 0 <= k < |records| ==> EscapeFree(records[k].entity)
    ensures LastWrite(records, id).Some? <==> exists k :: 0 <= k < |records| && records[k].entity == id
    ensures LastWrite(records, id).Some? ==> LastWrite(records, id).value in records && LastWrite(records, id).value.entity == id
  {
    if records != [] {
      var n := |records| - 1;
      RecordNamesCollideIff(records[n].entity, id);
      LastWriteIsOwn(records[..n], id);
      DecodeFixes(id);
      DecodeFixes(records[n].entity);
      if records[n].entity != id {
        assert records == records[..n] + [records[n]];
      }
    }
  }

  lemma LastWriteNext(records: seq<Record>, n: nat)
    requires n < |records|
    ensures forall id :: LastWrite(records[..n + 1], id)
              == if DecodeEntity(records[n].entity) == DecodeEntity(id) then Some(records[n]) else LastWrite(records[..n], id)
  {
    assert records[..n + 1][..n] == records[..n];
  }

  lemma NothingWritten(records: seq<Record>)
    ensures forall id :: LastWrite(records[..0], id).None?
  {
  }

  lemma PathFacts(id: EntityID)
    ensures HasSuffix(Path(id)) && Stem(Path(id)) == EncodeEntity(id)
    ensures id != "" ==> StoreName(Path(id))
  {
    EncodedHasNoSlash(id);
  }

  lemma SamePath(a: EntityID, b: EntityID)
    ensures Path(a) == Path(b) <==> DecodeEntity(a) == DecodeEntity(b)
  {
    RecordNamesCollideIff(a, b);
    PathFacts(a);
    PathFacts(b);
  }

  // A stored name is the path of the id it decodes to.
  lemma NameOfID(name: string)
    requires StoreName(name)
    ensures var id := DecodeEntity(Stem(name));
            id != "" && EscapeFree(id) && Path(id) == name && (name[0] == '.' <==> id[0] == '.')
  {
    var stem := Stem(name);
    var id := DecodeEntity(stem);
    EncodeDecode(stem);
    DecodedIsEscapeFree(stem);
    EncodedHasNoSlash(id);
    assert name == stem + SUFFIX && name[0] == stem[0];
  }

  // ---- sorted listings ------------------------------------------------------------------

  ghost predicate Ascending(ids: seq<EntityID>) {
    forall i, j :: 0 <= i < j < |ids| ==> Before(ids[i], ids[j])
  }

  ghost predicate Distinct(ids: seq<EntityID>) {
    forall i, j :: 0 <= i < j < |ids| ==> ids[i] != ids[j]
  }

  function InsertedID(id: EntityID, ids: seq<EntityID>): (r: seq<EntityID>)
    requires id !in ids && Ascending(ids)
    ensures Ascending(r) && forall x :: x in r <==> x == id || x in ids
  {
    if ids == [] then [id]
    else if Before(id, ids[0]) then
      AscendingCons(id, ids);
      [id] + ids
    else
      var rest := InsertedID(id, ids[1..]);
      BeforeIsTotal(id, ids[0]);
      assert ids == [ids[0]] + ids[1..];
      assert forall x :: x in rest ==> Before(ids[0], x);
      [ids[0]] + rest
  }

  lemma AscendingCons(id: EntityID, ids: seq<EntityID>)
    requires ids != [] && Ascending(ids) && Before(id, ids[0])
    ensures Ascending([id] + ids)
  {
    forall j | 0 < j < |ids| ensures Before(id, ids[j]) {
      BeforeIsTransitive(id, ids[0], ids[j]);
    }
  }

  // The library's sort, on ids that are all different.
  function SortedIDs(ids: seq<EntityID>): (r: seq<EntityID>)
    requires Distinct(ids)
    ensures Ascending(r) && forall x :: x in r <==> x in ids
  {
    if ids == [] then []
    else
      var rest := SortedIDs(ids[1..]);
      assert ids == [ids[0]] + ids[1..];
      InsertedID(ids[0], rest)
  }

  // ---- the store ------------------------------------------------------------------------

  class FileStore {
    var files: map<string, Record>

    ghost predicate Valid()
      reads this
    {
      forall name :: name in files ==> StoreName(name)
    }

    // What is stored for an id.
    function View(id: EntityID): Option<Record>
      reads this
    {
      if Path(id) in files then Some(files[Path(id)]) else None
    }

    // A directory listing of the store: its files in any order, and possibly
    // entries the store did not make, none of which looks like a record file.
    ghost predicate ListingOf(entries: seq<DirEntry>)
      reads this
    {
      && (forall i, j :: 0 <= i < j < |entries| ==> entries[i].name != entries[j].name)
      && (forall i :: 0 <= i < |entries| && Shown(entries[i]) ==> entries[i].name in files)
      && (forall name :: name in files ==> DirEntry(name, false) in entries)
    }

    constructor ()
      ensures Valid() && forall id :: View(id).None?
    {
      files := map[];
    }

    // Stores under every id that decodes like the record's entity, and leaves what
    // is stored under all others alone.
    method Put(rec: Record, diskOk: bool) returns (err: Option<StoreError>)
      requires Valid()
      modifies this
      ensures Valid()
      ensures err == if rec.entity == "" then Some(EmptyEntity) else if !diskOk then Some(DiskFailed) else None
      ensures forall id :: View(id) == if err.None? && DecodeEntity(id) == DecodeEntity(rec.entity) then Some(rec) else old(View(id))
    {
      if rec.entity == "" {
        return Some(EmptyEntity);
      }
      if !diskOk {
        return Some(DiskFailed);
      }
      PathFacts(rec.entity);
      forall id ensures Path(id) == Path(rec.entity) <==> DecodeEntity(id) == DecodeEntity(rec.entity) {
        SamePath(id, rec.entity);
      }
      files := files[Path(rec.entity) := rec];
      return None;
    }

    // Stops at the first record that cannot be written; `written` are in the store.
    method PutOutcome(records: seq<Record>, diskOk: nat -> bool) returns (err: Option<StoreError>, written: nat)
      requires Valid()
      modifies this
      ensures Valid()
      ensures written <= |records| && (err.None? <==> written == |records|)
      ensures forall k :: 0 <= k < written ==> records[k].entity != "" && diskOk(k)
      ensures written < |records| ==> records[written].entity == "" || !diskOk(written)
      ensures forall id :: View(id) == if LastWrite(records[..written], id).Some? then LastWrite(records[..written], id) else old(View(id))
    {
      hide LastWrite, DecodeEntity;
      NothingWritten(records);
      written := 0;
      while written < |records|
        invariant Valid() && written <= |records|
        invariant forall k :: 0 <= k < written ==> records[k].entity != "" && diskOk(k)
        invariant forall id :: View(id) == if LastWrite(records[..written], id).Some? then LastWrite(records[..written], id) else old(View(id))
      {
        err := Put(records[written], diskOk(written));
        if err.Some? {
          return;
        }
        LastWriteNext(records, written);
        written := written + 1;
      }
      err := None;
    }

    method Get(id: EntityID, diskOk: bool) returns (rec: Option<Record>, err: Option<StoreError>)
      ensures rec == if diskOk then View(id) else None
      ensures err == if !diskOk then Some(DiskFailed) else if View(id).None? then Some(NotFound) else None
    {
      if !diskOk {
        return None, Some(DiskFailed);
      }
      if Path(id) !in files {
        return None, Some(NotFound);
      }
      return Some(files[Path(id)]), None;
    }

    // Lists, in strictly ascending order, the ids without "%2F" that Get finds and
    // that do not start with a dot. Such an id can be stored and read, but is
    // never listed.
    method List(entries: seq<DirEntry>) returns (ids: seq<EntityID>)
      requires Valid() && ListingOf(entries)
      ensures Ascending(ids)
      ensures forall id :: id in ids <==> id != "" && id[0] != '.' && EscapeFree(id) && View(id).Some?
    {
      var found: seq<EntityID> := [];
      for i := 0 to |entries|
        invariant Distinct(found)
        invariant forall id :: id in found <==> id in Decoded(entries[..i])
      {
        assert entries[..i + 1] == entries[..i] + [entries[i]];
        DecodedAppend(entries[..i], entries[i]);
        if !Shown(entries[i]) {
          continue;
        }
        NotYetFound(entries, i);
        found := found + [DecodeEntity(Stem(entries[i].name))];
      }
      assert entries[..|entries|] == entries;
      ListedIsFound(entries);
      ids := SortedIDs(found);
    }

    lemma NotYetFound(entries: seq<DirEntry>, i: nat)
      requires Valid() && ListingOf(entries) && i < |entries| && Shown(entries[i])
      ensures DecodeEntity(Stem(entries[i].name)) !in Decoded(entries[..i])
    {
      var id := DecodeEntity(Stem(entries[i].name));
      NameOfID(entries[i].name);
      if id in Decoded(entries[..i]) {
        var e := DecodedFrom(entries[..i], id);
        NameOfID(e.name);
      }
    }

    lemma ListedIsFound(entries: seq<DirEntry>)
      requires Valid() && ListingOf(entries)
      ensures forall id :: id in Decoded(entries) <==> id != "" && id[0] != '.' && EscapeFree(id) && View(id).Some?
    {
      forall id ensures id in Decoded(entries) <==> id != "" && id[0] != '.' && EscapeFree(id) && View(id).Some? {
        if id in Decoded(entries) {
          var e := DecodedFrom(entries, id);
          NameOfID(e.name);
        } else if id != "" && id[0] != '.' && EscapeFree(id) && View(id).Some? {
          PathFacts(id);
          DecodeEncode(id);
          DecodeFixes(id);
          NameOfID(Path(id));
          DecodedHas(entries, DirEntry(Path(id), false));
        }
      }
    }
  }

  // The ids of the entries that are shown.
  function Decoded(entries: seq<DirEntry>): set<EntityID> {
    if entries == [] then {}
    else
      var n := |entries| - 1;
      Decoded(entries[..n]) + if Shown(entries[n]) then {DecodeEntity(Stem(entries[n].name))} else {}
  }

  lemma DecodedAppend(entries: seq<DirEntry>, e: DirEntry)
    ensures Decoded(entries + [e]) == Decoded(entries) + if Shown(e) then {DecodeEntity(Stem(e.name))} else {}
  {
    assert (entries + [e])[..|entries|] == entries;
  }

  lemma {:induction false} DecodedFrom(entries: seq<DirEntry>, id: EntityID) returns (e: DirEntry)
    requires id in Decoded(entries)
    ensures e in entries && Shown(e) && DecodeEntity(Stem(e.name)) == id
  {
    var n := |entries| - 1;
    if id in Decoded(entries[..n]) {
      e := DecodedFrom(entries[..n], id);
    } else {
      e := entries[n];
    }
  }

  lemma {:induction false} DecodedHas(entries: seq<DirEntry>, e: DirEntry)
    requires e in entries && Shown(e)
    ensures DecodeEntity(Stem(e.name)) in Decoded(entries)
  {
    var n := |entries| - 1;
    if entries[n] != e {
      assert entries == entries[..n] + [entries[n]];
      DecodedHas(entries[..n], e);
    }
  }
}
