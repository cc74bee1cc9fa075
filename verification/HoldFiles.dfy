// The file-backed hold store is a map from entity ids to holds, whatever the ids.

module HoldFiles {
  import opened Options
  import opened CohortTypes
  import opened FileNames
  import opened HoldLedger

  datatype HoldError = EmptyEntity | NoHold | DiskFailed

  function Path(id: EntityID): string {
    EncodeHoldEntity(id) + ".json"
  }

  lemma PathsDistinct(a: EntityID, b: EntityID)
    requires Path(a) == Path(b)
    ensures a == b
  {
    var n := |Path(a)| - 5;
    assert EncodeHoldEntity(a) == Path(a)[..n] == Path(b)[..n] == EncodeHoldEntity(b);
    HoldNamesDistinct(a, b);
  }

  class FileHoldStore {
    var files: map<string, Hold>

    ghost function Holds(): imap<EntityID, Hold>
      reads this
    {
      imap id: EntityID | Path(id) in files :: files[Path(id)]
    }

    constructor ()
      ensures Holds() == imap[]
    {
      files := map[];
    }

    method Put(h: Hold, diskOk: bool) returns (err: Option<HoldError>)
      modifies this
      ensures err == if h.entity == "" then Some(EmptyEntity) else if !diskOk then Some(DiskFailed) else None
      ensures Holds() == if err.None? then old(Holds())[h.entity := h] else old(Holds())
    {
      if h.entity == "" {
        return Some(EmptyEntity);
      }
      if !diskOk {
        return Some(DiskFailed);
      }
      forall id | Path(id) == Path(h.entity) ensures id == h.entity {
        PathsDistinct(id, h.entity);
      }
      files := files[Path(h.entity) := h];
      return None;
    }

    method Get(id: EntityID, diskOk: bool) returns (h: Option<Hold>, err: Option<HoldError>)
      ensures h == if diskOk && id in Holds() then Some(Holds()[id]) else None
      ensures err == if !diskOk then Some(DiskFailed) else if id !in Holds() then Some(NoHold) else None
    {
      if !diskOk {
        return None, Some(DiskFailed);
      }
      if Path(id) !in files {
        return None, Some(NoHold);
      }
      return Some(files[Path(id)]), None;
    }

    // Removing a hold that is not there is no error.
    method Delete(id: EntityID, diskOk: bool) returns (err: Option<HoldError>)
      modifies this
      ensures err == if diskOk then None else Some(DiskFailed)
      ensures Holds() == if err.None? then old(Holds()) - {id} else old(Holds())
    {
      if !diskOk {
        return Some(DiskFailed);
      }
      forall other | Path(other) == Path(id) ensures other == id {
        PathsDistinct(other, id);
      }
      files := files - {Path(id)};
      return None;
    }
  }
}
