/**
 * The metadata store: a map from session name to a record of timestamps and
 * profile identity, kept in memory and rewritten to its file after every
 * change.
 */
module Metadata {
  import opened Optional

  /** One session's record. A key missing from the stored dictionary is `None`. */
  datatype Record = Record(created: Option<string>, lastAttached: Option<string>,
                           profileName: Option<string>, profileUuid: Option<string>)
  {
    /** The record `{}`, which Python's truth test treats as false. */
    predicate IsEmpty()
    {
      created.None? && lastAttached.None? && profileName.None? && profileUuid.None?
    }
  }

  const EmptyRecord: Record := Record(None, None, None, None)

  type Store = map<string, Record>

  /** `get`: the session's record, or the empty record for an unknown name. */
  function Lookup(data: Store, name: string): (r: Record)
    ensures name in data ==> r == data[name]
    ensures name !in data ==> r.IsEmpty()
  {
    if name in data then data[name] else EmptyRecord
  }

  /** `set`: the store after session `name` was created or attached at `now`. */
  function Upsert(data: Store, name: string, profileName: Option<string>, profileUuid: Option<string>,
                  now: string): (r: Store)
    ensures r.Keys == data.Keys + {name}
    ensures forall k :: k in data && k != name ==> r[k] == data[k]
    ensures name in data ==> r[name].created == data[name].created
    ensures name !in data ==> r[name].created == Some(now)
    ensures r[name].lastAttached == Some(now)
    ensures profileName.Some? ==> r[name].profileName == profileName
    ensures profileName.None? ==> r[name].profileName == Lookup(data, name).profileName
    ensures profileUuid.Some? ==> r[name].profileUuid == profileUuid
    ensures profileUuid.None? ==> r[name].profileUuid == Lookup(data, name).profileUuid
    ensures !r[name].IsEmpty()
  {
    var base := if name in data then data[name] else EmptyRecord.(created := Some(now));
    var stamped := base.(lastAttached := Some(now));
    var named := if profileName.Some? then stamped.(profileName := profileName) else stamped;
    var record := if profileUuid.Some? then named.(profileUuid := profileUuid) else named;
    data[name := record]
  }

  /** `created` is written once: later updates of the same name keep it. */
  lemma CreatedIsNeverOverwritten(data: Store, name: string, p1: Option<string>, u1: Option<string>,
                                  p2: Option<string>, u2: Option<string>, t1: string, t2: string)
    ensures var once := Upsert(data, name, p1, u1, t1);
      Upsert(once, name, p2, u2, t2)[name].created == once[name].created
  {
  }

  /** `remove`: the store without `name`; every other record is kept. */
  function Drop(data: Store, name: string): (r: Store)
    ensures r.Keys == data.Keys - {name}
    ensures forall k :: k in r ==> r[k] == data[k]
  {
    data - {name}
  }

  /** `remove` twice is `remove` once. */
  lemma RemoveIsIdempotent(data: Store, name: string)
    ensures Drop(Drop(data, name), name) == Drop(data, name)
  {
  }

  /** `clean`: the store keeping only the names in `active`. */
  function Restrict(data: Store, active: set<string>): (r: Store)
    ensures r.Keys == data.Keys * active
    ensures forall k :: k in r ==> r[k] == data[k]
  {
    map k | k in data && k in active :: data[k]
  }

  /** What the metadata file holds: nothing yet, something that cannot be
      opened or is not JSON, or a written snapshot of the store. */
  datatype StoredFile = Missing | Unreadable | Written(snapshot: Store)

  /** `_load`: a missing or unreadable file loads as the empty store. */
  function Load(file: StoredFile): Store
  {
    if file.Written? then file.snapshot else map[]
  }

  /** The in-memory store of `SessionMetadata`, with the file behind it as ghost state. */
  class SessionMetadata {
    var data: Store
    /** The file's contents, rewritten (`_save`) after every change to `data`. */
    ghost var file: StoredFile

    /** Reloading the file would give back exactly the in-memory store. */
    ghost predicate Valid()
      reads this
    {
      Load(file) == data
    }

    /** `__init__`: load the file, falling back to an empty store. */
    constructor (stored: StoredFile)
      ensures Valid() && file == stored
      ensures data == Load(stored)
      ensures !stored.Written? ==> data == map[]
    {
      data := Load(stored);
      file := stored;
    }

    /** `set`: create or refresh the record, then save. */
    method Set(name: string, profileName: Option<string>, profileUuid: Option<string>, now: string)
      requires Valid()
      modifies this
      ensures Valid()
      ensures data == Upsert(old(data), name, profileName, profileUuid, now)
      ensures file == Written(data)
    {
      var record := if name in data then data[name] else EmptyRecord.(created := Some(now));
      record := record.(lastAttached := Some(now));
      if profileName.Some? {
        record := record.(profileName := profileName);
      }
      if profileUuid.Some? {
        record := record.(profileUuid := profileUuid);
      }
      data := data[name := record];
      file := Written(data);
    }

    /** `get`: never fails and changes nothing. */
    function Get(name: string): (r: Record)
      reads this
      ensures r == Lookup(data, name)
    {
      if name in data then data[name] else EmptyRecord
    }

    /** `remove`: delete the record if there is one; the file is rewritten only then. */
    method Remove(name: string)
      requires Valid()
      modifies this
      ensures Valid()
      ensures data == Drop(old(data), name)
      ensures name in old(data) ==> file == Written(data)
      ensures name !in old(data) ==> file == old(file)
    {
      if name in data {
        data := data - {name};
        file := Written(data);
      }
    }

    /** `list_all`: the whole store, which is what the file holds. */
    function ListAll(): (r: Store)
      requires Valid()
      reads this
      ensures r == Load(file)
    {
      data
    }

    /** `clean`: delete every record whose name is not active and report the
      deleted names, each once; the file is rewritten only if one was deleted. */
    method Clean(active: set<string>) returns (removed: seq<string>)
      requires Valid()
      modifies this
      ensures Valid()
      ensures data == Restrict(old(data), active)
      ensures forall k :: k in removed <==> k in old(data) && k !in active
      ensures forall i, j :: 0 <= i < j < |removed| ==> removed[i] != removed[j]
      ensures removed == [] ==> file == old(file)
      ensures removed != [] ==> file == Written(data)
    {
      var toRemove := data.Keys - active;
      removed := [];
      while toRemove != {}
        invariant toRemove <= old(data).Keys - active
        invariant data == Restrict(old(data), active + toRemove)
        invariant forall k :: k in removed <==> k in old(data) && k !in active && k !in toRemove
        invariant forall i, j :: 0 <= i < j < |removed| ==> removed[i] != removed[j]
        invariant file == old(file)
        decreases toRemove
      {
        var name :| name in toRemove;
        data := data - {name};
        removed := removed + [name];
        toRemove := toRemove - {name};
      }
      if removed != [] {
        file := Written(data);
      }
    }
  }
}
