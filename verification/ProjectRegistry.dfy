/**
 * The project registry (src/project/project-registry.js): one file of records per owner, and
 * an index from project to owner that only makes lookups cheap.
 *
 * The theorems say how much harm the index can do: a lookup answers from the owner files
 * whatever the index contains, or it throws, and it throws for exactly the stated contents. A
 * crash between the two writes, a failing index repair and any corruption of the index are
 * events of a run. Each operation is given the owners whose files cannot be read or parsed at
 * the time, ids whose path the file system refuses among them.
 */
module ProjectRegistry {
  import opened Strings

  type ProjectId = string
  type OwnerId = string

  datatype Project = Project(id: ProjectId, ownerId: OwnerId, details: string)

  type Files = map<OwnerId, seq<Project>>

  /** A value of the index: a string, something else that is truthy, or something falsy. */
  datatype IndexValue = Text(owner: OwnerId) | Truthy | Falsy

  /** The index file: not readable or not JSON, or an object; a missing file is an empty object. */
  datatype IndexFile = Unreadable | Parsed(entries: map<ProjectId, IndexValue>)

  /** A call throws or returns. */
  datatype Outcome<+T> = Threw | Returned(value: T)

  // ---------------------------------------------------------------- records of one owner

  function Find(records: seq<Project>, id: ProjectId): Option<Project> {
    if records == [] then None
    else if records[0].id == id then Some(records[0])
    else Find(records[1..], id)
  }

  /** register's change to an owner's records: replace the one with this id, or append. */
  function Upsert(records: seq<Project>, record: Project): seq<Project> {
    if records == [] then [record]
    else if records[0].id == record.id then [record] + records[1..]
    else [records[0]] + Upsert(records[1..], record)
  }

  /** Upsert changes the first record with the id, or appends. */
  lemma {:induction false} UpsertAt(records: seq<Project>, record: Project, i: nat)
    requires i <= |records| && forall j :: 0 <= j < i ==> records[j].id != record.id
    requires i < |records| ==> records[i].id == record.id
    ensures Upsert(records, record) == if i < |records| then records[i := record] else records + [record]
  {
    if records != [] {
      assert records == [records[0]] + records[1..];
      if i > 0 { UpsertAt(records[1..], record, i - 1); }
    }
  }

  function Without(records: seq<Project>, id: ProjectId): seq<Project> {
    if records == [] then []
    else if records[0].id == id then Without(records[1..], id)
    else [records[0]] + Without(records[1..], id)
  }

  function Load(files: Files, owner: OwnerId): seq<Project> {
    if owner in files then files[owner] else []
  }

  // ---------------------------------------------------------------- lookups

  /** The guard of the storage layout on ids that become a directory name. */
  predicate Admissible(id: string) {
    && !Blank(id)
    && '\0' !in id && '/' !in id && '\\' !in id && ':' !in id
    && id != "." && id != ".."
    && id != "__proto__" && id != "constructor" && id != "prototype"
  }

  predicate CanLoad(bad: set<OwnerId>, owner: OwnerId) {
    Admissible(owner) && owner !in bad
  }

  /** listOwners skips names that look like lock directories. */
  predicate Listed(owner: OwnerId) {
    !EndsWith(owner, ".lock")
  }

  /** The first listed owner, in directory order, whose file holds the project. */
  function Scan(files: Files, bad: set<OwnerId>, order: seq<OwnerId>, id: ProjectId): Outcome<Option<OwnerId>> {
    if order == [] then Returned(None)
    else if !Listed(order[0]) then Scan(files, bad, order[1..], id)
    else if !CanLoad(bad, order[0]) then Threw
    else if Find(Load(files, order[0]), id).Some? then Returned(Some(order[0]))
    else Scan(files, bad, order[1..], id)
  }

  function IndexEntry(index: IndexFile, id: ProjectId): IndexValue {
    if index.Parsed? && id in index.entries then index.entries[id] else Falsy
  }

  predicate IsTruthy(v: IndexValue) {
    v.Truthy? || (v.Text? && v.owner != "")
  }

  /** What the index leads to. */
  function Indexed(files: Files, bad: set<OwnerId>, index: IndexFile, id: ProjectId): Outcome<Option<Project>> {
    var v := IndexEntry(index, id);
    if index.Unreadable? then Threw
    else if !IsTruthy(v) then Returned(None)
    else if !v.Text? || !CanLoad(bad, v.owner) then Threw
    else Returned(Find(Load(files, v.owner), id))
  }

  function Lookup(files: Files, bad: set<OwnerId>, order: seq<OwnerId>, index: IndexFile, id: ProjectId)
    : Outcome<Option<Project>>
  {
    if Blank(id) || Indexed(files, bad, index, id) != Returned(None)
    then if Blank(id) then Threw else Indexed(files, bad, index, id)
    else
      match Scan(files, bad, order, id)
      case Threw => Threw
      case Returned(owner) => Returned(if owner.Some? then Find(Load(files, owner.value), id) else None)
  }

  /** The index after a lookup: a scan that finds the project repairs it, if the repair can be written. */
  function Repaired(files: Files, bad: set<OwnerId>, order: seq<OwnerId>, index: IndexFile, id: ProjectId,
                    repairOk: bool): IndexFile
  {
    if Blank(id) || Indexed(files, bad, index, id) != Returned(None) then index
    else
      var owner := Scan(files, bad, order, id);
      if owner.Returned? && owner.value.Some? && repairOk then Put(index, id, owner.value.value) else index
  }

  /** indexPut, which throws and changes nothing when the index cannot be read. */
  function Put(index: IndexFile, id: ProjectId, owner: OwnerId): IndexFile {
    if index.Parsed? then Parsed(index.entries[id := Text(owner)]) else index
  }

  function Dropped(index: IndexFile, id: ProjectId): IndexFile {
    if index.Parsed? then Parsed(index.entries - {id}) else index
  }

  /** The owner unregister works on, if there is one. */
  function Target(index: IndexFile, id: ProjectId, hint: Option<OwnerId>): Outcome<Option<OwnerId>> {
    if hint.Some? && hint.value != "" then Returned(hint)
    else if index.Unreadable? || IndexEntry(index, id).Truthy? then Threw
    else if IsTruthy(IndexEntry(index, id)) then Returned(Some(IndexEntry(index, id).owner))
    else Returned(None)
  }

  /** The owner files, the index and the answer after unregister: a throw may come before or after the removal. */
  function Unregistered(files: Files, bad: set<OwnerId>, index: IndexFile, id: ProjectId, hint: Option<OwnerId>)
    : (Files, IndexFile, Outcome<bool>)
  {
    var target := Target(index, id, hint);
    if Blank(id) || target.Threw? then (files, index, Threw)
    else if target.value.None? then (files, Dropped(index, id), if index.Parsed? then Returned(false) else Threw)
    else if !CanLoad(bad, target.value.value) then (files, index, Threw)
    else
      var owner := target.value.value;
      var removed := |Without(Load(files, owner), id)| != |Load(files, owner)|;
      (if removed then files[owner := Without(Load(files, owner), id)] else files,
       Dropped(index, id), if index.Parsed? then Returned(removed) else Threw)
  }

  // ---------------------------------------------------------------- the registry object

  class Registry {
    var files: Files
    var index: IndexFile

    constructor ()
      ensures files == map[] && index == Parsed(map[])
    {
      files, index := map[], Parsed(map[]);
    }

    /** True when it returns, false when it throws. */
    method IndexPut(id: ProjectId, owner: OwnerId) returns (ok: bool)
      modifies this`index
      ensures ok == old(index).Parsed? && index == Put(old(index), id, owner)
    {
      if index.Unreadable? { return false; }
      if id !in index.entries || index.entries[id] != Text(owner) {
        index := Parsed(index.entries[id := Text(owner)]);
      }
      return true;
    }

    /** The record is put where its id is found first, or at the end. */
    static method Upserted(records: seq<Project>, record: Project) returns (next: seq<Project>)
      ensures next == Upsert(records, record)
    {
      var i := 0;
      while i < |records| && records[i].id != record.id
        invariant 0 <= i <= |records|
        invariant forall j :: 0 <= j < i ==> records[j].id != record.id
      {
        i := i + 1;
      }
      UpsertAt(records, record, i);
      if i < |records| {
        next := records[i := record];
      } else {
        next := records + [record];
      }
    }

    /** register; `crash` stops it between the owner file and the index. */
    method Register(record: Project, bad: set<OwnerId>, crash: bool) returns (ok: bool)
      modifies this
      ensures !CanLoad(bad, record.ownerId) ==> !ok && files == old(files) && index == old(index)
      ensures CanLoad(bad, record.ownerId) ==>
                && files == old(files)[record.ownerId := Upsert(Load(old(files), record.ownerId), record)]
                && index == (if crash then old(index) else Put(old(index), record.id, record.ownerId))
                && ok == (!crash && old(index).Parsed?)
    {
      if !CanLoad(bad, record.ownerId) { return false; }
      var records := Upserted(Load(files, record.ownerId), record);
      files := files[record.ownerId := records];
      if crash { return false; }
      ok := IndexPut(record.id, record.ownerId);
    }

    method Unregister(id: ProjectId, bad: set<OwnerId>, hint: Option<OwnerId>) returns (removed: Outcome<bool>)
      modifies this
      ensures (files, index, removed) == Unregistered(old(files), bad, old(index), id, hint)
    {
      if Blank(id) { return Threw; }
      var value := if hint.Some? && hint.value != "" then Text(hint.value) else IndexEntry(index, id);
      if (hint.None? || hint.value == "") && index.Unreadable? { return Threw; }
      var gone := false;
      if IsTruthy(value) {
        if !value.Text? || !CanLoad(bad, value.owner) { return Threw; }
        var records := Load(files, value.owner);
        var next := Without(records, id);
        if |next| != |records| {
          files := files[value.owner := next];
          gone := true;
        }
      }
      if index.Unreadable? { return Threw; }
      index := Parsed(index.entries - {id});
      return Returned(gone);
    }

    method Get(id: ProjectId, bad: set<OwnerId>, order: seq<OwnerId>, repairOk: bool)
      returns (record: Outcome<Option<Project>>)
      modifies this`index
      ensures record == Lookup(files, bad, order, old(index), id)
      ensures index == Repaired(files, bad, order, old(index), id, repairOk)
    {
      if Blank(id) || index.Unreadable? { return Threw; }
      var value := IndexEntry(index, id);
      if IsTruthy(value) {
        if !value.Text? || !CanLoad(bad, value.owner) { return Threw; }
        var found := Find(Load(files, value.owner), id);
        if found.Some? { return Returned(found); }
      }
      record := ScanAndIndex(id, bad, order, repairOk);
    }

    method ScanAndIndex(id: ProjectId, bad: set<OwnerId>, order: seq<OwnerId>, repairOk: bool)
      returns (found: Outcome<Option<Project>>)
      modifies this`index
      ensures var owner := Scan(files, bad, order, id);
              && found == (if owner.Threw? then Threw
                           else Returned(if owner.value.Some? then Find(Load(files, owner.value.value), id) else None))
              && index == if owner.Returned? && owner.value.Some? && repairOk
                          then Put(old(index), id, owner.value.value) else old(index)
    {
      for i := 0 to |order|
        invariant Scan(files, bad, order, id) == Scan(files, bad, order[i..], id)
        invariant index == old(index)
      {
        assert order[i..][1..] == order[i + 1..];
        if Listed(order[i]) {
          if !CanLoad(bad, order[i]) { return Threw; }
          var record := Find(Load(files, order[i]), id);
          if record.Some? {
            if repairOk { var _ := IndexPut(id, order[i]); }
            return Returned(record);
          }
        }
      }
      return Returned(None);
    }
  }

  // ---------------------------------------------------------------- the index does not matter

  /** Every owner whose file can be read and holds the project holds the record that a scan finds. */
  ghost predicate HoldersAgree(files: Files, bad: set<OwnerId>, order: seq<OwnerId>, id: ProjectId) {
    forall o :: o in files && CanLoad(bad, o) && Find(files[o], id).Some? ==>
      Lookup(files, bad, order, Parsed(map[]), id) == Returned(Find(files[o], id))
  }

  /**
   * Whatever the index contains, a lookup answers as with no index or throws on the entry, exactly when all
   * holders agree.
   */
  lemma IndexIsIrrelevantIff(files: Files, bad: set<OwnerId>, order: seq<OwnerId>, id: ProjectId)
    requires !Blank(id)
    ensures (forall index: IndexFile :: Indexed(files, bad, index, id).Threw?
                                        || Lookup(files, bad, order, index, id)
                                           == Lookup(files, bad, order, Parsed(map[]), id))
            <==> HoldersAgree(files, bad, order, id)
  {
    var plain := Lookup(files, bad, order, Parsed(map[]), id);
    if forall index: IndexFile ::
         Indexed(files, bad, index, id).Threw? || Lookup(files, bad, order, index, id) == plain
    {
      forall o | o in files && CanLoad(bad, o) && Find(files[o], id).Some?
        ensures plain == Returned(Find(files[o], id))
      {
        var index := Parsed(map[id := Text(o)]);
        assert o != "";
        assert Lookup(files, bad, order, index, id) == Returned(Find(files[o], id));
      }
    }
    if HoldersAgree(files, bad, order, id) {
      forall index: IndexFile
        ensures Indexed(files, bad, index, id).Threw? || Lookup(files, bad, order, index, id) == plain
      {
        var v := IndexEntry(index, id);
        if v.Text? && v.owner in files && Find(files[v.owner], id).Some? {
          assert CanLoad(bad, v.owner) ==> plain == Returned(Find(files[v.owner], id));
        }
      }
    }
  }

  lemma {:induction false} ScanThrowsIff(files: Files, bad: set<OwnerId>, order: seq<OwnerId>, id: ProjectId)
    ensures Scan(files, bad, order, id).Threw? <==>
            exists i :: Blocked(files, bad, order, id, i)
  {
    if order != [] {
      ScanThrowsIff(files, bad, order[1..], id);
      var past := !Listed(order[0]) || (CanLoad(bad, order[0]) && Find(Load(files, order[0]), id).None?);
      if past && exists i :: Blocked(files, bad, order[1..], id, i) {
        var i :| Blocked(files, bad, order[1..], id, i);
        assert Blocked(files, bad, order, id, i + 1);
      }
      if past && exists i :: Blocked(files, bad, order, id, i) {
        var i :| Blocked(files, bad, order, id, i);
        assert i > 0;
        assert Blocked(files, bad, order[1..], id, i - 1);
      }
      if Listed(order[0]) && !CanLoad(bad, order[0]) {
        assert Blocked(files, bad, order, id, 0);
      }
    }
  }

  /** A listed owner that cannot be loaded stands before every one that holds the project. */
  predicate Blocked(files: Files, bad: set<OwnerId>, order: seq<OwnerId>, id: ProjectId, i: int) {
    && 0 <= i < |order| && Listed(order[i]) && !CanLoad(bad, order[i])
    && forall j :: 0 <= j < i && Listed(order[j]) ==> CanLoad(bad, order[j]) && Find(Load(files, order[j]), id).None?
  }

  /**
   * Exactly when a lookup throws: the id is blank, the index cannot be read, its entry is truthy and no
   * loadable owner id, or the index leads nowhere and the scan meets an owner it cannot load first.
   */
  lemma LookupThrowsIff(files: Files, bad: set<OwnerId>, order: seq<OwnerId>, index: IndexFile, id: ProjectId)
    ensures var v := IndexEntry(index, id);
            var bare := v.Text? && CanLoad(bad, v.owner) ==> Find(Load(files, v.owner), id).None?;
            Lookup(files, bad, order, index, id).Threw? <==>
            || Blank(id) || index.Unreadable?
            || (IsTruthy(v) && (!v.Text? || !CanLoad(bad, v.owner)))
            || (bare && exists i :: Blocked(files, bad, order, id, i))
  {
    ScanThrowsIff(files, bad, order, id);
  }

  /**
   * When every owner directory can be loaded, only the index decides: its entry is absent, falsy or an
   * admissible, readable owner.
   */
  lemma LookupAnswersIff(files: Files, bad: set<OwnerId>, order: seq<OwnerId>, index: IndexFile, id: ProjectId)
    requires !Blank(id) && forall i :: 0 <= i < |order| && Listed(order[i]) ==> CanLoad(bad, order[i])
    ensures Lookup(files, bad, order, index, id).Returned? <==>
            index.Parsed? && (IsTruthy(IndexEntry(index, id)) ==>
                                IndexEntry(index, id).Text? && CanLoad(bad, IndexEntry(index, id).owner))
  {
    LookupThrowsIff(files, bad, order, index, id);
  }

  /** A blank owner in the index makes the lookup throw, although an owner file holds the project. */
  lemma BlankOwnerThrows(files: Files, bad: set<OwnerId>, order: seq<OwnerId>, owner: OwnerId, id: ProjectId)
    requires !Blank(id) && owner in files && CanLoad(bad, owner) && Find(files[owner], id).Some?
    ensures Lookup(files, bad, order, Parsed(map[id := Text(" ")]), id) == Threw
    ensures Lookup(files, bad, order, Unreadable, id) == Threw
    ensures Lookup(files, bad, order, Parsed(map[id := Text(owner)]), id) == Returned(Find(files[owner], id))
  {
    assert Blank(" ");
    assert owner != "";
  }

  /** Repairing the index changes no answer, to this question or any other, shared ids or not. */
  lemma RepairIsInvisible(files: Files, bad: set<OwnerId>, order: seq<OwnerId>, index: IndexFile, id: ProjectId,
                          repairOk: bool, other: ProjectId)
    ensures Lookup(files, bad, order, Repaired(files, bad, order, index, id, repairOk), other)
            == Lookup(files, bad, order, index, other)
  {
    ScanFinds(files, bad, order, id);
  }

  lemma {:induction false} ScanFinds(files: Files, bad: set<OwnerId>, order: seq<OwnerId>, id: ProjectId)
    ensures var owner := Scan(files, bad, order, id);
            owner.Returned? && owner.value.Some? ==>
              && Listed(owner.value.value) && CanLoad(bad, owner.value.value) && owner.value.value in order
              && owner.value.value != "" && Find(Load(files, owner.value.value), id).Some?
  {
    if order != [] { ScanFinds(files, bad, order[1..], id); }
  }

  lemma {:induction false} ScanMisses(files: Files, bad: set<OwnerId>, order: seq<OwnerId>, id: ProjectId,
                                      owner: OwnerId)
    requires owner in order && Listed(owner) && Find(Load(files, owner), id).Some?
    ensures Scan(files, bad, order, id) != Returned(None)
  {
    if order[0] != owner { ScanMisses(files, bad, order[1..], id, owner); }
  }

  // ---------------------------------------------------------------- runs

  /** The registry as its callers think of it, with the owner files and the index that implement it. */
  datatype World = World(files: Files, index: IndexFile, view: map<ProjectId, Project>)

  datatype Event =
    | Register(record: Project, unloadable: set<OwnerId>, crash: bool)
    | Unregister(id: ProjectId, unreadable: set<OwnerId>, hint: Option<OwnerId>)
    | Get(asked: ProjectId, bad: set<OwnerId>, order: seq<OwnerId>, repairOk: bool)
    | Corrupt(index: IndexFile)

  predicate Removes(w: World, id: ProjectId, bad: set<OwnerId>, hint: Option<OwnerId>) {
    Unregistered(w.files, bad, w.index, id, hint).0 != w.files
  }

  function Step(w: World, e: Event): World {
    match e
    case Register(r, bad, crash) =>
      if !CanLoad(bad, r.ownerId) then w
      else
        World(w.files[r.ownerId := Upsert(Load(w.files, r.ownerId), r)],
              if crash then w.index else Put(w.index, r.id, r.ownerId), w.view[r.id := r])
    case Unregister(id, bad, hint) =>
      var (files, index, _) := Unregistered(w.files, bad, w.index, id, hint);
      World(files, index, if Removes(w, id, bad, hint) then w.view - {id} else w.view)
    case Get(id, bad, order, repairOk) => w.(index := Repaired(w.files, bad, order, w.index, id, repairOk))
    case Corrupt(index) => w.(index := index)
  }

  /** An id is registered under one listed owner at a time. */
  predicate Allowed(w: World, e: Event) {
    e.Register? ==>
      Listed(e.record.ownerId) && (e.record.id in w.view ==> w.view[e.record.id].ownerId == e.record.ownerId)
  }

  predicate Distinct(records: seq<Project>) {
    records == [] || (Find(records[1..], records[0].id).None? && Distinct(records[1..]))
  }

  /** The owner's file shows the project exactly when it is registered under that owner. */
  predicate ShownAt(files: Files, view: map<ProjectId, Project>, id: ProjectId, o: OwnerId) {
    Find(Load(files, o), id) == if id in view && view[id].ownerId == o then Some(view[id]) else None
  }

  ghost predicate Shown(files: Files, view: map<ProjectId, Project>) {
    forall id, o :: ShownAt(files, view, id, o)
  }

  /** The files hold exactly the view, each record once and under its own owner. */
  ghost predicate Inv(w: World) {
    (forall o :: o in w.files ==> Listed(o) && Distinct(w.files[o])) && Shown(w.files, w.view)
  }

  lemma {:induction false} UpsertFinds(records: seq<Project>, record: Project, id: ProjectId)
    ensures Find(Upsert(records, record), id) == if id == record.id then Some(record) else Find(records, id)
  {
    if records != [] && records[0].id != record.id { UpsertFinds(records[1..], record, id); }
  }

  lemma {:induction false} UpsertDistinct(records: seq<Project>, record: Project)
    requires Distinct(records)
    ensures Distinct(Upsert(records, record))
  {
    if records != [] && records[0].id != record.id {
      UpsertDistinct(records[1..], record);
      UpsertFinds(records[1..], record, records[0].id);
    }
  }

  lemma {:induction false} WithoutFinds(records: seq<Project>, id: ProjectId, other: ProjectId)
    ensures Find(Without(records, id), other) == if other == id then None else Find(records, other)
    ensures |Without(records, id)| <= |records|
    ensures |Without(records, id)| != |records| <==> Find(records, id).Some?
  {
    if records != [] { WithoutFinds(records[1..], id, other); }
  }

  lemma {:induction false} WithoutDistinct(records: seq<Project>, id: ProjectId)
    requires Distinct(records)
    ensures Distinct(Without(records, id))
  {
    if records != [] {
      WithoutDistinct(records[1..], id);
      WithoutFinds(records[1..], id, records[0].id);
    }
  }

  lemma RegisterKeeps(w: World, e: Event)
    requires Inv(w) && Allowed(w, e) && e.Register?
    ensures Inv(Step(w, e))
  {
    var after, record := Step(w, e), e.record;
    if CanLoad(e.unloadable, record.ownerId) {
      UpsertDistinct(Load(w.files, record.ownerId), record);
      forall id, o ensures ShownAt(after.files, after.view, id, o) {
        assert ShownAt(w.files, w.view, id, o);
        UpsertFinds(Load(w.files, record.ownerId), record, id);
      }
    }
  }

  lemma RemovalShows(files: Files, view: map<ProjectId, Project>, owner: OwnerId, id: ProjectId)
    requires Shown(files, view) && Find(Load(files, owner), id).Some?
    ensures Shown(files[owner := Without(Load(files, owner), id)], view - {id})
  {
    var left := files[owner := Without(Load(files, owner), id)];
    assert ShownAt(files, view, id, owner);
    forall other, o ensures ShownAt(left, view - {id}, other, o) {
      assert ShownAt(files, view, other, o);
      WithoutFinds(Load(files, owner), id, other);
    }
  }

  /** What unregister takes out, if anything: the project from the file of its target. */
  lemma RemovesWhat(w: World, id: ProjectId, bad: set<OwnerId>, hint: Option<OwnerId>)
    ensures var target := Target(w.index, id, hint);
            Removes(w, id, bad, hint) <==>
            && !Blank(id) && target.Returned? && target.value.Some? && CanLoad(bad, target.value.value)
            && Find(Load(w.files, target.value.value), id).Some?
    ensures Removes(w, id, bad, hint) ==>
            var owner := Target(w.index, id, hint).value.value;
            Unregistered(w.files, bad, w.index, id, hint).0 == w.files[owner := Without(Load(w.files, owner), id)]
  {
    var target := Target(w.index, id, hint);
    if target.Returned? && target.value.Some? {
      var owner := target.value.value;
      WithoutFinds(Load(w.files, owner), id, id);
      if Find(Load(w.files, owner), id).Some? {
        assert owner in w.files && Without(w.files[owner], id) != w.files[owner];
        assert w.files[owner := Without(Load(w.files, owner), id)][owner] != w.files[owner];
      }
    }
  }

  lemma UnregisterKeeps(w: World, e: Event)
    requires Inv(w) && e.Unregister?
    ensures Inv(Step(w, e))
  {
    RemovesWhat(w, e.id, e.unreadable, e.hint);
    if Removes(w, e.id, e.unreadable, e.hint) {
      var owner := Target(w.index, e.id, e.hint).value.value;
      WithoutDistinct(Load(w.files, owner), e.id);
      RemovalShows(w.files, w.view, owner, e.id);
    }
  }

  lemma StepKeeps(w: World, e: Event)
    requires Inv(w) && Allowed(w, e)
    ensures Inv(Step(w, e))
  {
    match e
    case Register(_, _, _) => RegisterKeeps(w, e);
    case Unregister(_, _, _) => UnregisterKeeps(w, e);
    case _ =>
  }

  function Run(w: World, events: seq<Event>): World
    decreases events
  {
    if events == [] then w else Run(Step(w, events[0]), events[1..])
  }

  predicate Possible(w: World, events: seq<Event>)
    decreases events
  {
    events == [] || (Allowed(w, events[0]) && Possible(Step(w, events[0]), events[1..]))
  }

  lemma {:induction false} RunKeeps(w: World, events: seq<Event>)
    requires Inv(w) && Possible(w, events)
    ensures Inv(Run(w, events))
    decreases events
  {
    if events != [] {
      StepKeeps(w, events[0]);
      RunKeeps(Step(w, events[0]), events[1..]);
    }
  }

  function Empty(): World {
    World(map[], Parsed(map[]), map[])
  }

  /**
   * After any run, with any index contents at all and any owners unreadable, a lookup over a complete
   * directory listing finds exactly the record last registered and not unregistered since, or throws.
   */
  lemma LookupIsExact(events: seq<Event>, bad: set<OwnerId>, index: IndexFile, order: seq<OwnerId>, id: ProjectId)
    requires Possible(Empty(), events)
    requires forall o :: o in Run(Empty(), events).files ==> o in order
    ensures var w := Run(Empty(), events);
            var answer := Lookup(w.files, bad, order, index, id);
            answer.Returned? ==> answer.value == if id in w.view then Some(w.view[id]) else None
  {
    RunKeeps(Empty(), events);
    var w := Run(Empty(), events);
    forall o
      ensures Find(Load(w.files, o), id)
              == if id in w.view && w.view[id].ownerId == o then Some(w.view[id]) else None
    {
      assert ShownAt(w.files, w.view, id, o);
    }
    ScanFinds(w.files, bad, order, id);
    if id in w.view {
      var owner := w.view[id].ownerId;
      assert Find(Load(w.files, owner), id).Some?;
      assert owner in w.files;
      ScanMisses(w.files, bad, order, id, owner);
    }
  }

  /**
   * unregister removes the record exactly when the hint, or failing that the index, names its owner and the
   * file can be read.
   */
  lemma UnregisterRemovesIff(events: seq<Event>, id: ProjectId, bad: set<OwnerId>, hint: Option<OwnerId>)
    requires Possible(Empty(), events)
    ensures var w := Run(Empty(), events);
            Removes(w, id, bad, hint) <==>
            && !Blank(id) && id in w.view
            && Target(w.index, id, hint) == Returned(Some(w.view[id].ownerId)) && CanLoad(bad, w.view[id].ownerId)
  {
    RunKeeps(Empty(), events);
    var w := Run(Empty(), events);
    var target := Target(w.index, id, hint);
    RemovesWhat(w, id, bad, hint);
    if target.Returned? && target.value.Some? {
      assert ShownAt(w.files, w.view, id, target.value.value);
    }
  }

  /** An owner whose id ends in ".lock" is never scanned: its projects are found through the index alone. */
  lemma LockNamedOwnerIsHidden(files: Files, bad: set<OwnerId>, order: seq<OwnerId>, owner: OwnerId, id: ProjectId)
    requires EndsWith(owner, ".lock") && CanLoad(bad, owner) && !Blank(id)
    requires owner in files && Find(files[owner], id).Some?
    requires forall o :: o in files && o != owner ==> Find(files[o], id).None?
    ensures Lookup(files, bad, order, Parsed(map[id := Text(owner)]), id) == Returned(Find(files[owner], id))
    ensures Lookup(files, bad, order, Parsed(map[]), id) in {Threw, Returned(None)}
  {
    ScanFinds(files, bad, order, id);
    assert owner != "";
  }

  // ---------------------------------------------------------------- the index makes lookups cheap

  /** A record just registered is found through the index alone, without listing any owner. */
  lemma RegisteredIsIndexed(w: World, record: Project, bad: set<OwnerId>)
    requires CanLoad(bad, record.ownerId) && !Blank(record.id) && w.index.Parsed?
    ensures var t := Step(w, Register(record, bad, false));
            Lookup(t.files, bad, [], t.index, record.id) == Returned(Some(record))
  {
    UpsertFinds(Load(w.files, record.ownerId), record, record.id);
    assert record.ownerId != "";
  }

  /** A lookup that had to scan, and could write its repair, leaves an index that answers alone. */
  lemma RepairedIsIndexed(w: World, id: ProjectId, bad: set<OwnerId>, order: seq<OwnerId>)
    requires Lookup(w.files, bad, order, w.index, id).Returned?
    requires Lookup(w.files, bad, order, w.index, id).value.Some?
    ensures var t := Step(w, Get(id, bad, order, true));
            Lookup(t.files, bad, [], t.index, id) == Lookup(w.files, bad, order, w.index, id)
  {
    ScanFinds(w.files, bad, order, id);
  }

  /** After unregister has returned the index says nothing of the project, and what it says of others stays. */
  lemma UnregisteredIsNotIndexed(w: World, id: ProjectId, bad: set<OwnerId>, hint: Option<OwnerId>, other: ProjectId)
    requires Unregistered(w.files, bad, w.index, id, hint).2.Returned?
    ensures var index := Step(w, Unregister(id, bad, hint)).index;
            IndexEntry(index, id) == Falsy && (other != id ==> IndexEntry(index, other) == IndexEntry(w.index, other))
  {
  }

  /** An admissible id is a single path component that names an entry of its directory, whatever the separator. */
  lemma {:induction false} AdmissibleIsOneName(id: string)
    requires Admissible(id)
    ensures Split(id, '/') == [id] && Split(id, '\\') == [id] && id !in ["", ".", ".."] && ':' !in id && '\0' !in id
  {
    SplitWhole(id, '/');
    SplitWhole(id, '\\');
  }

  /** An absent, falsy or empty entry is no entry: the lookup then scans, as it does with an empty index. */
  lemma EmptyEntryIsNoEntry(files: Files, bad: set<OwnerId>, order: seq<OwnerId>, entries: map<ProjectId, IndexValue>,
                            id: ProjectId)
    requires id in entries ==> entries[id] == Falsy || entries[id] == Text("")
    ensures Lookup(files, bad, order, Parsed(entries), id) == Lookup(files, bad, order, Parsed(map[]), id)
  {
  }
}
