// MemoryStore: memories with one row each, a history row for every version, and a
// full-text index kept by triggers. Every write is one transaction.

module MemoryStore {
  import opened Sorting
  import opened Wrappers

  type Id = string

  datatype MemoryScope = Global | Project
  datatype ReadScope = OnlyGlobal | OnlyProject | AllScopes
  datatype Action = Create | Update | Forget

  datatype MemoryRecord = MemoryRecord(
    id: Id,
    scope: MemoryScope,
    projectId: Option<string>,
    name: string,
    summary: string,
    details: string,
    kind: string,
    tags: seq<string>,
    importance: int,
    pinned: bool,
    sourceThreadId: Option<string>,
    writeReason: string,
    version: nat,
    createdAt: int,
    updatedAt: int)

  datatype Row = Row(record: MemoryRecord, deletedAt: Option<int>, lastAccessedAt: Option<int>, accessCount: nat)
  datatype HistoryRow = HistoryRow(memoryId: Id, version: nat, action: Action, snapshot: MemoryRecord)
  datatype IndexRow = IndexRow(memoryId: Id, name: string, summary: string, details: string, tags: seq<string>)

  // The changes update accepts; None keeps the current value.
  datatype MemoryUpdate = MemoryUpdate(
    expectedVersion: nat,
    summary: Option<string>,
    details: Option<string>,
    kind: Option<string>,
    tags: Option<seq<string>>,
    importance: Option<int>,
    pinned: Option<bool>,
    sourceThreadId: Option<string>,
    writeReason: string)

  // What names are unique within: "global", or "project:" and the project's id.
  datatype ScopeKey = GlobalKey | ProjectKey(projectId: string)

  function KeyOf(scope: MemoryScope, projectId: Option<string>): ScopeKey {
    if scope.Global? then GlobalKey else ProjectKey(if projectId.Some? then projectId.value else "missing")
  }

  function IndexOf(m: MemoryRecord): IndexRow {
    IndexRow(m.id, m.name, m.summary, m.details, m.tags)
  }

  predicate Active(row: Row) {
    row.deletedAt.None?
  }

  predicate InScope(m: MemoryRecord, scope: ReadScope, projectId: Option<string>) {
    match scope
    case OnlyGlobal => m.scope.Global?
    case OnlyProject => m.scope.Project? && m.projectId == projectId
    case AllScopes => m.scope.Global? || (projectId.Some? && m.scope.Project? && m.projectId == projectId)
  }

  predicate Candidate(row: Row, idOrName: string, scope: ReadScope, projectId: Option<string>) {
    Active(row) && (row.record.id == idOrName || row.record.name == idOrName) && InScope(row.record, scope, projectId)
  }

  // The order of the query: project memories first, then the most recently updated.
  predicate Before(a: MemoryRecord, b: MemoryRecord) {
    if a.scope != b.scope then a.scope.Project? else a.updatedAt > b.updatedAt
  }

  type Memories = map<Id, Row>

  // A reader sees the global memories unless it asks for its project's only, and those of
  // its project unless it asks for the global ones only. For all of them, without a project,
  // it sees the global ones.
  ghost predicate Sees(scope: ReadScope, projectId: Option<string>, m: MemoryRecord) {
    match m.scope
    case Global => scope != OnlyProject
    case Project => scope != OnlyGlobal && m.projectId == projectId && (projectId == None ==> scope == OnlyProject)
  }

  // The memories a reader can mean by a string.
  ghost predicate Means(row: Row, idOrName: string, scope: ReadScope, projectId: Option<string>) {
    row.deletedAt == None && idOrName in {row.record.id, row.record.name} && Sees(scope, projectId, row.record)
  }

  ghost predicate Preferred(a: MemoryRecord, b: MemoryRecord) {
    (a.scope == Project && b.scope == Global) || (a.scope == b.scope && a.updatedAt > b.updatedAt)
  }

  // The answer to a string: one of the memories it can mean, with none preferred to it.
  ghost predicate IsChoice(memories: Memories, idOrName: string, scope: ReadScope, projectId: Option<string>, choice: Option<MemoryRecord>) {
    match choice
    case None => forall id | id in memories :: !Means(memories[id], idOrName, scope, projectId)
    case Some(m) =>
      && m.id in memories && memories[m.id].record == m && Means(memories[m.id], idOrName, scope, projectId)
      && forall id | id in memories && Means(memories[id], idOrName, scope, projectId) :: !Preferred(memories[id].record, m)
  }

  // The history and the index rows of one memory, in order of insertion.
  function HistoryOf(history: seq<HistoryRow>, id: Id): seq<HistoryRow> {
    if history == [] then []
    else
      var last := history[|history| - 1];
      HistoryOf(history[..|history| - 1], id) + if last.memoryId == id then [last] else []
  }

  function IndexRowsOf(index: seq<IndexRow>, id: Id): seq<IndexRow> {
    if index == [] then []
    else
      var last := index[|index| - 1];
      IndexRowsOf(index[..|index| - 1], id) + if last.memoryId == id then [last] else []
  }

  function IndexWithout(index: seq<IndexRow>, id: Id): seq<IndexRow> {
    if index == [] then []
    else
      var last := index[|index| - 1];
      IndexWithout(index[..|index| - 1], id) + if last.memoryId == id then [] else [last]
  }

  // A memory's history is exactly its versions 1 to v, ending in what the row says.
  ghost predicate HistoryMatches(history: seq<HistoryRow>, m: MemoryRecord) {
    var rows := HistoryOf(history, m.id);
    && m.version >= 1
    && |rows| == m.version
    && (forall k | 0 <= k < |rows| :: rows[k].version == k + 1)
    && rows[m.version - 1].snapshot == m
  }

  ghost predicate MemoryInv(memories: Memories, history: seq<HistoryRow>, index: seq<IndexRow>, id: Id)
    requires id in memories
  {
    && memories[id].record.id == id
    && HistoryMatches(history, memories[id].record)
    && IndexRowsOf(index, id) == [IndexOf(memories[id].record)]
  }

  ghost predicate NamesUnique(memories: Memories) {
    forall a, b | a in memories && b in memories && memories[a].deletedAt == None && memories[b].deletedAt == None && SameNameInScope(memories[a].record, memories[b].record) :: a == b
  }

  predicate SameName(a: MemoryRecord, b: MemoryRecord) {
    KeyOf(a.scope, a.projectId) == KeyOf(b.scope, b.projectId) && a.name == b.name
  }

  ghost predicate Inv(memories: Memories, history: seq<HistoryRow>, index: seq<IndexRow>) {
    && (forall id {:trigger MemoryInv(memories, history, index, id)} | id in memories :: MemoryInv(memories, history, index, id))
    && (forall h | h in history :: h.memoryId in memories)
    && (forall row | row in index :: row.memoryId in memories)
    && NamesUnique(memories)
  }

  lemma NamesStayUnique(memories: Memories, row: Row)
    requires NamesUnique(memories) && row.record.id in memories
    requires SameNameInScope(row.record, memories[row.record.id].record) && (Active(row) ==> Active(memories[row.record.id]))
    ensures NamesUnique(memories[row.record.id := row])
  {
    var memories' := memories[row.record.id := row];
    forall a, b | a in memories' && b in memories' && Active(memories'[a]) && Active(memories'[b]) && SameNameInScope(memories'[a].record, memories'[b].record)
      ensures a == b
    {
      assert Active(memories[a]) && Active(memories[b]) && SameNameInScope(memories[a].record, memories[b].record);
    }
  }

  lemma RowsKnowTheirIds(memories: Memories, history: seq<HistoryRow>, index: seq<IndexRow>)
    requires Inv(memories, history, index)
    ensures forall id | id in memories :: memories[id].record.id == id
  {
    forall id | id in memories ensures memories[id].record.id == id {
      assert MemoryInv(memories, history, index, id);
    }
  }

  // UPDATE memories SET last_accessed_at, access_count.
  function Touched(memories: Memories, id: Id, now: int): Memories {
    if id in memories then
      memories[id := memories[id].(lastAccessedAt := Some(now), accessCount := memories[id].accessCount + 1)]
    else
      memories
  }

  lemma TouchKeepsInv(memories: Memories, history: seq<HistoryRow>, index: seq<IndexRow>, id: Id, now: int)
    requires Inv(memories, history, index)
    ensures Inv(Touched(memories, id, now), history, index)
  {
    var memories' := Touched(memories, id, now);
    forall i | i in memories' ensures MemoryInv(memories', history, index, i) {
      assert MemoryInv(memories, history, index, i);
      assert memories'[i].record == memories[i].record;
    }
    if id in memories {
      assert MemoryInv(memories, history, index, id);
      NamesStayUnique(memories, memories'[id]);
    }
  }

  lemma AppendedHistory(history: seq<HistoryRow>, h: HistoryRow, id: Id)
    ensures HistoryOf(history + [h], id) == HistoryOf(history, id) + if h.memoryId == id then [h] else []
  {
    assert (history + [h])[..|history|] == history;
  }

  lemma AppendedIndex(index: seq<IndexRow>, x: IndexRow, id: Id)
    ensures IndexRowsOf(index + [x], id) == IndexRowsOf(index, id) + if x.memoryId == id then [x] else []
  {
    assert (index + [x])[..|index|] == index;
  }

  lemma {:induction false} RemovedRows(index: seq<IndexRow>, gone: Id, id: Id)
    ensures IndexRowsOf(IndexWithout(index, gone), id) == if id == gone then [] else IndexRowsOf(index, id)
    ensures forall x | x in IndexWithout(index, gone) :: x in index
  {
    if index != [] {
      var init, last := index[..|index| - 1], index[|index| - 1];
      RemovedRows(init, gone, id);
      var kept := IndexWithout(init, gone);
      if last.memoryId != gone {
        AppendedIndex(kept, last, id);
        assert IndexWithout(index, gone) == kept + [last];
      } else {
        assert IndexWithout(index, gone) == kept;
      }
    }
  }

  lemma {:induction false} OwnRowsOnly(history: seq<HistoryRow>, index: seq<IndexRow>, id: Id)
    ensures (forall h | h in HistoryOf(history, id) :: h in history && h.memoryId == id)
    ensures (forall h | h in history && h.memoryId == id :: h in HistoryOf(history, id))
    ensures (forall h | h in history :: h.memoryId != id) ==> HistoryOf(history, id) == []
    ensures (forall x | x in index :: x.memoryId != id) ==> IndexRowsOf(index, id) == []
    decreases |history| + |index|
  {
    if history != [] {
      OwnRowsOnly(history[..|history| - 1], index, id);
    } else if index != [] {
      OwnRowsOnly(history, index[..|index| - 1], id);
    }
  }

  lemma HistoryOfOthers(history: seq<HistoryRow>, h: HistoryRow, m: MemoryRecord)
    requires HistoryMatches(history, m) && h.memoryId != m.id
    ensures HistoryMatches(history + [h], m)
  {
    AppendedHistory(history, h, m.id);
  }

  lemma HistoryGrows(history: seq<HistoryRow>, m0: MemoryRecord, m: MemoryRecord, action: Action)
    requires HistoryMatches(history, m0) && m.id == m0.id && m.version == m0.version + 1
    ensures HistoryMatches(history + [HistoryRow(m.id, m.version, action, m)], m)
  {
    AppendedHistory(history, HistoryRow(m.id, m.version, action, m), m.id);
  }

  lemma HistoryStarts(history: seq<HistoryRow>, m: MemoryRecord, action: Action)
    requires HistoryOf(history, m.id) == [] && m.version == 1
    ensures HistoryMatches(history + [HistoryRow(m.id, m.version, action, m)], m)
  {
    AppendedHistory(history, HistoryRow(m.id, m.version, action, m), m.id);
  }

  // Inserting a memory with its first version.
  lemma AddKeepsMemory(memories: Memories, history: seq<HistoryRow>, index: seq<IndexRow>, m: MemoryRecord, id: Id)
    requires Inv(memories, history, index) && m.id !in memories && m.version == 1
    requires id in memories || id == m.id
    ensures MemoryInv(memories[m.id := Row(m, None, None, 0)], history + [HistoryRow(m.id, 1, Create, m)], index + [IndexOf(m)], id)
  {
    AppendedIndex(index, IndexOf(m), id);
    if id == m.id {
      OwnRowsOnly(history, index, id);
      HistoryStarts(history, m, Create);
    } else {
      assert MemoryInv(memories, history, index, id);
      HistoryOfOthers(history, HistoryRow(m.id, 1, Create, m), memories[id].record);
    }
  }

  lemma AddKeepsInv(memories: Memories, history: seq<HistoryRow>, index: seq<IndexRow>, m: MemoryRecord)
    requires Inv(memories, history, index) && m.id !in memories && m.version == 1
    requires forall id | id in memories && Active(memories[id]) :: !SameNameInScope(memories[id].record, m)
    ensures Inv(memories[m.id := Row(m, None, None, 0)], history + [HistoryRow(m.id, 1, Create, m)], index + [IndexOf(m)])
  {
    var memories', h := memories[m.id := Row(m, None, None, 0)], HistoryRow(m.id, 1, Create, m);
    forall id | id in memories' ensures MemoryInv(memories', history + [h], index + [IndexOf(m)], id) {
      AddKeepsMemory(memories, history, index, m, id);
    }
    assert NamesUnique(memories') by {
      forall a, b | a in memories' && b in memories' && Active(memories'[a]) && Active(memories'[b]) && SameNameInScope(memories'[a].record, memories'[b].record)
        ensures a == b
      {
        assert a != m.id ==> memories'[a] == memories[a];
        assert b != m.id ==> memories'[b] == memories[b];
      }
    }
  }

  // Writing the next version of a memory, with its index row rewritten or unchanged.
  ghost predicate IsNextVersion(memories: Memories, row: Row) {
    && row.record.id in memories
    && SameNameInScope(row.record, memories[row.record.id].record)
    && row.record.version == memories[row.record.id].record.version + 1
    && (Active(row) ==> Active(memories[row.record.id]))
  }

  lemma ReviseKeepsMemory(memories: Memories, history: seq<HistoryRow>, index: seq<IndexRow>, row: Row, action: Action, id: Id)
    requires Inv(memories, history, index) && IsNextVersion(memories, row) && id in memories
    ensures var m := row.record;
            var memories', history' := memories[m.id := row], history + [HistoryRow(m.id, m.version, action, m)];
            && MemoryInv(memories', history', IndexWithout(index, m.id) + [IndexOf(m)], id)
            && (IndexOf(m) == IndexOf(memories[m.id].record) ==> MemoryInv(memories', history', index, id))
  {
    var m := row.record;
    assert MemoryInv(memories, history, index, id);
    AppendedIndex(IndexWithout(index, m.id), IndexOf(m), id);
    RemovedRows(index, m.id, id);
    if id == m.id {
      HistoryGrows(history, memories[id].record, m, action);
    } else {
      HistoryOfOthers(history, HistoryRow(m.id, m.version, action, m), memories[id].record);
    }
  }

  lemma ReviseKeepsInv(memories: Memories, history: seq<HistoryRow>, index: seq<IndexRow>, row: Row, action: Action)
    requires Inv(memories, history, index) && IsNextVersion(memories, row)
    ensures var m := row.record;
            var memories', history' := memories[m.id := row], history + [HistoryRow(m.id, m.version, action, m)];
            && Inv(memories', history', IndexWithout(index, m.id) + [IndexOf(m)])
            && (IndexOf(m) == IndexOf(memories[m.id].record) ==> Inv(memories', history', index))
  {
    var m := row.record;
    var memories', history' := memories[m.id := row], history + [HistoryRow(m.id, m.version, action, m)];
    forall id | id in memories'
      ensures MemoryInv(memories', history', IndexWithout(index, m.id) + [IndexOf(m)], id)
      ensures IndexOf(m) == IndexOf(memories[m.id].record) ==> MemoryInv(memories', history', index, id)
    {
      ReviseKeepsMemory(memories, history, index, row, action, id);
    }
    RemovedRows(index, m.id, m.id);
    NamesStayUnique(memories, row);
  }

  class MemoryStore {
    var memories: Memories
    var history: seq<HistoryRow>
    var index: seq<IndexRow>

    ghost predicate Valid()
      reads this
    {
      Inv(memories, history, index)
    }

    constructor ()
      ensures Valid() && memories == map[]
    {
      memories, history, index := map[], [], [];
    }

    method Find(idOrName: string, scope: ReadScope, projectId: Option<string>) returns (choice: Option<MemoryRecord>)
      requires forall id | id in memories :: memories[id].record.id == id
      ensures IsChoice(memories, idOrName, scope, projectId, choice)
    {
      choice := None;
      var rest := memories.Keys;
      while rest != {}
        invariant rest <= memories.Keys
        invariant match choice
                  case None => forall id | id in memories.Keys - rest :: !Means(memories[id], idOrName, scope, projectId)
                  case Some(m) =>
                    && m.id in memories && memories[m.id].record == m && Means(memories[m.id], idOrName, scope, projectId)
                    && forall id | id in memories.Keys - rest && Means(memories[id], idOrName, scope, projectId) :: !Preferred(memories[id].record, m)
      {
        var id :| id in rest;
        rest := rest - {id};
        if Candidate(memories[id], idOrName, scope, projectId) && (choice.None? || Before(memories[id].record, choice.value)) {
          choice := Some(memories[id].record);
        }
      }
    }

    // A read that counts as an access changes nothing the invariant speaks of.
    method Get(idOrName: string, scope: ReadScope, projectId: Option<string>, touch: bool, now: int) returns (r: Result<Option<MemoryRecord>>)
      requires Valid()
      modifies `memories
      ensures Valid()
      ensures r.Err? <==> scope.OnlyProject? && projectId.None?
      ensures r.Ok? ==> IsChoice(old(memories), idOrName, scope, projectId, r.value)
      ensures touch && r.Ok? && r.value.Some? ==>
                var id := r.value.value.id;
                memories == old(memories)[id := Row(r.value.value, None, Some(now), old(memories)[id].accessCount + 1)]
      ensures !touch || r.Err? || r.value.None? ==> memories == old(memories)
    {
      if scope.OnlyProject? && projectId.None? {
        return Err;
      }
      RowsKnowTheirIds(memories, history, index);
      var choice := Find(idOrName, scope, projectId);
      r := Ok(choice);
      if touch && choice.Some? {
        TouchKeepsInv(memories, history, index, choice.value.id, now);
        memories := Touched(memories, choice.value.id, now);
      }
    }

    // INSERT INTO memory_history, with its UNIQUE(memory_id, version).
    method InsertHistory(m: MemoryRecord, action: Action) returns (ok: bool)
      modifies `history
      ensures ok <==> forall h | h in old(history) :: !(h.memoryId == m.id && h.version == m.version)
      ensures history == if ok then old(history) + [HistoryRow(m.id, m.version, action, m)] else old(history)
    {
      ok := !exists h | h in history :: h.memoryId == m.id && h.version == m.version;
      if ok {
        history := history + [HistoryRow(m.id, m.version, action, m)];
      }
    }

    // add: the row, its index row (by trigger) and its first history row, or nothing.
    method Add(m: MemoryRecord) returns (ok: bool)
      requires Valid() && m.version == 1
      requires m.scope.Global? <==> m.projectId.None?
      modifies this
      ensures Valid()
      ensures ok <==> CanAdd(old(memories), m)
      ensures ok ==> memories == old(memories)[m.id := Row(m, None, None, 0)] && history == old(history) + [HistoryRow(m.id, 1, Create, m)]
      ensures !ok ==> memories == old(memories) && history == old(history) && index == old(index)
      ensures ForgottenStay(old(memories), memories)
    {
      ghost var memories0, history0, index0 := memories, history, index;
      if m.id in memories || exists id | id in memories :: Active(memories[id]) && SameName(memories[id].record, m) {
        return false;
      }
      memories := memories[m.id := Row(m, None, None, 0)];
      index := index + [IndexOf(m)];
      // InsertHistory cannot fail here: a new memory has no history.
      ok := InsertHistory(m, Create);
      AddKeepsInv(memories0, history0, index0, m);
    }

    // update: valid says whether the given texts and tags pass validation.
    method Update(id: string, input: MemoryUpdate, projectId: Option<string>, valid: bool, now: int)
      returns (r: Result<MemoryRecord>, ghost found: Option<MemoryRecord>)
      requires Valid()
      modifies this
      ensures Valid() && IsChoice(old(memories), id, AllScopes, projectId, found)
      ensures r.Ok? <==> valid && found.Some? && found.value.version == input.expectedVersion
      ensures r.Err? ==> memories == old(memories) && history == old(history) && index == old(index)
      ensures r.Ok? ==>
                && RevisedFrom(found.value, r.value, input, now)
                && RowWritten(old(memories), memories, r.value.id, r.value, None)
                && history == old(history) + [HistoryRow(r.value.id, r.value.version, Action.Update, r.value)]
      ensures ForgottenStay(old(memories), memories)
    {
      RowsKnowTheirIds(memories, history, index);
      var choice := Find(id, AllScopes, projectId);
      found := choice;
      if choice.None? || choice.value.version != input.expectedVersion || !valid {
        return Err, found;
      }
      var current := choice.value;
      var updated := Revised(current, input, now);
      var row := memories[current.id].(record := updated);
      NextVersionIsFree(memories, history, index, current.id);
      ReviseKeepsInv(memories, history, index, row, Action.Update);
      // UPDATE ... WHERE id = ? AND version = ? AND deleted_at IS NULL, and its trigger.
      memories := memories[current.id := row];
      index := IndexWithout(index, current.id) + [IndexOf(updated)];
      // InsertHistory cannot fail here: the next version is free.
      var ok := InsertHistory(updated, Action.Update);
      assert ok;
      r := Ok(updated);
    }

    // forget looks the memory up by id or name, but its UPDATE compares the id with the
    // caller's string. It succeeds exactly when both are at the expected version, and
    // success keeps the store consistent exactly when that string is the id of the memory
    // that was found. By a name that is no memory's id it never succeeds.
    method Forget(id: string, expectedVersion: nat, reason: string, sourceThreadId: Option<string>, projectId: Option<string>, valid: bool, now: int)
      returns (r: Result<MemoryRecord>, ghost found: Option<MemoryRecord>)
      requires Valid()
      modifies this
      ensures IsChoice(old(memories), id, AllScopes, projectId, found)
      ensures r.Ok? <==>
                && valid && found.Some? && found.value.version == expectedVersion
                && id in old(memories) && Active(old(memories)[id]) && old(memories)[id].record.version == expectedVersion
      ensures r.Err? ==> memories == old(memories) && history == old(history) && index == old(index)
      ensures r.Ok? ==>
                && ForgottenFrom(found.value, r.value, sourceThreadId, reason, now)
                && id in memories && ForgottenFrom(old(memories)[id].record, memories[id].record, sourceThreadId, reason, now)
                && RowWritten(old(memories), memories, id, memories[id].record, Some(now))
                && IsGone(memories, id)
                && history == old(history) + [HistoryRow(r.value.id, r.value.version, Action.Forget, r.value)]
                && index == old(index)
      ensures Valid() <==> r.Err? || found.value.id == id
      ensures NoNameIsAnId(old(memories)) ==> Valid() && (found.Some? && found.value.id != id ==> r.Err?)
      ensures ForgottenStay(old(memories), memories)
    {
      RowsKnowTheirIds(memories, history, index);
      var choice := Find(id, AllScopes, projectId);
      found := choice;
      if choice.None? || choice.value.version != expectedVersion || !valid {
        return Err, found;
      }
      var current := choice.value;
      var forgotten := Forgotten(current, sourceThreadId, reason, now);
      // UPDATE ... WHERE id = ? AND version = ? AND deleted_at IS NULL
      if id !in memories || memories[id].record.version != current.version || !Active(memories[id]) {
        return Err, found;
      }
      NextVersionIsFree(memories, history, index, current.id);
      ForgetKeepsInvExactlyWhen(memories, history, index, id, current, sourceThreadId, reason, now);
      memories := memories[id := ForgottenRow(memories[id], sourceThreadId, reason, now)];
      ForgottenIsGone(memories, id);
      // InsertHistory cannot fail here: the next version of the memory found is free.
      var ok := InsertHistory(forgotten, Action.Forget);
      assert ok;
      r := Ok(forgotten);
    }

    // The rows of the query's join: the active memories in scope whose index row matches.
    method Hits(matches: IndexRow -> bool, scope: ReadScope, projectId: Option<string>) returns (found: seq<MemoryRecord>)
      requires Valid()
      ensures DistinctIds(found)
      ensures forall m: MemoryRecord :: m in found <==> IsHit(memories, m, matches, scope, projectId)
    {
      IndexIsExact(memories, history, index);
      found := [];
      for i := 0 to |index|
        invariant DistinctIds(found)
        invariant forall m :: m in found <==> exists k | 0 <= k < i :: Hit(index[k], m, matches, scope, projectId)
      {
        var row := memories[index[i].memoryId];
        if matches(index[i]) && Active(row) && InScope(row.record, scope, projectId) {
          assert Hit(index[i], row.record, matches, scope, projectId);
          forall a | 0 <= a < |found| ensures found[a].id != row.record.id {
            assert found[a] in found;
          }
          found := found + [row.record];
        }
      }
      forall m: MemoryRecord | IsHit(memories, m, matches, scope, projectId) ensures m in found {
        var k :| 0 <= k < |index| && index[k] == IndexOf(m);
        assert Hit(index[k], m, matches, scope, projectId);
      }
    }

    // search: at most limit of the hits, best ranked first. hasTerms, matches and score are
    // what the full-text index makes of the query.
    method Search(hasTerms: bool, matches: IndexRow -> bool, score: IndexRow -> real, scope: ReadScope, projectId: Option<string>, limit: nat)
      returns (r: Result<seq<MemoryRecord>>)
      requires Valid()
      ensures r.Err? <==> (scope.OnlyProject? && projectId.None?) || !hasTerms
      ensures r.Ok? ==>
                && |r.value| <= limit && DistinctIds(r.value) && Ranked(r.value, score)
                && (forall m | m in r.value :: IsHit(memories, m, matches, scope, projectId))
                // What is missing is not better than what is there, and only the limit keeps it out.
                && (forall m | IsHit(memories, m, matches, scope, projectId) && m !in r.value ::
                      |r.value| == limit && forall n | n in r.value :: MayPrecede(n, m, score))
    {
      if (scope.OnlyProject? && projectId.None?) || !hasTerms {
        return Err;
      }
      var hits := Hits(matches, scope, projectId);
      var sorted := SortByRank(hits, score);
      r := Ok(if limit < |sorted| then sorted[..limit] else sorted);
      forall m | m in sorted && m !in r.value
        ensures |r.value| == limit && forall n | n in r.value :: MayPrecede(n, m, score)
      {
        var j :| 0 <= j < |sorted| && sorted[j] == m;
        assert j >= limit;
      }
    }

    // A row of the join that the query returns.
    ghost predicate Hit(x: IndexRow, m: MemoryRecord, matches: IndexRow -> bool, scope: ReadScope, projectId: Option<string>)
      reads this
    {
      && x.memoryId == m.id && m.id in memories && memories[m.id].record == m
      && Active(memories[m.id]) && InScope(m, scope, projectId) && matches(x)
    }
  }

  ghost predicate IsHit(memories: Memories, m: MemoryRecord, matches: IndexRow -> bool, scope: ReadScope, projectId: Option<string>) {
    && m.id in memories && memories[m.id] == Row(m, None, memories[m.id].lastAccessedAt, memories[m.id].accessCount)
    && Sees(scope, projectId, m)
    && matches(IndexRow(m.id, m.name, m.summary, m.details, m.tags))
  }

  ghost predicate DistinctIds(ms: seq<MemoryRecord>) {
    forall i, j | 0 <= i < j < |ms| :: ms[i].id != ms[j].id
  }

  // The order of the query: by score, the lower the better, then pinned first, then by
  // importance, then the most recently updated.
  predicate RanksBefore(a: MemoryRecord, b: MemoryRecord, score: IndexRow -> real) {
    if score(IndexOf(a)) != score(IndexOf(b)) then score(IndexOf(a)) < score(IndexOf(b))
    else if a.pinned != b.pinned then a.pinned
    else if a.importance != b.importance then a.importance > b.importance
    else a.updatedAt > b.updatedAt
  }

  // a may stand before b: it has the lower score, or among equal scores it is pinned and b
  // is not, or then it is the more important, or then b is not the more recent.
  ghost predicate MayPrecede(a: MemoryRecord, b: MemoryRecord, score: IndexRow -> real) {
    var x, y := score(IndexOf(a)), score(IndexOf(b));
    || x < y
    || (x == y && a.pinned && !b.pinned)
    || (x == y && a.pinned == b.pinned && a.importance > b.importance)
    || (x == y && a.pinned == b.pinned && a.importance == b.importance && a.updatedAt >= b.updatedAt)
  }

  ghost predicate Ranked(ms: seq<MemoryRecord>, score: IndexRow -> real) {
    forall i, j | 0 <= i < j < |ms| :: MayPrecede(ms[i], ms[j], score)
  }

  // ORDER BY.
  function SortByRank(hits: seq<MemoryRecord>, score: IndexRow -> real): (sorted: seq<MemoryRecord>)
    ensures Ranked(sorted, score) && multiset(sorted) == multiset(hits)
    ensures forall m :: m in sorted <==> m in hits
    ensures DistinctIds(hits) ==> DistinctIds(sorted)
  {
    var leq := (a: MemoryRecord, b: MemoryRecord) => !RanksBefore(b, a, score);
    var sorted := Sort(leq, hits);
    assert forall m :: m in sorted <==> m in multiset(sorted);
    RanksAll(hits, score, leq);
    sorted
  }

  lemma RanksAll(hits: seq<MemoryRecord>, score: IndexRow -> real, leq: (MemoryRecord, MemoryRecord) -> bool)
    requires forall a, b :: leq(a, b) == !RanksBefore(b, a, score)
    ensures Ranked(Sort(leq, hits), score)
    ensures DistinctIds(hits) ==> DistinctIds(Sort(leq, hits))
  {
    if hits != [] {
      SortSorts(leq, hits, hits[0]);
    }
    if DistinctIds(hits) {
      StillDistinct(hits, Sort(leq, hits));
    }
  }

  lemma {:induction false} OccursOnce(ms: seq<MemoryRecord>, m: MemoryRecord)
    requires DistinctIds(ms)
    ensures multiset(ms)[m] <= 1
  {
    if ms != [] {
      OccursOnce(ms[1..], m);
      assert ms == [ms[0]] + ms[1..];
      assert ms[0] !in ms[1..];
    }
  }

  lemma StillDistinct(ms: seq<MemoryRecord>, ms': seq<MemoryRecord>)
    requires DistinctIds(ms) && multiset(ms) == multiset(ms')
    ensures DistinctIds(ms')
  {
    forall i, j | 0 <= i < j < |ms'| ensures ms'[i].id != ms'[j].id {
      var x, y := ms'[i], ms'[j];
      assert x in multiset(ms') && y in multiset(ms');
      assert x in ms && y in ms;
      if x == y {
        assert ms' == ms'[..j] + ms'[j..] && x in ms'[..j] && x in ms'[j..];
        OccursOnce(ms, x);
      }
    }
  }

  lemma {:induction false} RowsInOrder(index: seq<IndexRow>, i: nat, id: Id)
    requires i < |index| && index[i].memoryId == id
    ensures index[i] in IndexRowsOf(index, id)
    ensures forall j | i < j < |index| && index[j].memoryId == id :: |IndexRowsOf(index, id)| >= 2
    decreases |index|
  {
    var init := index[..|index| - 1];
    if i < |init| {
      RowsInOrder(init, i, id);
      assert |IndexRowsOf(init, id)| >= 1;
      assert forall j | i < j < |init| && index[j].memoryId == id :: init[j].memoryId == id;
    }
  }

  // Under the invariant the index is in one-to-one correspondence with the memories.
  lemma IndexIsExact(memories: Memories, history: seq<HistoryRow>, index: seq<IndexRow>)
    requires Inv(memories, history, index)
    ensures forall x | x in index :: x.memoryId in memories && x == IndexOf(memories[x.memoryId].record)
    ensures forall x | x in index :: var m := memories[x.memoryId].record; x == IndexRow(m.id, m.name, m.summary, m.details, m.tags)
    ensures forall id | id in memories :: memories[id].record.id == id && IndexOf(memories[id].record) in index
    ensures forall i, j | 0 <= i < j < |index| :: index[i].memoryId != index[j].memoryId
  {
    forall i | 0 <= i < |index|
      ensures index[i] == IndexOf(memories[index[i].memoryId].record)
      ensures forall j | i < j < |index| :: index[i].memoryId != index[j].memoryId
    {
      var id := index[i].memoryId;
      assert MemoryInv(memories, history, index, id);
      RowsInOrder(index, i, id);
    }
    forall id | id in memories ensures memories[id].record.id == id && IndexOf(memories[id].record) in index {
      assert MemoryInv(memories, history, index, id);
      assert IndexRowsOf(index, id)[0] == IndexOf(memories[id].record);
      IndexRowsAreRows(index, id);
    }
  }

  lemma {:induction false} IndexRowsAreRows(index: seq<IndexRow>, id: Id)
    ensures forall x | x in IndexRowsOf(index, id) :: x in index
  {
    if index != [] {
      IndexRowsAreRows(index[..|index| - 1], id);
    }
  }

  // Every memory has the versions from 1 to its current one in the history, each of them
  // once and in that order, and the current one is what its row says.
  lemma HistoryIsExact(memories: Memories, history: seq<HistoryRow>, index: seq<IndexRow>, id: Id)
    requires Inv(memories, history, index) && id in memories
    ensures var m := memories[id].record;
            && (forall i | 0 <= i < |history| && history[i].memoryId == id :: 1 <= history[i].version <= m.version)
            && (forall k | 1 <= k <= m.version :: InHistory(history, id, k))
            && (forall i, j | 0 <= i < j < |history| && history[i].memoryId == id && history[j].memoryId == id :: history[i].version < history[j].version)
            && (forall i | 0 <= i < |history| && history[i].memoryId == id && history[i].version == m.version :: history[i].snapshot == m)
  {
    var m, positions, rows := memories[id].record, PositionsOf(history, id), HistoryOf(history, id);
    assert MemoryInv(memories, history, index, id);
    RowsAtPositions(history, id);
    forall i | 0 <= i < |history| && history[i].memoryId == id
      ensures exists k :: 0 <= k < |rows| && positions[k] == i && history[i].version == k + 1
    {
      assert i in positions;
      var k :| 0 <= k < |positions| && positions[k] == i;
      assert rows[k] == history[i];
    }
    forall k | 1 <= k <= m.version ensures InHistory(history, id, k) {
      assert history[positions[k - 1]] == rows[k - 1];
    }
  }

  ghost predicate InHistory(history: seq<HistoryRow>, id: Id, version: int) {
    exists h :: h in history && h.memoryId == id && h.version == version
  }

  // Where the rows of one memory stand in the history.
  ghost function PositionsOf(history: seq<HistoryRow>, id: Id): seq<int> {
    if history == [] then []
    else
      PositionsOf(history[..|history| - 1], id) + if history[|history| - 1].memoryId == id then [|history| - 1] else []
  }

  ghost predicate StandAt(history: seq<HistoryRow>, positions: seq<int>, rows: seq<HistoryRow>, id: Id) {
    && |positions| == |rows|
    && (forall k | 0 <= k < |rows| :: 0 <= positions[k] < |history| && history[positions[k]] == rows[k] && rows[k].memoryId == id)
    && (forall k, l | 0 <= k < l < |rows| :: positions[k] < positions[l])
    && (forall i | 0 <= i < |history| && history[i].memoryId == id :: i in positions)
  }

  lemma StandOn(history: seq<HistoryRow>, positions: seq<int>, rows: seq<HistoryRow>, id: Id, h: HistoryRow)
    requires StandAt(history, positions, rows, id)
    ensures h.memoryId == id ==> StandAt(history + [h], positions + [|history|], rows + [h], id)
    ensures h.memoryId != id ==> StandAt(history + [h], positions, rows, id)
  {
    var history', positions' := history + [h], positions + [|history|];
    assert positions'[|positions|] == |history|;
    forall i | 0 <= i < |history| && history'[i].memoryId == id ensures i in positions && i in positions' {
      assert history'[i] == history[i];
      var k :| 0 <= k < |positions| && positions[k] == i;
      assert positions'[k] == i;
    }
  }

  lemma {:induction false} RowsAtPositions(history: seq<HistoryRow>, id: Id)
    ensures StandAt(history, PositionsOf(history, id), HistoryOf(history, id), id)
  {
    if history != [] {
      var init, last := history[..|history| - 1], history[|history| - 1];
      RowsAtPositions(init, id);
      StandOn(init, PositionsOf(init, id), HistoryOf(init, id), id, last);
      assert history == init + [last];
      assert HistoryOf(init, id) + [] == HistoryOf(init, id) && PositionsOf(init, id) + [] == PositionsOf(init, id);
    }
  }

  // The rows of the table after one of them is written: its record and its deletion are
  // new, its counts stay, and so does every other row.
  ghost predicate RowWritten(before: Memories, after: Memories, id: Id, record: MemoryRecord, deletedAt: Option<int>) {
    && id in before
    && after == before[id := Row(record, deletedAt, before[id].lastAccessedAt, before[id].accessCount)]
  }

  // The value after a change that was given, or as it was before.
  ghost predicate Changed<T>(before: T, after: T, change: Option<T>) {
    match change
    case None => after == before
    case Some(value) => after == value
  }

  ghost predicate RevisedFrom(m: MemoryRecord, revised: MemoryRecord, input: MemoryUpdate, now: int) {
    && Changed(m.summary, revised.summary, input.summary)
    && Changed(m.details, revised.details, input.details)
    && Changed(m.kind, revised.kind, input.kind)
    && Changed(m.tags, revised.tags, input.tags)
    && Changed(m.importance, revised.importance, input.importance)
    && Changed(m.pinned, revised.pinned, input.pinned)
    && revised.sourceThreadId == input.sourceThreadId && revised.writeReason == input.writeReason
    && revised.version == m.version + 1 && revised.updatedAt == now && revised.createdAt == m.createdAt
    && revised.id == m.id && revised.scope == m.scope && revised.projectId == m.projectId && revised.name == m.name
  }

  ghost predicate ForgottenFrom(m: MemoryRecord, forgotten: MemoryRecord, sourceThreadId: Option<string>, reason: string, now: int) {
    forgotten == MemoryRecord(m.id, m.scope, m.projectId, m.name, m.summary, m.details, m.kind, m.tags, m.importance, m.pinned,
                              sourceThreadId, reason, m.version + 1, m.createdAt, now)
  }

  // No reader's string can mean this memory any more, no search finds it, and it is no
  // reason to refuse another of its name.
  ghost predicate IsGone(memories: Memories, id: Id) {
    && (forall idOrName, scope, projectId, choice |
          IsChoice(memories, idOrName, scope, projectId, choice) :: choice.None? || choice.value.id != id)
    && (forall m, matches, scope, projectId | IsHit(memories, m, matches, scope, projectId) :: m.id != id)
    && (forall m: MemoryRecord | m.id !in memories && !CanAdd(memories, m) ::
          exists other :: other in memories && other != id && memories[other].deletedAt == None && SameNameInScope(memories[other].record, m))
  }

  lemma ForgottenIsGone(memories: Memories, id: Id)
    requires id in memories && memories[id].deletedAt.Some?
    ensures IsGone(memories, id)
  {
  }

  // What a forget writes into the row its WHERE clause selects.
  function ForgottenRow(row: Row, sourceThreadId: Option<string>, reason: string, now: int): Row {
    row.(record := Forgotten(row.record, sourceThreadId, reason, now), deletedAt := Some(now))
  }

  // No active memory bears another memory's id as its name.
  ghost predicate NoNameIsAnId(memories: Memories) {
    forall a, b | a in memories && b in memories && Active(memories[a]) && memories[a].record.name == b :: a == b
  }

  // A forgotten memory stays as it is.
  ghost predicate ForgottenStay(before: Memories, after: Memories) {
    forall id | id in before && !Active(before[id]) :: id in after && after[id] == before[id]
  }

  lemma ForgetKeepsInvExactlyWhen(memories: Memories, history: seq<HistoryRow>, index: seq<IndexRow>, id: Id, current: MemoryRecord,
                                  sourceThreadId: Option<string>, reason: string, now: int)
    requires Inv(memories, history, index) && id in memories && current.id in memories
    requires memories[current.id].record == current && Active(memories[id]) && memories[id].record.version == current.version
    ensures var forgotten := Forgotten(current, sourceThreadId, reason, now);
            var history' := history + [HistoryRow(current.id, forgotten.version, Action.Forget, forgotten)];
            Inv(memories[id := ForgottenRow(memories[id], sourceThreadId, reason, now)], history', index) <==> current.id == id
  {
    var forgotten := Forgotten(current, sourceThreadId, reason, now);
    var h := HistoryRow(current.id, forgotten.version, Action.Forget, forgotten);
    var memories' := memories[id := ForgottenRow(memories[id], sourceThreadId, reason, now)];
    assert MemoryInv(memories, history, index, id);
    if current.id == id {
      ReviseKeepsInv(memories, history, index, ForgottenRow(memories[id], sourceThreadId, reason, now), Action.Forget);
    } else {
      AppendedHistory(history, h, id);
      assert !MemoryInv(memories', history + [h], index, id);
    }
  }

  // The same name in the same scope. A project memory without a project counts as one of
  // the project "missing".
  ghost predicate SameNameInScope(a: MemoryRecord, b: MemoryRecord) {
    && a.name == b.name && a.scope == b.scope
    && (a.scope == Project ==> a.projectId == b.projectId || {a.projectId, b.projectId} == {None, Some("missing")})
  }

  ghost predicate CanAdd(memories: Memories, m: MemoryRecord) {
    m.id !in memories && forall id | id in memories && memories[id].deletedAt == None :: !SameNameInScope(memories[id].record, m)
  }

  function Revised(m: MemoryRecord, input: MemoryUpdate, now: int): MemoryRecord {
    m.(summary := if input.summary.Some? then input.summary.value else m.summary,
       details := if input.details.Some? then input.details.value else m.details,
       kind := if input.kind.Some? then input.kind.value else m.kind,
       tags := if input.tags.Some? then input.tags.value else m.tags,
       importance := if input.importance.Some? then input.importance.value else m.importance,
       pinned := if input.pinned.Some? then input.pinned.value else m.pinned,
       sourceThreadId := input.sourceThreadId,
       writeReason := input.writeReason,
       version := m.version + 1,
       updatedAt := now)
  }

  function Forgotten(m: MemoryRecord, sourceThreadId: Option<string>, reason: string, now: int): MemoryRecord {
    m.(sourceThreadId := sourceThreadId, writeReason := reason, version := m.version + 1, updatedAt := now)
  }

  // UNIQUE(memory_id, version) never refuses the version after the current one.
  lemma NextVersionIsFree(memories: Memories, history: seq<HistoryRow>, index: seq<IndexRow>, id: Id)
    requires Inv(memories, history, index) && id in memories
    ensures forall h | h in history && h.memoryId == id :: h.version <= memories[id].record.version
  {
    assert MemoryInv(memories, history, index, id);
    OwnRowsOnly(history, index, id);
  }

  // Two memories, one of them named like the other's id: forgetting by that string finds
  // the more recent one, marks the other as forgotten, and breaks both histories.
  lemma ForgetCanTakeAnother()
    ensures exists memories: Memories, history, index, id, current: MemoryRecord ::
              && Inv(memories, history, index)
              && IsChoice(memories, id, AllScopes, None, Some(current))
              && id in memories && Active(memories[id]) && memories[id].record.version == current.version
              && current.id != id
  {
    var b := MemoryRecord("b", Global, None, "x", "", "", "fact", [], 0, false, None, "", 1, 0, 0);
    var a := b.(id := "a", name := "b", updatedAt := 1);
    var memories1: Memories := map["b" := Row(b, None, None, 0)];
    var history1, index1 := [HistoryRow("b", 1, Create, b)], [IndexOf(b)];
    assert Inv(map[], [], []);
    AddKeepsInv(map[], [], [], b);
    assert map["b" := Row(b, None, None, 0)] == memories1 && [] + history1 == history1 && [] + index1 == index1;
    AddKeepsInv(memories1, history1, index1, a);
    var memories2: Memories := memories1["a" := Row(a, None, None, 0)];
    assert IsChoice(memories2, "b", AllScopes, None, Some(a));
    assert Inv(memories2, history1 + [HistoryRow("a", 1, Create, a)], index1 + [IndexOf(a)]);
    assert memories2["b"].record.version == a.version && a.id != "b";
  }
}
