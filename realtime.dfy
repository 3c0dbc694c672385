/** lib/use-realtime-todos.ts: the hook that keeps the user's `Todo[]` in step
    with the change feed. Each feed event maps the current list to a new one by a
    pure function; the hook object holds the list and replaces it on every event. */
module Realtime {
  import opened Base
  import opened TodoTypes
  import opened TodoList
  import TodoStore

  /** A change-feed payload: `eventType`, the `new` row and the `old` row's id. */
  datatype Payload = Payload(eventType: string, newRecord: Todo, oldId: int)

  /** `handleRealtimeChange`'s updater: an INSERT is prepended unless its id is
      already listed, an UPDATE replaces every element with its id, a DELETE
      filters its id out and any other event type leaves the list alone. */
  function ApplyChange(current: seq<Todo>, payload: Payload): (r: seq<Todo>)
    ensures |r| <= |current| + 1
    ensures forall t :: t in r ==> t in current || t == payload.newRecord
  {
    if payload.eventType == "INSERT" then
      if HasId(current, payload.newRecord.id) then current else [payload.newRecord] + current
    else if payload.eventType == "UPDATE" then
      ReplaceById(current, payload.newRecord.id, payload.newRecord)
    else if payload.eventType == "DELETE" then
      RemoveById(current, payload.oldId)
    else
      current
  }

  /** Events applied one after the other, in the order the feed delivers them. */
  function ApplyAll(current: seq<Todo>, events: seq<Payload>): (r: seq<Todo>)
    ensures |r| <= |current| + |events|
    ensures forall t :: t in r ==>
      t in current || exists k :: 0 <= k < |events| && t == events[k].newRecord
    decreases |events|
  {
    if |events| == 0 then current
    else
      var next := ApplyChange(current, events[0]);
      var r := ApplyAll(next, events[1..]);
      forall t | t in r
        ensures t in current || exists k :: 0 <= k < |events| && t == events[k].newRecord
      {
        if t !in next {
          var k :| 0 <= k < |events[1..]| && t == events[1..][k].newRecord;
          assert t == events[k + 1].newRecord;
        } else if t !in current {
          assert t == events[0].newRecord;
        }
      }
      r
  }

  /** INSERT: a duplicate id is ignored; a new id is prepended, so the list grows
      by one with the new row at index 0; either way the id is then listed. */
  lemma InsertEvent(current: seq<Todo>, p: Payload)
    requires p.eventType == "INSERT"
    ensures HasId(current, p.newRecord.id) ==> ApplyChange(current, p) == current
    ensures !HasId(current, p.newRecord.id) ==>
      var next := ApplyChange(current, p);
      |next| == |current| + 1 && next[0] == p.newRecord && next[1..] == current
    ensures HasId(ApplyChange(current, p), p.newRecord.id)
  {
    var next := ApplyChange(current, p);
    if !HasId(current, p.newRecord.id) {
      assert next[0].id == p.newRecord.id;
    }
  }

  /** UPDATE: same length and order; elements carrying the event's id become the
      new row, the others are untouched; an id that is not listed changes nothing. */
  lemma UpdateEvent(current: seq<Todo>, p: Payload)
    requires p.eventType == "UPDATE"
    ensures var next := ApplyChange(current, p);
      && |next| == |current|
      && (forall i :: 0 <= i < |current| && current[i].id == p.newRecord.id ==> next[i] == p.newRecord)
      && (forall i :: 0 <= i < |current| && current[i].id != p.newRecord.id ==> next[i] == current[i])
      && (forall i :: 0 <= i < |current| ==> next[i].id == current[i].id)
    ensures !HasId(current, p.newRecord.id) ==> ApplyChange(current, p) == current
  {
    var next := ApplyChange(current, p);
    if !HasId(current, p.newRecord.id) {
      assert forall i :: 0 <= i < |current| ==> next[i] == current[i];
    }
  }

  /** |RemoveById(s, id)| drops exactly the elements that carry `id`. */
  lemma {:induction false} RemoveCount(s: seq<Todo>, id: int)
    ensures |RemoveById(s, id)| == |s| - CountId(s, id)
    decreases |s|
  {
    if |s| > 0 {
      RemoveCount(s[1..], id);
    }
  }

  /** DELETE: afterwards no element carries the old id, exactly the elements that
      carried it are gone, the others keep their relative order (the result reads
      `current` at the increasing positions `KeptIndices`), and an id that is not
      listed changes nothing. */
  lemma DeleteEvent(current: seq<Todo>, p: Payload)
    requires p.eventType == "DELETE"
    ensures !HasId(ApplyChange(current, p), p.oldId)
    ensures |ApplyChange(current, p)| == |current| - CountId(current, p.oldId)
    ensures var next, k := ApplyChange(current, p), KeptIndices(current, p.oldId);
      && |k| == |next|
      && (forall a :: 0 <= a < |k| ==> k[a] < |current| && next[a] == current[k[a]])
      && (forall a, b :: 0 <= a < b < |k| ==> k[a] < k[b])
      && (forall i :: 0 <= i < |current| ==> (current[i].id != p.oldId <==> i in k))
    ensures !HasId(current, p.oldId) ==> ApplyChange(current, p) == current
  {
    RemoveCount(current, p.oldId);
    RemoveKeepsOrder(current, p.oldId);
  }

  /** Delivering the same DELETE twice is the same as delivering it once. */
  lemma DeleteIdempotent(current: seq<Todo>, p: Payload)
    requires p.eventType == "DELETE"
    ensures ApplyChange(ApplyChange(current, p), p) == ApplyChange(current, p)
  {
  }

  /** Any other event type leaves the list as it was. */
  lemma UnknownEventIgnored(current: seq<Todo>, p: Payload)
    requires p.eventType !in ["INSERT", "UPDATE", "DELETE"]
    ensures ApplyChange(current, p) == current
  {
  }

  /** Every event keeps the ids of the list pairwise distinct. */
  lemma ChangePreservesDistinct(current: seq<Todo>, p: Payload)
    requires DistinctIds(current)
    ensures DistinctIds(ApplyChange(current, p))
  {
    var next := ApplyChange(current, p);
    if p.eventType == "INSERT" && !HasId(current, p.newRecord.id) {
      forall i, j | 0 <= i < j < |next| ensures next[i].id != next[j].id {
        assert next[j] == current[j - 1];
        if i > 0 { assert next[i] == current[i - 1]; }
      }
    } else if p.eventType == "UPDATE" {
      ReplaceKeepsIds(current, p.newRecord);
    } else if p.eventType == "DELETE" {
      RemovePreservesDistinct(current, p.oldId);
    }
  }

  /** After an INSERT into a list with distinct ids, exactly one element carries
      the inserted id. */
  lemma InsertLeavesOneCopy(current: seq<Todo>, p: Payload)
    requires DistinctIds(current) && p.eventType == "INSERT"
    ensures CountId(ApplyChange(current, p), p.newRecord.id) == 1
  {
    InsertEvent(current, p);
    ChangePreservesDistinct(current, p);
    CountInDistinct(ApplyChange(current, p), p.newRecord.id);
  }

  /** A whole stream of events keeps the ids distinct. */
  lemma {:induction false} ApplyAllPreservesDistinct(current: seq<Todo>, events: seq<Payload>)
    requires DistinctIds(current)
    ensures DistinctIds(ApplyAll(current, events))
    decreases |events|
  {
    if |events| > 0 {
      ChangePreservesDistinct(current, events[0]);
      ApplyAllPreservesDistinct(ApplyChange(current, events[0]), events[1..]);
    }
  }

  /** The hook's state: the `todos` list and the `isLoading` flag. */
  class RealtimeTodos {
    var todos: seq<Todo>
    var isLoading: bool

    /** `useState<Todo[]>([])` and `useState(false)`. */
    constructor ()
      ensures todos == [] && !isLoading
    {
      todos := [];
      isLoading := false;
    }

    /** `loadInitialTodos` (also returned as `refreshTodos`): with no user nothing
        happens; otherwise the list becomes the fetched rows, a failed fetch keeps
        the list, and the loading flag ends cleared. */
    method LoadInitialTodos(user: Option<User>, fetched: TodoStore.Reply<Option<seq<Todo>>>)
      modifies this
      ensures user.None? ==> todos == old(todos) && isLoading == old(isLoading)
      ensures user.Some? ==> !isLoading
      ensures user.Some? ==>
        todos == (var c := TodoStore.GetTodos(fetched); if c.result.Ok? then c.result.value else old(todos))
    {
      if user.None? {
        return;
      }
      isLoading := true;
      var c := TodoStore.GetTodos(fetched);
      if c.result.Ok? {
        todos := c.result.value;
      }
      isLoading := false;
    }

    /** The effect run whenever `user` changes: load for a user, and reset the
        list to `[]` when the user becomes null. */
    method UserChanged(user: Option<User>, fetched: TodoStore.Reply<Option<seq<Todo>>>)
      modifies this
      ensures user.None? ==> todos == [] && isLoading == old(isLoading)
      ensures user.Some? ==> !isLoading
      ensures user.Some? ==>
        todos == (var c := TodoStore.GetTodos(fetched); if c.result.Ok? then c.result.value else old(todos))
    {
      if user.Some? {
        LoadInitialTodos(user, fetched);
      } else {
        todos := [];
      }
    }

    /** `handleRealtimeChange`: the list becomes `ApplyChange` of the old list, so
        distinct ids stay distinct. */
    method HandleRealtimeChange(payload: Payload)
      modifies this
      ensures todos == ApplyChange(old(todos), payload)
      ensures isLoading == old(isLoading)
      ensures DistinctIds(old(todos)) ==> DistinctIds(todos)
    {
      if DistinctIds(todos) {
        ChangePreservesDistinct(todos, payload);
      }
      todos := ApplyChange(todos, payload);
    }

    /** `updateLocalTodos`: the caller's updater replaces the list. */
    method UpdateLocalTodos(updater: seq<Todo> -> seq<Todo>)
      modifies this
      ensures todos == updater(old(todos))
      ensures isLoading == old(isLoading)
    {
      todos := updater(todos);
    }
  }
}
