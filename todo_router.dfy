/**
 * The owner-scoped to-do table of the server (backend/routers/todos.py).
 * The database table is a sequence of rows in insertion order; every lookup is
 * filtered by the calling user's id, and a missing or foreign row is a 404.
 */
module TodoRouter {
  import opened Wrappers
  import opened Http
  import opened Models

  /** The rows of `rows` owned by `owner`, in table order. */
  function Owned(rows: seq<Todo>, owner: int): (r: seq<Todo>)
    ensures |r| <= |rows|
    ensures forall t :: t in r <==> t in rows && t.ownerId == owner
  {
    if rows == [] then []
    else (if rows[0].ownerId == owner then [rows[0]] else []) + Owned(rows[1..], owner)
  }

  /** The index where an OFFSET of `skip` starts: a negative offset acts as none. */
  function WindowStart(n: nat, skip: int): (lo: nat)
  {
    if skip <= 0 then 0 else if skip >= n then n else skip
  }

  /**
   * OFFSET `skip` then LIMIT `limit` over `s`. A negative offset acts as 0 and a
   * negative limit puts no bound on the number of rows.
   */
  function Window<T>(s: seq<T>, skip: int, limit: int): (r: seq<T>)
    ensures limit >= 0 ==> |r| <= limit
    ensures skip >= 0 && skip >= |s| ==> r == []
    ensures WindowStart(|s|, skip) + |r| <= |s|
    ensures forall i :: 0 <= i < |r| ==> r[i] == s[WindowStart(|s|, skip) + i]
    ensures limit < 0 || WindowStart(|s|, skip) + limit >= |s| ==> WindowStart(|s|, skip) + |r| == |s|
    ensures limit >= 0 && WindowStart(|s|, skip) + limit < |s| ==> |r| == limit
  {
    var lo := WindowStart(|s|, skip);
    var hi := if limit < 0 || lo + limit >= |s| then |s| else lo + limit;
    s[lo..hi]
  }

  /** With the default OFFSET 0 and LIMIT 100, a user with at most 100 rows gets all of them. */
  lemma DefaultPageCoversSmallLists(rows: seq<Todo>, owner: int)
    requires |Owned(rows, owner)| <= 100
    ensures Window(Owned(rows, owner), 0, 100) == Owned(rows, owner)
  {
    var s := Owned(rows, owner);
    assert Window(s, 0, 100) == s[0..|s|];
  }

  /** The read views of `rows`, one for one. */
  function AsReads(rows: seq<Todo>): (r: seq<TodoRead>)
  {
    seq(|rows|, i requires 0 <= i < |rows| => AsRead(rows[i]))
  }

  /** Whether some row has primary key `id` and belongs to `owner`. */
  predicate HasOwned(rows: seq<Todo>, id: int, owner: int)
  {
    exists i :: 0 <= i < |rows| && rows[i].id == id && rows[i].ownerId == owner
  }

  /** The index of the first row with key `id` owned by `owner` (`.where(...).first()`). */
  function FindOwned(rows: seq<Todo>, id: int, owner: int): (r: Option<nat>)
    ensures r.None? <==> !HasOwned(rows, id, owner)
    ensures r.Some? ==> r.value < |rows| && rows[r.value].id == id && rows[r.value].ownerId == owner
    ensures r.Some? ==> forall j :: 0 <= j < r.value ==> !(rows[j].id == id && rows[j].ownerId == owner)
  {
    if rows == [] then None
    else if rows[0].id == id && rows[0].ownerId == owner then Some(0)
    else
      match FindOwned(rows[1..], id, owner)
      case None => None
      case Some(k) => Some(k + 1)
  }

  /** `rows` without the row at index `i`. */
  function RemoveAt<T>(rows: seq<T>, i: nat): (r: seq<T>)
    requires i < |rows|
  {
    rows[..i] + rows[i + 1..]
  }

  /** The primary keys are pairwise distinct. */
  predicate UniqueIds(rows: seq<Todo>)
  {
    forall i, j :: 0 <= i < j < |rows| ==> rows[i].id != rows[j].id
  }

  /**
   * The attribute values of a loaded row object during an update. The object is
   * not validated on assignment, so a nullable view of every field is needed.
   */
  datatype Draft = Draft(title: Option<string>, description: Option<string>,
                         completed: Option<bool>)

  /** One `setattr(db_todo, key, value)` of the update loop. */
  datatype Assignment =
    | AssignTitle(title: Option<string>)
    | AssignDescription(description: Option<string>)
    | AssignCompleted(completed: Option<bool>)

  /** `todo.dict(exclude_unset=True).items()`: the given fields, in declaration order. */
  function SetFields(p: TodoUpdate): seq<Assignment>
  {
    (if p.title.Set? then [AssignTitle(p.title.value)] else [])
    + (if p.description.Set? then [AssignDescription(p.description.value)] else [])
    + (if p.completed.Set? then [AssignCompleted(p.completed.value)] else [])
  }

  function SetAttr(d: Draft, a: Assignment): Draft
  {
    match a
    case AssignTitle(v) => d.(title := v)
    case AssignDescription(v) => d.(description := v)
    case AssignCompleted(v) => d.(completed := v)
  }

  /** The draft after the assignments of `s`, in order. */
  function SetAll(d: Draft, s: seq<Assignment>): Draft
  {
    if s == [] then d else SetAttr(SetAll(d, s[..|s| - 1]), s[|s| - 1])
  }

  /** The declared meaning of a patch: a given field takes its value, any other keeps the old one. */
  function Patched(d: Draft, p: TodoUpdate): Draft
  {
    Draft(if p.title.Set? then p.title.value else d.title,
          if p.description.Set? then p.description.value else d.description,
          if p.completed.Set? then p.completed.value else d.completed)
  }

  function DraftOf(t: Todo): Draft
  {
    Draft(Some(t.title), t.description, Some(t.completed))
  }

  /** The NOT NULL columns `title` and `completed` both hold a value, so the commit succeeds. */
  predicate Committable(d: Draft)
  {
    d.title.Some? && d.completed.Some?
  }

  /** The row that a committable draft writes back; `id` and `ownerId` are kept. */
  function RowOf(t: Todo, d: Draft): Todo
    requires Committable(d)
  {
    Todo(t.id, d.title.value, d.description, d.completed.value, t.ownerId)
  }

  /** Whether `p` sets a NOT NULL column to an explicit null. */
  predicate NullsRequiredField(p: TodoUpdate)
  {
    p.title == Set(None) || p.completed == Set(None)
  }

  /** The update loop applies exactly the declared patch, whatever fields are given. */
  lemma {:induction false} SetFieldsMeansPatched(d: Draft, p: TodoUpdate)
    ensures SetAll(d, SetFields(p)) == Patched(d, p)
  {
    var t := if p.title.Set? then [AssignTitle(p.title.value)] else [];
    var ds := if p.description.Set? then [AssignDescription(p.description.value)] else [];
    var c := if p.completed.Set? then [AssignCompleted(p.completed.value)] else [];
    assert SetFields(p) == t + ds + c;
    SetAllAppend(d, t + ds, c);
    SetAllAppend(d, t, ds);
  }

  lemma {:induction false} SetAllAppend(d: Draft, s: seq<Assignment>, u: seq<Assignment>)
    requires |u| <= 1
    ensures SetAll(d, s + u) == if u == [] then SetAll(d, s) else SetAttr(SetAll(d, s), u[0])
  {
    if u == [] {
      assert s + u == s;
    } else {
      assert (s + u)[..|s + u| - 1] == s;
    }
  }

  /** A patch commits exactly when it does not null a NOT NULL column. */
  lemma PatchCommittable(t: Todo, p: TodoUpdate)
    ensures Committable(Patched(DraftOf(t), p)) <==> !NullsRequiredField(p)
  {
  }

  /**
   * Partial-update semantics of a committed patch: a field named in the patch takes
   * the new value, every other field and the row's `id` and `ownerId` stay as they were.
   */
  lemma PatchedRow(t: Todo, p: TodoUpdate)
    requires !NullsRequiredField(p)
    ensures Committable(Patched(DraftOf(t), p))
    ensures var n := RowOf(t, Patched(DraftOf(t), p));
      && n.id == t.id && n.ownerId == t.ownerId
      && n.title == (if p.title.Set? then p.title.value.value else t.title)
      && n.description == (if p.description.Set? then p.description.value else t.description)
      && n.completed == (if p.completed.Set? then p.completed.value.value else t.completed)
  {
  }

  /** A patch that gives no field leaves the row as it is. */
  lemma EmptyPatchIsIdentity(t: Todo)
    ensures RowOf(t, Patched(DraftOf(t), EmptyUpdate())) == t
  {
  }

  /** Filtering by owner distributes over concatenation, so it keeps table order. */
  lemma {:induction false} OwnedAppend(a: seq<Todo>, b: seq<Todo>, owner: int)
    ensures Owned(a + b, owner) == Owned(a, owner) + Owned(b, owner)
  {
    if a == [] {
      assert a + b == b;
    } else {
      assert (a + b)[1..] == a[1..] + b;
      OwnedAppend(a[1..], b, owner);
    }
  }

  /** Adding a row changes only the adding owner's view, by appending that row. */
  lemma OwnedAfterInsert(rows: seq<Todo>, t: Todo, owner: int)
    ensures Owned(rows + [t], owner) == if t.ownerId == owner then Owned(rows, owner) + [t]
                                        else Owned(rows, owner)
  {
    OwnedAppend(rows, [t], owner);
    assert Owned([t], owner) == (if t.ownerId == owner then [t] else []) + Owned([], owner);
  }

  /** Removing one user's row leaves every other user's view unchanged. */
  lemma OwnedAfterRemove(rows: seq<Todo>, i: nat, owner: int)
    requires i < |rows| && rows[i].ownerId != owner
    ensures Owned(RemoveAt(rows, i), owner) == Owned(rows, owner)
  {
    assert rows == rows[..i] + [rows[i]] + rows[i + 1..];
    OwnedAppend(rows[..i] + [rows[i]], rows[i + 1..], owner);
    OwnedAppend(rows[..i], [rows[i]], owner);
    OwnedAppend(rows[..i], rows[i + 1..], owner);
    assert Owned([rows[i]], owner) == [] + Owned([], owner);
  }

  /** Rewriting one user's row, owner kept, leaves every other user's view unchanged. */
  lemma OwnedAfterReplace(rows: seq<Todo>, i: nat, t: Todo, owner: int)
    requires i < |rows| && rows[i].ownerId != owner && t.ownerId == rows[i].ownerId
    ensures Owned(rows[i := t], owner) == Owned(rows, owner)
  {
    assert rows == rows[..i] + [rows[i]] + rows[i + 1..];
    assert rows[i := t] == rows[..i] + [t] + rows[i + 1..];
    OwnedAppend(rows[..i] + [rows[i]], rows[i + 1..], owner);
    OwnedAppend(rows[..i], [rows[i]], owner);
    OwnedAppend(rows[..i] + [t], rows[i + 1..], owner);
    OwnedAppend(rows[..i], [t], owner);
    assert Owned([rows[i]], owner) == [] + Owned([], owner);
    assert Owned([t], owner) == [] + Owned([], owner);
  }

  /** The to-do table of the server, with the next primary key the database hands out. */
  class TodoStore {
    var rows: seq<Todo>
    var nextId: int

    /** Primary keys are distinct and all below the next one to be handed out. */
    ghost predicate Valid()
      reads this
    {
      && UniqueIds(rows)
      && forall i :: 0 <= i < |rows| ==> rows[i].id < nextId
    }

    constructor ()
      ensures Valid() && rows == [] && nextId == 1
    {
      rows := [];
      nextId := 1;
    }

    /**
     * POST /todos/: insert one row built from the body, owned by the caller whatever
     * the body holds, under a fresh key; answer the stored row.
     */
    method CreateTodo(body: TodoCreate, currentUser: int) returns (r: TodoRead)
      requires Valid()
      modifies this
      ensures Valid() && nextId > old(nextId)
      ensures rows == old(rows) + [Todo(old(nextId), body.title, body.description, body.completed,
                                        currentUser)]
      ensures r == AsRead(rows[|rows| - 1])
      ensures forall u :: u != currentUser ==> Owned(rows, u) == Owned(old(rows), u)
      ensures Owned(rows, currentUser) == Owned(old(rows), currentUser) + [rows[|rows| - 1]]
    {
      var t := Todo(nextId, body.title, body.description, body.completed, currentUser);
      forall u {
        OwnedAfterInsert(rows, t, u);
      }
      rows := rows + [t];
      nextId := nextId + 1;
      r := AsRead(t);
    }

    /** GET /todos/: the caller's rows only, OFFSET `skip` then LIMIT `limit`. */
    method ReadTodos(currentUser: int, skip: int := 0, limit: int := 100)
      returns (r: seq<TodoRead>)
      ensures r == AsReads(Window(Owned(rows, currentUser), skip, limit))
      ensures forall i :: 0 <= i < |r| ==> r[i].ownerId == currentUser
      ensures limit >= 0 ==> |r| <= limit
      ensures forall i :: 0 <= i < |r| ==>
        exists j :: 0 <= j < |rows| && r[i] == AsRead(rows[j])
    {
      var mine := Owned(rows, currentUser);
      var page := Window(mine, skip, limit);
      r := AsReads(page);
      forall i | 0 <= i < |r|
        ensures r[i].ownerId == currentUser
        ensures exists j :: 0 <= j < |rows| && r[i] == AsRead(rows[j])
      {
        assert page[i] in mine;
        var j :| 0 <= j < |rows| && rows[j] == page[i];
      }
    }

    /** GET /todos/{id}: the caller's row with that key, or 404 when absent or foreign. */
    method ReadTodo(todoId: int, currentUser: int) returns (r: Result<TodoRead, HttpError>)
      ensures r.Err? <==> !HasOwned(rows, todoId, currentUser)
      ensures r.Err? ==> r.error == TodoNotFound
      ensures r.Ok? ==> exists i :: 0 <= i < |rows| && rows[i].id == todoId
                          && rows[i].ownerId == currentUser && r.value == AsRead(rows[i])
    {
      var k := FindOwned(rows, todoId, currentUser);
      if k.None? {
        r := Err(TodoNotFound);
      } else {
        r := Ok(AsRead(rows[k.value]));
      }
    }

    /**
     * PATCH /todos/{id}: 404 and no change when the caller has no such row; otherwise
     * the given fields are assigned one by one and the row is written back. A patch
     * that nulls `title` or `completed` fails the NOT NULL check at commit: 500, no change.
     */
    method UpdateTodo(todoId: int, patch: TodoUpdate, currentUser: int)
      returns (r: Result<TodoRead, HttpError>)
      requires Valid()
      modifies this
      ensures Valid() && nextId == old(nextId)
      ensures r == Err(TodoNotFound) <==> !HasOwned(old(rows), todoId, currentUser)
      ensures r == Err(InternalServerError) <==>
        HasOwned(old(rows), todoId, currentUser) && NullsRequiredField(patch)
      ensures r.Err? ==> rows == old(rows)
      ensures r.Err? ==> r.error == TodoNotFound || r.error == InternalServerError
      ensures HasOwned(old(rows), todoId, currentUser) && !NullsRequiredField(patch) ==> r.Ok?
      ensures r.Ok? ==>
        exists i :: && 0 <= i < |old(rows)| && old(rows)[i].id == todoId
                    && old(rows)[i].ownerId == currentUser
                    && Committable(Patched(DraftOf(old(rows)[i]), patch))
                    && rows == old(rows)[i := RowOf(old(rows)[i], Patched(DraftOf(old(rows)[i]), patch))]
                    && r.value == AsRead(rows[i])
      ensures forall u :: u != currentUser ==> Owned(rows, u) == Owned(old(rows), u)
    {
      var k := FindOwned(rows, todoId, currentUser);
      if k.None? {
        return Err(TodoNotFound);
      }
      var i := k.value;
      var fields := SetFields(patch);
      var draft := DraftOf(rows[i]);
      var n := 0;
      while n < |fields|
        invariant 0 <= n <= |fields|
        invariant draft == SetAll(DraftOf(rows[i]), fields[..n])
      {
        assert fields[..n + 1][..n] == fields[..n];
        draft := SetAttr(draft, fields[n]);
        n := n + 1;
      }
      assert fields[..n] == fields;
      SetFieldsMeansPatched(DraftOf(rows[i]), patch);
      PatchCommittable(rows[i], patch);
      if !Committable(draft) {
        return Err(InternalServerError);
      }
      var t := RowOf(rows[i], draft);
      forall u | u != currentUser {
        OwnedAfterReplace(rows, i, t, u);
      }
      rows := rows[i := t];
      r := Ok(AsRead(t));
    }

    /** DELETE /todos/{id}: remove exactly the caller's row and answer ok, or 404 and no change. */
    method DeleteTodo(todoId: int, currentUser: int) returns (r: Result<bool, HttpError>)
      requires Valid()
      modifies this
      ensures Valid() && nextId == old(nextId)
      ensures r.Err? <==> !HasOwned(old(rows), todoId, currentUser)
      ensures r.Err? ==> r.error == TodoNotFound && rows == old(rows)
      ensures r.Ok? ==> r.value
      ensures r.Ok? ==>
        exists i :: && 0 <= i < |old(rows)| && old(rows)[i].id == todoId
                    && old(rows)[i].ownerId == currentUser && rows == RemoveAt(old(rows), i)
      ensures r.Ok? ==> !HasOwned(rows, todoId, currentUser)
      ensures forall u :: u != currentUser ==> Owned(rows, u) == Owned(old(rows), u)
    {
      var k := FindOwned(rows, todoId, currentUser);
      if k.None? {
        return Err(TodoNotFound);
      }
      var i := k.value;
      forall u | u != currentUser {
        OwnedAfterRemove(rows, i, u);
      }
      var before := rows;
      rows := RemoveAt(rows, i);
      forall j | 0 <= j < |rows|
        ensures rows[j].id != todoId
      {
        if j < i { assert rows[j] == before[j]; } else { assert rows[j] == before[j + 1]; }
      }
      r := Ok(true);
    }
  }
}
