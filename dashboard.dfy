/**
 * The list the dashboard screen keeps of the user's to-dos
 * (frontend/src/screens/DashboardScreen.js): fetch replaces it, add appends the
 * server's row, toggle replaces by id, delete filters by id. Each handler is one
 * atomic step; the server's answer is an argument.
 */
module Dashboard {
  import opened Wrappers
  import opened Models
  import opened ApiClient
  import opened TodoRouter

  /** The alert texts of the failed handlers. */
  const FetchFallback: string := "Failed to fetch todos"
  const AddFailed: string := "Failed to add todo"
  const UpdateFailed: string := "Failed to update todo"
  const DeleteFailed: string := "Failed to delete todo"

  /** The characters JavaScript's `trim` removes: white space and line terminators. */
  predicate IsJsSpace(c: char)
  {
    || c == '\t' || c == '\n' || c == '\U{B}' || c == '\U{C}' || c == '\r' || c == ' '
    || c == '\U{A0}' || c == '\U{1680}' || ('\U{2000}' <= c <= '\U{200A}')
    || c == '\U{2028}' || c == '\U{2029}' || c == '\U{202F}' || c == '\U{205F}'
    || c == '\U{3000}' || c == '\U{FEFF}'
  }

  /** Every character of `s` is white space (the empty string included). */
  predicate IsBlank(s: string)
  {
    forall i :: 0 <= i < |s| ==> IsJsSpace(s[i])
  }

  /** `s` without its leading white space. */
  function TrimStart(s: string): (r: string)
    ensures |r| <= |s| && r == s[|s| - |r|..]
    ensures IsBlank(s[..|s| - |r|])
    ensures r == [] || !IsJsSpace(r[0])
  {
    if s != [] && IsJsSpace(s[0]) then
      var r := TrimStart(s[1..]);
      assert s[1..][..|s| - 1 - |r|] == s[1..|s| - |r|];
      r
    else s
  }

  /** `s` without its trailing white space. */
  function TrimEnd(s: string): (r: string)
    ensures |r| <= |s| && r == s[..|r|]
    ensures IsBlank(s[|r|..])
    ensures r == [] || !IsJsSpace(r[|r| - 1])
  {
    if s != [] && IsJsSpace(s[|s| - 1]) then
      var t := s[..|s| - 1];
      var r := TrimEnd(t);
      assert s[|r|..] == t[|r|..] + [s[|s| - 1]];
      assert r == t[..|r|] == s[..|r|];
      r
    else s
  }

  /** `s.trim()`. */
  function Trim(s: string): string
  {
    TrimEnd(TrimStart(s))
  }

  /** The blank-title guard: a title trims to nothing exactly when it is all white space. */
  lemma TrimEmptyIffBlank(s: string)
    ensures Trim(s) == [] <==> IsBlank(s)
  {
    var t := TrimStart(s);
    var r := TrimEnd(t);
    assert t != [] ==> t[0] == s[|s| - |t|];
    assert t == [] ==> s[..|s|] == s;
    assert r == [] ==> t[|r|..] == t;
  }

  /** `todos.map(todo => todo.id === id ? item : todo)`. */
  function ReplaceById(todos: seq<TodoRead>, id: int, item: TodoRead): (r: seq<TodoRead>)
    ensures |r| == |todos|
    ensures forall i :: 0 <= i < |r| ==> r[i] == if todos[i].id == id then item else todos[i]
  {
    if todos == [] then []
    else [if todos[0].id == id then item else todos[0]] + ReplaceById(todos[1..], id, item)
  }

  /** `todos.filter(todo => todo.id !== id)`. */
  function RemoveById(todos: seq<TodoRead>, id: int): (r: seq<TodoRead>)
    ensures |r| <= |todos|
    ensures forall x :: x in r <==> x in todos && x.id != id
  {
    if todos == [] then []
    else (if todos[0].id == id then [] else [todos[0]]) + RemoveById(todos[1..], id)
  }

  /** Filtering by id distributes over concatenation, so the kept items keep their order. */
  lemma {:induction false} RemoveByIdAppend(a: seq<TodoRead>, b: seq<TodoRead>, id: int)
    ensures RemoveById(a + b, id) == RemoveById(a, id) + RemoveById(b, id)
  {
    if a == [] {
      assert a + b == b;
    } else {
      assert (a + b)[1..] == a[1..] + b;
      RemoveByIdAppend(a[1..], b, id);
    }
  }

  /** Filtering out an id no item has leaves the list as it is. */
  lemma {:induction false} RemoveByIdAbsent(todos: seq<TodoRead>, id: int)
    requires forall i :: 0 <= i < |todos| ==> todos[i].id != id
    ensures RemoveById(todos, id) == todos
  {
    if todos != [] {
      RemoveByIdAbsent(todos[1..], id);
    }
  }

  /** Deleting twice is deleting once. */
  lemma RemoveByIdIdempotent(todos: seq<TodoRead>, id: int)
    ensures RemoveById(RemoveById(todos, id), id) == RemoveById(todos, id)
  {
    var r := RemoveById(todos, id);
    forall i | 0 <= i < |r| ensures r[i].id != id {
      assert r[i] in r;
    }
    RemoveByIdAbsent(r, id);
  }

  /** The patch body of a toggle: only `completed`, set to the negated current status. */
  function ToggleBody(currentStatus: bool): TodoUpdate
  {
    TodoUpdate(Unset, Unset, Set(Some(!currentStatus)))
  }

  /** On the server, the toggle patch flips `completed` of the row and touches nothing else. */
  lemma ToggleOnServer(t: Todo)
    ensures Committable(Patched(DraftOf(t), ToggleBody(t.completed)))
    ensures RowOf(t, Patched(DraftOf(t), ToggleBody(t.completed))) == t.(completed := !t.completed)
  {
  }

  /** The alert of a failed fetch: the answer's `detail`, else the error message, else a fallback. */
  function FetchErrorMessage(e: RequestError): (m: string)
    ensures m != ""
    ensures Truthy(e.detail) ==> m == e.detail.value
    ensures !Truthy(e.detail) && Truthy(e.message) ==> m == e.message.value
    ensures !Truthy(e.detail) && !Truthy(e.message) ==> m == FetchFallback
  {
    if Truthy(e.detail) then e.detail.value
    else if Truthy(e.message) then e.message.value
    else FetchFallback
  }

  lemma {:induction false} AsReadsAppend(a: seq<Todo>, b: seq<Todo>)
    ensures AsReads(a + b) == AsReads(a) + AsReads(b)
  {
    assert |AsReads(a + b)| == |AsReads(a) + AsReads(b)|;
    forall i | 0 <= i < |a + b| ensures AsReads(a + b)[i] == (AsReads(a) + AsReads(b))[i] {
      if i < |a| { assert (a + b)[i] == a[i]; } else { assert (a + b)[i] == b[i - |a|]; }
    }
  }

  /** The ids of the rows in `part` differ from `id`, when `part` comes from a unique-id table. */
  lemma OwnedIdsDiffer(part: seq<Todo>, u: int, id: int)
    requires forall x :: x in part ==> x.id != id
    ensures forall k :: 0 <= k < |AsReads(Owned(part, u))| ==> AsReads(Owned(part, u))[k].id != id
  {
    forall k | 0 <= k < |AsReads(Owned(part, u))| ensures AsReads(Owned(part, u))[k].id != id {
      var x := Owned(part, u)[k];
      assert x in Owned(part, u);
    }
  }

  /** The table split around row `i`: the rows before it and the rows after it. */
  lemma SplitAround(rows: seq<Todo>, i: nat, u: int)
    requires i < |rows| && rows[i].ownerId == u
    ensures AsReads(Owned(rows, u))
            == AsReads(Owned(rows[..i], u)) + [AsRead(rows[i])] + AsReads(Owned(rows[i + 1..], u))
  {
    var a, x, b := rows[..i], rows[i], rows[i + 1..];
    assert rows == a + [x] + b;
    calc {
      Owned(rows, u);
    == { OwnedAppend(a + [x], b, u); }
      Owned(a + [x], u) + Owned(b, u);
    == { OwnedAppend(a, [x], u); assert Owned([x], u) == [x] + Owned([], u); }
      Owned(a, u) + [x] + Owned(b, u);
    }
    calc {
      AsReads(Owned(a, u) + [x] + Owned(b, u));
    == { AsReadsAppend(Owned(a, u) + [x], Owned(b, u)); }
      AsReads(Owned(a, u) + [x]) + AsReads(Owned(b, u));
    == { AsReadsAppend(Owned(a, u), [x]); }
      AsReads(Owned(a, u)) + AsReads([x]) + AsReads(Owned(b, u));
    }
    assert AsReads([x]) == [AsRead(x)];
  }

  /** A unique-id table holds `rows[i].id` only at `i`. */
  lemma UniqueElsewhere(rows: seq<Todo>, i: nat)
    requires UniqueIds(rows) && i < |rows|
    ensures forall x :: x in rows[..i] ==> x.id != rows[i].id
    ensures forall x :: x in rows[i + 1..] ==> x.id != rows[i].id
  {
    forall x | x in rows[i + 1..] ensures x.id != rows[i].id {
      var j :| 0 <= j < |rows[i + 1..]| && rows[i + 1..][j] == x;
      assert x == rows[i + 1 + j];
    }
  }

  /**
   * The list mirror stays in step with the server on delete: removing the id from a
   * list that shows the user's rows gives the user's rows after the server's delete.
   */
  lemma MirrorAfterDelete(rows: seq<Todo>, i: nat, u: int)
    requires UniqueIds(rows) && i < |rows| && rows[i].ownerId == u
    ensures RemoveById(AsReads(Owned(rows, u)), rows[i].id) == AsReads(Owned(RemoveAt(rows, i), u))
  {
    var id := rows[i].id;
    var pre, post := AsReads(Owned(rows[..i], u)), AsReads(Owned(rows[i + 1..], u));
    SplitAround(rows, i, u);
    UniqueElsewhere(rows, i);
    OwnedIdsDiffer(rows[..i], u, id);
    OwnedIdsDiffer(rows[i + 1..], u, id);
    RemoveTheOne(pre, AsRead(rows[i]), post);
    OwnedAppend(rows[..i], rows[i + 1..], u);
    AsReadsAppend(Owned(rows[..i], u), Owned(rows[i + 1..], u));
  }

  /** Filtering out the id of the one item that has it removes just that item. */
  lemma RemoveTheOne(pre: seq<TodoRead>, x: TodoRead, post: seq<TodoRead>)
    requires forall k :: 0 <= k < |pre| ==> pre[k].id != x.id
    requires forall k :: 0 <= k < |post| ==> post[k].id != x.id
    ensures RemoveById(pre + [x] + post, x.id) == pre + post
  {
    var mid := RemoveById([x], x.id);
    assert mid == [] by {
      assert mid == [] + RemoveById([x][1..], x.id);
    }
    calc {
      RemoveById(pre + [x] + post, x.id);
    == { RemoveByIdAppend(pre + [x], post, x.id); }
      RemoveById(pre + [x], x.id) + RemoveById(post, x.id);
    == { RemoveByIdAppend(pre, [x], x.id); }
      RemoveById(pre, x.id) + mid + RemoveById(post, x.id);
    == { RemoveByIdAbsent(pre, x.id); RemoveByIdAbsent(post, x.id); }
      pre + [] + post;
    == { assert pre + [] == pre; }
      pre + post;
    }
  }

  /** Replacing by an id no item has leaves the list as it is. */
  lemma ReplaceByIdAbsent(todos: seq<TodoRead>, id: int, item: TodoRead)
    requires forall i :: 0 <= i < |todos| ==> todos[i].id != id
    ensures ReplaceById(todos, id, item) == todos
  {
  }

  /**
   * The list mirror stays in step with the server on update: replacing by id with the
   * server's answer gives the user's rows after the server rewrote row `i`.
   */
  lemma MirrorAfterUpdate(rows: seq<Todo>, i: nat, t: Todo, u: int)
    requires UniqueIds(rows) && i < |rows| && rows[i].ownerId == u
    requires t.id == rows[i].id && t.ownerId == u
    ensures ReplaceById(AsReads(Owned(rows, u)), t.id, AsRead(t))
            == AsReads(Owned(rows[i := t], u))
  {
    var pre, post := AsReads(Owned(rows[..i], u)), AsReads(Owned(rows[i + 1..], u));
    var n := rows[i := t];
    calc {
      ReplaceById(AsReads(Owned(rows, u)), t.id, AsRead(t));
    == { SplitAround(rows, i, u); }
      ReplaceById(pre + [AsRead(rows[i])] + post, t.id, AsRead(t));
    == { UniqueElsewhere(rows, i);
         OwnedIdsDiffer(rows[..i], u, t.id); ReplaceByIdAbsent(pre, t.id, AsRead(t));
         OwnedIdsDiffer(rows[i + 1..], u, t.id); ReplaceByIdAbsent(post, t.id, AsRead(t));
         ReplaceByIdAppend(pre + [AsRead(rows[i])], post, t.id, AsRead(t));
         ReplaceByIdAppend(pre, [AsRead(rows[i])], t.id, AsRead(t)); }
      pre + [AsRead(t)] + post;
    == { assert n[..i] == rows[..i] && n[i + 1..] == rows[i + 1..] && n[i] == t;
         SplitAround(n, i, u); }
      AsReads(Owned(n, u));
    }
  }

  /** Replacing by id distributes over concatenation. */
  lemma ReplaceByIdAppend(a: seq<TodoRead>, b: seq<TodoRead>, id: int, item: TodoRead)
    ensures ReplaceById(a + b, id, item) == ReplaceById(a, id, item) + ReplaceById(b, id, item)
  {
  }

  /** The list mirror stays in step with the server on create: the new row goes at the end. */
  lemma MirrorAfterCreate(rows: seq<Todo>, t: Todo, u: int)
    requires t.ownerId == u
    ensures AsReads(Owned(rows, u)) + [AsRead(t)] == AsReads(Owned(rows + [t], u))
  {
    OwnedAfterInsert(rows, t, u);
    AsReadsAppend(Owned(rows, u), [t]);
  }

  /** The screen's state: the list, the text of the new-item input and the loading flag. */
  class DashboardState {
    var todos: seq<TodoRead>
    var newTodo: string
    var loading: bool

    constructor ()
      ensures todos == [] && newTodo == "" && loading
    {
      todos := [];
      newTodo := "";
      loading := true;
    }

    /** fetchTodos: show the server's list, or alert and keep the list; stop loading either way. */
    method FetchTodos(response: Result<seq<TodoRead>, RequestError>) returns (alert: Option<string>)
      modifies this`todos, this`loading
      ensures !loading
      ensures response.Ok? ==> todos == response.value && alert == None
      ensures response.Err? ==>
        todos == old(todos) && alert == Some(FetchErrorMessage(response.error))
    {
      if response.Ok? {
        todos := response.value;
        alert := None;
      } else {
        alert := Some(FetchErrorMessage(response.error));
      }
      loading := false;
    }

    /**
     * addTodo: a blank input sends nothing and changes nothing. Otherwise the input is
     * sent as the title; on success the server's row is appended and the input cleared.
     */
    method AddTodo(response: Result<TodoRead, RequestError>)
      returns (sent: Option<TodoCreate>, alert: Option<string>)
      modifies this`todos, this`newTodo
      ensures IsBlank(old(newTodo)) ==>
        sent == None && alert == None && todos == old(todos) && newTodo == old(newTodo)
      ensures !IsBlank(old(newTodo)) ==> sent == Some(TitleOnly(old(newTodo)))
      ensures !IsBlank(old(newTodo)) && response.Ok? ==>
        todos == old(todos) + [response.value] && newTodo == "" && alert == None
      ensures !IsBlank(old(newTodo)) && response.Err? ==>
        todos == old(todos) && newTodo == old(newTodo) && alert == Some(AddFailed)
    {
      TrimEmptyIffBlank(newTodo);
      if |Trim(newTodo)| == 0 {
        return None, None;
      }
      sent := Some(TitleOnly(newTodo));
      if response.Err? {
        return sent, Some(AddFailed);
      }
      todos := todos + [response.value];
      newTodo := "";
      alert := None;
    }

    /** toggleComplete: send the negated status; on success replace the items with that id. */
    method ToggleComplete(id: int, currentStatus: bool, response: Result<TodoRead, RequestError>)
      returns (sent: TodoUpdate, alert: Option<string>)
      modifies this`todos
      ensures sent == ToggleBody(currentStatus)
      ensures response.Ok? ==> todos == ReplaceById(old(todos), id, response.value) && alert == None
      ensures response.Err? ==> todos == old(todos) && alert == Some(UpdateFailed)
    {
      sent := ToggleBody(currentStatus);
      if response.Err? {
        return sent, Some(UpdateFailed);
      }
      todos := ReplaceById(todos, id, response.value);
      alert := None;
    }

    /** deleteTodo: on success drop every item with that id, the rest in order. */
    method DeleteTodo(id: int, response: Result<(), RequestError>) returns (alert: Option<string>)
      modifies this`todos
      ensures response.Ok? ==> todos == RemoveById(old(todos), id) && alert == None
      ensures response.Err? ==> todos == old(todos) && alert == Some(DeleteFailed)
    {
      if response.Err? {
        return Some(DeleteFailed);
      }
      todos := RemoveById(todos, id);
      alert := None;
    }
  }
}
