/** Properties relating several calls of the `useTodo` operations. */
module TodoProperties {
  import opened Wrappers
  import opened TodoModel
  import opened UseTodo
  import Seqs
  import JsStrings

  /** `addTodo` got past both of its guards and the store answered with an id. */
  predicate AddSucceeds(caller: Caller, input: string, reply: Option<Id>)
  {
    !JsStrings.IsBlank(input) && HasName(caller) && reply.Some?
  }

  /** The text checked with `trim()` is not the text stored: input with
      leading white space is appended as typed, which differs from its trim. */
  lemma AddStoresUntrimmedText(todos: seq<Todo>, caller: Caller, input: string, createdAt: Stamp, id: Id)
    requires !JsStrings.IsBlank(input) && HasName(caller)
    requires JsStrings.IsJsWhiteSpace(input[0])
    ensures var added := AddTodo(todos, caller, input, createdAt, Some(id)).todos;
            added[|todos|].text == input != JsStrings.Trim(input)
  {
    assert |JsStrings.TrimStart(input)| < |input|;
  }

  /** Toggling the same id twice as the same caller restores the list. */
  lemma ToggleTwiceRestores(todos: seq<Todo>, caller: Caller, id: Id)
    ensures ToggleTodo(ToggleTodo(todos, caller, id).todos, caller, id).todos == todos
  {
    var once := ToggleTodo(todos, caller, id).todos;
    var twice := ToggleTodo(once, caller, id).todos;
    if caller.User? {
      forall i | 0 <= i < |todos|
        ensures twice[i] == todos[i]
      {
        assert once[i].(completed := todos[i].completed) == todos[i];
        assert twice[i].(completed := once[i].completed) == once[i];
        assert Owns(once[i], id, caller.name) == Owns(todos[i], id, caller.name);
      }
    }
  }

  /** A caller that owns no record under `id` changes nothing by toggling it,
      neither locally nor remotely. */
  lemma ToggleWithoutOwnershipIsNoOp(todos: seq<Todo>, owner: Option<Name>, id: Id)
    requires forall i :: 0 <= i < |todos| ==> !Owns(todos[i], id, owner)
    ensures ToggleTodo(todos, User(owner), id) == Outcome(todos, [], None)
  {
    var o := ToggleTodo(todos, User(owner), id);
    forall i | 0 <= i < |todos|
      ensures o.todos[i] == todos[i]
    {
      assert o.todos[i].(completed := todos[i].completed) == todos[i];
    }
    Seqs.FilterKeepsNone(todos, OwnedBy(id, owner));
  }

  /** A record appended by `addTodo` carries no owner name, so while the caller
      has one, `toggleTodo` leaves that record as it is whatever the id. */
  lemma AddedTodoIgnoredByToggle(todos: seq<Todo>, caller: Caller, input: string, createdAt: Stamp, reply: Option<Id>, id: Id)
    requires AddSucceeds(caller, input, reply)
    ensures var added := AddTodo(todos, caller, input, createdAt, reply).todos;
            ToggleTodo(added, caller, id).todos[|todos|] == added[|todos|]
  {
    var added := AddTodo(todos, caller, input, createdAt, reply).todos;
    var toggled := ToggleTodo(added, caller, id).todos;
    assert added[|todos|].name.None?;
    assert toggled[|todos|].(completed := added[|todos|].completed) == added[|todos|];
  }

  /** So toggling a freshly added todo right after adding it does nothing at
      all when its id is new to the list. */
  lemma FreshTodoCannotBeToggled(todos: seq<Todo>, caller: Caller, input: string, createdAt: Stamp, reply: Option<Id>)
    requires AddSucceeds(caller, input, reply)
    requires forall i :: 0 <= i < |todos| ==> todos[i].id != reply.value
    ensures var added := AddTodo(todos, caller, input, createdAt, reply).todos;
            ToggleTodo(added, caller, reply.value) == Outcome(added, [], None)
  {
    var added := AddTodo(todos, caller, input, createdAt, reply).todos;
    forall i | 0 <= i < |added|
      ensures !Owns(added[i], reply.value, caller.name)
    {
      if i < |todos| {
        assert added[i] == added[..|todos|][i] == todos[i];
      }
    }
    ToggleWithoutOwnershipIsNoOp(added, caller.name, reply.value);
  }

  /** Round trip through the store: once the document `addTodo` wrote comes
      back from `getTodos`, it is the added record with its owner name filled
      in, and the caller can now toggle it. */
  lemma AddThenReloadMakesToggleable(
    todos: seq<Todo>, caller: Caller, input: string, createdAt: Stamp, reply: Option<Id>,
    docs: seq<RemoteDoc>, j: nat)
    requires AddSucceeds(caller, input, reply)
    requires j < |docs|
    requires docs[j] == RemoteDoc(reply.value, AddTodo(todos, caller, input, createdAt, reply).effects[0].doc)
    ensures var added := AddTodo(todos, caller, input, createdAt, reply).todos;
            var loaded := GetTodos(added, caller, Some(docs)).todos;
            && loaded[j] == added[|todos|].(name := caller.name)
            && ToggleTodo(loaded, caller, reply.value).todos[j].completed
  {
    var o := AddTodo(todos, caller, input, createdAt, reply);
    var loaded := GetTodos(o.todos, caller, Some(docs)).todos;
    assert o.effects[0].doc == DocData(caller.name.value, input, createdAt, false);
    assert loaded[j] == Todo(reply.value, input, false, createdAt, caller.name);
    var toggled := ToggleTodo(loaded, caller, reply.value).todos;
    assert Owns(loaded[j], reply.value, caller.name);
    assert toggled[j].completed != loaded[j].completed;
  }

  /** The local removal in `deleteTodo` does not depend on who asks: two
      different callers leave the same list behind. */
  lemma DeleteLocalIgnoresOwner(todos: seq<Todo>, a: Option<Name>, b: Option<Name>, id: Id)
    requires exists i :: 0 <= i < |todos| && todos[i].id == id
    ensures DeleteTodo(todos, User(a), id).todos == DeleteTodo(todos, User(b), id).todos
    ensures DeleteTodo(todos, User(a), id).fault.None?
  {
  }

  /** Deleting a record someone else owns drops it from the local list but
      sends nothing to the store, so the two diverge until the next reload. */
  lemma DeleteByNonOwnerDiverges(todos: seq<Todo>, owner: Option<Name>, id: Id, k: nat)
    requires IsFirstWithId(todos, id, k)
    requires todos[k].name != owner
    ensures var o := DeleteTodo(todos, User(owner), id);
            && o.effects == []
            && todos[k] !in o.todos
  {
    var o := DeleteTodo(todos, User(owner), id);
    FirstWithIdIsUnique(todos, id, k);
  }

  /** The records `deleteTodo` keeps are in their original relative order. */
  lemma DeleteKeepsOrder(todos: seq<Todo>, caller: Caller, id: Id)
    ensures Seqs.IsSubsequence(DeleteTodo(todos, caller, id).todos, todos)
  {
    var o := DeleteTodo(todos, caller, id);
    if o.fault.None? {
      Seqs.FilterIsSubsequence(todos, IdIsNot(id));
    } else {
      Seqs.SubsequenceOfItself(todos);
    }
  }

  /** With distinct ids, deleting a present id removes exactly one record. */
  lemma DeleteRemovesExactlyOne(todos: seq<Todo>, owner: Option<Name>, id: Id)
    requires Seqs.DistinctKeys(todos, TodoId)
    requires exists i :: 0 <= i < |todos| && todos[i].id == id
    ensures |DeleteTodo(todos, User(owner), id).todos| == |todos| - 1
  {
    var i :| 0 <= i < |todos| && todos[i].id == id;
    forall j | 0 <= j < |todos| && j != i
      ensures !IdIs(id)(todos[j])
    {
      if j < i {
        assert TodoId(todos[j]) != TodoId(todos[i]);
      } else {
        assert TodoId(todos[i]) != TodoId(todos[j]);
      }
    }
    Seqs.FilterKeepsOnly(todos, IdIs(id), i);
  }

  /** The records `hideCompletedTodo` keeps are in their original order. */
  lemma HideKeepsOrder(todos: seq<Todo>)
    ensures Seqs.IsSubsequence(HideCompletedTodo(todos).todos, todos)
  {
    if exists i :: 0 <= i < |todos| && todos[i].completed {
      Seqs.FilterIsSubsequence(todos, IsIncomplete);
    } else {
      Seqs.SubsequenceOfItself(todos);
    }
  }

  /** Right after a call that hid something, a second call has nothing left
      to hide and asks for a reload instead. */
  lemma HideTwiceReloads(todos: seq<Todo>)
    requires exists i :: 0 <= i < |todos| && todos[i].completed
    ensures var hidden := HideCompletedTodo(todos).todos;
            HideCompletedTodo(hidden) == Outcome(hidden, [Reload], None)
  {
  }

  /** Deleting a freshly added record, even as its creator, sends no remote
      delete: the record carries no owner name, so the document survives and
      returns on the next `getTodos`. */
  lemma DeleteFreshTodoKeepsDocument(todos: seq<Todo>, caller: Caller, input: string, createdAt: Stamp, reply: Option<Id>)
    requires AddSucceeds(caller, input, reply)
    requires forall i :: 0 <= i < |todos| ==> todos[i].id != reply.value
    ensures var o := DeleteTodo(AddTodo(todos, caller, input, createdAt, reply).todos, caller, reply.value);
            && o.fault.None?
            && o.effects == []
  {
    var added := AddTodo(todos, caller, input, createdAt, reply).todos;
    forall j | 0 <= j < |todos|
      ensures added[j].id != reply.value
    {
      assert added[j] == added[..|todos|][j] == todos[j];
    }
    assert IsFirstWithId(added, reply.value, |todos|);
    DeleteByNonOwnerDiverges(added, caller.name, reply.value, |todos|);
  }
}
