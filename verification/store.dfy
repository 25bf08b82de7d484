/** The hook seen as a state machine: the object it returns offers five
    actions, each of which maps the current list to an `Outcome`. */
module TodoStore {
  import opened Wrappers
  import opened TodoModel
  import opened UseTodo
  import Seqs
  import JsStrings

  /** One call on the hook's result, with the store's reply where one is awaited. */
  datatype Action =
    | Load(fetched: Option<seq<RemoteDoc>>)
    | Add(input: string, createdAt: Stamp, reply: Option<Id>)
    | Toggle(id: Id)
    | Delete(id: Id)
    | HideCompleted

  /** Dispatches an action. Whatever the action, a fault leaves the list as it
      was, and each action only makes its own kind of remote call. */
  function Apply(todos: seq<Todo>, caller: Caller, a: Action): (o: Outcome)
    ensures o.fault.Some? ==> o.todos == todos
    ensures a.Toggle? ==> |o.todos| == |todos|
    ensures a.Delete? || a.HideCompleted? ==> |o.todos| <= |todos|
    ensures a.Add? ==> |todos| <= |o.todos| <= |todos| + 1
    ensures a.Load? ==> forall e :: e in o.effects ==> e.Query?
    ensures a.Add? ==> forall e :: e in o.effects ==> e.RemoteAdd? && !e.doc.completed
    ensures a.Toggle? ==> forall e :: e in o.effects ==> e.RemoteUpdate? && e.id == a.id
    ensures a.Delete? ==> forall e :: e in o.effects ==> e == RemoteDelete(a.id)
    ensures a.HideCompleted? ==> forall e :: e in o.effects ==> e == Reload
  {
    match a
    case Load(fetched) => GetTodos(todos, caller, fetched)
    case Add(input, createdAt, reply) => AddTodo(todos, caller, input, createdAt, reply)
    case Toggle(id) => ToggleTodo(todos, caller, id)
    case Delete(id) => DeleteTodo(todos, caller, id)
    case HideCompleted => HideCompletedTodo(todos)
  }

  /** Ids are distinct and no text is blank. */
  predicate WellFormed(todos: seq<Todo>)
  {
    && Seqs.DistinctKeys(todos, TodoId)
    && forall i :: 0 <= i < |todos| ==> !JsStrings.IsBlank(todos[i].text)
  }

  /** The list the hook starts from: `useState([])`. */
  const Initial: seq<Todo> := []

  /** The starting list is well formed, so with `ApplyPreservesWellFormed`
      every list reachable through sound store replies is. */
  lemma InitialWellFormed()
    ensures WellFormed(Initial)
  {
  }

  /** What the store must guarantee about its replies for the list to stay
      well formed: fetched documents have distinct ids and non-blank texts, and
      the id assigned to a new document is not already in the list. */
  predicate StoreRepliesSound(todos: seq<Todo>, a: Action)
  {
    match a
    case Load(Some(docs)) =>
      && (forall i, j :: 0 <= i < j < |docs| ==> docs[i].id != docs[j].id)
      && (forall i :: 0 <= i < |docs| ==> !JsStrings.IsBlank(docs[i].data.text))
    case Add(_, _, Some(id)) => forall i :: 0 <= i < |todos| ==> todos[i].id != id
    case _ => true
  }

  /** Loading sound documents gives a well-formed list. */
  lemma LoadPreservesWellFormed(todos: seq<Todo>, caller: Caller, fetched: Option<seq<RemoteDoc>>)
    requires WellFormed(todos)
    requires StoreRepliesSound(todos, Load(fetched))
    ensures WellFormed(GetTodos(todos, caller, fetched).todos)
  {
    var o := GetTodos(todos, caller, fetched);
    if caller.User? && fetched.Some? {
      var docs := fetched.value;
      forall i, j | 0 <= i < j < |o.todos|
        ensures TodoId(o.todos[i]) != TodoId(o.todos[j])
      {
        assert o.todos[i].id == docs[i].id && o.todos[j].id == docs[j].id;
      }
    }
  }

  /** Adding validated text under a new id keeps the list well formed. */
  lemma AddPreservesWellFormed(todos: seq<Todo>, caller: Caller, input: string, createdAt: Stamp, reply: Option<Id>)
    requires WellFormed(todos)
    requires StoreRepliesSound(todos, Add(input, createdAt, reply))
    ensures WellFormed(AddTodo(todos, caller, input, createdAt, reply).todos)
  {
    var o := AddTodo(todos, caller, input, createdAt, reply);
    if !JsStrings.IsBlank(input) && HasName(caller) && reply.Some? {
      var n := |todos|;
      assert o.todos[n].id == reply.value && o.todos[n].text == input;
      forall i | 0 <= i < n
        ensures o.todos[i] == todos[i]
      {
        assert o.todos[i] == o.todos[..n][i];
      }
    }
  }

  /** Toggling changes neither ids nor texts. */
  lemma TogglePreservesWellFormed(todos: seq<Todo>, caller: Caller, id: Id)
    requires WellFormed(todos)
    ensures WellFormed(ToggleTodo(todos, caller, id).todos)
  {
    var o := ToggleTodo(todos, caller, id);
    forall i | 0 <= i < |todos|
      ensures o.todos[i].id == todos[i].id && o.todos[i].text == todos[i].text
    {
      if caller.User? {
        assert o.todos[i].(completed := todos[i].completed) == todos[i];
      }
    }
  }

  /** Every action keeps the list well formed when the store's replies are sound. */
  lemma ApplyPreservesWellFormed(todos: seq<Todo>, caller: Caller, a: Action)
    requires WellFormed(todos)
    requires StoreRepliesSound(todos, a)
    ensures WellFormed(Apply(todos, caller, a).todos)
  {
    match a
    case Load(fetched) => LoadPreservesWellFormed(todos, caller, fetched);
    case Add(input, createdAt, reply) => AddPreservesWellFormed(todos, caller, input, createdAt, reply);
    case Toggle(id) => TogglePreservesWellFormed(todos, caller, id);
    case Delete(id) =>
      var o := DeleteTodo(todos, caller, id);
      if o.fault.None? {
        Seqs.FilterKeepsDistinctKeys(todos, IdIsNot(id), TodoId);
      }
    case HideCompleted =>
      if exists i :: 0 <= i < |todos| && todos[i].completed {
        Seqs.FilterKeepsDistinctKeys(todos, IsIncomplete, TodoId);
      }
  }
}
