/** The records, caller identity, remote effects and faults of the `useTodo` hook. */
module TodoModel {
  import opened Wrappers

  /** Document id assigned by the remote store. */
  type Id = string

  /** A user's display name, the owner tag stored on every remote document. */
  type Name = string

  /** `createdAt`: an opaque instant; converting the remote timestamp to a local
      date is taken to preserve it. */
  type Stamp = int

  /** One entry of the local list. `name` is absent on records appended by
      `addTodo` and present on records loaded from the remote store. */
  datatype Todo = Todo(id: Id, text: string, completed: bool, createdAt: Stamp, name: Option<Name>)

  /** The fields of a remote document as `addTodo` writes them. */
  datatype DocData = DocData(name: Name, text: string, createdAt: Stamp, completed: bool)

  /** A document returned by the remote query: its id and its fields. */
  datatype RemoteDoc = RemoteDoc(id: Id, data: DocData)

  /** The hook's `data` argument: undefined, without a `user`, or with a user
      whose `name` may itself be undefined. */
  datatype Caller = NoData | NoUser | User(name: Option<Name>)

  /** A remote call the operation dispatched, in dispatch order. */
  datatype Effect =
    | Query(owner: Option<Name>)                 // getDocs(query(where name == owner, orderBy createdAt))
    | RemoteAdd(doc: DocData)                    // addDoc
    | RemoteUpdate(id: Id, completed: bool)      // updateDoc(doc(id), { completed })
    | RemoteDelete(id: Id)                       // deleteDoc(doc(id))
    | Reload                                     // getTodos() started without being awaited

  /** Why an operation stopped before replacing the list: a TypeError from
      reading a property of `undefined`, or a rejected remote call. */
  datatype Fault = DataUndefined | UserUndefined | TodoUndefined(id: Id) | RemoteRejected

  /** What one operation leaves behind: the list it stored (the old one when it
      never reached `setTodos`), the remote calls it made, and its fault. */
  datatype Outcome = Outcome(todos: seq<Todo>, effects: seq<Effect>, fault: Option<Fault>)

  /** Evaluating `data.user.name`. */
  function UserName(c: Caller): Result<Option<Name>, Fault>
  {
    match c
    case NoData => Err(DataUndefined)
    case NoUser => Err(UserUndefined)
    case User(n) => Ok(n)
  }

  /** `data?.user?.name` is truthy: present and not the empty string. */
  predicate HasName(c: Caller)
  {
    c.User? && c.name.Some? && c.name.value != ""
  }

  /** The record `getTodos` builds from a fetched document: the document's id,
      its stored fields, and its owner name as the record's `name`. */
  function FromDoc(d: RemoteDoc): Todo
  {
    Todo(d.id, d.data.text, d.data.completed, d.data.createdAt, Some(d.data.name))
  }

  /** The record is the one `toggleTodo(id)` acts on for a caller named `owner`:
      JavaScript `===` on an undefined name matches an undefined owner. */
  predicate Owns(t: Todo, id: Id, owner: Option<Name>)
  {
    t.id == id && t.name == owner
  }

  function OwnedBy(id: Id, owner: Option<Name>): Todo -> bool
  {
    t => Owns(t, id, owner)
  }

  function IdIs(id: Id): Todo -> bool
  {
    (t: Todo) => t.id == id
  }

  function IdIsNot(id: Id): Todo -> bool
  {
    (t: Todo) => t.id != id
  }

  function TodoId(t: Todo): Id
  {
    t.id
  }

  predicate IsCompleted(t: Todo)
  {
    t.completed
  }

  predicate IsIncomplete(t: Todo)
  {
    !t.completed
  }
}
