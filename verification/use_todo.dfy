/** The five list operations of the `useTodo` hook, each a pure function from
    the current list (and the caller's `data`) to an `Outcome`. Remote replies
    (the id `addDoc` assigns, the documents `getDocs` returns, or a rejection)
    are parameters. */
module UseTodo {
  import opened Wrappers
  import opened TodoModel
  import Seqs
  import JsStrings

  /** The list that `getTodos` stores for a query result. */
  function Loaded(docs: seq<RemoteDoc>): seq<Todo>
  {
    seq(|docs|, i requires 0 <= i < |docs| => FromDoc(docs[i]))
  }

  /** `getTodos`: with no `data`, do nothing; otherwise query the caller's
      documents and replace the whole list by the result. */
  function GetTodos(todos: seq<Todo>, caller: Caller, fetched: Option<seq<RemoteDoc>>): (o: Outcome)
    ensures o.fault.Some? ==> o.todos == todos
    ensures caller.NoData? ==> o == Outcome(todos, [], None)
    ensures caller.NoUser? ==> o == Outcome(todos, [], Some(UserUndefined))
    ensures caller.User? ==> o.effects == [Query(caller.name)]
    ensures caller.User? && fetched.None? ==> o.fault == Some(RemoteRejected)
    ensures caller.User? && fetched.Some? ==>
      && o.fault.None?
      && |o.todos| == |fetched.value|
      && forall i :: 0 <= i < |o.todos| ==>
           var d := fetched.value[i];
           && o.todos[i].id == d.id
           && o.todos[i].text == d.data.text
           && o.todos[i].completed == d.data.completed
           && o.todos[i].createdAt == d.data.createdAt
           && o.todos[i].name == Some(d.data.name)
  {
    if caller.NoData? then Outcome(todos, [], None)
    else
      match UserName(caller)
      case Err(f) => Outcome(todos, [], Some(f))
      case Ok(owner) =>
        match fetched
        case None => Outcome(todos, [Query(owner)], Some(RemoteRejected))
        case Some(docs) => Outcome(Loaded(docs), [Query(owner)], None)
  }

  /** `addTodo(input)`: refuse blank input and a caller without a name;
      otherwise write the document and, once the store has answered with an id,
      append the raw (untrimmed) input as a record without owner name. */
  function AddTodo(todos: seq<Todo>, caller: Caller, input: string, createdAt: Stamp, reply: Option<Id>): (o: Outcome)
    ensures o.fault.Some? ==> o.todos == todos
    ensures JsStrings.IsBlank(input) ==> o == Outcome(todos, [], None)
    ensures !HasName(caller) ==> o == Outcome(todos, [], None)
    ensures !JsStrings.IsBlank(input) && HasName(caller) ==>
      o.effects == [RemoteAdd(DocData(caller.name.value, input, createdAt, false))]
    ensures !JsStrings.IsBlank(input) && HasName(caller) && reply.None? ==>
      o.fault == Some(RemoteRejected)
    ensures !JsStrings.IsBlank(input) && HasName(caller) && reply.Some? ==>
      && o.fault.None?
      && |o.todos| == |todos| + 1
      && o.todos[..|todos|] == todos
      && o.todos[|todos|] == Todo(reply.value, input, false, createdAt, None)
  {
    JsStrings.TrimEmptyIffBlank(input);
    if JsStrings.Trim(input) == "" then Outcome(todos, [], None)
    else if !HasName(caller) then Outcome(todos, [], None)
    else
      var write := RemoteAdd(DocData(caller.name.value, input, createdAt, false));
      match reply
      case None => Outcome(todos, [write], Some(RemoteRejected))
      case Some(id) => Outcome(todos + [Todo(id, input, false, createdAt, None)], [write], None)
  }

  /** The list `todos.map` builds in `toggleTodo` for a caller named `owner`. */
  function Flipped(todos: seq<Todo>, id: Id, owner: Option<Name>): seq<Todo>
  {
    seq(|todos|, i requires 0 <= i < |todos| =>
      if Owns(todos[i], id, owner) then todos[i].(completed := !todos[i].completed) else todos[i])
  }

  /** The `updateDoc` calls made during that `map`, in list order: one per
      owned record, carrying its new `completed` value. */
  function FlipUpdates(todos: seq<Todo>, id: Id, owner: Option<Name>): seq<Effect>
  {
    var owned := Seqs.Filter(todos, OwnedBy(id, owner));
    seq(|owned|, k requires 0 <= k < |owned| => RemoteUpdate(id, !owned[k].completed))
  }

  /** Flipping does not change which records are owned: the owned records of
      the flipped list are the owned records of the input, each flipped, in
      the same order. */
  lemma {:induction false} OwnedOfFlipped(todos: seq<Todo>, id: Id, owner: Option<Name>)
    ensures var w := Seqs.Filter(Flipped(todos, id, owner), OwnedBy(id, owner));
            var owned := Seqs.Filter(todos, OwnedBy(id, owner));
            && |w| == |owned|
            && forall k :: 0 <= k < |w| ==> w[k] == owned[k].(completed := !owned[k].completed)
    decreases |todos|
  {
    if todos != [] {
      var p := OwnedBy(id, owner);
      var flipped := Flipped(todos, id, owner);
      var tail := todos[1..];
      assert flipped[1..] == Flipped(tail, id, owner);
      OwnedOfFlipped(tail, id, owner);
      var w' := Seqs.Filter(Flipped(tail, id, owner), p);
      var owned' := Seqs.Filter(tail, p);
      var w := Seqs.Filter(flipped, p);
      var owned := Seqs.Filter(todos, p);
      assert w == (if p(flipped[0]) then [flipped[0]] else []) + w';
      assert owned == (if p(todos[0]) then [todos[0]] else []) + owned';
      if p(todos[0]) {
        assert p(flipped[0]);
        assert flipped[0] == todos[0].(completed := !todos[0].completed);
        FlippedPairsCons(flipped[0], todos[0], w', owned');
      } else {
        assert !p(flipped[0]);
        assert w == w' && owned == owned';
      }
    }
  }

  /** Pairing a flipped record with its original extends a pointwise-flipped
      pair of lists. */
  lemma FlippedPairsCons(a: Todo, b: Todo, w: seq<Todo>, owned: seq<Todo>)
    requires a == b.(completed := !b.completed)
    requires |w| == |owned|
    requires forall k :: 0 <= k < |w| ==> w[k] == owned[k].(completed := !owned[k].completed)
    ensures var w2 := [a] + w;
            var owned2 := [b] + owned;
            && |w2| == |owned2|
            && forall k :: 0 <= k < |w2| ==> w2[k] == owned2[k].(completed := !owned2[k].completed)
  {
    var w2 := [a] + w;
    var owned2 := [b] + owned;
    forall k | 0 <= k < |w2|
      ensures w2[k] == owned2[k].(completed := !owned2[k].completed)
    {
      if k > 0 {
        assert w2[k] == w[k - 1] && owned2[k] == owned[k - 1];
      }
    }
  }

  /** Local and remote agree: the k-th update goes to the k-th owned record in
      list order and carries the value that record now holds. */
  lemma FlipUpdatesMatchFlipped(todos: seq<Todo>, id: Id, owner: Option<Name>)
    ensures |FlipUpdates(todos, id, owner)| == Seqs.Count(todos, OwnedBy(id, owner))
    ensures var w := Seqs.Filter(Flipped(todos, id, owner), OwnedBy(id, owner));
            && |FlipUpdates(todos, id, owner)| == |w|
            && forall k :: 0 <= k < |w| ==> FlipUpdates(todos, id, owner)[k] == RemoteUpdate(id, w[k].completed)
  {
    OwnedOfFlipped(todos, id, owner);
  }

  /** `toggleTodo(id)`: invert `completed` on the records carrying `id` whose
      owner name equals the caller's, sending the new value to the store for
      each of them. `data.user.name` is only read once some record carries `id`. */
  function ToggleTodo(todos: seq<Todo>, caller: Caller, id: Id): (o: Outcome)
    ensures |o.todos| == |todos|
    ensures o.fault.Some? <==> !caller.User? && exists i :: 0 <= i < |todos| && todos[i].id == id
    ensures !caller.User? ==> o.todos == todos && o.effects == []
    ensures caller.User? ==> forall i :: 0 <= i < |todos| ==>
      && o.todos[i].(completed := todos[i].completed) == todos[i]
      && (o.todos[i].completed != todos[i].completed <==> Owns(todos[i], id, caller.name))
    // Corollary of the next clause and OwnedOfFlipped: one update per owned record of the input.
    ensures caller.User? ==> |o.effects| == Seqs.Count(todos, OwnedBy(id, caller.name))
    ensures caller.User? ==>
      var w := Seqs.Filter(o.todos, OwnedBy(id, caller.name));
      && |o.effects| == |w|
      && forall k :: 0 <= k < |w| ==> o.effects[k] == RemoteUpdate(id, w[k].completed)
  {
    match UserName(caller)
    case Err(f) =>
      if Seqs.FindFirst(todos, IdIs(id)).Some? then Outcome(todos, [], Some(f))
      else Outcome(todos, [], None)
    case Ok(owner) =>
      var flipped := Flipped(todos, id, owner);
      var updates := FlipUpdates(todos, id, owner);
      FlipUpdatesMatchFlipped(todos, id, owner);
      Outcome(flipped, updates, None)
  }

  /** `k` is the position `todos.find(t => t.id === id)` stops at. */
  predicate IsFirstWithId(todos: seq<Todo>, id: Id, k: int)
  {
    0 <= k < |todos| && todos[k].id == id && forall j :: 0 <= j < k ==> todos[j].id != id
  }

  /** The first record carrying `id` has owner name `owner`. */
  predicate FirstWithIdOwnedBy(todos: seq<Todo>, id: Id, owner: Option<Name>)
  {
    exists k :: 0 <= k < |todos| && IsFirstWithId(todos, id, k) && todos[k].name == owner
  }

  /** There is only one first position. */
  lemma FirstWithIdIsUnique(todos: seq<Todo>, id: Id, k: int)
    requires IsFirstWithId(todos, id, k)
    ensures forall k' :: IsFirstWithId(todos, id, k') ==> k' == k
  {
  }

  /** `deleteTodo(id)`: read the owner of the first record carrying `id`
      (a TypeError when there is none), delete the document remotely only when
      that owner is the caller, and drop every record carrying `id` locally in
      either case. */
  function DeleteTodo(todos: seq<Todo>, caller: Caller, id: Id): (o: Outcome)
    ensures o.fault.Some? ==> o.todos == todos && o.effects == []
    ensures (forall i :: 0 <= i < |todos| ==> todos[i].id != id) ==> o.fault == Some(TodoUndefined(id))
    ensures (exists i :: 0 <= i < |todos| && todos[i].id == id) ==> (o.fault.None? <==> caller.User?)
    ensures o.fault.None? ==>
      && (forall i :: 0 <= i < |o.todos| ==> o.todos[i].id != id && o.todos[i] in todos)
      && (forall i :: 0 <= i < |todos| && todos[i].id != id ==> todos[i] in o.todos)
      && |o.todos| == |todos| - Seqs.Count(todos, IdIs(id))
      && o.todos == Seqs.Filter(todos, IdIsNot(id))
    ensures o.fault.None? ==>
      (o.effects == [RemoteDelete(id)] || o.effects == [])
    ensures o.fault.None? ==> (o.effects == [RemoteDelete(id)] <==> FirstWithIdOwnedBy(todos, id, caller.name))
  {
    match Seqs.FindFirst(todos, IdIs(id))
    case None => Outcome(todos, [], Some(TodoUndefined(id)))
    case Some(k) =>
      match UserName(caller)
      case Err(f) => Outcome(todos, [], Some(f))
      case Ok(owner) =>
        Seqs.FilterSplitsLength(todos, IdIsNot(id), IdIs(id));
        FirstWithIdIsUnique(todos, id, k);
        Outcome(Seqs.Filter(todos, IdIsNot(id)), if todos[k].name == owner then [RemoteDelete(id)] else [], None)
  }

  /** `hideCompletedTodo()`: when some record is completed, keep only the
      incomplete ones (nothing remote); otherwise ask for a reload. */
  function HideCompletedTodo(todos: seq<Todo>): (o: Outcome)
    ensures o.fault.None?
    ensures (exists i :: 0 <= i < |todos| && todos[i].completed) ==>
      && o.effects == []
      && |o.todos| < |todos|
      && (forall i :: 0 <= i < |o.todos| ==> !o.todos[i].completed && o.todos[i] in todos)
      && (forall i :: 0 <= i < |todos| && !todos[i].completed ==> todos[i] in o.todos)
      && o.todos == Seqs.Filter(todos, IsIncomplete)
    ensures (forall i :: 0 <= i < |todos| ==> !todos[i].completed) ==> o == Outcome(todos, [Reload], None)
  {
    if Seqs.FindFirst(todos, IsCompleted).Some? then
      Seqs.FilterShrinks(todos, IsIncomplete);
      Outcome(Seqs.Filter(todos, IsIncomplete), [], None)
    else
      Outcome(todos, [Reload], None)
  }
}
