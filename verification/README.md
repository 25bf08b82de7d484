# useTodo list-state model

A Dafny model of the list logic in the `useTodo` React hook of a small todo
application backed by Firestore. The hook keeps an ordered list of todo records
`{id, text, completed, createdAt, name?}` and changes it through five
operations: `getTodos`, `addTodo`, `toggleTodo`, `deleteTodo` and
`hideCompletedTodo`.

Each operation is a pure function from the current list and the hook's `data`
argument (the caller) to an `Outcome`:

- the list that `setTodos` stores, or the old list when the operation never reaches `setTodos`;
- the remote calls it dispatched, in order (`Query`, `RemoteAdd`, `RemoteUpdate`, `RemoteDelete`, `Reload`);
- the fault that stopped it, if any. A fault is either a TypeError from reading a property of `undefined` or a rejected remote call.

The store's replies are parameters: the id `addDoc` assigns, the documents
`getDocs` returns, or `None` for a rejection.

Modules:

- `Wrappers` (`wrappers.dfy`): `Option` and `Result`.
- `Seqs` (`seqs.dfy`): order-preserving filter and find-first, with lemmas on subsequence (`FilterIsSubsequence`), length (`FilterSplitsLength`, `FilterShrinks`), keeping none or only one element (`FilterKeepsNone`, `FilterKeepsOnly`) and distinct keys (`FilterKeepsDistinctKeys`).
- `JsStrings` (`js_strings.dfy`): `String.prototype.trim` over the ECMAScript WhiteSpace and LineTerminator code points (section 22.1.3.32 of ECMA-262).
- `TodoModel` (`todo.dfy`): records, remote documents, caller, effects, faults.
- `UseTodo` (`use_todo.dfy`): the five operations.
- `TodoProperties` (`properties.dfy`): properties that relate several calls.
- `TodoStore` (`store.dfy`): the five operations as one state machine, and the well-formedness invariant it preserves.

Behaviour of the code that the model keeps as written:

- A record appended by `addTodo` carries no `name`, but `toggleTodo` requires `todo.name === data.user.name`. A fresh record therefore cannot be toggled until the next `getTodos`. The model compares names with JavaScript `===`: an undefined caller name does match a record without a name.
- For the same reason, when its creator deletes a fresh record, `deleteTodo` sends no remote delete. The record disappears locally, but its document stays in the store and comes back on the next `getTodos`.
- `deleteTodo` uses the owner check only to decide whether to delete remotely. The local filter removes every record with the id, whoever asks. The owner that is checked is the one on the first record with that id. With distinct ids, exactly one record is removed (`DeleteRemovesExactlyOne`).
- `deleteTodo` with an id that is not in the list throws, because `find` returns `undefined` and `.name` is then read on it.
- `addTodo` only appends after `addDoc` has returned an id. The append is not optimistic.
- The text is checked with `trim()`, but the raw input is stored.
- `toggleTodo` reads `data.user.name` only once some record carries the id, because `&&` short-circuits. A missing `data` or `user` therefore faults only in that case.
- `hideCompletedTodo` asks for a reload without awaiting it. The reload itself is `GetTodos`.
- `src/components/TodoList.js:18` calls `useTodo()` with no argument, so in that wiring the caller is `NoData`. `GetTodos` and `AddTodo` are then no-ops, and `ToggleTodo` or `DeleteTodo` on a listed id fault.

## Model

| member | source | states |
|---|---|---|
| Seqs.FindFirst | src/components/hooks/useTodo.js:90 | `find` gives nothing exactly when no element satisfies the test; otherwise it gives the first position that does, with no earlier element satisfying it |
| Seqs.Filter | src/components/hooks/useTodo.js:97-99 | `filter` keeps exactly the elements that satisfy the test (each survivor came from the input, every satisfying input element survives) and never grows the list |
| JsStrings.TrimEmptyIffBlank | src/components/hooks/useTodo.js:46 | `input.trim() === ""` holds exactly when every character of the input is ECMAScript white space or a line terminator |
| JsStrings.TrimStart | src/components/hooks/useTodo.js:46 | the leading-space half of `trim()`: the result is a suffix of the input, every dropped character is white space, and the result does not start with white space |
| JsStrings.TrimEnd | src/components/hooks/useTodo.js:46 | the trailing-space half of `trim()`: the result is a prefix of the input, every dropped character is white space, and the result does not end with white space |
| UseTodo.GetTodos | src/components/hooks/useTodo.js:23-41 | without `data` nothing happens; without `data.user` it faults and the list is kept; otherwise it queries the caller's name, and on a reply the list becomes exactly the fetched documents in order, each with its id, text, completed flag, createdAt and the owner name filled in; a rejected query keeps the list |
| UseTodo.AddTodo | src/components/hooks/useTodo.js:44-68 | blank input (by `trim`) or a caller without a truthy name changes nothing and calls nothing; otherwise it writes one document {name, raw text, createdAt, completed false}; on an assigned id it appends exactly one record at the end (that id, raw text, not completed, no name) with all earlier records unchanged; on a rejected write the list is kept |
| UseTodo.OwnedOfFlipped | src/components/hooks/useTodo.js:72-82 | the `map` does not change which records the caller owns: the owned records of the toggled list are the input's owned records, each with `completed` inverted, in the same order |
| UseTodo.FlipUpdatesMatchFlipped | src/components/hooks/useTodo.js:72-78 | the k-th `updateDoc` goes to the k-th owned record in list order and carries the `completed` value that record now holds locally; there are exactly as many updates as owned records |
| UseTodo.ToggleTodo | src/components/hooks/useTodo.js:70-85 | the length and every field other than `completed` are preserved; `completed` changes exactly on the records with this id whose name equals the caller's name; the k-th update sent carries the new local value of the k-th such record in list order, and there is one update per such record; a missing `data`/`user` faults exactly when some record has the id, and then nothing changes |
| UseTodo.DeleteTodo | src/components/hooks/useTodo.js:88-101 | an absent id faults and changes nothing; a missing `data`/`user` faults; otherwise every record with the id is removed, every other record is kept, the length drops by the number of records with the id, and exactly one remote delete is sent when the first record with the id is owned by the caller, none otherwise |
| UseTodo.HideCompletedTodo | src/components/hooks/useTodo.js:103-110 | when some record is completed, the result holds exactly the incomplete records, is strictly shorter, and makes no remote call; when none is completed, the list is unchanged and a reload is requested |
| TodoProperties.AddStoresUntrimmedText | src/components/hooks/useTodo.js:46-67 | for every valid input that starts with white space, the appended record's text is the raw input, which differs from the `trim()` the input was validated with |
| TodoProperties.ToggleTwiceRestores | src/components/hooks/useTodo.js:70-85 | toggling the same id twice as the same caller gives back the original list |
| TodoProperties.ToggleWithoutOwnershipIsNoOp | src/components/hooks/useTodo.js:72-84 | a caller who owns no record under the id changes nothing and sends nothing (someone else's record stays as it is) |
| TodoProperties.AddedTodoIgnoredByToggle | src/components/hooks/useTodo.js:67-73 | the record `addTodo` appended is left unchanged by any `toggleTodo` of the same caller |
| TodoProperties.FreshTodoCannotBeToggled | src/components/hooks/useTodo.js:60-84 | right after a successful add with a new id, toggling that id changes nothing and sends nothing |
| TodoProperties.AddThenReloadMakesToggleable | src/components/hooks/useTodo.js:37-73 | when the document `addTodo` wrote comes back from `getTodos`, the loaded record is the appended one with the owner name filled in, and the caller can now toggle it |
| TodoProperties.DeleteFreshTodoKeepsDocument | src/components/hooks/useTodo.js:67-100 | after a successful add under a new id, its creator's delete of that id succeeds locally but sends no remote delete, because the appended record has no owner name |
| TodoProperties.DeleteLocalIgnoresOwner | src/components/hooks/useTodo.js:89-100 | for an id in the list, any two callers with a `user` leave the same list behind and neither faults |
| TodoProperties.DeleteByNonOwnerDiverges | src/components/hooks/useTodo.js:90-100 | deleting a record whose first holder of the id is owned by someone else removes it locally but sends no remote delete |
| TodoProperties.DeleteKeepsOrder | src/components/hooks/useTodo.js:96-100 | the records `deleteTodo` keeps are a subsequence of the input: their relative order is preserved |
| TodoProperties.DeleteRemovesExactlyOne | src/components/hooks/useTodo.js:96-100 | with distinct ids, deleting an id in the list shortens it by exactly one |
| TodoProperties.HideKeepsOrder | src/components/hooks/useTodo.js:104-106 | the records `hideCompletedTodo` keeps are a subsequence of the input |
| TodoProperties.HideTwiceReloads | src/components/hooks/useTodo.js:103-110 | right after a call that hid completed records, a second call keeps the list and requests a reload |
| TodoStore.Apply | src/components/hooks/useTodo.js:112-119 | for every operation, a fault leaves the list as it was; toggle keeps the length, delete and hide never grow it, add grows it by at most one; each operation makes only its own kind of remote call (hide only reloads) |
| TodoStore.InitialWellFormed | src/components/hooks/useTodo.js:21 | the empty starting list is well formed |
| TodoStore.LoadPreservesWellFormed | src/components/hooks/useTodo.js:23-41 | loading documents with distinct ids and non-blank texts yields a list with distinct ids and non-blank texts |
| TodoStore.AddPreservesWellFormed | src/components/hooks/useTodo.js:44-68 | appending validated input under an id new to the list keeps ids distinct and texts non-blank |
| TodoStore.TogglePreservesWellFormed | src/components/hooks/useTodo.js:70-85 | toggling never changes ids or texts, so a well-formed list stays well formed |
| TodoStore.ApplyPreservesWellFormed | src/components/hooks/useTodo.js:23-110 | distinct ids and non-blank texts survive every operation, provided fetched documents have distinct ids and non-blank texts and an assigned id is new to the list |

## Left out

- Firestore (`collection`, `query`, `where`, `orderBy`, `getDocs`, `addDoc`, `updateDoc`, `deleteDoc`): remote I/O. These calls become `Effect` values, and their replies become parameters.
- The server-side filter by owner and ordering by `createdAt`: the fetched documents are taken as given, in the order the store returns them.
- Firestore's rejection of `where("name", "==", undefined)`: that is library behaviour outside this code. A caller with an undefined name is modelled as issuing the query.
- `Timestamp.toDate()` and `new Date()`: clock and library values. `createdAt` is an opaque integer, and the conversion is taken to preserve it.
- Fields other than `name`, `text`, `createdAt` and `completed` that `...doc.data()` might spread into a loaded record: only the fields `addTodo` writes are modelled.
- Rejections of the un-awaited `updateDoc` and `deleteDoc`: they cannot affect the list, so the effect is recorded and the local change stands.
- React `useState`, stale closures of overlapping async calls, and the moment at which an un-awaited reload lands: concurrency and framework concerns. Each operation is modelled as one atomic step from the list it read.
- Non-string `input` or non-string user names: the presentation layer always passes strings.
- `src/components/TodoList.js`: presentation only. It wires the operations to UI events.
