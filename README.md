# Hotel staff reclamations backend: the two controllers, verified

This project is a Dafny model of the decision logic of a small Express and Mongoose backend. The backend tracks complaints ("reclamations") raised in a hotel and the staff users they are assigned to. It models the handlers of the two controllers:

- `controllers/reclamationController.js`: `createReclamation`, `updateStatus`, `updateReclamation` and `deleteReclamation`;
- `controllers/userController.js`: `createUser`, `loginUser`, `updateUser` and `deleteUser`.

The document store is replaced by two in-memory collections, one per Mongoose model. Each is a `Store.Model` object whose `entries` hold the documents in insertion order. `Model.DocsById()` gives the map view, from identifier to document. The order matters because `findOne({ name })` returns one user when several share a name; the model takes the first in insertion order (see "## Left out").

Stored identifiers are the 24 lower-case hexadecimal digits of an ObjectId. A query by id casts the request's id first (`Documents.CastId`), so an id typed in capitals finds the same document.

The handlers are methods over these objects. Each returns a `Response`, a status code plus a JSON body, so each branch corresponds to one `res.status(...)` or `res.json(...)` line. `loginUser` only reads, so it is a pure function of the user collection.

Files:

- `documents.dfy`: field values, documents, JavaScript truthiness and `===`, the ObjectId shape test `/^[0-9a-fA-F]{24}$/`, and the cast of a request id to a stored identifier;
- `collection.dfy`: a collection in insertion order, its map view, and the queries and writes the handlers issue;
- `store.dfy`: the model objects, with a ghost log of the calls made to each;
- `http.dfy`: responses;
- `reclamation_controller.dfy` and `user_controller.dfy`: the handlers and the lemmas about them;
- `walkthrough.dfy`: a client that creates a user, files a reclamation and assigns it by name, and one that deletes a user and then tries that name again.

How the environment is represented:

- **Time.** `new Date()` is an integer parameter `now`.
- **Fresh identifiers.** The store generates the identifier of a new document. Here it is a parameter that must be ObjectId-shaped and not yet used.
- **Store failures.** A store call may raise: on a malformed id, on a document the schema rejects, or on a lost connection. Each handler takes one `fault` parameter per store call; `Some(message)` means that call raises with that message. `updateStatus` makes three calls, so it takes `findFault`, `lookupFault` and `writeFault`.
- **`undefined` fields.** A field destructured from the body that is `undefined` is `None`. Such a field is left out of the update it would belong to, which is what current Mongoose does. So an absent `status` or `assignedTo` leaves the stored value as it was.

## Model

| member | source | states |
|---|---|---|
| `Collection.FindFirst` | hotel-app-backend/controllers/userController.js:35 | `findOne(filter)` yields the first document in insertion order that matches, and none exactly when nothing matches |
| `Collection.FindById` | hotel-app-backend/controllers/reclamationController.js:30 | `findById(id)` finds a document exactly when `id` is in the collection, and then the one filed under `id` |
| `Collection.Insert` | hotel-app-backend/controllers/reclamationController.js:6-7 | saving under a fresh id adds exactly that id with that document and keeps ids unique and ObjectId-shaped |
| `Collection.UpdateById` | hotel-app-backend/controllers/reclamationController.js:48-52 | `findByIdAndUpdate` merges the update into the document filed under `id` and nothing else; an absent `id` changes nothing; ids and their order are kept |
| `Collection.DeleteById` | hotel-app-backend/controllers/reclamationController.js:94 | `findByIdAndDelete` removes `id` from the map view and leaves every other document; an absent `id` changes nothing; otherwise the result is the collection without the one entry filed under `id`, the rest in their order |
| `Collection.DeleteIsIdempotent` | hotel-app-backend/controllers/reclamationController.js:92-95 | a second delete of the same id changes nothing, so reporting success both times is consistent |
| `Documents.CastId` | hotel-app-backend/controllers/reclamationController.js:30 | the id a query by id looks for has the request id's characters in lower case; an ObjectId-shaped request id becomes a stored identifier, and a stored identifier is left as it is |
| `Documents.CastIdIgnoresCase` | hotel-app-backend/controllers/userController.js:56-60 | two request ids that differ only in the case of their letters reach the same document |
| `Documents.Merge` | hotel-app-backend/controllers/reclamationController.js:73-77 | each field of the update replaces or adds that field; every other field is kept |
| `Documents.Pick` | hotel-app-backend/controllers/userController.js:5-10 | the new user holds exactly the body's fields among the five destructured ones, with the body's values |
| `Store.Model.FindById` | hotel-app-backend/controllers/reclamationController.js:30 | the call is logged, changes no document, and raises or returns the document filed under the cast `id` |
| `Store.Model.FindOne` | hotel-app-backend/controllers/reclamationController.js:39 | the call is logged, changes no document, and raises or returns the first match in insertion order |
| `Store.Model.FindByIdAndUpdate` | hotel-app-backend/controllers/reclamationController.js:48-52 | the call is logged; a raise changes nothing; otherwise the document is updated and the updated document returned |
| `Store.Model.FindByIdAndDelete` | hotel-app-backend/controllers/reclamationController.js:94 | the call is logged; a raise changes nothing; otherwise the id is removed and the removed document returned |
| `Store.Model.Save` | hotel-app-backend/controllers/reclamationController.js:7 | the call is logged; a raise changes nothing; otherwise the document is appended under its fresh id |
| `ReclamationController.StatusFields` | hotel-app-backend/controllers/reclamationController.js:50 | the status update document holds only `status`, `assignedTo` and `updatedAt`, with `updatedAt` the current time and undefined fields left out |
| `ReclamationController.Resolve` | hotel-app-backend/controllers/reclamationController.js:36-45 | falsy values and 24-hex strings pass unchanged, even when no user has that id; a truthy non-string fails; a name fails exactly when no user bears it; otherwise the name becomes the `_id` of the first user so named; a truthy result is never a raw name |
| `ReclamationController.ResolvedAssigneeIsStable` | hotel-app-backend/controllers/reclamationController.js:36-44 | sending back a resolved assignee, as the response renders it, resolves to itself |
| `ReclamationController.DeletedUserNameNoLongerResolves` | hotel-app-backend/controllers/reclamationController.js:39-42 | once the only user with a name is deleted, assigning by that name fails with "user not found" |
| `ReclamationController.StatusUpdateTouchesOnlyItsFields` | hotel-app-backend/controllers/reclamationController.js:48-52 | the stored document differs from the old one only in `status`, `assignedTo` and `updatedAt`; an undefined `status` or `assignedTo` keeps the old value |
| `ReclamationController.CreateReclamation` | hotel-app-backend/controllers/reclamationController.js:4-12 | 201 with the body stored under the fresh id, appended last; a failing save gives 400 `{ error }` and no change; exactly one store call is logged |
| `ReclamationController.UpdateStatus` | hotel-app-backend/controllers/reclamationController.js:19-61 | see the list under this table |
| `ReclamationController.UpdateReclamation` | hotel-app-backend/controllers/reclamationController.js:63-90 | a failing call gives 500 and no change; an absent id gives 404 and no change; otherwise 200, and only that record changes, in place, to the old document merged with the body and a fresh `updatedAt`; exactly one store call is logged |
| `ReclamationController.DeleteReclamation` | hotel-app-backend/controllers/reclamationController.js:92-99 | 200 whether or not the id existed, and the reclamations become the collection without that id, the others unchanged and in order; a failing call gives 500 and no change; exactly one store call is logged |
| `UserController.Profile` | hotel-app-backend/controllers/userController.js:43-48 | the login body holds only `id`, `name`, `email` and `role`, never `password`, with the user's own values |
| `UserController.LoginUser` | hotel-app-backend/controllers/userController.js:31-52 | 500 exactly when the lookup raises; otherwise 404 exactly when no user has the name, and when some user has it, the first user so named decides: 200 with its profile when its password is strictly equal to the one given, 401 otherwise |
| `UserController.LoginDecidedByTheNamedUser` | hotel-app-backend/controllers/userController.js:35-48 | when one user has the name, a matching password gives 200 with that user's profile and any other password gives 401, never 404 |
| `UserController.LoginAfterCreate` | hotel-app-backend/controllers/userController.js:31-48 | a user created with a new name and a string password can log in with them and gets its own profile |
| `UserController.LoginAfterDelete` | hotel-app-backend/controllers/userController.js:70-73 | after the only user with a name is deleted, login with that name gives 404 |
| `UserController.CreateUser` | hotel-app-backend/controllers/userController.js:4-17 | 201 with only the five user fields of the body stored under a fresh id; a failing save gives 500 and no change; exactly one store call is logged |
| `UserController.UpdateUser` | hotel-app-backend/controllers/userController.js:54-68 | a failing call gives 500 and no change; an absent id gives 404 and no change; otherwise 200 and only that user changes, in place, to the old document merged with the body; exactly one store call is logged |
| `UserController.DeleteUser` | hotel-app-backend/controllers/userController.js:70-77 | 200 whether or not the id existed, and the users become the collection without that id, the others unchanged and in order; the reclamations are not among what it may modify, so references to the user stay; a failing call gives 500; exactly one store call is logged |
| `Walkthrough.AssignByName` | hotel-app-backend/controllers/reclamationController.js:36-55 | creating Alice and a reclamation, then a status update assigning "Alice" that names the reclamation by its id in capitals, stores the id Alice was created under (the only user), the new status and the original subject |
| `Walkthrough.RemoveColleague` | hotel-app-backend/controllers/userController.js:70-73 | after `deleteUser` removes the only user with a name, logging in with that name gives 404 and assigning a reclamation to that name fails with "user not found" |

`UpdateStatus` states every outcome, in the order the handler reaches them:

- **The `findById` raises.** The answer is 400. Nothing is written and no user is looked up.
- **No reclamation has `id`.** The answer is 404. Nothing is written, no user is looked up, and no write call is made.
- **`assignedTo` is truthy but not a string.** `.match` throws a TypeError, and the answer is 400 with its message.
- **`assignedTo` is a name.** A name is a truthy string that is not 24 hex digits. Exactly one `findOne({ name })` is made. No lookup is made in any other case. If the lookup raises, the answer is 400. If no user has the name, the answer is 404. In both cases nothing is written.
- **A failing write.** The answer is 400 and nothing changes.
- **Success.** The answer is 200, and the body is the stored document. Only the record `id` changes, in place. Its new value is the old document merged with `status`, the resolved `assignedTo` and `updatedAt`. The calls are one read of the reclamation and then one write.

Two behaviours of the code differ from what one might expect of the system, and the model follows the code:

- **Falsy `assignedTo`.** One would expect a stored `assignedTo` to be identifier-shaped after every update. The code passes a falsy `assignedTo` (`""`, `null`, `0`, `false`) straight to the write. `updateReclamation` also writes whatever `assignedTo` its body carries, without resolution. The model proves the invariant only for a truthy `assignedTo` written by `updateStatus` (`Resolve`).
- **Status codes on store failures.** One would expect unclassified store failures to give 500 and validation failures 400. In the code, `createReclamation` and `updateStatus` answer 400 for every failure, and the other handlers answer 500 for every failure.

## Left out

- `server.js`, the route tables and the `getAll*` handlers: start-up, middleware and listing add no decisions. `updateStatus` is reached through `PUT /:id/status`.
- Schema behaviour: the model files are not part of this model. That covers casting (for instance a 24-hex `assignedTo` string cast to an ObjectId), required fields, dropping fields not in the schema, and automatic timestamps. Whatever the schema rejects appears only as a raising call.
- Identifier generation, and a body that supplies its own `_id`.
- Query operator objects in a body (`{ "$ne": null }` as a name).
- `ReclamationController.UpdateReclamation`, `UserController.UpdateUser`: update operators and dotted paths in the body (`$unset`, `$inc`, `"a.b"`) are stored as plain fields by `Merge`, where Mongoose would apply them. The model keeps only the `$set` reading of a body.
- Which user `findOne({ name })` returns when several share a name: MongoDB does not promise an order for an unsorted query. `Collection.FindFirst`, `ReclamationController.Resolve` and `UserController.LoginUser` take the first in insertion order, which is a modelling choice. With a unique name, `LoginDecidedByTheNamedUser` and `DeletedUserNameNoLongerResolves` do not depend on it.
- `Documents.CastId`: a request id that is not 24 hexadecimal digits makes Mongoose raise a cast error, and a 12-character string is read as the 12 bytes of an ObjectId. Here the raise is one of the `fault` parameters, and a 12-character id finds nothing.
- Floating-point numbers: JSON numbers are integers here, and only their truthiness and equality are used.
- Error objects in `{ message, error }` bodies: they are rendered as their message string.
- `console.log` diagnostics.
- Concurrency: each handler is atomic. So the case where `findByIdAndUpdate` finds no record after `findById` found one cannot arise. In the code that case would answer 200 with a `null` body.
- `UserController.LoginUser`: a body without `name` is not modelled. The name is always present, so how the driver treats an `undefined` filter value is left out. Because the function is pure, its `findOne` is not recorded in the call log.
- Password hashing: there is none. The model compares plaintext passwords with `!==`, as the code does.
