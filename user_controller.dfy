/** The handlers of `controllers/userController.js`. `LoginUser` only
    reads the users, so it is a function of the collection; the others
    write through the `User` model object. */
module UserController {
  import opened Documents
  import opened Collection
  import opened Store
  import opened Http

  const UserNotFound := "Utilisateur non trouvé"
  const WrongPassword := "Mot de passe incorrect"
  const ServerFault := "Erreur serveur"
  const CreateFailed := "Erreur lors de la création de l'utilisateur"
  const UpdateFailed := "Erreur lors de la mise à jour"
  const DeleteFailed := "Erreur lors de la suppression"
  const Deleted := "Utilisateur supprimé"

  /** The body fields `createUser` copies into a new user. */
  const UserFields: set<string> := {"name", "email", "password", "role", "department"}

  /** The stored fields a successful login echoes back. */
  const ProfileFields: set<string> := {"name", "email", "role"}

  /** `{ id: user._id, name: user.name, email: user.email, role: user.role }`
      as rendered: undefined fields are left out, the password never goes in. */
  function Profile(user: Entry): (r: Doc)
    ensures r.Keys <= {"id"} + ProfileFields
    ensures "password" !in r
    ensures Field(r, "id") == Some(ObjectId(user.id))
    ensures forall k :: k in ProfileFields ==> Field(r, k) == Field(user.doc, k)
  {
    var withName := With(map["id" := ObjectId(user.id)], "name", Field(user.doc, "name"));
    With(With(withName, "email", Field(user.doc, "email")), "role", Field(user.doc, "role"))
  }

  /** `exports.loginUser`: the first user named `name` is checked with
      `user.password !== password`. `fault` says whether `findOne` raises. */
  function LoginUser(users: Table, name: Value, password: Option<Value>, fault: bool): (r: Response)
    ensures fault ==> r == Response(ServerError, Message(ServerFault))
    ensures !fault ==> (r.status == NotFound <==> forall e :: e in users ==> !NamedAs(e, name))
    ensures r.status == NotFound ==> r.body == Message(UserNotFound)
    ensures r.status == Unauthorized ==>
              r.body == Message(WrongPassword)
              && exists e :: e in users && NamedAs(e, name) && !StrictlyEqual(Field(e.doc, "password"), password)
    ensures r.status == Ok ==>
              exists e :: e in users && NamedAs(e, name) && StrictlyEqual(Field(e.doc, "password"), password)
                          && r.body == Fields(Profile(e))
    ensures r.status in {Ok, Unauthorized, NotFound, ServerError}
    // the first user so named, and no other, decides between 200 and 401
    ensures !fault && (exists e :: e in users && NamedAs(e, name)) ==>
              exists i :: 0 <= i < |users| && NamedAs(users[i], name)
                          && (forall j :: 0 <= j < i ==> !NamedAs(users[j], name))
                          && r == if StrictlyEqual(Field(users[i].doc, "password"), password)
                                  then Response(Ok, Fields(Profile(users[i])))
                                  else Response(Unauthorized, Message(WrongPassword))
  {
    if fault then Response(ServerError, Message(ServerFault))
    else match FindFirst(users, ByField("name", name))
      case None => Response(NotFound, Message(UserNotFound))
      case Some(i) =>
        assert users[i] in users;
        if !StrictlyEqual(Field(users[i].doc, "password"), password) then
          Response(Unauthorized, Message(WrongPassword))
        else
          Response(Ok, Fields(Profile(users[i])))
  }

  /** With one user named `name`, that user's password alone decides:
      200 when it is strictly equal to the one given, 401 (never 404)
      otherwise. */
  lemma LoginDecidedByTheNamedUser(users: Table, user: Entry, name: Value, password: Option<Value>)
    requires user in users && NamedAs(user, name)
    requires forall e :: e in users && NamedAs(e, name) ==> e == user
    ensures StrictlyEqual(Field(user.doc, "password"), password) ==>
              LoginUser(users, name, password, false) == Response(Ok, Fields(Profile(user)))
    ensures !StrictlyEqual(Field(user.doc, "password"), password) ==>
              LoginUser(users, name, password, false) == Response(Unauthorized, Message(WrongPassword))
  {
  }

  /** A user created with a name no one else has and a string password
      can log in with that name and password, and gets its own profile. */
  lemma LoginAfterCreate(users: Table, newId: Id, body: Doc)
    requires WellFormed(users) && IsObjectIdString(newId) && newId !in View(users)
    requires "name" in body && "password" in body && body["password"].Str?
    requires forall e :: e in users ==> !NamedAs(e, body["name"])
    ensures var user := Entry(newId, Pick(body, UserFields));
            LoginUser(Insert(users, user), body["name"], Some(body["password"]), false)
              == Response(Ok, Fields(Profile(user)))
  {
  }

  /** After the only user named `name` is deleted, logging in with that
      name answers 404, whatever the password. */
  lemma LoginAfterDelete(users: Table, uid: Id, name: Value, password: Option<Value>)
    requires WellFormed(users)
    requires forall e :: e in users && NamedAs(e, name) ==> e.id == uid
    ensures LoginUser(DeleteById(users, uid), name, password, false) == Response(NotFound, Message(UserNotFound))
  {
  }

  /** `exports.createUser`: the five user fields of the body, and nothing
      else, are saved under the fresh identifier the store picks. */
  method CreateUser(users: Model, body: Doc, newId: Id, fault: Option<string>)
    returns (res: Response)
    requires users.Valid()
    requires IsObjectIdString(newId) && newId !in users.DocsById()
    modifies users
    ensures users.Valid() && users.calls == old(users.calls) + [Create(newId)]
    ensures fault.Some? ==> res == Response(ServerError, Failure(CreateFailed, fault.value))
                            && users.entries == old(users.entries)
    ensures fault.None? ==> res == Response(Created, Stored(newId, Pick(body, UserFields)))
                            && users.entries == old(users.entries) + [Entry(newId, Pick(body, UserFields))]
                            && users.DocsById() == old(users.DocsById())[newId := Pick(body, UserFields)]
  {
    var user := Entry(newId, Pick(body, UserFields));
    var saved := users.Save(user, fault);
    if saved.Raised? {
      return Response(ServerError, Failure(CreateFailed, saved.message));
    }
    res := Response(Created, Stored(newId, user.doc));
  }

  /** `exports.updateUser`: the body is merged into the user filed under
      `id`. */
  method UpdateUser(users: Model, id: Id, body: Doc, fault: Option<string>)
    returns (res: Response)
    requires users.Valid()
    modifies users
    ensures users.Valid() && users.calls == old(users.calls) + [Update(id)]
    ensures fault.Some? ==> res == Response(ServerError, Failure(UpdateFailed, fault.value))
                            && users.entries == old(users.entries)
    ensures fault.None? ==> users.entries == UpdateById(old(users.entries), CastId(id), body)
    ensures fault.None? && CastId(id) !in old(users.DocsById()) ==>
              res == Response(NotFound, Message(UserNotFound)) && users.entries == old(users.entries)
    ensures fault.None? && CastId(id) in old(users.DocsById()) ==>
              var stored := Merge(old(users.DocsById())[CastId(id)], body);
              res == Response(Ok, Stored(CastId(id), stored))
              && users.DocsById() == old(users.DocsById())[CastId(id) := stored]
  {
    var updated := users.FindByIdAndUpdate(id, body, fault);
    if updated.Raised? {
      return Response(ServerError, Failure(UpdateFailed, updated.message));
    }
    if updated.value.None? {
      return Response(NotFound, Message(UserNotFound));
    }
    res := Response(Ok, Stored(CastId(id), updated.value.value));
  }

  /** `exports.deleteUser`: 200 whether or not `id` was there. Only the
      `User` model is touched, so reclamations assigned to the user keep
      their reference. */
  method DeleteUser(users: Model, id: Id, fault: Option<string>)
    returns (res: Response)
    requires users.Valid()
    modifies users
    ensures users.Valid() && users.calls == old(users.calls) + [Delete(id)]
    ensures fault.Some? ==> res == Response(ServerError, Failure(DeleteFailed, fault.value))
                            && users.entries == old(users.entries)
    ensures fault.None? ==> res == Response(Ok, Message(Deleted))
                            && users.entries == DeleteById(old(users.entries), CastId(id))
                            && users.DocsById() == old(users.DocsById()) - {CastId(id)}
  {
    var removed := users.FindByIdAndDelete(id, fault);
    if removed.Raised? {
      return Response(ServerError, Failure(DeleteFailed, removed.message));
    }
    res := Response(Ok, Message(Deleted));
  }
}
