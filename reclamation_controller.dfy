/** The handlers of `controllers/reclamationController.js`. Each takes the
    model objects it touches (`Reclamation`, and `User` for the assignee
    lookup) and the request's parameters and body fields, and gives back
    the response. `updateStatus` is reached through `PUT /:id/status`. */
module ReclamationController {
  import opened Documents
  import opened Collection
  import opened Store
  import opened Http

  const ReclamationNotFound := "Réclamation non trouvée"
  const AssigneeNotFound := "Utilisateur assigné non trouvé"
  const Deleted := "Réclamation supprimée"
  const UpdateFailed := "Erreur lors de la mise à jour"
  const DeleteFailed := "Erreur lors de la suppression"
  /** The message of the TypeError thrown by `assignedTo.match(...)` when
      `assignedTo` is not a string. */
  const MatchIsNotAFunction := "assignedTo.match is not a function"

  /** The body of a 400 from `updateStatus`'s catch block. */
  function Prefixed(message: string): string {
    "Erreur: " + message
  }

  /** The only fields `updateStatus` writes. */
  const StatusFieldKeys: set<string> := {"status", "assignedTo", "updatedAt"}

  /** `{ status, assignedTo, updatedAt: now }`, undefined fields dropped. */
  function StatusFields(status: Option<Value>, assignee: Option<Value>, now: int): (r: Doc)
    ensures r.Keys <= StatusFieldKeys
    ensures Field(r, "status") == status && Field(r, "assignedTo") == assignee
    ensures Field(r, "updatedAt") == Some(Date(now))
  {
    With(With(map["updatedAt" := Date(now)], "status", status), "assignedTo", assignee)
  }

  /** `assignedTo` is taken for a user name: a non-empty string that is
      not ObjectId-shaped. */
  predicate IsName(assignedTo: Option<Value>) {
    Truthy(assignedTo) && assignedTo.value.Str? && !IsObjectIdShape(assignedTo.value.s)
  }

  /** What may be stored as a truthy `assignedTo` after a status update:
      an ObjectId-shaped string, or the `_id` of one of `users`. */
  predicate IsUserReference(users: Table, v: Value) {
    (v.Str? && IsObjectIdShape(v.s)) || (v.ObjectId? && exists e :: e in users && e.id == v.id)
  }

  datatype Resolution = Resolved(assignee: Option<Value>) | NotAString | UnknownUser

  /** The assignee `updateStatus` writes, given the users at the time of
      the lookup: a falsy value and an ObjectId-shaped string are kept, a
      name is replaced by the `_id` of the first user so named, and a
      truthy non-string makes `.match` throw. */
  function Resolve(users: Table, assignedTo: Option<Value>): (r: Resolution)
    ensures !Truthy(assignedTo) ==> r == Resolved(assignedTo)
    ensures assignedTo.Some? && assignedTo.value.Str? && IsObjectIdShape(assignedTo.value.s) ==>
              r == Resolved(assignedTo)
    ensures r.NotAString? <==> Truthy(assignedTo) && !assignedTo.value.Str?
    ensures r.UnknownUser? <==> IsName(assignedTo) && forall e :: e in users ==> !NamedAs(e, assignedTo.value)
    ensures r.Resolved? && Truthy(r.assignee) ==> IsUserReference(users, r.assignee.value)
    ensures r.Resolved? && r.assignee != assignedTo ==>
              exists i :: 0 <= i < |users| && NamedAs(users[i], assignedTo.value)
                          && (forall j :: 0 <= j < i ==> !NamedAs(users[j], assignedTo.value))
                          && r.assignee == Some(ObjectId(users[i].id))
  {
    if !Truthy(assignedTo) then Resolved(assignedTo)
    else if !assignedTo.value.Str? then NotAString
    else if IsObjectIdShape(assignedTo.value.s) then Resolved(assignedTo)
    else match FindFirst(users, ByField("name", assignedTo.value))
      case None => UnknownUser
      case Some(i) =>
        assert users[i] in users;
        Resolved(Some(ObjectId(users[i].id)))
  }

  /** A value as a client reads it back from a JSON response: an ObjectId
      is rendered as its hexadecimal string, which the shape test then
      takes for an identifier. */
  function AsSent(v: Value): (r: Value)
    ensures v.ObjectId? && IsObjectIdString(v.id) ==> r.Str? && IsObjectIdShape(r.s)
  {
    if v.ObjectId? then Str(v.id) else v
  }

  /** Sending back the assignee a status update stored, as the response
      rendered it, keeps it as it is: a resolved assignee is never taken
      for a name again. */
  lemma ResolvedAssigneeIsStable(users: Table, assignedTo: Option<Value>)
    requires WellFormed(users)
    requires Resolve(users, assignedTo).Resolved? && Truthy(Resolve(users, assignedTo).assignee)
    ensures var sent := Some(AsSent(Resolve(users, assignedTo).assignee.value));
            Resolve(users, sent) == Resolved(sent)
  {
  }

  /** Deleting a user does not touch reclamations; afterwards the user's
      name, if no one else bears it, no longer resolves. */
  lemma DeletedUserNameNoLongerResolves(users: Table, uid: Id, name: string)
    requires WellFormed(users)
    requires IsName(Some(Str(name)))
    requires forall e :: e in users && NamedAs(e, Str(name)) ==> e.id == uid
    ensures Resolve(DeleteById(users, uid), Some(Str(name))) == UnknownUser
  {
  }

  /** `exports.createReclamation`: the body is saved as a new document
      under the fresh identifier the store picks. */
  method CreateReclamation(reclamations: Model, body: Doc, newId: Id, fault: Option<string>)
    returns (res: Response)
    requires reclamations.Valid()
    requires IsObjectIdString(newId) && newId !in reclamations.DocsById()
    modifies reclamations
    ensures reclamations.Valid() && reclamations.calls == old(reclamations.calls) + [Create(newId)]
    ensures fault.Some? ==> res == Response(BadRequest, Error(fault.value))
                            && reclamations.entries == old(reclamations.entries)
    ensures fault.None? ==> res == Response(Created, Stored(newId, body))
                            && reclamations.entries == old(reclamations.entries) + [Entry(newId, body)]
                            && reclamations.DocsById() == old(reclamations.DocsById())[newId := body]
  {
    var saved := reclamations.Save(Entry(newId, body), fault);
    if saved.Raised? {
      return Response(BadRequest, Error(saved.message));
    }
    res := Response(Created, Stored(newId, body));
  }

  /** `exports.updateStatus`: find the reclamation, resolve the assignee,
      write `status`, `assignedTo` and `updatedAt`. `findFault`,
      `lookupFault` and `writeFault` say whether the `findById`, the
      `findOne` by name and the `findByIdAndUpdate` call raise. */
  method UpdateStatus(reclamations: Model, users: Model, id: Id,
                      status: Option<Value>, assignedTo: Option<Value>, now: int,
                      findFault: Option<string>, lookupFault: Option<string>, writeFault: Option<string>)
    returns (res: Response)
    requires reclamations.Valid() && users.Valid() && reclamations != users
    modifies reclamations, users`calls
    ensures reclamations.Valid() && users.entries == old(users.entries)
    // the reclamation is read first; a failing read writes nothing and looks up no user
    ensures findFault.Some? ==>
              res == Response(BadRequest, Error(Prefixed(findFault.value)))
              && reclamations.entries == old(reclamations.entries) && users.calls == old(users.calls)
              && reclamations.calls == old(reclamations.calls) + [Find(ById(id))]
    // no such reclamation: 404, no user lookup, nothing written
    ensures findFault.None? && CastId(id) !in old(reclamations.DocsById()) ==>
              res == Response(NotFound, Error(ReclamationNotFound))
              && reclamations.entries == old(reclamations.entries) && users.calls == old(users.calls)
    // a truthy non-string assignee: `.match` throws before any lookup
    ensures findFault.None? && CastId(id) in old(reclamations.DocsById()) && Resolve(users.entries, assignedTo).NotAString? ==>
              res == Response(BadRequest, Error(Prefixed(MatchIsNotAFunction)))
              && reclamations.entries == old(reclamations.entries) && users.calls == old(users.calls)
              && reclamations.calls == old(reclamations.calls) + [Find(ById(id))]
    // a name is looked up exactly once; anything else is never looked up
    ensures findFault.None? && CastId(id) in old(reclamations.DocsById()) && IsName(assignedTo) ==>
              users.calls == old(users.calls) + [Find(ByField("name", assignedTo.value))]
    ensures !IsName(assignedTo) ==> users.calls == old(users.calls)
    ensures findFault.None? && CastId(id) in old(reclamations.DocsById()) && IsName(assignedTo) && lookupFault.Some? ==>
              res == Response(BadRequest, Error(Prefixed(lookupFault.value)))
              && reclamations.entries == old(reclamations.entries)
              && reclamations.calls == old(reclamations.calls) + [Find(ById(id))]
    // a name no user has: 404, nothing written
    ensures findFault.None? && CastId(id) in old(reclamations.DocsById()) && lookupFault.None?
            && Resolve(users.entries, assignedTo).UnknownUser? ==>
              res == Response(NotFound, Error(AssigneeNotFound))
              && reclamations.entries == old(reclamations.entries)
    // the write is reached with the resolved assignee
    ensures findFault.None? && CastId(id) in old(reclamations.DocsById())
            && (IsName(assignedTo) ==> lookupFault.None?)
            && Resolve(users.entries, assignedTo).Resolved? ==>
              var stored := Merge(old(reclamations.DocsById())[CastId(id)],
                                  StatusFields(status, Resolve(users.entries, assignedTo).assignee, now));
              (writeFault.Some? ==> res == Response(BadRequest, Error(Prefixed(writeFault.value)))
                                    && reclamations.entries == old(reclamations.entries)
                                    && reclamations.calls == old(reclamations.calls) + [Find(ById(id)), Update(id)])
              && (writeFault.None? ==> res == Response(Ok, Stored(CastId(id), stored))
                                       && reclamations.entries == UpdateById(old(reclamations.entries), CastId(id),
                                                                             StatusFields(status, Resolve(users.entries, assignedTo).assignee, now))
                                       && reclamations.DocsById() == old(reclamations.DocsById())[CastId(id) := stored])
    // one read of the reclamation, then one write only when the handler answers 200
    ensures res.status == Ok ==> reclamations.calls == old(reclamations.calls) + [Find(ById(id)), Update(id)]
    ensures res.status == NotFound ==> reclamations.calls == old(reclamations.calls) + [Find(ById(id))]
  {
    var found := reclamations.FindById(id, findFault);
    if found.Raised? {
      return Response(BadRequest, Error(Prefixed(found.message)));
    }
    if found.value.None? {
      return Response(NotFound, Error(ReclamationNotFound));
    }

    var assignee := assignedTo;
    if Truthy(assignee) {
      if !assignee.value.Str? {
        return Response(BadRequest, Error(Prefixed(MatchIsNotAFunction)));
      }
      if !IsObjectIdShape(assignee.value.s) {
        var user := users.FindOne(ByField("name", assignee.value), lookupFault);
        if user.Raised? {
          return Response(BadRequest, Error(Prefixed(user.message)));
        }
        if user.value.None? {
          return Response(NotFound, Error(AssigneeNotFound));
        }
        assignee := Some(ObjectId(user.value.value.id));
      }
    }
    assert Resolve(users.entries, assignedTo) == Resolved(assignee);

    var updated := reclamations.FindByIdAndUpdate(id, StatusFields(status, assignee, now), writeFault);
    if updated.Raised? {
      return Response(BadRequest, Error(Prefixed(updated.message)));
    }
    res := Response(Ok, Stored(CastId(id), updated.value.value));
  }

  /** The document a successful status update stores differs from the one
      it replaces in `status`, `assignedTo` and `updatedAt` only; an
      undefined `status` or `assignedTo` leaves the stored value. */
  lemma StatusUpdateTouchesOnlyItsFields(doc: Doc, status: Option<Value>, assignee: Option<Value>, now: int)
    ensures var stored := Merge(doc, StatusFields(status, assignee, now));
            && (forall k :: k !in StatusFieldKeys ==> Field(stored, k) == Field(doc, k))
            && Field(stored, "status") == (if status.Some? then status else Field(doc, "status"))
            && Field(stored, "assignedTo") == (if assignee.Some? then assignee else Field(doc, "assignedTo"))
            && Field(stored, "updatedAt") == Some(Date(now))
  {
  }

  /** `exports.updateReclamation`: the body's fields and a fresh
      `updatedAt` are merged into the document filed under `id`. */
  method UpdateReclamation(reclamations: Model, id: Id, body: Doc, now: int, fault: Option<string>)
    returns (res: Response)
    requires reclamations.Valid()
    modifies reclamations
    ensures reclamations.Valid() && reclamations.calls == old(reclamations.calls) + [Update(id)]
    ensures fault.Some? ==> res == Response(ServerError, Failure(UpdateFailed, fault.value))
                            && reclamations.entries == old(reclamations.entries)
    ensures fault.None? ==>
              reclamations.entries == UpdateById(old(reclamations.entries), CastId(id), body["updatedAt" := Date(now)])
    ensures fault.None? && CastId(id) !in old(reclamations.DocsById()) ==>
              res == Response(NotFound, Message(ReclamationNotFound))
              && reclamations.entries == old(reclamations.entries)
    ensures fault.None? && CastId(id) in old(reclamations.DocsById()) ==>
              var stored := Merge(old(reclamations.DocsById())[CastId(id)], body["updatedAt" := Date(now)]);
              res == Response(Ok, Stored(CastId(id), stored))
              && reclamations.DocsById() == old(reclamations.DocsById())[CastId(id) := stored]
  {
    var updated := reclamations.FindByIdAndUpdate(id, body["updatedAt" := Date(now)], fault);
    if updated.Raised? {
      return Response(ServerError, Failure(UpdateFailed, updated.message));
    }
    if updated.value.None? {
      return Response(NotFound, Message(ReclamationNotFound));
    }
    res := Response(Ok, Stored(CastId(id), updated.value.value));
  }

  /** `exports.deleteReclamation`: 200 whether or not `id` was there. */
  method DeleteReclamation(reclamations: Model, id: Id, fault: Option<string>)
    returns (res: Response)
    requires reclamations.Valid()
    modifies reclamations
    ensures reclamations.Valid() && reclamations.calls == old(reclamations.calls) + [Delete(id)]
    ensures fault.Some? ==> res == Response(ServerError, Failure(DeleteFailed, fault.value))
                            && reclamations.entries == old(reclamations.entries)
    ensures fault.None? ==> res == Response(Ok, Message(Deleted))
                            && reclamations.entries == DeleteById(old(reclamations.entries), CastId(id))
                            && reclamations.DocsById() == old(reclamations.DocsById()) - {CastId(id)}
  {
    var removed := reclamations.FindByIdAndDelete(id, fault);
    if removed.Raised? {
      return Response(ServerError, Failure(DeleteFailed, removed.message));
    }
    res := Response(Ok, Message(Deleted));
  }
}
