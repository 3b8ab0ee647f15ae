/** A client of the handlers: the request sequence a front end issues to
    file a complaint and hand it to a colleague by name. */
module Walkthrough {
  import opened Documents
  import opened Collection
  import opened Store
  import opened Http
  import ReclamationController
  import UserController

  const AliceId: Id := "65a1f0c2b3d4e5f60718293a"
  const ComplaintId: Id := "65a1f0c2b3d4e5f60718293b"

  /** `ComplaintId` as a client may type it, in capitals. */
  const ComplaintIdInCapitals: string := "65A1F0C2B3D4E5F60718293B"

  lemma IdentifiersAreObjectIds()
    ensures IsObjectIdString(AliceId) && IsObjectIdString(ComplaintId)
  {
  }

  lemma CapitalsCastToComplaintId()
    ensures CastId(ComplaintIdInCapitals) == ComplaintId
  {
    var cast := CastId(ComplaintIdInCapitals);
    forall i | 0 <= i < 24
      ensures cast[i] == ComplaintId[i]
    {
      assert cast[i] == LowerChar(ComplaintIdInCapitals[i]);
    }
  }

  /** What Alice signs up with. */
  const AliceSignUp: Doc := map["name" := Str("Alice"), "password" := Str("p1")]

  /** Create user Alice and file a reclamation about noise. */
  method SignUpAndFile() returns (users: Model, reclamations: Model)
    ensures fresh(users) && fresh(reclamations) && users != reclamations
    ensures users.Valid() && reclamations.Valid()
    ensures users.entries == [Entry(AliceId, AliceSignUp)]
    ensures reclamations.entries == [Entry(ComplaintId, map["subject" := Str("noise")])]
    ensures reclamations.DocsById() == map[ComplaintId := map["subject" := Str("noise")]]
  {
    users := new Model();
    reclamations := new Model();
    IdentifiersAreObjectIds();
    var created := UserController.CreateUser(users, AliceSignUp, AliceId, None);
    var filed := ReclamationController.CreateReclamation(reclamations, map["subject" := Str("noise")], ComplaintId, None);
    assert Pick(AliceSignUp, UserController.UserFields) == AliceSignUp;
  }

  /** Create user Alice, file a reclamation, then move it to
      `in_progress` assigned to "Alice", naming the reclamation by its
      identifier in capitals: the stored reclamation refers to Alice by
      her identifier and keeps its other fields. */
  method AssignByName() returns (users: Model, alice: Id, res: Response)
    ensures fresh(users) && users.entries == [Entry(alice, AliceSignUp)]
    ensures res.status == Ok && res.body.Stored?
    ensures Field(res.body.doc, "assignedTo") == Some(ObjectId(alice))
    ensures Field(res.body.doc, "status") == Some(Str("in_progress"))
    ensures Field(res.body.doc, "subject") == Some(Str("noise"))
  {
    var reclamations;
    users, reclamations := SignUpAndFile();
    alice := AliceId;
    IdentifiersAreObjectIds();
    CapitalsCastToComplaintId();
    assert FindFirst(users.entries, ByField("name", Str("Alice"))) == Some(0);
    assert ReclamationController.Resolve(users.entries, Some(Str("Alice"))) == ReclamationController.Resolved(Some(ObjectId(alice)));
    assert reclamations.DocsById() == map[ComplaintId := map["subject" := Str("noise")]];
    ghost var before := reclamations.DocsById()[ComplaintId];

    res := ReclamationController.UpdateStatus(reclamations, users, ComplaintIdInCapitals,
                                              Some(Str("in_progress")), Some(Str("Alice")), 1700000000,
                                              None, None, None);
    ghost var update := ReclamationController.StatusFields(Some(Str("in_progress")), Some(ObjectId(alice)), 1700000000);
    assert res == Response(Ok, Stored(ComplaintId, Merge(before, update)));
  }

  /** Delete the only user called `name`: the handler answers 200, after
      which logging in as `name` answers 404 and a status update can no
      longer assign a reclamation to `name`. */
  method RemoveColleague(users: Model, uid: Id, name: string, password: Option<Value>)
    returns (res: Response, login: Response)
    requires users.Valid() && ReclamationController.IsName(Some(Str(name)))
    requires forall e :: e in users.entries && NamedAs(e, Str(name)) ==> e.id == CastId(uid)
    modifies users
    ensures res == Response(Ok, Message(UserController.Deleted))
    ensures login == UserController.LoginUser(users.entries, Str(name), password, false)
    ensures UserController.LoginUser(users.entries, Str(name), password, false)
              == Response(NotFound, Message(UserController.UserNotFound))
    ensures ReclamationController.Resolve(users.entries, Some(Str(name))) == ReclamationController.UnknownUser
  {
    UserController.LoginAfterDelete(users.entries, CastId(uid), Str(name), password);
    ReclamationController.DeletedUserNameNoLongerResolves(users.entries, CastId(uid), name);
    res := UserController.DeleteUser(users, uid, None);
    login := UserController.LoginUser(users.entries, Str(name), password, false);
  }
}
