/** The document store as the controllers reach it: one object per
    model (`Reclamation`, `User`), each owning one collection. Every call
    may raise instead of returning; which calls raise (a malformed
    identifier, a document the schema rejects, a lost connection) is
    decided outside the model and passed in as `fault`. */
module Store {
  import opened Documents
  import opened Collection

  /** A call made to a model, as recorded in its call log. */
  datatype Call = Find(filter: Filter) | Update(id: Id) | Delete(id: Id) | Create(id: Id)

  /** How an awaited store call ends. */
  datatype Outcome<T> = Raised(message: string) | Returned(value: T)

  class Model {
    /** The collection, in insertion order. */
    var entries: Table
    /** The calls made so far, oldest first. */
    ghost var calls: seq<Call>

    ghost predicate Valid()
      reads this
    {
      WellFormed(entries)
    }

    /** The documents by identifier. */
    function DocsById(): map<Id, Doc>
      reads this
    {
      View(entries)
    }

    constructor ()
      ensures Valid() && entries == [] && calls == []
    {
      entries := [];
      calls := [];
    }

    /** `Model.findById(id)`; like every query by id, it looks for the id
        cast to an ObjectId, `CastId(id)`. */
    method FindById(id: Id, fault: Option<string>) returns (r: Outcome<Option<Doc>>)
      modifies this`calls
      ensures calls == old(calls) + [Find(ById(id))]
      ensures fault.Some? ==> r == Raised(fault.value)
      ensures fault.None? ==> r == Returned(if CastId(id) in DocsById() then Some(DocsById()[CastId(id)]) else None)
    {
      calls := calls + [Find(ById(id))];
      if fault.Some? {
        return Raised(fault.value);
      }
      r := Returned(Collection.FindById(entries, CastId(id)));
    }

    /** `Model.findOne(filter)`: the first match in insertion order. */
    method FindOne(f: Filter, fault: Option<string>) returns (r: Outcome<Option<Entry>>)
      modifies this`calls
      ensures calls == old(calls) + [Find(f)]
      ensures fault.Some? ==> r == Raised(fault.value)
      ensures fault.None? ==> r.Returned? && r.value == match FindFirst(entries, f)
                                                       case None => None
                                                       case Some(i) => Some(entries[i])
    {
      calls := calls + [Find(f)];
      if fault.Some? {
        return Raised(fault.value);
      }
      match FindFirst(entries, f)
      case None => r := Returned(None);
      case Some(i) => r := Returned(Some(entries[i]));
    }

    /** `Model.findByIdAndUpdate(id, update, { new: true })`: the updated
        document, or nothing when `id` is absent. */
    method FindByIdAndUpdate(id: Id, update: Doc, fault: Option<string>) returns (r: Outcome<Option<Doc>>)
      requires Valid()
      modifies this
      ensures Valid()
      ensures calls == old(calls) + [Update(id)]
      ensures fault.Some? ==> r == Raised(fault.value) && entries == old(entries)
      ensures fault.None? ==> entries == UpdateById(old(entries), CastId(id), update)
      ensures fault.None? ==> r == Returned(if CastId(id) in DocsById() then Some(DocsById()[CastId(id)]) else None)
    {
      calls := calls + [Update(id)];
      if fault.Some? {
        return Raised(fault.value);
      }
      entries := UpdateById(entries, CastId(id), update);
      r := Returned(Collection.FindById(entries, CastId(id)));
    }

    /** `Model.findByIdAndDelete(id)`: the removed document, or nothing
        when `id` is absent. */
    method FindByIdAndDelete(id: Id, fault: Option<string>) returns (r: Outcome<Option<Doc>>)
      requires Valid()
      modifies this
      ensures Valid()
      ensures calls == old(calls) + [Delete(id)]
      ensures fault.Some? ==> r == Raised(fault.value) && entries == old(entries)
      ensures fault.None? ==> entries == DeleteById(old(entries), CastId(id))
      ensures fault.None? ==> r == Returned(if CastId(id) in old(DocsById()) then Some(old(DocsById())[CastId(id)]) else None)
    {
      calls := calls + [Delete(id)];
      if fault.Some? {
        return Raised(fault.value);
      }
      var removed := Collection.FindById(entries, CastId(id));
      entries := DeleteById(entries, CastId(id));
      r := Returned(removed);
    }

    /** `new Model(doc).save()`, the store choosing the fresh identifier
        `e.id`. */
    method Save(e: Entry, fault: Option<string>) returns (r: Outcome<Entry>)
      requires Valid()
      requires IsObjectIdString(e.id) && e.id !in DocsById()
      modifies this
      ensures Valid()
      ensures calls == old(calls) + [Create(e.id)]
      ensures fault.Some? ==> r == Raised(fault.value) && entries == old(entries)
      ensures fault.None? ==> r == Returned(e) && entries == Insert(old(entries), e)
    {
      calls := calls + [Create(e.id)];
      if fault.Some? {
        return Raised(fault.value);
      }
      entries := Insert(entries, e);
      r := Returned(e);
    }
  }
}
