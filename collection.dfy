/** A document collection of the store, kept in insertion order, and the
    queries and writes the controllers issue
    against it: `findOne`, `findById`, `findByIdAndUpdate`,
    `findByIdAndDelete` and `save`. `View` is the collection seen as a
    map from identifier to document. */
module Collection {
  import opened Documents

  datatype Entry = Entry(id: Id, doc: Doc)

  type Table = seq<Entry>

  /** A query filter: `{ _id: id }` or `{ key: value }`. */
  datatype Filter = ById(id: Id) | ByField(key: string, value: Value)

  /** Equality matching as the store does it; a `null` in the filter also
      matches a document that lacks the field. */
  predicate Matches(e: Entry, f: Filter) {
    match f
    case ById(id) => e.id == id
    case ByField(k, Null) => k !in e.doc || e.doc[k] == Null
    case ByField(k, v) => k in e.doc && e.doc[k] == v
  }

  /** The user whose `name` is `v`, as `findOne({ name })` matches it. */
  predicate NamedAs(e: Entry, v: Value) {
    Matches(e, ByField("name", v))
  }

  /** `findOne(filter)`: the position of the first document in insertion
      order that matches. */
  function FindFirst(t: Table, f: Filter): (r: Option<nat>)
    ensures r.Some? ==> r.value < |t| && Matches(t[r.value], f)
    ensures r.Some? ==> forall j :: 0 <= j < r.value ==> !Matches(t[j], f)
    ensures r.None? ==> forall j :: 0 <= j < |t| ==> !Matches(t[j], f)
  {
    if t == [] then None
    else if Matches(t[0], f) then Some(0)
    else match FindFirst(t[1..], f)
      case None => None
      case Some(i) => Some(i + 1)
  }

  /** The collection as a map; where an identifier occurs twice, the
      first occurrence is the one a lookup by identifier finds. */
  function View(t: Table): map<Id, Doc> {
    if t == [] then map[] else View(t[1..])[t[0].id := t[0].doc]
  }

  predicate DistinctIds(t: Table) {
    forall i, j :: 0 <= i < j < |t| ==> t[i].id != t[j].id
  }

  /** The store's invariant on a collection: identifiers are unique and
      all of them are ObjectId strings, since the store generated them. */
  predicate WellFormed(t: Table) {
    DistinctIds(t) && forall i :: 0 <= i < |t| ==> IsObjectIdString(t[i].id)
  }

  /** The identifiers in `View(t)` are exactly those occurring in `t`. */
  lemma {:induction false} ViewKeys(t: Table, k: Id)
    ensures k in View(t) <==> exists i :: 0 <= i < |t| && t[i].id == k
  {
    if t != [] {
      ViewKeys(t[1..], k);
      if k in View(t[1..]) {
        var i :| 0 <= i < |t[1..]| && t[1..][i].id == k;
        assert t[i + 1].id == k;
      }
      if exists i :: 0 <= i < |t| && t[i].id == k {
        var i :| 0 <= i < |t| && t[i].id == k;
        if i > 0 { assert t[1..][i - 1].id == k; }
      }
    }
  }

  /** A lookup through `FindFirst` by identifier agrees with `View`. */
  lemma {:induction false} ViewFind(t: Table, k: Id)
    ensures FindFirst(t, ById(k)).None? <==> k !in View(t)
    ensures FindFirst(t, ById(k)).Some? ==> View(t)[k] == t[FindFirst(t, ById(k)).value].doc
  {
    if t != [] && t[0].id != k {
      ViewFind(t[1..], k);
    }
  }

  /** In a well-formed collection each entry is what `View` gives for its
      identifier. */
  lemma {:induction false} ViewAt(t: Table, i: nat)
    requires DistinctIds(t) && i < |t|
    ensures t[i].id in View(t) && View(t)[t[i].id] == t[i].doc
  {
    var r := FindFirst(t, ById(t[i].id));
    ViewFind(t, t[i].id);
    assert r.Some? && r.value == i;
  }

  /** `findById(id)`: the document filed under `id`, if any. */
  function FindById(t: Table, id: Id): (r: Option<Doc>)
    ensures r.None? <==> id !in View(t)
    ensures r.Some? ==> r.value == View(t)[id]
  {
    ViewFind(t, id);
    match FindFirst(t, ById(id))
    case None => None
    case Some(i) => Some(t[i].doc)
  }

  lemma {:induction false} ViewAppend(t: Table, e: Entry)
    requires e.id !in View(t)
    ensures View(t + [e]) == View(t)[e.id := e.doc]
  {
    if t == [] {
      assert [e][1..] == [];
    } else {
      assert (t + [e])[1..] == t[1..] + [e];
      ViewAppend(t[1..], e);
    }
  }

  /** `new Model(doc).save()` under a fresh identifier: the document is
      appended, so it comes last in insertion order. */
  function Insert(t: Table, e: Entry): (r: Table)
    requires e.id !in View(t)
    ensures View(r) == View(t)[e.id := e.doc]
    ensures WellFormed(t) && IsObjectIdString(e.id) ==> WellFormed(r)
  {
    ViewAppend(t, e);
    AppendWellFormed(t, e);
    t + [e]
  }

  lemma AppendWellFormed(t: Table, e: Entry)
    requires e.id !in View(t)
    ensures WellFormed(t) && IsObjectIdString(e.id) ==> WellFormed(t + [e])
  {
    if WellFormed(t) {
      forall i | 0 <= i < |t| ensures t[i].id != e.id {
        ViewAt(t, i);
      }
    }
  }

  lemma {:induction false} ViewReplace(t: Table, i: nat, d: Doc)
    requires i < |t|
    requires forall j :: 0 <= j < i ==> t[j].id != t[i].id
    ensures View(t[i := Entry(t[i].id, d)]) == View(t)[t[i].id := d]
  {
    var u := t[i := Entry(t[i].id, d)];
    if i == 0 {
      assert u[1..] == t[1..];
    } else {
      assert u[1..] == t[1..][i - 1 := Entry(t[i].id, d)];
      ViewReplace(t[1..], i - 1, d);
      assert t[0].id != t[i].id;
    }
  }

  /** `findByIdAndUpdate(id, update)`: the first document filed under
      `id` gets `update` merged in; it keeps its identifier and its place
      in insertion order. Absent `id`: nothing changes. */
  function UpdateById(t: Table, id: Id, update: Doc): (r: Table)
    ensures View(r) == if id in View(t) then View(t)[id := Merge(View(t)[id], update)] else View(t)
    ensures id !in View(t) ==> r == t
    ensures |r| == |t| && forall i :: 0 <= i < |t| ==> r[i].id == t[i].id
    ensures WellFormed(t) ==> WellFormed(r)
  {
    ViewFind(t, id);
    match FindFirst(t, ById(id))
    case None => t
    case Some(i) =>
      ViewReplace(t, i, Merge(t[i].doc, update));
      t[i := Entry(id, Merge(t[i].doc, update))]
  }

  /** Removing a key and updating another commute. */
  lemma UpdateRemoveCommute(m: map<Id, Doc>, a: Id, d: Doc, b: Id)
    requires a != b
    ensures (m - {b})[a := d] == m[a := d] - {b}
  {
  }

  lemma {:induction false} ViewRemove(t: Table, i: nat)
    requires DistinctIds(t) && i < |t|
    ensures View(t[..i] + t[i + 1..]) == View(t) - {t[i].id}
  {
    var id := t[i].id;
    var s := t[1..];
    if i == 0 {
      assert t[..0] + t[1..] == s;
      forall j | 0 <= j < |s| ensures s[j].id != id {
        assert s[j] == t[j + 1];
      }
      ViewKeys(s, id);
    } else {
      assert DistinctIds(s) by {
        forall j, k | 0 <= j < k < |s| ensures s[j].id != s[k].id {
          assert s[j] == t[j + 1] && s[k] == t[k + 1];
        }
      }
      ViewRemove(s, i - 1);
      var u := t[..i] + t[i + 1..];
      assert u[0] == t[0];
      assert u[1..] == s[..i - 1] + s[i..];
      assert t[0].id != id;
      UpdateRemoveCommute(View(s), t[0].id, t[0].doc, id);
    }
  }

  /** Position `j` of the collection without entry `i`. */
  lemma RemovedAt(t: Table, i: nat, j: nat)
    requires i < |t| && j < |t| - 1
    ensures (t[..i] + t[i + 1..])[j] == t[if j < i then j else j + 1]
  {
  }

  /** What removing the entry at `i` keeps: the other entries, the
      collection's invariant, and the absence of the removed identifier. */
  lemma RemoveAt(t: Table, i: nat)
    requires i < |t|
    ensures DistinctIds(t) ==> View(t[..i] + t[i + 1..]) == View(t) - {t[i].id}
    ensures forall e :: e in t[..i] + t[i + 1..] ==> e in t
    ensures WellFormed(t) ==> WellFormed(t[..i] + t[i + 1..])
    ensures DistinctIds(t) ==> forall e :: e in t[..i] + t[i + 1..] ==> e.id != t[i].id
  {
    var r := t[..i] + t[i + 1..];
    if DistinctIds(t) {
      ViewRemove(t, i);
    }
    forall e | e in r ensures e in t {
      var j :| 0 <= j < |r| && r[j] == e;
      RemovedAt(t, i, j);
    }
    forall j | 0 <= j < |r| ensures r[j] in t {
      RemovedAt(t, i, j);
    }
  }

  /** `findByIdAndDelete(id)`: the document filed under `id` is removed;
      the others keep their contents and their relative order. Absent
      `id`: nothing changes. */
  function DeleteById(t: Table, id: Id): (r: Table)
    ensures DistinctIds(t) ==> View(r) == View(t) - {id}
    ensures id !in View(t) ==> r == t
    ensures WellFormed(t) ==> WellFormed(r)
    ensures forall e :: e in r ==> e in t
    ensures DistinctIds(t) ==> forall e :: e in r ==> e.id != id
    ensures id in View(t) ==>
              exists i :: 0 <= i < |t| && t[i].id == id && r == t[..i] + t[i + 1..]
  {
    ViewFind(t, id);
    match FindFirst(t, ById(id))
    case None => t
    case Some(i) =>
      RemoveAt(t, i);
      t[..i] + t[i + 1..]
  }

  /** Deleting twice is deleting once: the second delete finds nothing
      and changes nothing, and is reported as a success all the same. */
  lemma DeleteIsIdempotent(t: Table, id: Id)
    requires DistinctIds(t)
    ensures DeleteById(DeleteById(t, id), id) == DeleteById(t, id)
  {
  }
}
