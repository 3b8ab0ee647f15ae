/** Field values and documents as the two controllers see them: the JSON
    values a request body can carry, the references and timestamps the
    server adds, and the few JavaScript operations the controllers apply
    to them (truthiness, strict equality, the ObjectId shape test). */
module Documents {

  /** The string form of a document identifier. The store generates
      these; a request may carry any string in their place. */
  type Id = string

  /** `undefined` is `None`; everything a JSON body or the server can
      put in a field is `Some`. */
  datatype Option<T> = None | Some(value: T)

  /** A field value. JSON numbers are modelled as integers. */
  datatype Value =
    | Str(s: string)
    | Num(n: int)
    | Bool(b: bool)
    | Null
    | Composite          // a JSON object or array from a request body
    | ObjectId(id: Id)   // a reference taken from a stored document's `_id`
    | Date(time: int)    // a timestamp the server creates (`new Date()`)

  /** A document's fields, `_id` excepted: the identifier is the key the
      collection files the document under. */
  type Doc = map<string, Value>

  /** Property access: `doc.key`, `undefined` when the field is absent. */
  function Field(doc: Doc, key: string): Option<Value> {
    if key in doc then Some(doc[key]) else None
  }

  /** JavaScript truthiness: `undefined`, `null`, `""`, `0` and `false` are
      falsy; every object (a composite, an ObjectId, a Date) is truthy. */
  predicate Truthy(v: Option<Value>) {
    match v
    case None => false
    case Some(Str(s)) => s != ""
    case Some(Num(n)) => n != 0
    case Some(Bool(b)) => b
    case Some(Null) => false
    case Some(_) => true
  }

  /** Values that `===` compares by content rather than by identity. */
  predicate Primitive(v: Value) {
    v.Str? || v.Num? || v.Bool? || v.Null?
  }

  /** `a === b`. Two `undefined`s are equal; objects are equal only when
      they are the same object, which a freshly parsed request value
      never is to a stored one. */
  predicate StrictlyEqual(a: Option<Value>, b: Option<Value>) {
    match (a, b)
    case (None, None) => true
    case (Some(x), Some(y)) => Primitive(x) && x == y
    case _ => false
  }

  predicate IsHexDigit(c: char) {
    ('0' <= c <= '9') || ('a' <= c <= 'f') || ('A' <= c <= 'F')
  }

  /** The test `s.match(/^[0-9a-fA-F]{24}$/)` succeeds: exactly 24
      hexadecimal digits of either case, nothing before or after. */
  predicate IsObjectIdShape(s: string) {
    |s| == 24 && forall i :: 0 <= i < |s| ==> IsHexDigit(s[i])
  }

  /** The identifier of a stored document as a string: the 24 hexadecimal
      digits of its ObjectId, which the store writes in lower case. */
  predicate IsObjectIdString(s: string) {
    |s| == 24 && forall i :: 0 <= i < |s| ==> ('0' <= s[i] <= '9') || ('a' <= s[i] <= 'f')
  }

  function LowerChar(c: char): char {
    if 'A' <= c <= 'Z' then (c as int + 32) as char else c
  }

  /** The identifier a query by id looks for: the id of the request, cast
      to an ObjectId, which reads hexadecimal digits of either case. */
  function CastId(s: string): (r: Id)
    ensures |r| == |s| && forall i :: 0 <= i < |s| ==> r[i] == LowerChar(s[i])
    ensures IsObjectIdShape(s) ==> IsObjectIdString(r)
    ensures IsObjectIdString(s) ==> r == s
  {
    seq(|s|, i requires 0 <= i < |s| => LowerChar(s[i]))
  }

  /** Two ids that spell the same digits, whatever their case, are cast to
      the same identifier. */
  lemma CastIdIgnoresCase(a: string, b: string)
    requires |a| == |b| && forall i :: 0 <= i < |a| ==> LowerChar(a[i]) == LowerChar(b[i])
    ensures CastId(a) == CastId(b)
  {
  }

  /** A `$set`-style update: each field of `update` replaces or adds that
      field, every other field of `doc` is kept. */
  function Merge(doc: Doc, update: Doc): (r: Doc)
    ensures r.Keys == doc.Keys + update.Keys
    ensures forall k :: k in update ==> r[k] == update[k]
    ensures forall k :: k in doc && k !in update ==> r[k] == doc[k]
  {
    doc + update
  }

  /** `{ ..., key: v }` where a field whose value is `undefined` is
      dropped from the document that is written. */
  function With(doc: Doc, key: string, v: Option<Value>): (r: Doc)
    ensures Field(r, key) == (if v.Some? then v else Field(doc, key))
    ensures forall k :: k != key ==> Field(r, k) == Field(doc, k)
  {
    if v.Some? then doc[key := v.value] else doc
  }

  /** `const { a, b, ... } = body` followed by `{ a, b, ... }`: the fields
      of `body` among `keys`, the undefined ones left out. */
  function Pick(body: Doc, keys: set<string>): (r: Doc)
    ensures r.Keys == body.Keys * keys
    ensures forall k :: k in r ==> r[k] == body[k]
  {
    map k | k in body.Keys * keys :: body[k]
  }
}
