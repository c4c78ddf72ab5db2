/**
 The `Product` record: the `products` table, its mass-assignment whitelist
 and its presence validation.
 */
module Product {
  import opened Ruby

  /** The columns of the `products` table, timestamps included. */
  const Columns: set<string> := {"id", "name", "price", "category", "created_at", "updated_at"}

  /** A new row: each string column defaults to the empty string; the id and
      the timestamps stay nil until the row is saved. */
  const ColumnDefaults: Attributes :=
    map["id" := Nil, "name" := Str(""), "price" := Str(""), "category" := Str(""),
        "created_at" := Nil, "updated_at" := Nil]

  /** The attributes of a record object: one entry per column, always. */
  type Record = a: Attributes | a.Keys == Columns witness ColumnDefaults

  /** The `attr_accessible` whitelist. */
  const Accessible: set<string> := {"category", "name", "price"}

  /** The attributes of `validates_presence_of`, in declaration order. */
  const PresenceFields: seq<string> := ["category", "name", "price"]

  const BlankMessage: string := "can't be blank"

  /** `errors.messages`: attribute name to its messages. */
  type Errors = map<string, seq<string>>

  /** `record.attributes = h`: whitelisted keys of `h` overwrite the record's
      values; other keys are dropped; a nil hash changes nothing. */
  function AssignAttributes(r: Record, h: Option<Attributes>): (r': Record)
    ensures forall k :: k in Accessible && h.Some? && k in h.value ==> r'[k] == h.value[k]
    ensures forall k :: k in Columns && !(k in Accessible && h.Some? && k in h.value) ==> r'[k] == r[k]
  {
    match h
    case None => r
    case Some(m) => r + map k | k in m && k in Accessible :: m[k]
  }

  /** `Product.new(h)`: the column defaults, then mass assignment of `h`. */
  function New(h: Option<Attributes>): (r: Record)
    ensures forall k :: k in Accessible ==> r[k] == (if h.Some? && k in h.value then h.value[k] else ColumnDefaults[k])
    ensures forall k :: k in Columns - Accessible ==> r[k] == Nil
  {
    AssignAttributes(ColumnDefaults, h)
  }

  /** How many times `x` occurs in `s`. */
  function Occurrences(s: seq<string>, x: string): (n: nat)
    ensures n <= |s|
    ensures n == 0 <==> x !in s
  {
    if |s| == 0 then 0 else (if s[0] == x then 1 else 0) + Occurrences(s[1..], x)
  }

  /** `n` copies of the blank message. */
  function BlankMessages(n: nat): (ms: seq<string>)
    ensures |ms| == n && forall i :: 0 <= i < n ==> ms[i] == BlankMessage
  {
    seq(n, _ => BlankMessage)
  }

  /** Runs one presence validator per listed attribute; each blank attribute
      gets one "can't be blank" message per listing. */
  function ValidatePresence(a: Attributes, fields: seq<string>): (e: Errors)
    ensures forall k :: k in e <==> k in fields && Blank(Lookup(a, k))
    ensures forall k :: k in e ==> e[k] == BlankMessages(Occurrences(fields, k))
  {
    if |fields| == 0 then map[]
    else
      var rest := ValidatePresence(a, fields[1..]);
      var f := fields[0];
      if Blank(Lookup(a, f)) then
        rest[f := [BlankMessage] + (if f in rest then rest[f] else [])]
      else rest
  }

  /** `valid?`'s errors for a product. */
  function Validate(r: Record): (e: Errors)
  {
    ValidatePresence(r, PresenceFields)
  }

  /** The errors are exactly the blank whitelisted fields, one message each. */
  lemma ValidateErrors(r: Record)
    ensures forall k :: k in Validate(r) <==> k in Accessible && Blank(r[k])
    ensures forall k :: k in Validate(r) ==> Validate(r)[k] == [BlankMessage]
    ensures Validate(r).Keys <= Accessible
  {
    var e := Validate(r);
    forall k | k in e
      ensures e[k] == [BlankMessage]
    {
      assert Occurrences(PresenceFields, k) == 1;
    }
  }

  predicate Valid(r: Record)
  {
    Validate(r) == map[]
  }

  /** A product is valid exactly when name, price and category are all non-blank. */
  lemma ValidIff(r: Record)
    ensures Valid(r) <==> !Blank(r["name"]) && !Blank(r["price"]) && !Blank(r["category"])
  {
    ValidateErrors(r);
    if !Valid(r) {
      var k :| k in Validate(r);
    }
  }

  /** `record.save`: runs validation first; `dbSaveOk` is the database's answer
      to the insert, consulted only for a valid record. */
  function Persist(r: Record, dbSaveOk: bool): (saved: bool)
    ensures saved <==> dbSaveOk && !Blank(r["name"]) && !Blank(r["price"]) && !Blank(r["category"])
  {
    ValidIff(r);
    Valid(r) && dbSaveOk
  }
}
