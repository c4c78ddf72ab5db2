/**
 `WizardProduct`: a product draft that validates only the fields of the
 current wizard step, and on success either stores its whitelisted
 attributes in the session or, on the last step, builds and saves the
 parent `Product`.
 */
module WizardProduct {
  import opened Ruby
  import Product
  import opened Session

  /** `underscored_name`: the parent class `Product`, underscored. */
  const UnderscoredName: string := "product"

  /** The session key the draft writes and deletes: `:product_builder`. */
  const BuilderKey: string := UnderscoredName + "_builder"

  /** Ruby's `Hash#reject!` keeping the keys in `keep`: the pruned hash, or
      nil when nothing was removed. */
  function RejectBang(h: Attributes, keep: set<string>): (r: Option<Attributes>)
    ensures r.None? <==> h.Keys <= keep
    ensures r.Some? ==> r.value.Keys == h.Keys * keep
    ensures r.Some? ==> forall k :: k in r.value ==> r.value[k] == h[k]
  {
    var kept := map k | k in h && k in keep :: h[k];
    if kept.Keys == h.Keys then None else Some(kept)
  }

  /** `accessible_attributes`: the draft's attributes pruned to the parent's
      whitelist. A record always carries an id, so `reject!` never answers nil. */
  function AccessibleAttributes(r: Product.Record): (a: Attributes)
    ensures a.Keys == Product.Accessible
    ensures forall k :: k in a ==> a[k] == r[k]
  {
    match RejectBang(r, Product.Accessible)
    case Some(a) => a
    case None => assert "id" in r; map[]
  }

  /** `remove_errors_from_other_steps`: drops every error whose attribute is
      not one of the step's fields; an unknown step raises, since
      `keys - nil` has no implicit conversion. */
  function RemoveErrorsFromOtherSteps(errors: Product.Errors, validations: map<string, seq<string>>, step: string)
    : (r: Result<Product.Errors>)
    ensures r.Raise? <==> step !in validations
    ensures r.Raise? ==> r.error == TypeError
    ensures r.Ok? ==> forall k :: k in r.value <==> k in errors && k in validations[step]
    ensures r.Ok? ==> forall k :: k in r.value ==> r.value[k] == errors[k]
  {
    if step !in validations then Raise(TypeError)
    else
      var otherStepKeys := set k | k in errors && k !in validations[step];
      Ok(errors - otherStepKeys)
  }

  /** Filtering a second time removes nothing. */
  lemma RemoveErrorsIdempotent(errors: Product.Errors, validations: map<string, seq<string>>, step: string)
    requires step in validations
    ensures var once := RemoveErrorsFromOtherSteps(errors, validations, step);
            once.Ok? && RemoveErrorsFromOtherSteps(once.value, validations, step) == once
  {
    var once := RemoveErrorsFromOtherSteps(errors, validations, step).value;
    var twice := RemoveErrorsFromOtherSteps(once, validations, step).value;
    assert twice.Keys == once.Keys;
    assert twice == once;
  }

  predicate IsLast(step: string, steps: seq<string>)
  {
    |steps| > 0 && step == steps[|steps| - 1]
  }

  /** Some field of the step is whitelisted and blank, so validation reports it. */
  predicate StepBlocked(draft: Product.Record, fields: seq<string>)
  {
    exists k :: k in fields && k in Product.Accessible && Blank(Lookup(draft, k))
  }

  /** What `save` did, beyond raising. */
  datatype Outcome =
    | Blocked(errors: Product.Errors)         // the step's own errors; nothing written
    | Stored(stored: Attributes)              // written under the builder key
    | Committed(record: Product.Record)       // parent record saved; builder key deleted
    | NotCommitted(record: Product.Record)    // parent record refused; nothing written

  datatype Saved = Saved(outcome: Outcome, session: Session)

  /** `valid?` followed by `remove_errors_from_other_steps`: the errors that
      are left are exactly the blank whitelisted fields of the step. */
  function StepErrors(draft: Product.Record, validations: map<string, seq<string>>, step: string)
    : (r: Result<Product.Errors>)
    ensures r.Raise? <==> step !in validations
    ensures r.Raise? ==> r.error == TypeError
    ensures r.Ok? ==>
      r.value.Keys == (set k | k in validations[step] && k in Product.Accessible && Blank(Lookup(draft, k)))
    ensures r.Ok? ==> forall k :: k in r.value ==> r.value[k] == [Product.BlankMessage]
    ensures r.Ok? ==> (r.value == map[] <==> !StepBlocked(draft, validations[step]))
  {
    Product.ValidateErrors(draft);
    RemoveErrorsFromOtherSteps(Product.Validate(draft), validations, step)
  }

  /** The `errors.empty?` branch of `save`: commit the parent on the last
      step, otherwise store the whitelisted attributes under the builder key. */
  function SaveUnblocked(draft: Product.Record, step: string, steps: seq<string>, session: Session, dbSaveOk: bool)
    : (r: Result<Saved>)
    ensures IsLast(step, steps) ==>
      && r.Ok? && (r.value.outcome.Committed? || r.value.outcome.NotCommitted?)
      && (forall k :: k in Product.Accessible ==> r.value.outcome.record[k] == draft[k])
      && (forall k :: k in Product.Columns - Product.Accessible ==> r.value.outcome.record[k] == Nil)
      && (r.value.outcome.Committed? <==>
            dbSaveOk && !Blank(draft["name"]) && !Blank(draft["price"]) && !Blank(draft["category"]))
      && (r.value.outcome.Committed? ==> r.value.session == session - {BuilderKey})
      && (r.value.outcome.NotCommitted? ==> r.value.session == session)
    ensures !IsLast(step, steps) ==>
      && (BuilderKey !in session ==> r == Raise(NoMethodError))
      && (BuilderKey in session && session[BuilderKey].Scalar? ==> r == Raise(TypeError))
      && (BuilderKey in session && session[BuilderKey].Nested? ==>
            && r.Ok?
            && r.value.outcome == Stored(AccessibleAttributes(draft))
            && r.value.session ==
                 session[BuilderKey := Nested(session[BuilderKey].entries[UnderscoredName := AccessibleAttributes(draft)])])
  {
    var attrs := AccessibleAttributes(draft);
    if IsLast(step, steps) then
      var obj := Product.New(Some(attrs));
      if Product.Persist(obj, dbSaveOk) then Ok(Saved(Committed(obj), session - {BuilderKey}))
      else Ok(Saved(NotCommitted(obj), session))
    else if BuilderKey !in session then
      Raise(NoMethodError)
    else
      match session[BuilderKey]
      case Scalar(_) => Raise(TypeError)
      case Nested(h) => Ok(Saved(Stored(attrs), session[BuilderKey := Nested(h[UnderscoredName := attrs])]))
  }

  /** `save`, with the session passed in and returned, and the database's
      answer to the parent insert as `dbSaveOk`. */
  function Save(draft: Product.Record, step: string, steps: seq<string>,
                validations: map<string, seq<string>>, session: Session, dbSaveOk: bool)
    : (r: Result<Saved>)
    ensures step !in validations ==> r == Raise(TypeError)
    ensures step in validations ==>
      (r.Ok? && r.value.outcome.Blocked? <==> StepBlocked(draft, validations[step]))
    ensures r.Ok? && r.value.outcome.Blocked? ==>
      && r.value.session == session
      && r.value.outcome.errors != map[]
      && r.value.outcome.errors.Keys ==
           (set k | k in validations[step] && k in Product.Accessible && Blank(Lookup(draft, k)))
      && (forall k :: k in r.value.outcome.errors ==> r.value.outcome.errors[k] == [Product.BlankMessage])
    ensures step in validations && !StepBlocked(draft, validations[step]) ==>
      r == SaveUnblocked(draft, step, steps, session, dbSaveOk)
  {
    match StepErrors(draft, validations, step)
    case Raise(e) => Raise(e)
    case Ok(stepErrors) =>
      if stepErrors != map[] then Ok(Saved(Blocked(stepErrors), session))
      else SaveUnblocked(draft, step, steps, session, dbSaveOk)
  }

  /** Reading back what `accessible_attributes` stored gives the same draft
      fields: `accessible_attributes(new(accessible_attributes(r)))` is
      `accessible_attributes(r)`, and assigning them to `r` changes nothing. */
  lemma AccessibleAttributesRoundTrip(r: Product.Record)
    ensures AccessibleAttributes(Product.New(Some(AccessibleAttributes(r)))) == AccessibleAttributes(r)
    ensures Product.AssignAttributes(r, Some(AccessibleAttributes(r))) == r
  {
    var a := AccessibleAttributes(r);
    var back := AccessibleAttributes(Product.New(Some(a)));
    assert back.Keys == a.Keys;
    assert back == a;
    var r' := Product.AssignAttributes(r, Some(a));
    assert r'.Keys == r.Keys;
    assert r' == r;
  }

  /** Whether `save` is blocked depends only on the current step's fields:
      two drafts that agree there are blocked alike, whatever else is blank. */
  lemma OnlyStepFieldsBlock(d1: Product.Record, d2: Product.Record, step: string, steps: seq<string>,
                            validations: map<string, seq<string>>, session: Session, dbSaveOk: bool)
    requires step in validations
    requires forall k :: k in validations[step] && k in Product.Columns ==> d1[k] == d2[k]
    ensures var r1 := Save(d1, step, steps, validations, session, dbSaveOk);
            var r2 := Save(d2, step, steps, validations, session, dbSaveOk);
            (r1.Ok? && r1.value.outcome.Blocked?) <==> (r2.Ok? && r2.value.outcome.Blocked?)
  {
    if StepBlocked(d1, validations[step]) {
      var k :| k in validations[step] && k in Product.Accessible && Blank(Lookup(d1, k));
      assert Lookup(d2, k) == Lookup(d1, k);
    }
    if StepBlocked(d2, validations[step]) {
      var k :| k in validations[step] && k in Product.Accessible && Blank(Lookup(d2, k));
      assert Lookup(d1, k) == Lookup(d2, k);
    }
  }

  /** `save` changes no session key other than the builder key. */
  lemma SaveTouchesOnlyBuilderKey(draft: Product.Record, step: string, steps: seq<string>,
                                  validations: map<string, seq<string>>, session: Session, dbSaveOk: bool)
    ensures var r := Save(draft, step, steps, validations, session, dbSaveOk);
            r.Ok? ==> forall k :: k != BuilderKey ==>
              (k in r.value.session <==> k in session) && (k in session ==> r.value.session[k] == session[k])
  {
  }

  /** A committed record is a valid product carrying no id or timestamps of
      the draft: the parent is built from the whitelisted attributes only. */
  lemma CommittedRecordIsValid(draft: Product.Record, step: string, steps: seq<string>,
                               validations: map<string, seq<string>>, session: Session, dbSaveOk: bool)
    requires Save(draft, step, steps, validations, session, dbSaveOk).Ok?
    requires Save(draft, step, steps, validations, session, dbSaveOk).value.outcome.Committed?
    ensures dbSaveOk && IsLast(step, steps)
    ensures Product.Valid(Save(draft, step, steps, validations, session, dbSaveOk).value.outcome.record)
    ensures Save(draft, step, steps, validations, session, dbSaveOk).value.outcome.record["id"] == Nil
    ensures Save(draft, step, steps, validations, session, dbSaveOk).value.outcome.record["created_at"] == Nil
    ensures Save(draft, step, steps, validations, session, dbSaveOk).value.outcome.record["updated_at"] == Nil
  {
    var rec := Save(draft, step, steps, validations, session, dbSaveOk).value.outcome.record;
    assert step in validations && !StepBlocked(draft, validations[step]) && IsLast(step, steps);
    assert "id" in Product.Columns - Product.Accessible;
    assert "created_at" in Product.Columns - Product.Accessible;
    assert "updated_at" in Product.Columns - Product.Accessible;
    Product.ValidIff(rec);
  }
}
