/**
 `ProductWizardController`: the three-step wizard. `new` seeds a draft in
 the session, `show` reads it back, and `update` merges a submission into
 it and hands it to `WizardProduct.Save` with the step, the step list, the
 session and the validation map.
 */
module ProductWizardController {
  import opened Ruby
  import Product
  import opened Session
  import WizardProduct

  /** The wizard's steps, in order. */
  const Steps: seq<string> := ["add_name", "add_price", "add_category"]

  /** The fields each step validates. */
  const Validations: map<string, seq<string>> :=
    map["add_name" := ["name"], "add_price" := ["price"], "add_category" := ["category"]]

  /** The session namespace of the controller's draft, `:product_wizard`,
      and the key of the draft inside it, `:product`. */
  const WizardKey: string := "product_wizard"
  const DraftKey: string := "product"

  /** Each step owns exactly one field; no two steps share one; together
      they cover the whitelist exactly; and the map knows every step. */
  lemma ValidationsPartitionWhitelist()
    ensures Validations.Keys == set s | s in Steps
    ensures forall s :: s in Validations ==> |Validations[s]| == 1
    ensures forall s, t :: s in Validations && t in Validations && s != t ==>
              Validations[s][0] != Validations[t][0]
    ensures (set s | s in Validations :: Validations[s][0]) == Product.Accessible
    ensures Steps[0] == "add_name" && Steps[1] == "add_price" && Steps[2] == "add_category" && |Steps| == 3
  {
    var u := set s | s in Validations :: Validations[s][0];
    assert Validations["add_name"][0] in u && Validations["add_price"][0] in u && Validations["add_category"][0] in u;
  }

  datatype Started = Started(session: Session, redirectStep: string)

  /** `new`: `session[:product_wizard] ||= {}`, then its `:product` entry is
      set to a fresh product's whitelisted attributes; redirects to the first
      step. A non-hash value already under the namespace makes `[]=` raise. */
  function New(session: Session): (r: Result<Started>)
    ensures r.Raise? <==> WizardKey in session && session[WizardKey].Scalar?
    ensures r.Raise? ==> r.error == TypeError
    ensures r.Ok? ==> r.value.redirectStep == "add_name"
    ensures r.Ok? ==> WizardKey in r.value.session && r.value.session[WizardKey].Nested?
    ensures r.Ok? ==>
      var h := r.value.session[WizardKey].entries;
      && DraftKey in h
      && h[DraftKey].Keys == Product.Accessible
      && forall k :: k in h[DraftKey] ==> h[DraftKey][k] == Str("")
    ensures r.Ok? && WizardKey in session ==>
      var before := session[WizardKey].entries;
      var after := r.value.session[WizardKey].entries;
      && after.Keys == before.Keys + {DraftKey}
      && forall k :: k in before && k != DraftKey ==> after[k] == before[k]
    ensures r.Ok? && WizardKey !in session ==> r.value.session[WizardKey].entries.Keys == {DraftKey}
    ensures r.Ok? ==> forall k :: k != WizardKey ==>
      (k in r.value.session <==> k in session) && (k in session ==> r.value.session[k] == session[k])
  {
    var seeded := WizardProduct.AccessibleAttributes(Product.New(None));
    var wizard := if WizardKey in session then session[WizardKey] else Nested(map[]);
    match wizard
    case Scalar(_) => Raise(TypeError)
    case Nested(h) => Ok(Started(session[WizardKey := Nested(h[DraftKey := seeded])], Steps[0]))
  }

  /** `WizardProduct.new(session[:product_wizard][:product])`. A missing
      namespace is `nil[:product]` and raises; a missing draft is
      `new(nil)`, a product with the column defaults. */
  function LoadDraft(session: Session): (r: Result<Product.Record>)
    ensures r.Raise? <==> WizardKey !in session || session[WizardKey].Scalar?
    ensures WizardKey !in session ==> r == Raise(NoMethodError)
    ensures WizardKey in session && session[WizardKey].Scalar? ==> r == Raise(TypeError)
    ensures r.Ok? ==>
      var h := session[WizardKey].entries;
      forall k :: k in Product.Accessible ==>
        r.value[k] == (if DraftKey in h && k in h[DraftKey] then h[DraftKey][k] else Str(""))
    ensures r.Ok? ==> forall k :: k in Product.Columns - Product.Accessible ==> r.value[k] == Nil
  {
    if WizardKey !in session then Raise(NoMethodError)
    else
      match session[WizardKey]
      case Scalar(_) => Raise(TypeError)
      case Nested(h) => Ok(Product.New(if DraftKey in h then Some(h[DraftKey]) else None))
  }

  datatype Page = Page(draft: Product.Record, step: string)

  /** `show`: the stored draft and the current step, for rendering. It takes
      the session and returns none: showing never changes it. */
  function Show(session: Session, step: string): (r: Result<Page>)
    ensures r.Raise? <==> LoadDraft(session).Raise?
    ensures r.Raise? ==> r.error == LoadDraft(session).error
    ensures r.Ok? ==> r.value.step == step && r.value.draft == LoadDraft(session).value
  {
    match LoadDraft(session)
    case Raise(e) => Raise(e)
    case Ok(draft) => Ok(Page(draft, step))
  }

  /** The draft `update` saves: the stored draft with the submitted
      whitelisted fields written over it. */
  function MergedDraft(session: Session, submitted: Option<Attributes>): (r: Result<Product.Record>)
    ensures r.Raise? <==> LoadDraft(session).Raise?
    ensures r.Raise? ==> r.error == LoadDraft(session).error
    ensures r.Ok? ==> forall k :: k in Product.Accessible ==>
      r.value[k] == (if submitted.Some? && k in submitted.value then submitted.value[k]
                     else LoadDraft(session).value[k])
    ensures r.Ok? ==> forall k :: k in Product.Columns - Product.Accessible ==> r.value[k] == Nil
  {
    match LoadDraft(session)
    case Raise(e) => Raise(e)
    case Ok(d) => Ok(Product.AssignAttributes(d, submitted))
  }

  /** `update`: merge the submission, then save with this controller's
      step list and validation map. */
  function Update(session: Session, step: string, submitted: Option<Attributes>, dbSaveOk: bool)
    : (r: Result<WizardProduct.Saved>)
    ensures MergedDraft(session, submitted).Raise? ==> r == Raise(MergedDraft(session, submitted).error)
    ensures MergedDraft(session, submitted).Ok? ==>
      r == WizardProduct.Save(MergedDraft(session, submitted).value, step, Steps, Validations, session, dbSaveOk)
  {
    match MergedDraft(session, submitted)
    case Raise(e) => Raise(e)
    case Ok(draft) => WizardProduct.Save(draft, step, Steps, Validations, session, dbSaveOk)
  }

  /** Only the current step's field gates `update`: it is blocked exactly
      when that field of the merged draft is blank, and a blocked update
      leaves the session as it was. A step outside the list raises. */
  lemma UpdateGatedByStepField(session: Session, step: string, submitted: Option<Attributes>, dbSaveOk: bool)
    requires MergedDraft(session, submitted).Ok?
    ensures step !in Steps ==> Update(session, step, submitted, dbSaveOk) == Raise(TypeError)
    ensures step in Steps ==>
      var r := Update(session, step, submitted, dbSaveOk);
      var field := Validations[step][0];
      && (r.Ok? && r.value.outcome.Blocked? <==> Blank(MergedDraft(session, submitted).value[field]))
      && (r.Ok? && r.value.outcome.Blocked? ==> r.value.session == session)
  {
    ValidationsPartitionWhitelist();
    var d := MergedDraft(session, submitted).value;
    if step in Steps {
      var field := Validations[step][0];
      assert Validations[step] == [field];
      if WizardProduct.StepBlocked(d, Validations[step]) {
        var k :| k in Validations[step] && k in Product.Accessible && Blank(Lookup(d, k));
        assert k == field;
      }
      if Blank(d[field]) {
        assert field in Validations[step] && field in Product.Accessible && Blank(Lookup(d, field));
      }
    }
  }

  /** `update` never writes the controller's draft: whatever `save` does, the
      `:product_wizard` entry is the one the request started with. */
  lemma UpdateLeavesWizardNamespace(session: Session, step: string, submitted: Option<Attributes>, dbSaveOk: bool)
    ensures var r := Update(session, step, submitted, dbSaveOk);
            r.Ok? ==> (WizardKey in r.value.session <==> WizardKey in session)
                      && (WizardKey in session ==> r.value.session[WizardKey] == session[WizardKey])
  {
    if MergedDraft(session, submitted).Ok? {
      WizardProduct.SaveTouchesOnlyBuilderKey(MergedDraft(session, submitted).value, step, Steps, Validations, session, dbSaveOk);
      assert WizardKey != WizardProduct.BuilderKey;
    }
  }

  /** Right after `new`, `show` renders a product with the column defaults. */
  lemma ShowAfterNew(session: Session, step: string)
    requires New(session).Ok?
    ensures Show(New(session).value.session, step) == Ok(Page(Product.ColumnDefaults, step))
  {
    var d := LoadDraft(New(session).value.session).value;
    assert d.Keys == Product.ColumnDefaults.Keys;
    assert forall k :: k in d ==> d[k] == Product.ColumnDefaults[k];
    assert d == Product.ColumnDefaults;
  }

  /** As written, the first two steps cannot succeed on a session started by
      `new`: the draft writes under `:product_builder`, which `new` never
      creates, so once the step's field is filled in `save` raises on `nil`. */
  lemma FreshNonLastStepRaises(session: Session, step: string, value: string, dbSaveOk: bool)
    requires New(session).Ok?
    requires WizardProduct.BuilderKey !in session
    requires step == "add_name" || step == "add_price"
    requires !Blank(Str(value))
    ensures var field := Validations[step][0];
            Update(New(session).value.session, step, Some(map[field := Str(value)]), dbSaveOk)
              == Raise(NoMethodError)
  {
    var s := New(session).value.session;
    var field := Validations[step][0];
    var sub := Some(map[field := Str(value)]);
    assert WizardProduct.BuilderKey != WizardKey;
    assert WizardProduct.BuilderKey !in s;
    var d := MergedDraft(s, sub).value;
    assert d[field] == Str(value);
    UpdateGatedByStepField(s, step, sub, dbSaveOk);
    assert !WizardProduct.IsLast(step, Steps);
  }

  /** On a session started by `new`, submitting only the category on the
      last step never commits: the parent record still has the empty name
      and price, and its own validation refuses it. */
  lemma FreshLastStepNeedsEveryField(session: Session, category: Value, dbSaveOk: bool)
    requires New(session).Ok?
    ensures var r := Update(New(session).value.session, "add_category", Some(map["category" := category]), dbSaveOk);
            r.Ok? && !r.value.outcome.Committed?
            && r.value.session == New(session).value.session
  {
    var s := New(session).value.session;
    var sub := Some(map["category" := category]);
    var d := MergedDraft(s, sub).value;
    assert d["name"] == Str("");
    assert Blank(Str(""));
    assert "add_category" in Validations;
  }
}
