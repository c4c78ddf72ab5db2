# Product wizard model

A Dafny model of the three-step product creation wizard of a Rails
application. The controller `ProductWizardController` walks the steps
`add_name`, `add_price`, `add_category` and keeps a draft of the product in
the session. `WizardProduct` is a `Product` subclass that validates every
field but keeps only the errors of the current step's fields. On a step
that is not the last, it writes its whitelisted attributes into the
session. On the last step, it builds and saves a plain `Product`.

Everything is pure. The draft, the errors and the session are immutable
maps. `save` is a function from (draft, step, step list, validation map,
session, database answer) to an outcome plus the new session. Ruby
exceptions are a `Raise` result (`NoMethodError`, `TypeError`) rather than
preconditions.

Modules, one per source file plus two for shared pieces:

- `Ruby` (`ruby.dfy`): attribute values (`Nil` or a string), attribute
  hashes, raised exceptions, and Rails' `blank?`.
- `Product` (`product.rb`, with the column defaults of the migration):
  the six columns, the `attr_accessible` whitelist, mass assignment,
  presence validation, and `save` of a plain product.
- `Session`: the session as a map whose entries are either nested hashes
  of attribute hashes or string values.
- `WizardProduct` (`wizard_product.rb`): the builder key,
  `accessible_attributes`, `remove_errors_from_other_steps` and `save`.
- `ProductWizardController` (`product_wizard_controller.rb`): the step
  list, the validation map, `new`, `show` and `update`.

### Behaviour of the code as written

The two files disagree about the session key. `WizardProduct` computes its
key as the underscored parent name plus `_builder`, which is
`:product_builder`. The controller keeps its draft under `:product_wizard`.
The model follows the code:

- On a step other than the last, with the step's field filled in, `save`
  indexes `session[:product_builder]`. That is nil on any session `new`
  started, so it raises `NoMethodError` (`FreshNonLastStepRaises`).
- `update` never writes `:product_wizard`, so a submission is never
  carried to the next request (`UpdateLeavesWizardNamespace`).
- On the last step, a successful save deletes `:product_builder`, not the
  controller's draft.
- The parent's own `save` validates all three fields. Submitting only the
  category on the last step of a fresh wizard therefore never commits
  (`FreshLastStepNeedsEveryField`).

### Other behaviour of the code

- A missing `:product_wizard` namespace raises. `session[:product_wizard][:product]` is then `nil[:product]`, which raises `NoMethodError` (app/controllers/product_wizard_controller.rb:16,23). A missing `:product` entry inside the namespace is the one case that yields a fresh draft, through `WizardProduct.new(nil)`.
- An unknown step raises `TypeError` after validation has run. `validations[step]` is nil, and `errors.messages.keys - nil` has no implicit conversion (app/models/wizards/wizard_product.rb:37).
- When the parent record's `save` fails, its errors belong to the separate object `obj` and are not copied onto the draft, so the draft carries no error for it (app/models/wizards/wizard_product.rb:22-24).

## Model

| member | source | states |
|---|---|---|
| Ruby.BlankIff | app/models/product.rb:4 | the blank test used by presence validation holds exactly for nil and for strings made only of whitespace |
| Ruby.NonSpaceIndex | app/models/product.rb:4 | the search inside `blank?` finds the first non-whitespace character, and finds none exactly when every character is whitespace |
| Product.AssignAttributes | app/controllers/product_wizard_controller.rb:24 | mass assignment overwrites exactly the submitted whitelisted fields and leaves every other column as it was; a nil submission changes nothing |
| Product.New | db/migrate/20131017171915_create_products.rb:4-6 | a new product takes the given whitelisted values and otherwise the column default `''`; id and timestamps are nil |
| Product.ValidatePresence | app/models/product.rb:4 | an attribute has errors exactly when it is listed and blank, with one "can't be blank" per listing |
| Product.ValidateErrors | app/models/product.rb:4 | a product's errors are keyed by exactly its blank whitelisted fields, one message each, and never by any other key |
| Product.ValidIff | app/models/product.rb:4 | a product is valid iff name, price and category are all non-blank |
| Product.Persist | app/models/wizards/wizard_product.rb:22-24 | the parent record's save succeeds iff the database accepts it and all three fields are non-blank |
| WizardProduct.RejectBang | app/models/wizards/wizard_product.rb:33 | `reject!` keeps exactly the whitelisted keys with their values, and answers nil iff nothing was removed |
| WizardProduct.AccessibleAttributes | app/models/wizards/wizard_product.rb:31-34 | the result has exactly the keys category, name and price, with the draft's values; id and timestamps are dropped |
| WizardProduct.AccessibleAttributesRoundTrip | app/models/wizards/wizard_product.rb:31-34 | storing the whitelisted attributes and building a product from them gives back the same attributes; reassigning them to the draft changes nothing |
| WizardProduct.RemoveErrorsFromOtherSteps | app/models/wizards/wizard_product.rb:36-39 | every remaining error key is one of the step's fields; errors on the step's fields survive with their messages unchanged; an unknown step raises TypeError |
| WizardProduct.RemoveErrorsIdempotent | app/models/wizards/wizard_product.rb:36-38 | a second filtering pass removes nothing |
| WizardProduct.StepErrors | app/models/wizards/wizard_product.rb:15-17 | after validation and filtering, the errors left are keyed by exactly the step's blank whitelisted fields, one "can't be blank" each; none are left iff no such field is blank; an unknown step raises TypeError |
| WizardProduct.SaveUnblocked | app/models/wizards/wizard_product.rb:21-27 | on the last step, the record built from the whitelisted fields is committed iff it is valid and the database accepts it, and only then is the builder key deleted; on another step, the whitelisted attributes go to `[:product_builder][:product]`, and a missing or string value there raises |
| WizardProduct.Save | app/models/wizards/wizard_product.rb:14-29 | blocked iff a field of the step is blank; then the session is unchanged and the errors are exactly the step's blank whitelisted fields; otherwise it behaves as `SaveUnblocked`; an unknown step raises TypeError |
| WizardProduct.OnlyStepFieldsBlock | app/models/wizards/wizard_product.rb:15-19 | two drafts that agree on the step's fields are blocked alike, whatever the other fields hold |
| WizardProduct.SaveTouchesOnlyBuilderKey | app/models/wizards/wizard_product.rb:21-27 | save changes no session key other than `:product_builder` |
| WizardProduct.CommittedRecordIsValid | app/models/wizards/wizard_product.rb:21-24 | a commit happens only on the last step with the database's consent, and the committed record is valid and carries no id or timestamps from the draft |
| ProductWizardController.ValidationsPartitionWhitelist | app/controllers/product_wizard_controller.rb:34-40 | the steps are add_name, add_price, add_category in that order; each has exactly one field; the fields are pairwise distinct and together form the whitelist |
| ProductWizardController.New | app/controllers/product_wizard_controller.rb:6-13 | seeds `[:product_wizard][:product]` with name, price and category all `''`, keeps the other entries of an existing namespace and every other session key, redirects to add_name; a string value under the namespace raises TypeError |
| ProductWizardController.LoadDraft | app/controllers/product_wizard_controller.rb:16 | a missing namespace raises NoMethodError and a string value there raises TypeError; otherwise the draft has the stored values, `''` for absent fields, nil id and timestamps |
| ProductWizardController.Show | app/controllers/product_wizard_controller.rb:15-20 | show returns the stored draft and the step, raises as loading does, and returns no session |
| ProductWizardController.ShowAfterNew | app/controllers/product_wizard_controller.rb:6-17 | right after new, show renders a product equal to the column defaults |
| ProductWizardController.MergedDraft | app/controllers/product_wizard_controller.rb:23-24 | submitted whitelisted fields overwrite the stored draft; fields absent from the submission keep their stored values |
| ProductWizardController.Update | app/controllers/product_wizard_controller.rb:22-32 | update saves the merged draft with the current step, the controller's step list, the session and the validation map |
| ProductWizardController.UpdateGatedByStepField | app/controllers/product_wizard_controller.rb:26-31 | update is blocked iff the current step's one field is blank, a blocked update leaves the session unchanged, and a step outside the list raises TypeError |
| ProductWizardController.UpdateLeavesWizardNamespace | app/controllers/product_wizard_controller.rb:23-31 | update never changes the `:product_wizard` entry of the session |
| ProductWizardController.FreshNonLastStepRaises | app/models/wizards/wizard_product.rb:26 | on a session started by new, a filled-in add_name or add_price submission raises NoMethodError |
| ProductWizardController.FreshLastStepNeedsEveryField | app/models/wizards/wizard_product.rb:21-24 | on a session started by new, submitting only the category on the last step never commits and leaves the session unchanged |

## Left out

- Wicked's plumbing: `render_wizard`, `wizard_path`, parsing the step from the URL, and advancing on a truthy `save`. The model returns `save`'s outcome and does not model redirects or the Ruby return value of `save`.
- ActiveRecord persistence: the insert is the boolean `dbSaveOk`. Timestamps, ids assigned by the database, `null: false` constraints and the migration itself are not modelled; only the `''` column defaults are used.
- Rails naming: `@@parent = superclass`, `model_name` and `String#underscore` are fixed as the constant parent name `product`.
- The mass-assignment sanitiser: non-whitelisted keys are dropped silently; the strict sanitiser that raises, and its logging, are not modelled.
- Request parameters that are not strings or nil (arrays, nested hashes), and type casting of column values.
- A session key that explicitly holds nil is modelled as an absent key.
- Ruby.IsSpace: is the class `[[:space:]]` that `blank?` uses on Ruby 1.9 and later (the Unicode White_Space characters). The older `\s` plus U+3000 fallback used on Ruby 1.8 is not modelled, and neither is U+180E, which older Unicode tables also list as a space.
- Session values other than nested hashes and strings (integers, booleans, arrays) are not modelled. Under `:product_wizard`, an integer would make `[]=` in `new` raise `NoMethodError` and `[]` in `show`/`update` raise `TypeError`; `true` would raise `NoMethodError` for both.
- Rendering, views, HTTP and routing.
