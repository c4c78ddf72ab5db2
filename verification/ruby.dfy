/**
 The few pieces of Ruby and Rails semantics the product wizard leans on:
 attribute values, attribute hashes, raised exceptions, and `blank?`.
 */
module Ruby {

  /** A value held by a string column, a request parameter or a session hash. */
  datatype Value = Nil | Str(text: string)

  /** An attributes hash, keyed by attribute name. */
  type Attributes = map<string, Value>

  datatype Option<+T> = None | Some(value: T)

  /** The exceptions the wizard code can raise. */
  datatype Failure =
    | NoMethodError  // a method called on nil, e.g. `nil[:product]`
    | TypeError      // an implicit conversion that does not exist, e.g. `[] - nil`

  /** The result of Ruby code that either returns a value or raises. */
  datatype Result<+T> = Ok(value: T) | Raise(error: Failure)

  /** `h[k]` on a Ruby hash: nil when the key is absent. */
  function Lookup(h: Attributes, k: string): (v: Value)
    ensures k !in h ==> v == Nil
    ensures k in h ==> v == h[k]
  {
    if k in h then h[k] else Nil
  }

  /** The whitespace class `[[:space:]]` that `String#blank?` tests against
      on Ruby 1.9 and later: the Unicode White_Space characters. */
  predicate IsSpace(c: char)
  {
    || ('\t' <= c <= '\r')               // tab, line feed, vertical tab, form feed, carriage return
    || c == ' ' || c == '\U{0085}' || c == '\U{00A0}' || c == '\U{1680}'
    || ('\U{2000}' <= c <= '\U{200A}')
    || c == '\U{2028}' || c == '\U{2029}' || c == '\U{202F}' || c == '\U{205F}' || c == '\U{3000}'
  }

  /** The index of the first non-whitespace character of `s` at or after `from`,
      as the regular-expression match inside `blank?` finds it. */
  function NonSpaceIndex(s: string, from: nat): (r: Option<nat>)
    requires from <= |s|
    ensures r.Some? ==> from <= r.value < |s| && !IsSpace(s[r.value])
    ensures r.Some? ==> forall i :: from <= i < r.value ==> IsSpace(s[i])
    ensures r.None? ==> forall i :: from <= i < |s| ==> IsSpace(s[i])
    decreases |s| - from
  {
    if from == |s| then None
    else if !IsSpace(s[from]) then Some(from)
    else NonSpaceIndex(s, from + 1)
  }

  /** Rails' `blank?`: nil, or a string with no non-whitespace character. */
  predicate Blank(v: Value)
  {
    match v
    case Nil => true
    case Str(s) => NonSpaceIndex(s, 0).None?
  }

  lemma BlankIff(v: Value)
    ensures Blank(v) <==> (v.Nil? || forall i :: 0 <= i < |v.text| ==> IsSpace(v.text[i]))
  {
    if v.Str? && !Blank(v) {
      var j := NonSpaceIndex(v.text, 0).value;
      assert !IsSpace(v.text[j]);
    }
  }
}
