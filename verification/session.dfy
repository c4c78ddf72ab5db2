/**
 The Rails session as the wizard sees it: top-level keys holding either a
 nested hash of attribute hashes (the wizard's namespaces) or a string value
 stored by the rest of the application.
 */
module Session {
  import opened Ruby

  datatype Entry =
    | Nested(entries: map<string, Attributes>)
    | Scalar(text: string)  // a String, which has `[]` and `[]=` but not for a Symbol

  /** An absent key reads as nil. */
  type Session = map<string, Entry>
}
