/**
 The catalogue entry as loaded from the JSON list. Every field is an optional
 string: a key missing from the record (or a JSON null) is `None`.
 */
module Resources {

  datatype Option<+T> = None | Some(value: T)

  datatype Resource = Resource(
    title: Option<string>,        // "Title/Name"
    category: Option<string>,     // "Category"
    kind: Option<string>,         // "Type"
    access: Option<string>,       // "Access type"
    description: Option<string>,  // "Short Description"
    why: Option<string>,          // "Why it's useful for students"
    link: Option<string>)         // "Link"

  /** The three fields that have a dropdown selector. */
  datatype Field = CategoryField | TypeField | AccessField

  function Get(r: Resource, f: Field): Option<string>
  {
    match f
    case CategoryField => r.category
    case TypeField => r.kind
    case AccessField => r.access
  }
}
