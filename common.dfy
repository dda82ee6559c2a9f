/** Values shared by every handler: optional JSON fields, identifiers and HTTP replies. */
module Common {

  datatype Option<+T> = None | Some(value: T)

  datatype Result<+T, +E> = Ok(value: T) | Err(error: E)

  /** Document identifiers. Each collection hands out fresh ones in increasing order,
      standing in for MongoDB's ObjectIds. */
  type Id = nat

  /** JavaScript truthiness of an optional string field of a request body:
      `undefined` and `""` are falsy, every other string is truthy. */
  predicate Truthy(field: Option<string>)
  {
    field.Some? && field.value != ""
  }

  /** The expression `field || fallback`. */
  function OrElse(field: Option<string>, fallback: string): string
  {
    if Truthy(field) then field.value else fallback
  }

  /** An HTTP reply whose JSON body is the one-key object `{ <key>: text }`. */
  datatype Reply = Reply(code: int, key: string, text: string)

  /** `res.status(code).json({ message: text })` */
  function MessageReply(code: int, text: string): Reply
  {
    Reply(code, "message", text)
  }

  /** `res.status(code).json({ error: text })` */
  function ErrorReply(code: int, text: string): Reply
  {
    Reply(code, "error", text)
  }

  /** `xs.find(p)`, as the position of the element found: the first one satisfying `p`,
      or `None` when there is none. */
  function FindFirst<T>(xs: seq<T>, p: T -> bool): (r: Option<nat>)
    ensures r.Some? ==> r.value < |xs| && p(xs[r.value])
    ensures r.Some? ==> forall j :: 0 <= j < r.value ==> !p(xs[j])
    ensures r.None? <==> forall j :: 0 <= j < |xs| ==> !p(xs[j])
  {
    if xs == [] then None
    else if p(xs[0]) then Some(0)
    else match FindFirst(xs[1..], p) {
      case None => None
      case Some(i) => Some(i + 1)
    }
  }
}
