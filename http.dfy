/** What every edge function under supabase/functions shares: a JSON body that may not parse, and JavaScript truthiness. */
module Http {
  import opened Wrappers

  /** A request body: JSON that did not parse (with the parser's message), or the parsed fields. */
  datatype Request<T> = Malformed(error: string) | Parsed(body: T)

  /** `e?.message || fallback`: the message a catch-all handler answers with. */
  function ErrorMessage(error: string, fallback: string): (r: string)
    ensures r != "" || fallback == ""
    ensures error != "" ==> r == error
    ensures error == "" ==> r == fallback
  {
    if error != "" then error else fallback
  }

  /** JavaScript truthiness of an optional string: absent and "" are both false. */
  predicate Truthy(s: Option<string>) {
    s.Some? && s.value != ""
  }
}
