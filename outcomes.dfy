/** Values shared by the whole model: JavaScript's `undefined`-able values, the
    outcomes of calls into collaborators whose code is not modelled, and the way
    a promise returned by the service settles. */
module Outcomes {

  /** A value that may be `undefined` (or `null`). */
  datatype Option<+T> = None | Some(value: T)

  /** Outcome of an asynchronous collaborator call that yields a value:
      the promise resolved with `value`, or rejected with `error`. */
  datatype Result<+T> = Ok(value: T) | Err(error: string)

  /** Outcome of a collaborator call that yields nothing: success, or the
      error it reports (for the extension storage API, `runtime.lastError`). */
  datatype Outcome = Pass | Fail(error: string)

  /** What a rejected promise carries: a message, or the TypeError JavaScript
      throws when a property of `undefined` is read. */
  datatype Reason = Text(message: string) | TypeError

  /** How a promise handed back by the service ends: resolved, rejected, or
      never settled (no callback ever calls `resolve` or `reject`). */
  datatype Settlement<+T> = Resolved(value: T) | Rejected(reason: Reason) | Pending

  /** How a synchronous call ends: it returns `value`, or it throws. */
  datatype Call<+T> = Returned(value: T) | Threw(reason: Reason)

  /** `m[key]` on a plain object: `undefined` when the key is absent. */
  function Lookup(m: map<string, string>, key: string): Option<string>
  {
    if key in m then Some(m[key]) else None
  }

  /** `xs[0]` on an array: `undefined` when the array is empty. */
  function First(xs: seq<string>): Option<string>
  {
    if |xs| > 0 then Some(xs[0]) else None
  }
}
