/** What a request handler can end in besides an HTTP status, and the
    switch between the code as written and as evidently intended. */
module Responses {
  /** Which behaviour a handler follows where the code as written and its
      evident intent differ. */
  datatype Version = AsWritten | Intended

  /** The pseudo-status of a request whose handler throws from its own
      catch block (reading `error.errors` of a hook's ValidationError, which
      has none).  The handlers are async functions under Express 4, which
      does not catch the rejected promise, so no response is sent and the
      process's `unhandledRejection` listener logs the error and exits the
      process (src/index.js:120-126). */
  const NoResponse := 0
}
