/** Go `error` values as they are built by the code modelled here: a
    message made with `errors.New`, or an error given context with
    `errors.Wrap`. */
module GoErrors {

  datatype Error = Cause(msg: string) | Wrapped(context: string, cause: Error)
  {
    /** The text `Error()` returns: the wrapped context, a colon and a
        space, then the message of the cause. */
    function Message(): string {
      match this
      case Cause(m) => m
      case Wrapped(c, e) => c + ": " + e.Message()
    }

    /** The innermost error, as `errors.Cause` unwraps it. */
    function Root(): (r: Error)
      ensures r.Cause?
    {
      match this
      case Cause(_) => this
      case Wrapped(_, e) => e.Root()
    }
  }
}
