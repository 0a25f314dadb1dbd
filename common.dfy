/** Errors, results and the ordered model of `Promise.all` shared by every module. */
module Common {

  /** What a failing operation throws: an `HttpError` carries a message and the
      HTTP status the route handlers answer with; `TypeError` stands for a
      JavaScript runtime error raised while reading a malformed record (calling
      a method of `undefined`, mapping over a string), which carries no status;
      `PlainError` is a plain `new Error(message)`, which carries none either. */
  datatype Error =
    | HttpError(message: string, statusCode: int)
    | TypeError
    | PlainError(message: string)

  datatype Option<+T> = None | Some(value: T) {
    function GetOr(default: T): T {
      if Some? then value else default
    }
  }

  datatype Result<+T> = Ok(value: T) | Err(error: Error) {
    predicate IsFailure() { Err? }

    function PropagateFailure<U>(): Result<U>
      requires Err?
    {
      Err(error)
    }

    function Extract(): T
      requires Ok?
    {
      value
    }
  }

  /** The status a route handler answers with for a caught error:
      `error.statusCode || 500`. */
  function StatusOf(e: Error): (status: int)
    ensures status != 0
    ensures e.HttpError? && e.statusCode != 0 ==> status == e.statusCode
    ensures !e.HttpError? || e.statusCode == 0 ==> status == 500
  {
    match e
    case HttpError(_, code) => if code != 0 then code else 500
    case _ => 500
  }

  /** `Promise.all(xs.map(f))` evaluated one element after the other: all
      results in input order, or the error of the first element that fails. */
  function AllInOrder<T, U>(xs: seq<T>, f: T -> Result<U>): (r: Result<seq<U>>)
    ensures r.Ok? <==> forall i | 0 <= i < |xs| :: f(xs[i]).Ok?
    ensures r.Ok? ==> |r.value| == |xs|
    ensures r.Ok? ==> forall i | 0 <= i < |xs| :: r.value[i] == f(xs[i]).value
    ensures r.Err? ==> exists i | 0 <= i < |xs| ::
                         && f(xs[i]) == Err(r.error)
                         && forall j | 0 <= j < i :: f(xs[j]).Ok?
  {
    if |xs| == 0 then Ok([])
    else
      match f(xs[0])
      case Err(e) => Err(e)
      case Ok(y) =>
        var rest := AllInOrder(xs[1..], f);
        if rest.Err? then
          assert forall j | 0 <= j < |xs[1..]| :: xs[1..][j] == xs[j + 1];
          Err(rest.error)
        else
          Ok([y] + rest.value)
  }
}
