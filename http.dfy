/** Status codes the routes answer with, and express-validator's field errors. */
module Http {

  const OK: int := 200
  const CREATED: int := 201
  const BAD_REQUEST: int := 400
  const NOT_FOUND: int := 404
  const SERVER_ERROR: int := 500

  /** One entry of `validationResult(req).array()`: the field and its message. */
  datatype FieldError = FieldError(path: string, msg: string)

  /** The error one validator adds when its check fails, and nothing when it holds. */
  function Check(holds: bool, path: string, msg: string): (r: seq<FieldError>)
    ensures r == [] <==> holds
    ensures !holds ==> FieldError(path, msg) in r
  {
    if holds then [] else [FieldError(path, msg)]
  }
}
