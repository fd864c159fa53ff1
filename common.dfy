/** Shared vocabulary of the model: document ids, abstract timestamps,
    the optional-value wrapper and the HTTP status codes the handlers send. */
module Common {

  /** A document id (a Mongo ObjectId). Ids come from one increasing
      counter, so a larger id is a later document. */
  type Id = nat

  /** An abstract, monotone timestamp (`Date.now()`). */
  type Time = nat

  datatype Option<+T> = None | Some(value: T) {
    function GetOr(default: T): T {
      match this
      case Some(v) => v
      case None => default
    }
  }

  const StatusOk := 200
  const StatusCreated := 201
  const StatusBadRequest := 400
  const StatusUnauthorized := 401
  const StatusForbidden := 403
  const StatusNotFound := 404
  const StatusServerError := 500
}
