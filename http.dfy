/** The shape of an HTTP answer as the controllers build it: a status code and a message. */
module Http {

  datatype Reply = Reply(status: nat, message: string)

  const Ok: nat := 200
  const Created: nat := 201
  const BadRequest: nat := 400
  const Unauthorized: nat := 401
  const Forbidden: nat := 403
  const NotFound: nat := 404
  const ServerError: nat := 500

  predicate IsSuccess(r: Reply) {
    200 <= r.status < 300
  }
}
