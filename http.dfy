/** What a route handler answers: a status with either its success body or the `error` text. */
module Http {

  datatype Response<T> =
    | Ok(status: nat, value: T)
    | Error(status: nat, message: string)

  /** A `Set-Cookie` as `response.cookies.set` writes it. */
  datatype Cookie = Cookie(
    name: string,
    value: string,
    httpOnly: bool,
    secure: bool,
    sameSite: string,
    maxAge: nat,
    path: string)
}
