/** The JSON responses the route handlers return. */
module Http {
  /** `{ success: true }`, `{ status: 200 }` (a body that repeats the status), or `{ error }`. */
  datatype ResponseBody = SuccessTrue | StatusOk | Failure(error: string)
  datatype Response = Response(status: int, body: ResponseBody)
}
