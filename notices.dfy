/**
 * The notifications the screens show: a success or an error message.
 */
module Notices {
  datatype Toast = Success(text: string) | Error(text: string)
}
