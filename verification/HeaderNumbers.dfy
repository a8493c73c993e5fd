/** header_name of net/internet/http/headers.h: the numbers of standard headers, those that have a part in an answer. */
module HeaderNumbers {

  const ACCEPT_RANGES := 4
  const CONNECTION := 9
  const CONTENT_LENGTH := 12
  const CONTENT_RANGE := 15
  const CONTENT_TYPE := 16
  const DATE := 18
  const ETAG := 19
  const LAST_MODIFIED := 30
  const RANGE := 37
  const SERVER := 40
}
