/** The conventional optional value: a form field that failed to parse, a quote
    lookup that found nothing, a row a query did not find. */
module Wrappers {
  datatype Option<+T> = None | Some(value: T)
}
