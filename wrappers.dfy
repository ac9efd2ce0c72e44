/** Optional values: SQL NULL columns, lookups that find nothing, and
    foreign parsers that may fail. */
module Wrappers {

  datatype Option<+T> = None | Some(value: T)
}
