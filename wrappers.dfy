/** The optional-value datatype used for "absent" results (a lookup row that
    is not a row, a flow-log line that is not a record). */
module Wrappers {

  datatype Option<+T> = None | Some(value: T)
}
