/** An optional value: `None` where the Java code yields `null` or aborts
    with an exception. */
module Wrappers {

  datatype Option<+T> = None | Some(value: T)
}
