/** Values that may be missing: an absent key of a partial record, a
    material without an emissive channel, a storage slot with nothing
    readable in it. */
module Wrappers {

  datatype Option<+T> = None | Some(value: T) {

    /** What is present, else `fallback`: the `??` and spread-default idiom
        of the application. */
    function ValueOr(fallback: T): T {
      if Some? then value else fallback
    }
  }
}
