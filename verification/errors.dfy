/** The exceptions the layout code can raise, each one a JavaScript `TypeError` in practice. */
module Errors {

  datatype Failure =
      /** `cell.match(...)` returned null, so destructuring its groups throws. */
    | UnmatchedRef(ref: string)
      /** `component.data[0]` is undefined, so calling `.map` on it throws. */
    | MissingDataSet
      /** `component.data[0][0]` is undefined, so destructuring `name`/`value` from it throws. */
    | MissingFirstRecord
}
