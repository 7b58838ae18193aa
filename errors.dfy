/** The errors the database can hand back to its callers. */
module Errors {
  datatype Error =
    | UrlError                      // url.Parse rejected the construction URI
    | NumError(num: string)         // strconv.Atoi rejected a numeric query parameter
    | BoundingBoxError              // the feature's bounding boxes could not be computed
    | CacheItemError                // the feature's cache item could not be built
    | RectError(lx: real, ly: real) // rtreego.NewRect refused these side lengths
    | InvalidCacheId                // cache lookup miss ("Invalid cache ID")
}
