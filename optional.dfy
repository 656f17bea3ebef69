/** Optional values: the model's rendering of a TypeScript `T | undefined`
    (an optional field, or a lookup that may find nothing). */
module Optional {

  datatype Option<T> = None | Some(value: T)
}
