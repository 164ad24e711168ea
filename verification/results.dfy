/** Optional values and fallible results, used the way the Rust code uses
    `Option<T>` and `Result<T, Error>`. */
module Results {

  datatype Option<+T> = None | Some(value: T)

  datatype Result<+T, +E> = Ok(value: T) | Err(error: E)
}
