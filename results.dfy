/** Optional values and success-or-error outcomes, used where the C# code
    returns null or throws. */
module Results {

  datatype Option<T> = None | Some(value: T)

  datatype Result<T, E> = Ok(value: T) | Err(error: E)
}
