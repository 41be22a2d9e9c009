/** Optional values and error-or-value results, used wherever the bot either
    finds something or does not (a missing record, a rejected command). */
module Options {

  datatype Option<T> = None | Some(value: T)

  datatype Result<T, E> = Ok(value: T) | Err(error: E)
}
