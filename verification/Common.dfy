// Result types shared by the models.
module Common {

  datatype Option<+T> = None | Some(value: T)

  datatype Result<+T, +E> = Ok(value: T) | Err(error: E)

  // Clock readings are ticks (nanoseconds) of a monotone clock. As in the
  // program's clock type, an elapsed time never goes below zero.
  function Elapsed(since: nat, now: nat): nat {
    if since <= now then now - since else 0
  }
}
