/** A value that may be missing: the model's stand-in for a `None` lookup
    result and for the NaN that `pd.to_numeric(errors='coerce')` leaves in a
    numeric column it could not convert. */
module Options {
  datatype Option<+T> = None | Some(value: T)
}
