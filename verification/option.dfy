/** An optional value, for lookups and recognisers that may find nothing. */
module Maybe {

  datatype Option<T> = None | Some(value: T)

}
