/** The optional value used for JSON body fields that may be absent (and
    become SQL NULL) and for lookups that may find nothing. */
module Optional {

  datatype Option<+T> = None | Some(value: T)
}
