/** The optional value used for absent options and for the first
    character of an empty input line. */
module Maybe {

  datatype Option<+T> = None | Some(value: T)
}
