/** The failure-free "maybe" value used for absent search results and failed reads. */
module Options {

  datatype Option<+T> = None | Some(value: T)

}
