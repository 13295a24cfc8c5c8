/** Types that several modules use. */
module SharedTypes {
  datatype Option<T> = None | Some(value: T)

  type ActorId = string
}
