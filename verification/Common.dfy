/** What several modules share: optional values, word sizes and error numbers. */
module Common {

  datatype Option<T> = None | Some(value: T)

  const U32 := 0x1_0000_0000
  const U64 := 0x1_0000_0000_0000_0000

  const ENOENT := 2
  const EEXIST := 17
  const EINVAL := 22
  const ENAMETOOLONG := 36
  const ELOOP := 40
}
