/** Fixed-width C integer types and an Option type shared by the model. */
module CTypes {
  /** uint8_t, and a C `char` read through one. */
  newtype byte = x: int | 0 <= x < 0x100

  /** uint32_t, the return type of the program's functions. */
  newtype uint32 = x: int | 0 <= x < 0x1_0000_0000

  /** uint64_t, the type of the grid dimensions. */
  newtype uint64 = x: int | 0 <= x < 0x1_0000_0000_0000_0000

  datatype Option<+T> = None | Some(value: T)
}
