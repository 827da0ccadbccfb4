/** Types shared by the modules. */
module Common {

  datatype Option<+T> = None | Some(value: T)

  /** Machine integers, as ranges of int: operations that wrap say so explicitly. */
  type U8 = x: int | 0 <= x < 0x100
  type U16 = x: int | 0 <= x < 0x1_0000
  type U32 = x: int | 0 <= x < 0x1_0000_0000
  type U64 = x: int | 0 <= x < 0x1_0000_0000_0000_0000
}
