/** Widths of the machine values that the kernel's C code works on. */
module Machine {
  const U32_LIMIT: nat := 0x1_0000_0000

  type u32 = x: int | 0 <= x < 0x1_0000_0000
  type i32 = x: int | -0x8000_0000 <= x <= 0x7fff_ffff
  type byte = x: int | 0 <= x < 0x100

  /** A NULL pointer. */
  const NULL: nat := 0

  /** The most free bytes that any moment of `kmalloc` and `kfree` shows: twice the heap. */
  const READING_MAX: nat := 0x2_0000

  datatype Option<+T> = None | Some(value: T)
}
