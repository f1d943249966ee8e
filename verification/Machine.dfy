/** What the components share: the sizes of the machine's words, a task's PCB address, a pointer that may be NULL. */
module Machine {
  const TWO_32: nat := 0x1_0000_0000

  type Byte = x: int | 0 <= x < 256
  type Word32 = x: int | 0 <= x < 0x1_0000_0000

  type Task = nat

  datatype Option<T> = None | Some(value: T)
}
