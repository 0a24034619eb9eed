/** Result codes, options and the constants the modules share. */
module Common {
  datatype Option<+T> = None | Some(value: T)

  datatype Result = OK | ERROR

  const MAX_NUMBER_OF_TIMERS := 1024
  const MAX_TASKS := 3
  const TWO_32 := 0x1_0000_0000
  const TWO_64 := 0x1_0000_0000_0000_0000
}
