/** Types shared by the kernel modules. */
module Common {
  /** Stands for a task handle. */
  type TaskId = nat

  type Byte = n: nat | n < 256

  datatype Option<T> = None | Some(value: T)
}
