/** The events that travel through the queue to a counter. */
module Events {
  /** What a message asks a counter to do. */
  datatype Event =
    | Increment(value: int, timestamp: int)
    | Decrement(value: int, timestamp: int)
}
