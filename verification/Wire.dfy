/** The event record that every part of the program passes around. */
module Wire {

  /** The payload of a Claude event that the browser's state machine looks at. */
  datatype Claude = NoClaude | Claude(phase: string)

  datatype Event = Event(ts: int, op: string, path: string, process: string, pid: int, claude: Claude)
}
