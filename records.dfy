/** The log event as the consumer receives it from the topic and as both
    stores hold it. */
module Records {

  datatype Option<+T> = None | Some(value: T)

  /** One log event: the object `JSON.parse` yields for a message value.
      `timestamp` is `None` when the object has no such field; the other
      fields are carried as the producer wrote them. */
  datatype Record = Record(
    id: string,
    timestamp: Option<string>,
    service: string,
    severity: string,
    message: string)

  /** The value of one topic message: either text that parses as a JSON
      record, or a value the handler cannot read (a null value or text that
      `JSON.parse` rejects). */
  datatype Payload = Malformed | Wellformed(rec: Record)

  /** `obj.severity === 'ERROR'`: the only severity that is counted. */
  predicate IsError(r: Record) {
    r.severity == "ERROR"
  }
}
