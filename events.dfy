/** Values shared by the declarator and the publisher: Java's nullable
    references and the event descriptor (com.podzilla.mq.EventMetadata). */
module Events {

  /** A Java reference that may be null. */
  datatype Nullable<+T> = Null | Ref(value: T)

  /** A Java `String` field, which may be null. */
  type JString = Nullable<string>

  /** An event descriptor: its name, the topic exchange it goes to and its
      routing key. Every field is a public Java field and may be null. */
  datatype EventMetadata = EventMetadata(name: JString, exchange: JString, key: JString)
}
