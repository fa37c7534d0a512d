/**
 The configuration model shared by the ktools commands: which message-queue
 server to talk to, which topic to read and from which position.
 All values are immutable; the Rust `Clone` impls copy every field.
 */
module Base {

  /** Rust `i32`. */
  type Int32 = x: int | -0x8000_0000 <= x < 0x8000_0000

  /** The kind of message-queue server; only Kafka is driven end to end. */
  datatype MessageQueueServerType = Kafka | Pulsar

  /** Where to start reading a topic and how many messages to read.
      A negative `limit` means "no cap"; `All` has no limit at all. */
  datatype ReadPosition =
    | Head(limit: Int32)
    | Tail(limit: Int32)
    | All

  /** Output format requested by the caller; the consumer never reads it. */
  datatype MessageFormat = JSON | Text

  datatype MessageServerConfig = MessageServerConfig(
    brokers: seq<string>,
    serverType: MessageQueueServerType)

  datatype TopicConfig = TopicConfig(
    topic: string,
    offsetPosition: ReadPosition,
    format: MessageFormat,
    fetchMaxBytesReadPerPartition: Int32)

  /** Copies a read position case by case. */
  function ClonePosition(p: ReadPosition): (r: ReadPosition)
    ensures r == p
  {
    match p
    case Head(n) => Head(n)
    case Tail(n) => Tail(n)
    case All => All
  }

  /** Field-by-field copy of a server configuration. */
  function CloneServerConfig(c: MessageServerConfig): (r: MessageServerConfig)
    ensures r == c
  {
    MessageServerConfig(c.brokers, c.serverType)
  }

  /** Field-by-field copy of a topic configuration. */
  function CloneTopicConfig(c: TopicConfig): (r: TopicConfig)
    ensures r == c
  {
    TopicConfig(c.topic, ClonePosition(c.offsetPosition), c.format, c.fetchMaxBytesReadPerPartition)
  }
}
