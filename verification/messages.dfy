/**
 What one poll of the broker client hands the consumer: a batch of
 per-partition message sets, or an error. The broker client itself is
 not modelled; a run of polls is a finite input sequence.
 */
module Messages {
  import opened Base
  import opened Decimal

  /** Rust `i64`. */
  type Int64 = x: int | -0x8000_0000_0000_0000 <= x < 0x8000_0000_0000_0000

  /** One fetched message: its offset and raw payload. */
  datatype Message = Message(offset: Int64, value: seq<Byte>)

  /** The messages of one partition of one topic, in offset order.
      `topic` is the topic name's UTF-8 bytes. */
  datatype MessageSet = MessageSet(topic: seq<Byte>, partition: Int32, messages: seq<Message>)

  /** The result of one successful poll. */
  type Batch = seq<MessageSet>

  datatype PollResult = Ok(batch: Batch) | Err

  /** A message together with the partition it was fetched from. */
  datatype Record = Record(topic: seq<Byte>, partition: Int32, message: Message)

  /** The records of one message set, in message order. */
  function SetRecords(s: MessageSet): (r: seq<Record>)
    ensures |r| == |s.messages|
    ensures forall i :: 0 <= i < |r| ==> r[i] == Record(s.topic, s.partition, s.messages[i])
  {
    seq(|s.messages|, i requires 0 <= i < |s.messages| => Record(s.topic, s.partition, s.messages[i]))
  }

  /** All records of a batch: partition set by partition set, then message
      by message. */
  function Flatten(b: Batch): seq<Record>
    decreases |b|
  {
    if |b| == 0 then [] else SetRecords(b[0]) + Flatten(b[1..])
  }

  /** The records one poll delivers; a failed poll delivers none. */
  function PollRecords(p: PollResult): seq<Record> {
    match p
    case Ok(b) => Flatten(b)
    case Err => []
  }

  /** Every record a run of polls delivers, in poll order. */
  function AllRecords(polls: seq<PollResult>): seq<Record>
    decreases |polls|
  {
    if |polls| == 0 then [] else PollRecords(polls[0]) + AllRecords(polls[1..])
  }

  /** Number of records a batch holds. */
  function Size(b: Batch): nat
    decreases |b|
  {
    if |b| == 0 then 0 else |b[0].messages| + Size(b[1..])
  }

  lemma {:induction false} FlattenSize(b: Batch)
    ensures |Flatten(b)| == Size(b)
    decreases |b|
  {
    if |b| > 0 {
      FlattenSize(b[1..]);
    }
  }
}
