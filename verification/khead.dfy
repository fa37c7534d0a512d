/**
 The bounded consumption engine behind `khead`/`ktail`: the read position
 picks the broker's fallback offset and a message limit; the fetch loop
 polls, writes every fetched message as one line, and stops once the
 running count reaches a non-negative limit.

 Standard output is modelled as the sequence of lines written, and the
 broker's `poll()` as a finite sequence of poll results.
 */
module KHead {
  import opened Base
  import opened Decimal
  import opened Messages

  /** One formatted output line, including its trailing newline. */
  type Line = seq<Byte>

  const NEWLINE: Byte := 10  // '\n'
  const COLON: Byte := 58    // ':'
  const AT: Byte := 64       // '@'

  /** Minimum bytes per fetch the consumer is built with. */
  const FETCH_MIN_BYTES: nat := 1000

  /** The limit `consume` passes when the position carries none. */
  const UNBOUNDED: Int32 := -1

  /** The broker's fallback when no committed offset exists. */
  datatype FetchOffset = Earliest | Latest

  /** The options the consumer builder receives. */
  datatype ConsumerSettings = ConsumerSettings(
    hosts: seq<string>,
    fetchMinBytes: nat,
    fetchMaxBytesPerPartition: Int32,
    topic: string,
    fallbackOffset: FetchOffset)

  datatype KtoolsConsumer = KtoolsConsumer(
    settings: ConsumerSettings,
    brokerConfig: MessageServerConfig,
    topicConfig: TopicConfig,
    verbose: Int32)

  /** Reading the head or everything starts at the earliest offset;
      reading the tail starts at the latest. */
  function FallbackOffset(p: ReadPosition): (r: FetchOffset)
    ensures r == Earliest <==> p.Head? || p.All?
    ensures r == Latest <==> p.Tail?
  {
    match p
    case All => Earliest
    case Head(_) => Earliest
    case Tail(_) => Latest
  }

  /** Builds a consumer for the configured topic (the builder call itself
      and its failure are not modelled). */
  function New(brokerConfig: MessageServerConfig, topicConfig: TopicConfig, verbose: Int32): (c: KtoolsConsumer)
    ensures c.settings.hosts == brokerConfig.brokers
    ensures c.settings.fetchMinBytes == FETCH_MIN_BYTES
    ensures c.settings.fetchMaxBytesPerPartition == topicConfig.fetchMaxBytesReadPerPartition
    ensures c.settings.topic == topicConfig.topic
    ensures c.settings.fallbackOffset == Latest <==> topicConfig.offsetPosition.Tail?
    ensures c.brokerConfig == brokerConfig && c.topicConfig == topicConfig && c.verbose == verbose
  {
    var settings := ConsumerSettings(
      brokerConfig.brokers,
      FETCH_MIN_BYTES,
      topicConfig.fetchMaxBytesReadPerPartition,
      topicConfig.topic,
      FallbackOffset(topicConfig.offsetPosition));
    KtoolsConsumer(settings, CloneServerConfig(brokerConfig), CloneTopicConfig(topicConfig), verbose)
  }

  /** The limit `consume` runs the fetch loop with: negative means no cap. */
  function ConsumeLimit(p: ReadPosition): (r: Int32)
    ensures r < 0 <==> p.All? || p.limit < 0
    ensures p.Head? || p.Tail? ==> r == p.limit
    ensures p.All? ==> r == UNBOUNDED
  {
    match p
    case Head(limit) => limit
    case Tail(limit) => limit
    case _ => UNBOUNDED
  }

  /** The loop-exit test shared by `fetch` and `display`. */
  predicate Stop(count: int, limit: int) {
    count >= limit && limit >= 0
  }

  // ---------------------------------------------------------------------
  // Output formatting
  // ---------------------------------------------------------------------

  /** `topic:partition@offset:` */
  function Header(topic: seq<Byte>, partition: Int32, offset: Int64): seq<Byte> {
    topic + [COLON] + IntToDecimal(partition) + [AT] + IntToDecimal(offset) + [COLON]
  }

  /** One message as written to standard output: the header when
      `verbose` is non-zero, the payload, a newline. The buffer is cleared
      first, so nothing of the previous message carries over. */
  function FormatLine(topic: seq<Byte>, partition: Int32, m: Message, verbose: Int32): (r: Line)
    ensures |r| == (if verbose == 0 then 0 else |Header(topic, partition, m.offset)|) + |m.value| + 1
  {
    (if verbose == 0 then [] else Header(topic, partition, m.offset)) + m.value + [NEWLINE]
  }

  /** Every line ends in a newline right after the payload; only a verbose
      line is longer than that, and it starts with the header. */
  lemma FormatLineShape(topic: seq<Byte>, partition: Int32, m: Message, verbose: Int32)
    ensures var r := FormatLine(topic, partition, m, verbose);
      var h := Header(topic, partition, m.offset);
      && |m.value| < |r| && r[|r| - 1] == NEWLINE
      && r[|r| - 1 - |m.value|..|r| - 1] == m.value
      && (verbose == 0 <==> |r| == |m.value| + 1)
      && (verbose != 0 ==> |r| == |h| + |m.value| + 1 && r[..|h|] == h)
  {
    var r := FormatLine(topic, partition, m, verbose);
    var h := Header(topic, partition, m.offset);
    if verbose != 0 {
      assert r == h + m.value + [NEWLINE];
      assert r[..|h|] == h;
    }
  }

  function FormatRecord(r: Record, verbose: Int32): Line {
    FormatLine(r.topic, r.partition, r.message, verbose)
  }

  /** The lines of a sequence of records, one each, in order. */
  function Lines(rs: seq<Record>, verbose: Int32): (ls: seq<Line>)
    ensures |ls| == |rs|
    decreases |rs|
  {
    if |rs| == 0 then [] else [FormatRecord(rs[0], verbose)] + Lines(rs[1..], verbose)
  }

  lemma {:induction false} LinesIndex(rs: seq<Record>, verbose: Int32)
    ensures forall i :: 0 <= i < |rs| ==> Lines(rs, verbose)[i] == FormatRecord(rs[i], verbose)
    decreases |rs|
  {
    if |rs| > 0 {
      LinesIndex(rs[1..], verbose);
      forall i | 0 < i < |rs|
        ensures Lines(rs, verbose)[i] == FormatRecord(rs[i], verbose)
      {
        assert Lines(rs, verbose)[i] == Lines(rs[1..], verbose)[i - 1];
        assert rs[1..][i - 1] == rs[i];
      }
    }
  }

  lemma {:induction false} LinesAppend(a: seq<Record>, b: seq<Record>, verbose: Int32)
    ensures Lines(a + b, verbose) == Lines(a, verbose) + Lines(b, verbose)
    decreases |a|
  {
    if |a| > 0 {
      assert (a + b)[0] == a[0];
      assert (a + b)[1..] == a[1..] + b;
      LinesAppend(a[1..], b, verbose);
      assert Lines(a + b, verbose) == [FormatRecord(a[0], verbose)] + Lines(a[1..] + b, verbose);
    } else {
      assert a + b == b;
    }
  }

  /** Position of the first `d` in `s`, or `|s|` when there is none. */
  function IndexOf(s: seq<Byte>, d: Byte): (k: nat)
    ensures k <= |s|
    ensures k < |s| ==> s[k] == d
    ensures forall i :: 0 <= i < k ==> s[i] != d
    decreases |s|
  {
    if |s| == 0 then 0 else if s[0] == d then 0 else 1 + IndexOf(s[1..], d)
  }

  /** The parts of `s` before and after the first `d`, if there is one. */
  function SplitAt(s: seq<Byte>, d: Byte): Option<(seq<Byte>, seq<Byte>)> {
    var k := IndexOf(s, d);
    if k == |s| then None else Some((s[..k], s[k + 1..]))
  }

  /** Reads a verbose line back into the record it was written from. */
  function ParseVerboseLine(line: Line): Option<Record> {
    if |line| == 0 || line[|line| - 1] != NEWLINE then None
    else
      match SplitAt(line[..|line| - 1], COLON)
      case None => None
      case Some((topic, rest)) =>
        match SplitAt(rest, AT)
        case None => None
        case Some((partitionText, rest')) =>
          match SplitAt(rest', COLON)
          case None => None
          case Some((offsetText, payload)) =>
            match (ParseDecimal(partitionText), ParseDecimal(offsetText))
            case (Some(p), Some(o)) =>
              if -0x8000_0000 <= p < 0x8000_0000 && -0x8000_0000_0000_0000 <= o < 0x8000_0000_0000_0000
              then Some(Record(topic, p, Message(o, payload)))
              else None
            case _ => None
  }

  // ---------------------------------------------------------------------
  // display: one batch, capped at `limit` lines
  // ---------------------------------------------------------------------

  /** What `display` writes and the count it returns. */
  datatype Shown = Shown(lines: seq<Line>, count: int)

  /** State of the walk through a batch: lines written so far, the running
      count, and whether the limit ended the walk early. */
  datatype Walk = Walk(lines: seq<Line>, count: int, stopped: bool)

  /** The inner loop over one partition's messages. The limit is checked
      after each write, so the first message is always written. */
  function ShowMessages(topic: seq<Byte>, partition: Int32, ms: seq<Message>, verbose: Int32, limit: int, count: int): (w: Walk)
    ensures w.count == count + |w.lines|
    ensures |w.lines| <= |ms|
    decreases |ms|
  {
    if |ms| == 0 then Walk([], count, false)
    else
      var line := FormatLine(topic, partition, ms[0], verbose);
      if Stop(count + 1, limit) then Walk([line], count + 1, true)
      else
        var rest := ShowMessages(topic, partition, ms[1..], verbose, limit, count + 1);
        Walk([line] + rest.lines, rest.count, rest.stopped)
  }

  /** A walk writes its records' lines in order, stops only when the test
      fires, finishes the sequence otherwise, and passes no count at which
      the test would have fired. */
  ghost predicate WalksThrough(w: Walk, rs: seq<Record>, verbose: Int32, limit: int, count: int) {
    && w.count == count + |w.lines|
    && |w.lines| <= |rs|
    && (forall i :: 0 <= i < |w.lines| ==> w.lines[i] == FormatRecord(rs[i], verbose))
    && (!w.stopped ==> |w.lines| == |rs|)
    && (w.stopped ==> 0 < |w.lines| && Stop(w.count, limit))
    && (forall j :: count < j < w.count ==> !Stop(j, limit))
    && (!w.stopped && count < w.count ==> !Stop(w.count, limit))
  }

  lemma {:induction false} ShowMessagesWalk(topic: seq<Byte>, partition: Int32, ms: seq<Message>, verbose: Int32, limit: int, count: int)
    ensures WalksThrough(ShowMessages(topic, partition, ms, verbose, limit, count),
                         SetRecords(MessageSet(topic, partition, ms)), verbose, limit, count)
    decreases |ms|
  {
    if |ms| > 0 && !Stop(count + 1, limit) {
      var w := ShowMessages(topic, partition, ms, verbose, limit, count);
      var rest := ShowMessages(topic, partition, ms[1..], verbose, limit, count + 1);
      var rs := SetRecords(MessageSet(topic, partition, ms));
      var rs' := SetRecords(MessageSet(topic, partition, ms[1..]));
      ShowMessagesWalk(topic, partition, ms[1..], verbose, limit, count + 1);
      assert w.lines == [FormatRecord(rs[0], verbose)] + rest.lines;
      assert w.count == rest.count && w.stopped == rest.stopped;
      forall i | 0 < i < |w.lines|
        ensures w.lines[i] == FormatRecord(rs[i], verbose)
      {
        assert w.lines[i] == rest.lines[i - 1];
        assert rs'[i - 1] == rs[i];
      }
      forall j | count < j < w.count
        ensures !Stop(j, limit)
      {
      }
    }
  }

  /** The outer loop over the partition sets of a batch. */
  function ShowSets(b: Batch, verbose: Int32, limit: int, count: int): (w: Walk)
    ensures w.count == count + |w.lines|
    decreases |b|
  {
    if |b| == 0 then Walk([], count, false)
    else
      var first := ShowMessages(b[0].topic, b[0].partition, b[0].messages, verbose, limit, count);
      if first.stopped then first
      else
        var rest := ShowSets(b[1..], verbose, limit, first.count);
        Walk(first.lines + rest.lines, rest.count, rest.stopped)
  }

  lemma {:induction false} ShowSetsWalk(b: Batch, verbose: Int32, limit: int, count: int)
    ensures WalksThrough(ShowSets(b, verbose, limit, count), Flatten(b), verbose, limit, count)
    decreases |b|
  {
    if |b| > 0 {
      var first := ShowMessages(b[0].topic, b[0].partition, b[0].messages, verbose, limit, count);
      var head := SetRecords(b[0]);
      ShowMessagesWalk(b[0].topic, b[0].partition, b[0].messages, verbose, limit, count);
      assert MessageSet(b[0].topic, b[0].partition, b[0].messages) == b[0];
      assert Flatten(b) == head + Flatten(b[1..]);
      if !first.stopped {
        var w := ShowSets(b, verbose, limit, count);
        var rest := ShowSets(b[1..], verbose, limit, first.count);
        ShowSetsWalk(b[1..], verbose, limit, first.count);
        assert w.lines == first.lines + rest.lines;
        forall i | |first.lines| <= i < |w.lines|
          ensures w.lines[i] == FormatRecord(Flatten(b)[i], verbose)
        {
          assert w.lines[i] == rest.lines[i - |first.lines|];
          assert Flatten(b)[i] == Flatten(b[1..])[i - |head|];
        }
        forall j | count < j < w.count
          ensures !Stop(j, limit)
        {
          if j == first.count {
            assert count < first.count;
          }
        }
      }
    }
  }

  /** How many of `available` messages `display` writes under `limit`:
      all of them when the limit is negative, otherwise up to the limit,
      but at least one because the test follows the write. */
  function DisplayQuota(limit: int, available: nat): nat {
    var cap := if limit <= 0 then 1 else limit;
    if limit < 0 || available <= cap then available else cap
  }

  /** Writes the batch's messages in partition-set order, then message
      order, stopping at the limit; returns the number written. */
  function Display(b: Batch, verbose: Int32, limit: int): (r: Shown)
    ensures r.count == DisplayQuota(limit, |Flatten(b)|)
    ensures r.lines == Lines(Flatten(b)[..r.count], verbose)
  {
    var w := ShowSets(b, verbose, limit, 0);
    ShowSetsWalk(b, verbose, limit, 0);
    LinesIndex(Flatten(b)[..w.count], verbose);
    var cap := if limit <= 0 then 1 else limit;
    assert limit >= 0 && w.count > cap ==> Stop(cap, limit);
    Shown(w.lines, w.count)
  }

  // ---------------------------------------------------------------------
  // fetch: the poll loop
  // ---------------------------------------------------------------------

  /** Lines written by the run, the value of `count` after each poll, the
      final `count`, and whether the stop test ended the loop (otherwise
      the poll results ran out). */
  datatype FetchRun = FetchRun(lines: seq<Line>, counts: seq<int>, count: int, stopped: bool)

  /** One poll: a batch is displayed under the limit left over; an error
      writes nothing and leaves the count alone. */
  function PollStep(p: PollResult, verbose: Int32, limit: Int32, count: int): (s: Shown)
    ensures s.count == count + |s.lines|
    ensures |s.lines| == DisplayQuota(limit - count, |PollRecords(p)|)
    ensures s.lines == Lines(PollRecords(p)[..|s.lines|], verbose)
  {
    match p
    case Err => Shown([], count)
    case Ok(b) =>
      var shown := Display(b, verbose, limit - count);
      Shown(shown.lines, count + shown.count)
  }

  function FetchFrom(polls: seq<PollResult>, verbose: Int32, limit: Int32, count: int): (r: FetchRun)
    ensures r.count == count + |r.lines|
    ensures |r.counts| <= |polls|
    ensures !r.stopped ==> |r.counts| == |polls|
    ensures r.stopped <==> 0 < |r.counts| && Stop(r.counts[|r.counts| - 1], limit)
    ensures 0 < |r.counts| ==> r.count == r.counts[|r.counts| - 1]
    decreases |polls|
  {
    if |polls| == 0 then FetchRun([], [], count, false)
    else
      var step := PollStep(polls[0], verbose, limit, count);
      if Stop(step.count, limit) then FetchRun(step.lines, [step.count], step.count, true)
      else
        var rest := FetchFrom(polls[1..], verbose, limit, step.count);
        FetchRun(step.lines + rest.lines, [step.count] + rest.counts, rest.count, rest.stopped)
  }

  /** The fetch loop, starting from `count = 0`. */
  function Fetch(polls: seq<PollResult>, verbose: Int32, limit: Int32): (r: FetchRun)
    ensures r.count == |r.lines|
  {
    FetchFrom(polls, verbose, limit, 0)
  }

  /** Runs the fetch loop with the limit the read position implies. */
  function Consume(c: KtoolsConsumer, polls: seq<PollResult>): (r: FetchRun)
    ensures c.topicConfig.offsetPosition.All? ==> !r.stopped && |r.counts| == |polls|
    ensures r.stopped ==> |r.lines| >= 1 || c.topicConfig.offsetPosition.limit == 0
  {
    Fetch(polls, c.verbose, ConsumeLimit(c.topicConfig.offsetPosition))
  }
}
