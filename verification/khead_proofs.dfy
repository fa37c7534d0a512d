/**
 Properties of the consumption engine, each stated against an independent
 reference: the records a run of polls delivers (`AllRecords`), formatted
 one line each (`Lines`).
 */
module KHeadProofs {
  import opened Base
  import opened Decimal
  import opened Messages
  import opened KHead

  function Min(a: int, b: int): int {
    if a <= b then a else b
  }

  // ---------------------------------------------------------------------
  // Formatting
  // ---------------------------------------------------------------------

  /** Neither ':' nor '@' occurs in a rendered integer. */
  lemma DecimalHasNoSeparators(n: int)
    ensures COLON !in IntToDecimal(n) && AT !in IntToDecimal(n)
  {
    var d := IntToDecimal(n);
    forall i | 0 <= i < |d|
      ensures d[i] != COLON && d[i] != AT
    {
      assert d[i] == MINUS || IsDigit(d[i]);
    }
  }

  /** Splitting at the first `d` of `a + [d] + b` gives back `a` and `b`. */
  lemma SplitAtFirst(a: seq<Byte>, d: Byte, b: seq<Byte>)
    requires d !in a
    ensures SplitAt(a + [d] + b, d) == Some((a, b))
  {
    var s := a + [d] + b;
    assert s[|a|] == d;
    assert s[..|a|] == a;
    assert s[|a| + 1..] == b;
  }

  /** A verbose line reads back as the partition set's topic and partition
      and the message's offset and payload, provided the topic name has no
      ':' (Kafka topic names never do). */
  lemma VerboseLineRoundTrip(topic: seq<Byte>, partition: Int32, m: Message, verbose: Int32)
    requires verbose != 0
    requires COLON !in topic
    ensures ParseVerboseLine(FormatLine(topic, partition, m, verbose)) == Some(Record(topic, partition, m))
  {
    var line := FormatLine(topic, partition, m, verbose);
    var dp := IntToDecimal(partition);
    var dof := IntToDecimal(m.offset);
    DecimalHasNoSeparators(partition);
    DecimalHasNoSeparators(m.offset);
    DecimalRoundTrip(partition);
    DecimalRoundTrip(m.offset);
    var afterOffset := dof + [COLON] + m.value;
    var afterTopic := dp + [AT] + afterOffset;
    assert line[..|line| - 1] == topic + [COLON] + afterTopic;
    SplitAtFirst(topic, COLON, afterTopic);
    SplitAtFirst(dp, AT, afterOffset);
    SplitAtFirst(dof, COLON, m.value);
  }

  /** A plain line is exactly the payload and a newline. */
  lemma PlainLineIsPayload(topic: seq<Byte>, partition: Int32, m: Message)
    ensures FormatLine(topic, partition, m, 0) == m.value + [NEWLINE]
  {
  }

  // ---------------------------------------------------------------------
  // display
  // ---------------------------------------------------------------------

  /** With `limit >= 1` display writes exactly `min(limit, available)`
      lines: the first records of the batch in order. */
  lemma DisplayCapped(b: Batch, verbose: Int32, limit: int)
    requires 1 <= limit
    ensures Display(b, verbose, limit).count == Min(limit, |Flatten(b)|)
    ensures Display(b, verbose, limit).lines == Lines(Flatten(b)[..Min(limit, |Flatten(b)|)], verbose)
  {
  }

  /** With a negative limit display writes every message of every partition
      set and returns their number. */
  lemma DisplayUnbounded(b: Batch, verbose: Int32, limit: int)
    requires limit < 0
    ensures Display(b, verbose, limit) == Shown(Lines(Flatten(b), verbose), Size(b))
  {
    FlattenSize(b);
    assert Flatten(b)[..|Flatten(b)|] == Flatten(b);
  }

  /** With limit 0 display still writes the first message, because the
      test follows the write. */
  lemma DisplayZeroLimit(b: Batch, verbose: Int32)
    requires 0 < |Flatten(b)|
    ensures Display(b, verbose, 0).count == 1
    ensures Display(b, verbose, 0).lines == [FormatRecord(Flatten(b)[0], verbose)]
  {
  }

  // ---------------------------------------------------------------------
  // fetch
  // ---------------------------------------------------------------------

  /** The counts after each poll never go below the starting count and
      never go down. */
  ghost predicate NonDecreasingFrom(count: int, counts: seq<int>) {
    forall i, j :: 0 <= i <= j < |counts| ==> count <= counts[i] <= counts[j]
  }

  /** A failed poll leaves the count where the previous poll put it. */
  ghost predicate ErrorsKeepCount(polls: seq<PollResult>, count: int, counts: seq<int>)
    requires |counts| <= |polls|
  {
    && (0 < |counts| && polls[0].Err? ==> counts[0] == count)
    && (forall i {:trigger polls[i]} :: 0 < i < |counts| && polls[i].Err? ==> counts[i] == counts[i - 1])
  }

  /** Only the last poll's count satisfies the stop test. */
  ghost predicate ContinuesUntilStop(counts: seq<int>, limit: int) {
    forall i :: 0 <= i < |counts| - 1 ==> !Stop(counts[i], limit)
  }

  lemma TraceCons(polls: seq<PollResult>, count: int, c0: int, rest: seq<int>, limit: int)
    requires 0 < |polls| && |rest| < |polls|
    requires count <= c0 && (polls[0].Err? ==> c0 == count)
    requires 0 < |rest| ==> !Stop(c0, limit)
    requires NonDecreasingFrom(c0, rest) && ErrorsKeepCount(polls[1..], c0, rest) && ContinuesUntilStop(rest, limit)
    ensures NonDecreasingFrom(count, [c0] + rest)
    ensures ErrorsKeepCount(polls, count, [c0] + rest)
    ensures ContinuesUntilStop([c0] + rest, limit)
  {
    var counts := [c0] + rest;
    forall i {:trigger polls[i]} | 0 < i < |counts| && polls[i].Err?
      ensures counts[i] == counts[i - 1]
    {
      assert polls[1..][i - 1] == polls[i];
    }
  }

  /** The loop keeps polling until the stop test holds; the count never
      goes down, and a failed poll leaves it unchanged. */
  lemma {:induction false} FetchCountsTrace(polls: seq<PollResult>, verbose: Int32, limit: Int32, count: int)
    ensures var r := FetchFrom(polls, verbose, limit, count);
      && NonDecreasingFrom(count, r.counts)
      && ErrorsKeepCount(polls, count, r.counts)
      && ContinuesUntilStop(r.counts, limit)
    decreases |polls|
  {
    if |polls| > 0 {
      var r := FetchFrom(polls, verbose, limit, count);
      var step := PollStep(polls[0], verbose, limit, count);
      assert polls[0].Err? ==> PollRecords(polls[0]) == [];
      if Stop(step.count, limit) {
        assert r.counts == [step.count] + [];
        TraceCons(polls, count, step.count, [], limit);
      } else {
        var rest := FetchFrom(polls[1..], verbose, limit, step.count);
        assert r.counts == [step.count] + rest.counts;
        FetchCountsTrace(polls[1..], verbose, limit, step.count);
        TraceCons(polls, count, step.count, rest.counts, limit);
      }
    }
  }

  /** Every count is at most `limit`, and every count but the last leaves
      at least one message to take. */
  ghost predicate WithinLimit(counts: seq<int>, limit: int) {
    && (forall i :: 0 <= i < |counts| ==> counts[i] <= limit)
    && (forall i :: 0 <= i < |counts| - 1 ==> 1 <= limit - counts[i])
  }

  lemma WithinLimitCons(c0: int, rest: seq<int>, limit: int)
    requires c0 <= limit && (0 < |rest| ==> c0 < limit)
    requires WithinLimit(rest, limit)
    ensures WithinLimit([c0] + rest, limit)
  {
  }

  /** With `limit >= 1` the count never passes the limit, every poll is
      issued with at least one message left to take (`limit - count >= 1`
      for the count before it), and a stopped loop has taken exactly
      `limit`. */
  lemma {:induction false} FetchBoundedCounts(polls: seq<PollResult>, verbose: Int32, limit: Int32, count: int)
    requires 1 <= limit && 0 <= count < limit
    ensures var r := FetchFrom(polls, verbose, limit, count);
      WithinLimit(r.counts, limit) && r.count <= limit && (r.stopped <==> r.count == limit)
    decreases |polls|
  {
    if |polls| > 0 {
      var r := FetchFrom(polls, verbose, limit, count);
      var step := PollStep(polls[0], verbose, limit, count);
      BoundedPoll(polls[0], verbose, limit, count);
      if Stop(step.count, limit) {
        assert r.counts == [step.count] + [];
        WithinLimitCons(step.count, [], limit);
      } else {
        var rest := FetchFrom(polls[1..], verbose, limit, step.count);
        assert r.counts == [step.count] + rest.counts;
        FetchBoundedCounts(polls[1..], verbose, limit, step.count);
        WithinLimitCons(step.count, rest.counts, limit);
      }
    }
  }

  /** The poll that completes the limit: its first `left` records are the
      first `left` of everything delivered from it on. */
  lemma LinesTakeWithin(first: seq<Record>, later: seq<Record>, left: nat, verbose: Int32)
    requires left <= |first|
    ensures Lines(first[..left], verbose) == Lines((first + later)[..Min(|first + later|, left)], verbose)
  {
    assert (first + later)[..left] == first[..left];
  }

  /** A poll that does not complete the limit: all its records, then the
      first `m` later ones, are the first `|first| + m` of everything. */
  lemma LinesTakePast(first: seq<Record>, later: seq<Record>, left: nat, verbose: Int32)
    requires |first| < left
    ensures var m := Min(|later|, left - |first|);
      Lines(first[..|first|], verbose) + Lines(later[..m], verbose)
        == Lines((first + later)[..Min(|first + later|, left)], verbose)
  {
    var m := Min(|later|, left - |first|);
    assert first[..|first|] == first;
    assert (first + later)[..Min(|first + later|, left)] == first + later[..m];
    LinesAppend(first, later[..m], verbose);
  }

  /** A poll issued with `limit - count >= 1` writes the first
      `min(limit - count, delivered)` records it delivered. */
  lemma BoundedPoll(p: PollResult, verbose: Int32, limit: Int32, count: int)
    requires 1 <= limit && 0 <= count < limit
    ensures var s := PollStep(p, verbose, limit, count);
      |s.lines| == Min(|PollRecords(p)|, limit - count) &&
      s.lines == Lines(PollRecords(p)[..|s.lines|], verbose)
  {
  }

  /** With `limit >= 1` the loop stops exactly when the polls have
      delivered `limit - count` records. */
  lemma {:induction false} FetchBoundedStops(polls: seq<PollResult>, verbose: Int32, limit: Int32, count: int)
    requires 1 <= limit && 0 <= count < limit
    ensures FetchFrom(polls, verbose, limit, count).stopped <==> |AllRecords(polls)| >= limit - count
    decreases |polls|
  {
    if |polls| > 0 {
      var first := PollRecords(polls[0]);
      var step := PollStep(polls[0], verbose, limit, count);
      BoundedPoll(polls[0], verbose, limit, count);
      assert |AllRecords(polls)| == |first| + |AllRecords(polls[1..])|;
      if !Stop(step.count, limit) {
        assert FetchFrom(polls, verbose, limit, count).stopped == FetchFrom(polls[1..], verbose, limit, step.count).stopped;
        FetchBoundedStops(polls[1..], verbose, limit, step.count);
      }
    }
  }

  /** With `limit >= 1` the loop writes the first `limit - count` records
      the polls deliver, across polls and partition sets, in order. */
  lemma {:induction false} FetchBoundedOutput(polls: seq<PollResult>, verbose: Int32, limit: Int32, count: int)
    requires 1 <= limit && 0 <= count < limit
    ensures var all := AllRecords(polls);
      FetchFrom(polls, verbose, limit, count).lines == Lines(all[..Min(|all|, limit - count)], verbose)
    decreases |polls|
  {
    if |polls| > 0 {
      var r := FetchFrom(polls, verbose, limit, count);
      var first := PollRecords(polls[0]);
      var later := AllRecords(polls[1..]);
      var step := PollStep(polls[0], verbose, limit, count);
      BoundedPoll(polls[0], verbose, limit, count);
      var left := limit - count;
      var all := AllRecords(polls);
      assert all == first + later;
      if Stop(step.count, limit) {
        assert |step.lines| == left;
        assert r.lines == Lines(first[..left], verbose);
        LinesTakeWithin(first, later, left, verbose);
        assert r.lines == Lines(all[..Min(|all|, left)], verbose);
      } else {
        var rest := FetchFrom(polls[1..], verbose, limit, step.count);
        assert |step.lines| == |first| && step.count == count + |first|;
        FetchBoundedOutput(polls[1..], verbose, limit, step.count);
        assert rest.lines == Lines(later[..Min(|later|, left - |first|)], verbose);
        assert r.lines == Lines(first[..|first|], verbose) + rest.lines;
        LinesTakePast(first, later, left, verbose);
        assert r.lines == Lines(all[..Min(|all|, left)], verbose);
      }
    }
  }

  /** The records of the first `n` polls: the first poll's, then those of
      the next `n - 1`. */
  lemma AllRecordsPrefix(polls: seq<PollResult>, n: nat)
    requires 1 <= n <= |polls|
    ensures AllRecords(polls[..n]) == PollRecords(polls[0]) + AllRecords(polls[1..][..n - 1])
  {
    assert polls[..n][1..] == polls[1..][..n - 1];
  }

  /** The loop issues no poll after the one that completes the limit: the
      polls before the last one delivered fewer than `limit - count`
      records, and the polls up to it at least that many. */
  lemma {:induction false} FetchPollsNeeded(polls: seq<PollResult>, verbose: Int32, limit: Int32, count: int)
    requires 1 <= limit && 0 <= count < limit
    requires FetchFrom(polls, verbose, limit, count).stopped
    ensures var n := |FetchFrom(polls, verbose, limit, count).counts|;
      |AllRecords(polls[..n - 1])| < limit - count <= |AllRecords(polls[..n])|
    decreases |polls|
  {
    var r := FetchFrom(polls, verbose, limit, count);
    var n := |r.counts|;
    var step := PollStep(polls[0], verbose, limit, count);
    var k := |PollRecords(polls[0])|;
    BoundedPoll(polls[0], verbose, limit, count);
    AllRecordsPrefix(polls, n);
    if Stop(step.count, limit) {
      assert r.counts == [step.count];
      assert polls[..0] == [];
    } else {
      var rest := FetchFrom(polls[1..], verbose, limit, step.count);
      assert r.counts == [step.count] + rest.counts;
      assert rest.stopped && 1 <= |rest.counts| == n - 1;
      assert step.count == count + k;
      FetchPollsNeeded(polls[1..], verbose, limit, step.count);
      AllRecordsPrefix(polls, n - 1);
    }
  }

  /** With a negative limit the loop never stops on its own: it takes every
      poll and writes every record delivered. */
  lemma {:induction false} FetchUnbounded(polls: seq<PollResult>, verbose: Int32, limit: Int32, count: int)
    requires limit < 0 && 0 <= count
    ensures var r := FetchFrom(polls, verbose, limit, count);
      !r.stopped && |r.counts| == |polls| && r.lines == Lines(AllRecords(polls), verbose)
    decreases |polls|
  {
    if |polls| > 0 {
      var first := PollRecords(polls[0]);
      var step := PollStep(polls[0], verbose, limit, count);
      assert first[..|first|] == first;
      FetchUnbounded(polls[1..], verbose, limit, step.count);
      LinesAppend(first, AllRecords(polls[1..]), verbose);
    }
  }

  /** Every negative limit behaves the same. */
  lemma {:induction false} NegativeLimitsAgree(polls: seq<PollResult>, verbose: Int32, l1: Int32, l2: Int32, count: int)
    requires l1 < 0 && l2 < 0 && 0 <= count
    ensures FetchFrom(polls, verbose, l1, count) == FetchFrom(polls, verbose, l2, count)
    decreases |polls|
  {
    if |polls| > 0 {
      var step := PollStep(polls[0], verbose, l1, count);
      assert step == PollStep(polls[0], verbose, l2, count);
      NegativeLimitsAgree(polls[1..], verbose, l1, l2, step.count);
    }
  }

  /** With limit 0 the loop polls exactly once and writes at most the first
      record of that poll. */
  lemma FetchZeroLimit(polls: seq<PollResult>, verbose: Int32)
    requires 0 < |polls|
    ensures var r := Fetch(polls, verbose, 0);
      var first := PollRecords(polls[0]);
      r.stopped && |r.counts| == 1 && r.lines == Lines(first[..Min(1, |first|)], verbose)
  {
  }

  /** With a non-negative limit every count the loop reaches, and every
      `limit - count` it computes from one, fits in an `i32`. */
  lemma FetchCountsFitInt32(polls: seq<PollResult>, verbose: Int32, limit: Int32)
    requires 0 <= limit
    ensures var r := Fetch(polls, verbose, limit);
      forall i :: 0 <= i < |r.counts| ==> 0 <= r.counts[i] < 0x8000_0000 && -0x8000_0000 <= limit - r.counts[i] < 0x8000_0000
  {
    FetchCountsTrace(polls, verbose, limit, 0);
    if limit == 0 {
      if 0 < |polls| {
        FetchZeroLimit(polls, verbose);
      }
    } else {
      FetchBoundedCounts(polls, verbose, limit, 0);
    }
  }

  // ---------------------------------------------------------------------
  // consume
  // ---------------------------------------------------------------------

  /** `All` carries no limit, so consuming it writes every record of every
      poll and never stops on its own. */
  lemma ConsumeAllIsUnbounded(c: KtoolsConsumer, polls: seq<PollResult>)
    requires c.topicConfig.offsetPosition == All
    ensures var r := Consume(c, polls);
      !r.stopped && |r.counts| == |polls| && r.lines == Lines(AllRecords(polls), c.verbose)
  {
    FetchUnbounded(polls, c.verbose, UNBOUNDED, 0);
  }

  /** `Head{limit}` and `Tail{limit}` with `limit >= 1` write the first
      `limit` records delivered and stop exactly when that many arrived. */
  lemma ConsumeLimited(c: KtoolsConsumer, polls: seq<PollResult>)
    requires !c.topicConfig.offsetPosition.All? && 1 <= c.topicConfig.offsetPosition.limit
    ensures var n := c.topicConfig.offsetPosition.limit;
      var r := Consume(c, polls);
      var all := AllRecords(polls);
      r.lines == Lines(all[..Min(|all|, n)], c.verbose) && (r.stopped <==> n <= |all|)
  {
    FetchBoundedOutput(polls, c.verbose, c.topicConfig.offsetPosition.limit, 0);
    FetchBoundedStops(polls, c.verbose, c.topicConfig.offsetPosition.limit, 0);
  }

  /** `Head` and `Tail` with a negative limit run unbounded, like `All`. */
  lemma ConsumeNegativeLimit(c: KtoolsConsumer, polls: seq<PollResult>)
    requires !c.topicConfig.offsetPosition.All? && c.topicConfig.offsetPosition.limit < 0
    ensures var r := Consume(c, polls);
      !r.stopped && r.lines == Lines(AllRecords(polls), c.verbose)
  {
    FetchUnbounded(polls, c.verbose, c.topicConfig.offsetPosition.limit, 0);
  }

  /** The requested message format has no effect on what is written. */
  lemma ConsumeIgnoresFormat(c: KtoolsConsumer, f: MessageFormat, polls: seq<PollResult>)
    ensures Consume(c.(topicConfig := c.topicConfig.(format := f)), polls) == Consume(c, polls)
  {
  }

  // ---------------------------------------------------------------------
  // A worked run
  // ---------------------------------------------------------------------

  /** A single poll returning one partition set that holds at least the
      limit: exactly that set's first `limit` messages are written, and the
      loop stops after that poll. */
  lemma OnePollLimited(c: KtoolsConsumer, partitionSet: MessageSet)
    requires !c.topicConfig.offsetPosition.All?
    requires 1 <= c.topicConfig.offsetPosition.limit <= |partitionSet.messages|
    ensures var n := c.topicConfig.offsetPosition.limit;
      var r := Consume(c, [Ok([partitionSet])]);
      r.stopped && r.counts == [n] && r.lines == Lines(SetRecords(partitionSet)[..n], c.verbose)
  {
    var n := c.topicConfig.offsetPosition.limit;
    var polls := [Ok([partitionSet])];
    ConsumeLimited(c, polls);
    assert polls[1..] == [] && [partitionSet][1..] == [];
    assert Flatten([partitionSet]) == SetRecords(partitionSet) + Flatten([]);
    assert AllRecords(polls) == SetRecords(partitionSet);
    FetchBoundedCounts(polls, c.verbose, n, 0);
  }

  /** `khead -n 3` against one partition holding offsets 10 to 14, with the
      verbosity `main` passes: one poll returns all five, exactly the first
      three are written, in offset order, and the loop stops. */
  lemma HeadOfOnePartition(topic: seq<Byte>, payloads: seq<seq<Byte>>)
    requires |payloads| == 5
    ensures var ms := seq(5, i requires 0 <= i < 5 => Message(10 + i, payloads[i]));
      var brokers := MessageServerConfig(["localhost:9092"], Kafka);
      var config := TopicConfig("orders", Head(3), JSON, 1000_1000);
      var r := Consume(New(brokers, config, 10), [Ok([MessageSet(topic, 0, ms)])]);
      r.stopped && r.counts == [3] &&
      r.lines == [FormatLine(topic, 0, Message(10, payloads[0]), 10),
                  FormatLine(topic, 0, Message(11, payloads[1]), 10),
                  FormatLine(topic, 0, Message(12, payloads[2]), 10)]
  {
    var ms := seq(5, i requires 0 <= i < 5 => Message(10 + i, payloads[i]));
    var c := New(MessageServerConfig(["localhost:9092"], Kafka), TopicConfig("orders", Head(3), JSON, 1000_1000), 10);
    var partitionSet := MessageSet(topic, 0, ms);
    var rs := SetRecords(partitionSet);
    OnePollLimited(c, partitionSet);
    LinesIndex(rs[..3], 10);
    assert rs[0] == Record(topic, 0, Message(10, payloads[0]));
    assert rs[1] == Record(topic, 0, Message(11, payloads[1]));
    assert rs[2] == Record(topic, 0, Message(12, payloads[2]));
  }
}
