# ktools `khead`: bounded Kafka consumption, in Dafny

This project models the consumption engine of the ktools `khead` command. It covers:

- the configuration records it is built from (`src/base.rs`);
- the consumer it builds (`KtoolsConsumer::new`);
- the `consume`, `fetch` and `display` loops that write fetched Kafka messages to standard output, one line each, until a message limit is reached.

How the model is set up:

- Standard output is the sequence of lines written.
- The broker's `poll()` is a finite sequence of poll results. Each result is a batch of per-partition message sets, or an error.
- Integers are unbounded. Rust's `i32`/`i64`/`u8` fields are subset types (`Int32`, `Int64`, `Byte`).

Modules:

- `Base` (`base.dfy`): read positions, formats, server and topic configurations, and their `Clone` impls.
- `Decimal` (`decimal.dfy`): the `{}` rendering of an integer and a parser that inverts it.
- `Messages` (`messages.dfy`): messages, message sets, batches and poll results. Also the reference order in which records are delivered (`Flatten`, `AllRecords`).
- `KHead` (`khead.dfy`): the consumer, line formatting, `display` as two nested folds (`ShowSets` over `ShowMessages`), and `fetch`/`consume` as a fold over the poll results (`FetchFrom`).
- `KHeadProofs` (`khead_proofs.dfy`): the loop-level properties. Each one compares what the loops write against the independent reference `Lines(AllRecords(polls)[..n])`, meaning the first `n` delivered records formatted one line each.

Behaviour that follows the code:

- **Limit 0.** `display` and `fetch` test `count >= limit && limit >= 0` only *after* writing a message. So `Head{limit: 0}` still writes one message when the first poll delivers any (`DisplayZeroLimit`, `FetchZeroLimit`). The doc comment at `src/khead.rs:32` says "consume first n messages", which for n = 0 would write none. The model follows the code.
- **Tail.** `Tail{limit}` only selects the `Latest` fallback offset. It then writes the next `limit` messages that arrive, not the last `limit` messages already in the topic. The model follows the code.
- **Follow and commit.** The code has no follow mode and no offset commit, so neither is modelled.

Places where the Rust source does not compile as written, and how the model reads them:

- `fetch(limit)` is called without `self.` (`src/khead.rs:70-76`). It is read as `self.fetch(limit)`.
- `Ok=>` / `Err=>` are patterns without bindings (`src/khead.rs:86-90`). They are read as `Ok(ms)` / `Err(_)`.
- The result of `cb.with_fallback_offset(...)` is discarded (`src/khead.rs:53-56`). The builder's `with_*` methods take the builder by value, so `cb` is moved and `cb.create()` at line 58 would not compile. It is read as `cb = cb.with_fallback_offset(...)`, so the chosen fallback offset reaches the consumer.
- `ReadPosition::Head` and `ReadPosition::Tail` are matched without their `limit` fields (`src/khead.rs:54`). They are read as `Head{..}` / `Tail{..}`.
- `ms.topic()` and `ms.partition()` are called on the whole batch (`src/khead.rs:112`). `MessageSets` has no such methods. They are read as the current message set's `i.topic()` and `i.partition()`.
- `#[derive(Copy, Clone)]` is applied to structs with `Vec`/`String` fields and also comes with a manual `Clone` (`src/base.rs:47-72`). `ReadPosition` has no `Clone` at all (`src/khead.rs:67`). Every clone is read as a field-by-field copy.

## Model

| member | source | states |
|---|---|---|
| Base.ClonePosition | src/khead.rs:67 | cloning the read position yields an equal position, case and limit included |
| Base.CloneServerConfig | src/base.rs:62-66 | the cloned server configuration equals the original: same brokers in the same order, same server type |
| Base.CloneTopicConfig | src/base.rs:68-72 | the cloned topic configuration equals the original in topic, position, format and max-bytes |
| Decimal.NatDigits | src/khead.rs:112 | a non-negative number renders as at least one decimal digit, with no leading zero |
| Decimal.IntToDecimal | src/khead.rs:112 | the rendering is non-empty, starts with '-' exactly for negative numbers, and is otherwise all digits |
| Decimal.DigitsValueOfNatDigits | src/khead.rs:112 | reading back the digits of `n` yields `n` |
| Decimal.DecimalRoundTrip | src/khead.rs:112 | parsing the rendering of any integer yields that integer |
| Decimal.DecimalInjective | src/khead.rs:112 | distinct partitions or offsets never render to the same text |
| Messages.FlattenSize | src/khead.rs:105-106 | the records of a batch, walked set by set, number exactly the batch's messages |
| KHead.FallbackOffset | src/khead.rs:52-56 | `Head` and `All` start at the earliest offset, `Tail` at the latest, and these are the only cases of each |
| KHead.New | src/khead.rs:45-64 | the consumer uses the configured brokers, topic and per-partition max bytes, a min fetch of 1000 bytes, `Latest` exactly for `Tail`, and keeps the two configurations and the verbosity |
| KHead.ConsumeLimit | src/khead.rs:66-79 | `Head`/`Tail` run with their own limit and `All` with exactly -1; the limit is negative exactly for `All` or a negative `Head`/`Tail` limit |
| KHead.FormatLine | src/khead.rs:107-116 | a line is as long as the header (only when verbose is non-zero), the payload and one newline together; nothing of an earlier message is kept |
| KHead.FormatLineShape | src/khead.rs:107-116 | every line ends in a newline right after the payload; it is only payload plus newline exactly when verbose is 0, and otherwise it is `topic:partition@offset:` directly followed by the payload and the newline |
| KHead.LinesIndex | src/khead.rs:105-118 | the i-th line written is the i-th record formatted |
| KHead.LinesAppend | src/khead.rs:105-118 | formatting two record runs one after the other gives the lines of their concatenation |
| KHead.ShowMessages | src/khead.rs:106-123 | the inner loop writes at most one line per message of the partition set and raises the count by exactly the number of lines written |
| KHead.ShowMessagesWalk | src/khead.rs:106-123 | the inner loop writes the partition's messages in order; it stops early only when the limit test fires and never passes a count at which it would have fired |
| KHead.ShowSets | src/khead.rs:105-125 | the outer loop raises the count by exactly the number of lines written across the partition sets |
| KHead.ShowSetsWalk | src/khead.rs:105-125 | the nested loops write the batch's records set by set, message by message; they stop only when the limit test fires, and otherwise write all of them |
| KHead.Display | src/khead.rs:100-126 | display returns `min(n, limit)` lines for `limit >= 1`, all `n` for a negative limit, and `min(n, 1)` for limit 0; the lines written are the first that many records of the batch, formatted |
| KHead.PollStep | src/khead.rs:84-93 | a successful poll adds what display writes under `limit - count`; a failed poll writes nothing and leaves the count unchanged |
| KHead.FetchFrom | src/khead.rs:81-98 | the count grows by the lines written; the loop stops exactly when the count after a poll satisfies the stop test, and otherwise consumes every poll |
| KHead.Fetch | src/khead.rs:81-88 | starting from `count = 0`, the count the loop ends with is the number of lines written |
| KHead.Consume | src/khead.rs:66-79 | consuming `All` never stops on its own; a stopped run wrote at least one line unless the limit was 0 |
| KHeadProofs.DecimalHasNoSeparators | src/khead.rs:112 | a rendered partition or offset contains neither ':' nor '@' |
| KHeadProofs.VerboseLineRoundTrip | src/khead.rs:109-116 | a verbose line parses back into exactly its topic, partition, offset and payload when the topic has no ':' |
| KHeadProofs.PlainLineIsPayload | src/khead.rs:109-110 | with verbose 0 a line is exactly the payload plus a newline |
| KHeadProofs.DisplayCapped | src/khead.rs:119-121 | with `limit >= 1` display writes the first `min(limit, n)` records of the batch, in order |
| KHeadProofs.DisplayUnbounded | src/khead.rs:100-126 | with a negative limit display writes every record and returns the batch's message count |
| KHeadProofs.DisplayZeroLimit | src/khead.rs:119-121 | with limit 0 display still writes the batch's first record and returns 1 |
| KHeadProofs.FetchCountsTrace | src/khead.rs:82-96 | the count never decreases across polls; a failed poll leaves it unchanged; only the last poll's count can satisfy the stop test |
| KHeadProofs.FetchBoundedCounts | src/khead.rs:87-96 | with `limit >= 1` no count exceeds the limit, each poll is issued with at least one message left, and the loop stops exactly at `count == limit` |
| KHeadProofs.BoundedPoll | src/khead.rs:87-88 | a poll issued with `limit - count >= 1` left writes the first `min(left, delivered)` records it delivered |
| KHeadProofs.FetchBoundedStops | src/khead.rs:83-96 | with `limit >= 1` the loop stops exactly when the polls delivered at least `limit - count` records |
| KHeadProofs.FetchBoundedOutput | src/khead.rs:83-96 | with `limit >= 1` the loop writes exactly the first `limit - count` delivered records, across polls and partition sets, in order |
| KHeadProofs.FetchPollsNeeded | src/khead.rs:94-96 | a stopped loop issued no poll beyond the one that completed the limit |
| KHeadProofs.FetchUnbounded | src/khead.rs:81-98 | with a negative limit the loop never stops on its own and writes every delivered record in order |
| KHeadProofs.NegativeLimitsAgree | src/khead.rs:94 | all negative limits give the same run, given unbounded counts (see Left out) |
| KHeadProofs.FetchZeroLimit | src/khead.rs:94-96 | with limit 0 the loop stops after the first poll, having written at most that poll's first record |
| KHeadProofs.FetchCountsFitInt32 | src/khead.rs:82-88 | with a non-negative limit every count the loop reaches, and the `limit - count` computed from it, stays within `i32` |
| KHeadProofs.ConsumeAllIsUnbounded | src/khead.rs:75-77 | consuming `All` takes every poll and writes every delivered record |
| KHeadProofs.ConsumeLimited | src/khead.rs:68-74 | `Head{n}`/`Tail{n}` with `n >= 1` write the first `n` delivered records and stop exactly when `n` arrived |
| KHeadProofs.ConsumeNegativeLimit | src/khead.rs:68-74 | `Head`/`Tail` with a negative limit behave like `All` |
| KHeadProofs.ConsumeIgnoresFormat | src/base.rs:58 | the configured message format has no effect on the output |
| KHeadProofs.OnePollLimited | src/khead.rs:66-98 | `Head{n}`/`Tail{n}` with `n >= 1` and one poll returning a partition set of at least `n` messages write exactly that set's first `n` messages and stop after that poll, with count `n` |
| KHeadProofs.HeadOfOnePartition | src/khead.rs:163-171 | with `main`'s configuration, `-n 3` against one partition at offsets 10 to 14 writes offsets 10, 11 and 12 in verbose form and then stops |

## Left out

- The command-line front end (`main`, `print_usage`, option parsing), and the `kls` and `kecho` commands. They are not part of the consumption engine. Only `main`'s configuration values appear, in `HeadOfOnePartition`.
- The Kafka client: the consumer builder, the network, `poll()` itself and its timing. A run of polls is an input sequence of `Ok(batch)` / `Err`.
- KHead.New: the `unwrap` panic when the builder fails is not modelled. `New` always returns a consumer, and the `Err` result of `new` is never produced.
- The `Err` branch's `println!` message is not modelled. Only what reaches standard output from `display` is modelled.
- Writing to a locked stdout and the reuse of one buffer. Each line is modelled as a fresh byte sequence. `unsafe { buf.set_len(0) }` is modelled as starting from an empty buffer, and write errors are ignored, as the code ignores them.
- KHead.FetchFrom: the real loop does not end unless the limit is reached. With a negative limit it polls forever. The model runs over a finite sequence of polls and ends when they run out, with `stopped == false`.
- KHead.FetchFrom: `i32` overflow is not modelled; counts are unbounded integers. With a negative limit, `count` leaves `i32` after 2^31 messages. `limit - count` at `src/khead.rs:87` leaves it sooner, once `count > limit + 2^31`: for `-n -2147483648`, which `main` accepts, that is after a single message. The next successful poll then panics with overflow checks on, or passes a wrapped, large positive cap to `display` without them. `FetchCountsFitInt32` shows that no overflow can happen with a non-negative limit.
- KHeadProofs.NegativeLimitsAgree: all negative limits give the same run only in the model. In the source this holds only while `count <= limit + 2^31`, which for `limit = -2^31` means at most the first message. This follows from the unbounded counts above.
- Message keys and the consumer's other per-message metadata. `display` never reads them.
- Topic names are modelled as their UTF-8 bytes (`seq<Byte>`) in messages, and as `string` in configurations. The encoding step between the two is not modelled.
- The JSON/Text format distinction. The code never reads it; `ConsumeIgnoresFormat` states this.
- `ReadPosition` has exactly three cases, `Head`, `Tail` and `All`. This holds by construction, because it is a Dafny datatype and every `match` on it is checked for exhaustiveness. So no separate lemma states it.
- Re-formatting a message giving identical bytes holds by construction: `FormatLine` is a pure function of the message set's topic and partition, the message and the verbosity. `LinesIndex` states that each line depends only on its own record.
