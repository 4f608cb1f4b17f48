# Centralized Computing System — a Dafny model of its server core

The Centralized Computing System (CCS) is a small network compute service. A
client finds the server by broadcasting the UDP probe `CCS DISCOVER` and
receives `CCS FOUND` back. It then opens a TCP connection and sends lines such
as `ADD 10 0`. Each line gets one line back: the decimal result, or `ERROR`.
The server keeps two sets of `Statistics` counters:

- a *rolling* set, `lastStatistics`, which the accept loop and the client
  handlers write into;
- a *cumulative* set, `overallStatistics`, into which a reporter merges the
  rolling set every ten seconds before clearing it.

The model covers:

- **Java `int` arithmetic** (`java_int.dfy`, module `JavaInt`): the signed
  32-bit range; the wrap-around of `AtomicInteger` updates (`Add32`, `Wrap`);
  and Java's `/`, which truncates toward zero, with `MIN_VALUE / -1 ==
  MIN_VALUE` (section 15.17.2 of the Java Language Specification).
- **Operand text** (`decimal.dfy`, module `Decimal`): `Integer.parseInt` in
  radix 10 (`ParseInt`) and the decimal text `println(int)` writes (`ToDecimal`).
- **Tokenising** (`tokens.dfy`, module `Tokens`): `String.split(" ")`. A line
  without a space comes back whole. Otherwise the line is cut at every single
  space, and the trailing empty pieces are dropped.
- **The per-line protocol** (`operations.dfy` and `protocol.dfy`, modules
  `Operations` and `Protocol`). `Respond` decides one request line in the order
  `handleClient` does:
  1. the line must split into exactly three tokens;
  2. both operands must parse;
  3. the operation is matched;
  4. the operation is evaluated with `Math.addExact`, `Math.subtractExact`,
     `Math.multiplyExact` or checked division.

  `Response` gives the text written back.
- **The counters** (`statistics.dfy`, module `Statistics`). `Counters` is the
  value the five fields hold. `Merge` and `Sum` are `summarize` on values. The
  class `Statistics` has the five fields and the seven operations, each
  specified by what it does to `Snapshot()`.
- **Discovery** (`discovery.dfy`, module `Discovery`): the 12-byte receive
  buffer, the probe check and the reply, and the responder loop over a stream
  of received datagrams.
- **The server object** (`server.dfy`, module `Server`). The class `CCS` holds
  the two `Statistics` objects. Its methods are the accept loop, the
  `handleClient` loop over the lines of one connection, and one reporter tick.
  A ghost history of the merged snapshots carries the invariant that the
  cumulative counters are the sum of every rolling snapshot merged so far.
  `Outcomes`, `Apply` and the `Apply…` lemmas state what a connection's lines
  do to the rolling counters.
- **Scenarios** (`scenarios.dfy`, module `Scenarios`): concrete request lines
  and what is answered to each.

Where the system's design description and the code disagree, the model
follows the code:

- **New connections.** Every accepted socket increments `newConnectedClients`
  (`src/CCS.java:79`). There is no set of peers already seen.
- **Probe check.** The probe is compared after the datagram is cut to the
  12-byte buffer (`src/CCS.java:55-63`). So any payload that *starts* with
  `CCS DISCOVER` is answered, not only that exact payload
  (`Discovery.ProbeWithTrailingBytes`).
- **Discovery and the counters.** The UDP responder does not touch the counters.
- **Counter width.** Every counter is a 32-bit `AtomicInteger` and wraps
  around. The design description has 64-bit counters.
- **Division overflow.** `DIV -2147483648 -1` is not an error. It answers
  `-2147483648`, as Java's `/` does.

## Model

| member | source | states |
|---|---|---|
| JavaInt.Wrap | src/Statistics.java:18-32 | the `int` two's-complement arithmetic leaves for a mathematical value; it is the value itself whenever that fits in an `int` |
| JavaInt.Add32 | src/Statistics.java:18-32 | an `AtomicInteger` increment or add is the exact sum whenever that sum fits in an `int` |
| JavaInt.Add32IsWrap | src/Statistics.java:30-32 | `addAndGet` is the two's-complement wrap of the mathematical sum, for all operands |
| JavaInt.Add32OfWrap | src/Statistics.java:30-32 | adding to a wrapped running total gives the wrap of the new mathematical total |
| JavaInt.Add32Associates | src/Statistics.java:38-44 | wrapping addition is associative, so merging counters does not depend on grouping |
| JavaInt.WrapCharacterization | src/Statistics.java:30-32 | the wrapped value differs from the sum by a multiple of 2^32, and it is the only `int` that does |
| JavaInt.WrapAdd | src/Statistics.java:30-32 | wrapping an intermediate total does not change the wrapped final total |
| JavaInt.JavaDiv | src/CCS.java:135 | `arg1 / arg2` truncates toward zero: the remainder is smaller than the divisor in magnitude and is zero or has the dividend's sign; `MIN_VALUE / -1` is `MIN_VALUE`; in all cases the result is the wrap of the truncated quotient |
| JavaInt.TruncDivIsTruncated | src/CCS.java:135 | the magnitude-based quotient satisfies the truncated-division property |
| JavaInt.TruncatedQuotientUnique | src/CCS.java:135 | at most one integer satisfies the truncated-division property, so `JavaDiv` is pinned down by it |
| JavaInt.TruncDivRange | src/CCS.java:135 | the truncated quotient of two `int`s fits in an `int` exactly when the operands are not `MIN_VALUE` and `-1` |
| Decimal.ParseInt | src/CCS.java:107-110 | a token parses exactly when it is an optional `-` or `+` followed by at least one digit and its value fits in an `int`; the value is that of the digits, negated after `-`; so `+5`, `007` and `-0` parse |
| Decimal.ParseRejectsNonDigit | src/CCS.java:107-116 | a token holding a character that is neither a digit nor a leading sign is a `NumberFormatException` |
| Decimal.NatToDecimal | src/CCS.java:148 | the text of a natural number is non-empty, all digits, has no leading zero and has the number's value |
| Decimal.ToDecimal | src/CCS.java:148 | the text of an `int` is its magnitude's digits with no leading zero, preceded by `-` exactly when it is negative |
| Decimal.ParseToDecimal | src/CCS.java:148 | reading a written result back with `Integer.parseInt` gives the same `int` |
| Decimal.DecimalInjective | src/CCS.java:148 | different results are written as different text |
| Tokens.Fields | src/CCS.java:94 | the pieces between single spaces contain no space and join back into the line |
| Tokens.DropTrailingEmpty | src/CCS.java:94 | removing trailing empty tokens keeps a prefix whose last token is not empty, and drops only empty tokens |
| Tokens.Split | src/CCS.java:94 | no token of `split(" ")` contains a space |
| Tokens.SplitShape | src/CCS.java:94 | a line without a space is one token; otherwise the tokens are the pieces between spaces, minus trailing empty ones |
| Tokens.SplitJoin | src/CCS.java:94 | splitting space-free tokens joined by single spaces gives them back, if the last is not empty |
| Tokens.SplitTrailingSpace | src/CCS.java:94 | for space-free tokens whose last token is not empty, a space after their single-space join does not change the split |
| Tokens.FieldsJoin | src/CCS.java:94 | cutting a joined line at its spaces gives back every piece, empty ones included |
| Operations.ParseOp | src/CCS.java:121-139 | the `switch` matches a token exactly when it is the name of one of the four operations, and picks that operation |
| Operations.ParseOpName | src/CCS.java:121-139 | every operation's own name selects it |
| Protocol.Respond | src/CCS.java:94-146 | the decision on one line: token count first, then both operands, then the operation name, then the evaluation; its meaning is stated by the `Respond…` lemmas below |
| Protocol.Evaluate | src/CCS.java:120-146 | ADD, SUB and MUL give the exact result when it fits and `Overflow` otherwise; DIV fails exactly on a zero divisor and otherwise truncates toward zero; `MIN_VALUE / -1` gives `MIN_VALUE` |
| Protocol.Response | src/CCS.java:96-148 | the answer is `ERROR` exactly for the failed outcomes |
| Protocol.ResponseReadsBack | src/CCS.java:148 | a computed answer parses back to the computed `int` |
| Protocol.RespondMalformed | src/CCS.java:94-101 | a line fails as malformed exactly when it does not split into three tokens |
| Protocol.RespondNonInteger | src/CCS.java:104-116 | with three tokens, a line fails on its operands exactly when one of them does not parse, whatever the operation token |
| Protocol.RespondUnknownOp | src/CCS.java:121-145 | with three tokens and two good operands, a line fails as an unknown operation exactly when the first token names none of the four |
| Protocol.RespondComputed | src/CCS.java:93-154 | a computed line has three tokens, names its operation exactly, has two parsing operands and carries their evaluation |
| Protocol.RespondParsed | src/CCS.java:94-146 | any line of three tokens whose operands parse and whose first token names an operation is answered with that operation's evaluation of the parsed operands, whatever form the operands take |
| Protocol.RequestTokens | src/CCS.java:94 | a request written as operation, operand and operand with single spaces splits into those three tokens, with or without a trailing space |
| Protocol.RespondRequest | src/CCS.java:93-154 | every well-formed request is answered with exactly its operation's evaluation on its operands |
| Protocol.RespondTrailingSpace | src/CCS.java:94-101 | a request followed by a space is answered as the request itself |
| Protocol.RespondDoubleSpace | src/CCS.java:94-101 | a request with a doubled first separator has an empty extra token and is malformed |
| Statistics.Zero | src/Statistics.java:12-16 | new counters are all zero, with exactly the four operation names as keys |
| Statistics.Merge | src/Statistics.java:38-44 | merging keeps the key set of the aggregate merged into |
| Statistics.Sum | src/Statistics.java:38-44 | the total of a sequence of snapshots keeps the four keys |
| Statistics.MergeZero | src/Statistics.java:38-52 | merging cleared counters changes nothing, on either side |
| Statistics.MergeCommutes | src/Statistics.java:38-44 | merging counters with the same keys is commutative |
| Statistics.MergeAssociates | src/Statistics.java:38-44 | merging counters with the same keys is associative |
| Statistics.SumAppend | src/Statistics.java:38-44 | merging one more snapshot into a running total gives the total of all of them |
| Statistics.Statistics.constructor | src/Statistics.java:12-16 | a new object holds zero counters keyed by the four operation names |
| Statistics.Statistics.IncrementNewConnectedClients | src/Statistics.java:18-20 | only `newConnectedClients` changes, by a wrapping increment |
| Statistics.Statistics.IncrementComputedRequests | src/Statistics.java:22-24 | only `computedRequests` changes, by a wrapping increment |
| Statistics.Statistics.IncrementIncorrectOperations | src/Statistics.java:26-28 | only `incorrectOperations` changes, by a wrapping increment |
| Statistics.Statistics.AddValuesComputedSum | src/Statistics.java:30-32 | only `valuesComputedSum` changes, by a wrapping add of the value |
| Statistics.Statistics.IncrementOperationStats | src/Statistics.java:34-36 | only the named operation's count changes, by a wrapping increment; the name must be one of the four keys |
| Statistics.Statistics.Summarize | src/Statistics.java:38-44 | every counter of `stats`, per-operation ones key by key, is added into this object, and `stats` is left unchanged |
| Statistics.Statistics.Clear | src/Statistics.java:46-52 | every counter becomes zero and the key set is kept |
| Discovery.Ascii | src/CCS.java:64 | the bytes of an ASCII text are its character codes, one per character |
| Discovery.Received | src/CCS.java:55-60 | the received message is the payload cut to the 12-byte buffer |
| Discovery.ProbePrefix | src/CCS.java:55-63 | a datagram counts as a probe exactly when its payload starts with `CCS DISCOVER` |
| Discovery.IsProbe | src/CCS.java:60-63 | the received bytes are exactly `CCS DISCOVER`; `Discovery.ProbePrefix` states what that means for the payload |
| Discovery.Reply | src/CCS.java:63-67 | a reply is sent exactly for a probe; it carries `CCS FOUND` to the sender's address and port |
| Discovery.ProbeWithTrailingBytes | src/CCS.java:55-67 | a probe followed by further bytes is still answered |
| Discovery.Replies | src/CCS.java:57-67 | the responder sends at most one reply per received datagram, each carrying `CCS FOUND` |
| Discovery.Probes | src/CCS.java:57-63 | the probes of a stream, in the order they arrived: no more than the datagrams received, and each one a probe |
| Discovery.ProbesOfStream | src/CCS.java:57-63 | every probe picked out was received, and every received probe is picked out |
| Discovery.RepliesTally | src/CCS.java:57-67 | there are as many replies as probes, and the j-th reply carries `CCS FOUND` to the sender of the j-th probe |
| Discovery.RepliesGoToProbes | src/CCS.java:57-67 | every reply goes to the sender of a probe received, and to no one else |
| Discovery.Serve | src/CCS.java:57-68 | the responder loop sends exactly the replies for the received datagrams, in order |
| Server.Effect | src/CCS.java:96-153 | recording one answered line keeps the four operation keys |
| Server.EffectOnOperation | src/CCS.java:151-152 | an answered line adds one to its own operation's count and leaves every other operation's count alone |
| Server.Outcomes | src/CCS.java:93-154 | one outcome per line, in order, each the decision on that line |
| Server.Responses | src/CCS.java:93-154 | one answer per outcome, in order |
| Server.Apply | src/CCS.java:93-154 | recording a connection's lines keeps the four operation keys |
| Server.EveryOutcomeCounted | src/CCS.java:93-154 | every line is counted exactly once, as computed or as incorrect |
| Server.ApplyKeepsClients | src/CCS.java:93-154 | answering lines never changes `newConnectedClients` |
| Server.ApplyCountsSuccesses | src/CCS.java:151 | `computedRequests` grows by the number of computed lines, modulo 2^32 |
| Server.ApplyCountsFailures | src/CCS.java:96-146 | `incorrectOperations` grows by the number of lines answered `ERROR`, modulo 2^32 |
| Server.ApplySumsValues | src/CCS.java:153 | `valuesComputedSum` grows by the mathematical sum of the computed results, modulo 2^32 |
| Server.ApplyCountsOperation | src/CCS.java:152 | each operation's count grows by the number of lines computed with it, modulo 2^32 |
| Server.AnswerEachLine | src/CCS.java:93-148 | the answers to a connection's lines are, one per line and in order, the answers to each line alone |
| Server.CCS.constructor | src/CCS.java:14-17 | the server starts with two distinct zeroed `Statistics` objects and no reports |
| Server.CCS.AcceptConnections | src/CCS.java:77-81 | every accepted connection adds one to the rolling `newConnectedClients`, modulo 2^32, whoever the peer is; nothing else changes |
| Server.CCS.HandleClient | src/CCS.java:93-154 | each line gets exactly one answer, in order; that answer is the decision on the line; the rolling counters become those of recording every outcome |
| Server.CCS.Record | src/CCS.java:96-153 | the rolling counters are updated as one answered line requires |
| Server.CCS.ReporterTick | src/CCS.java:171-180 | the rolling counters are merged into the cumulative ones and then cleared; the cumulative counters remain the sum of every rolling snapshot merged so far |
| Scenarios.AddExample | src/CCS.java:122-124 | `ADD 10 0` is answered `10` |
| Scenarios.SubExample | src/CCS.java:125-127 | `SUB 5 7` is answered `-2` |
| Scenarios.MulExample | src/CCS.java:128-130 | `MUL 6 7` is answered `42` |
| Scenarios.DivExample | src/CCS.java:131-136 | `DIV 7 2` is answered `3` |
| Scenarios.NegativeDivExample | src/CCS.java:135 | `DIV -7 2` is answered `-3`, truncating toward zero |
| Scenarios.DivByZeroExample | src/CCS.java:132-134 | `DIV 9 0` fails as a division by zero |
| Scenarios.OverflowExample | src/CCS.java:123 | `ADD 2147483647 1` fails as an overflow, not as a wrapped value |
| Scenarios.MalformedExample | src/CCS.java:96-101 | `ADD 5` is malformed |
| Scenarios.NonIntegerExample | src/CCS.java:107-116 | `ADD five 3` fails on its operand |
| Scenarios.UnknownOperationExample | src/CCS.java:137-138 | `MOD 4 2` fails as an unknown operation |
| Scenarios.SignedOperandsExample | src/CCS.java:107-130 | `ADD +5 007` computes 12 and `SUB -0 3` computes -3: operands are read as `Integer.parseInt` reads them |

## Left out

- Sockets, streams and `readLine` are left out. A connection is modelled as the finite sequence of lines it sends; an `IOException` that ends a handler early is not modelled.
- Threads, the handler thread pool and the ten-second `Thread.sleep` are left out, and so is concurrency. Each method runs alone. The model does not capture the updates a handler makes between the reporter's `summarize` and its `clear`, which the source loses.
- Console output is left out: `Statistics.print` and every log line of `CCS`.
- `main` and its port argument check are left out. So is `CCSClient`, which is not part of this model.
- The UDP message is decoded with the platform's default charset. The model compares bytes, which agrees for every ASCII-compatible charset.
- The receive, accept and reporter loops run forever. They are modelled over a finite sequence of events.
- Server.CCS.constructor: it does not start the reporter and UDP threads or open the TCP socket.
- Server.CCS.AcceptConnections: it does not dispatch a handler for each socket. `HandleClient` models a handler on its own.
- Decimal.ParseInt: it accepts only the ASCII digits `0`-`9`. `Integer.parseInt` also accepts other Unicode decimal digits.
- Statistics.Statistics.IncrementOperationStats: it requires one of the four names. The `NullPointerException` for any other name is not modelled; `handleClient` only passes a matched name.
- Statistics.Statistics.Summarize: it requires both objects to have the four keys. The `NullPointerException` for a key missing from `stats` is not modelled.
- Server.Effect, Server.Apply: their own contracts state only the key set. The value of each counter is stated by `Server.ApplyKeepsClients`, `Server.ApplyCountsSuccesses`, `Server.ApplyCountsFailures`, `Server.ApplySumsValues` and `Server.ApplyCountsOperation`.
