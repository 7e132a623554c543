# Tron vanity-address miner — Dafny model

A model of the sequential core of a miner that draws random secp256k1 private keys,
derives the Tron address of each, and keeps those whose Base58 address ends in a
long run of one repeated character. The model covers:

- **the match filter** (`Trailing`): the trailing-run counter over the address bytes,
  as a loop-invariant method and a reference function, the threshold test and the
  character reported with a find;
- **address derivation** (`Generator`): the 25-byte payload `0x41 ‖ Keccak-256(X‖Y)[12..32]
  ‖ checksum`, the double SHA-256 checksum computed with reused per-thread hasher
  contexts, and one attempt from 32 key bytes to an optional record;
- **records** (`Records`, `Hex`, `Decimal`): the `{address, hex private key, run length}`
  record, its four-line layout in the output file, and the readers that invert it;
- **the main loop** (`Miner`): the parallel map of one batch, the found counter, the
  writes, the limit test, and the progress-report trigger.

Secp256k1, Keccak-256, SHA-256 and Base58 are foreign library code. They are
parameters bundled in `Generator.Primitives`. Only their output formats are assumed,
through subset types: 32-byte digests, 65-byte keys starting with `0x04`, and text
over the Base58 alphabet. A key the curve rejects maps to `None`. Bytes are the
integer newtype `uint8`, the source's `u8`.

Behaviours of the code that are easy to misread:

- The found counter is bumped for every match while the batch's results are
  collected. This happens before anything is written, not after each record's write.
- The limit test sits inside the loop that prints the batch's finds on the console.
  The counter already includes the whole batch, so the test fires at the first
  printed find or not at all. A stopping batch is written to the file in full, but
  only its first find is printed (`Miner.StopAnnouncesFirstOnly`).
- The progress line uses the count before the increment, as returned by
  `fetch_add`. So the first line comes with attempt 500001, not 500000.
- Results are collected in task order, because the parallel iterator is indexed.
  The records are written in that order.

## Model

| member | source | states |
|---|---|---|
| Trailing.RunOf | src/main.rs:233-242 | the backward count of elements equal to `c` is at most the length, covers only elements equal to `c`, and stops at an element that differs |
| Trailing.TrailingRun | src/main.rs:227-245 | the trailing-run length is 0 exactly for the empty string; otherwise it lies in `[1, |s|]`, the last n elements equal the last one, and the element before them differs |
| Trailing.TrailingRunUnique | src/main.rs:233-242 | at most one length satisfies the maximal-suffix-run characterisation |
| Trailing.CountTrailingSame | src/main.rs:227-245 | the loop that walks the bytes backwards and breaks at the first differing one returns the maximal trailing run |
| Trailing.AcceptsMonotone | src/main.rs:188-190 | acceptance at threshold k implies acceptance at every k' <= k |
| Trailing.AcceptsIff | src/main.rs:188-190 | for k >= 1, accepted iff the string has at least k elements and its last k are equal |
| Trailing.RepeatedCharFillsRun | src/main.rs:254-256 | the reported character is '?' for the empty string and fills the whole trailing run otherwise |
| Trailing.Examples | src/main.rs:227-245 | the run lengths of "aaa1111", "abc", "" and "zzzzz" are 4, 1, 0 and 5 |
| Hex.Encode | src/main.rs:193 | the encoding has two characters per byte, all lower-case hex digits |
| Hex.DecodeByteDigits | src/main.rs:193 | the two digits of a byte, followed by any decodable text, decode to that byte followed by the text's bytes |
| Hex.DecodeEncode | src/main.rs:193 | decoding the hex of the key bytes gives the key bytes back |
| Hex.EncodeDecode | src/main.rs:193 | a lower-case hex string that decodes is the encoding of its decoding |
| Decimal.Show | src/main.rs:119 | the run length is written as a non-empty string of digits with no leading zero |
| Decimal.ParseShow | src/main.rs:119 | parsing the written run length gives the number back |
| Records.AllLines | src/main.rs:116-121 | a group of records has four lines per record |
| Records.AllLinesSeparators | src/main.rs:120 | the fourth line of every record is `---` |
| Records.RenderAllAppend | src/main.rs:113-122 | writing two groups of records in turn appends their texts |
| Records.SplitUnlines | src/main.rs:116-121 | splitting newline-terminated lines that contain no newline gives the lines back |
| Records.RenderedLines | src/main.rs:116-121 | the written text splits into exactly four lines per record, every fourth one `---` |
| Records.ReadBack | src/main.rs:116-121 | parsing the written text gives back the records, in order |
| Generator.ByteRunIsCharRun | src/main.rs:228 | counting equal bytes of a Base58 address gives the same count as counting equal characters |
| Generator.DoubleSha256Scratch | src/main.rs:204-224 | whatever the per-thread hashers held, the result is SHA-256 applied twice and both hashers are left empty |
| Generator.Payload | src/main.rs:164-182 | the payload has 25 bytes: `0x41`, then Keccak-256(key without 0x04)[12..32], then the first 4 bytes of the double SHA-256 of the first 21 bytes |
| Generator.AssemblePayload | src/main.rs:164-182 | the code's assembly with the thread-local hashers equals the reference payload, independently of the scratch state |
| Generator.AddressChecksumRoundTrip | src/main.rs:176-185 | for any decoder inverting Base58, decoding a derived address and recomputing the checksum reproduces its last four bytes |
| Generator.WellFormedIsLineSafe | src/main.rs:185-193 | the address and hex key of an accepted record contain no newline |
| Generator.Attempt | src/main.rs:145-201 | a record comes out iff the key is a valid scalar and its address's trailing run reaches the threshold; the record holds that address, the hex of the key, and the run length, which is at least the threshold |
| Generator.AttemptIgnoresScratch | src/main.rs:146-153 | the outcome of an attempt does not depend on the thread-local state |
| Generator.AttemptMonotone | src/main.rs:188-196 | a key accepted at a threshold gives the same record at every lower threshold |
| Miner.ReportsClosedForm | src/main.rs:87-90 | after n attempts, (n-1)/500000 progress lines have fired, one per positive multiple of 500000 among the counts before increment |
| Miner.ReportsSplit | src/main.rs:87 | the progress lines of consecutive ranges of counts add up |
| Miner.MatchesAppend | src/main.rs:105-111 | collecting the matches of two result lists in turn concatenates them |
| Miner.MatchesMembership | src/main.rs:105-111 | a record is collected iff the batch holds it as a result |
| Miner.MatchesCount | src/main.rs:105-111 | the number collected is the number of results that are not `None`, and it is positive iff some result is a match |
| Miner.MatchesWellFormed | src/main.rs:105-111 | every record collected from a batch of filtered results passed the filter |
| Miner.MineBatch | src/main.rs:84-102 | task i of a batch yields the outcome of an attempt on key i, whatever worker ran it, and every match in the batch passes the filter |
| Miner.Step | src/main.rs:83-141 | one batch adds its size to the attempts and its number of matches to the found counter, appends its matches in order, stops iff it had a match and `limit > 0 && found >= limit`, and with no match changes neither the counter nor the output |
| Miner.StepOutput | src/main.rs:113-122 | the output file grows by exactly the rendered matches of the batch |
| Miner.InitialInvariant | src/main.rs:69-81 | the starting state satisfies the loop invariant |
| Miner.StepInvariant | src/main.rs:83-141 | each batch keeps the invariant: found equals the records written, the state is stopped iff the limit is positive and reached, the printed finds are a prefix of the written ones, and every written record passed the filter |
| Miner.Overshoot | src/main.rs:134-138 | when a batch stops the loop, the found counter is at least the limit and less than the limit plus that batch's matches |
| Miner.StopAnnouncesFirstOnly | src/main.rs:126-138 | the stopping batch is written in full but only its first find is printed |
| Miner.Run | src/main.rs:83-141 | the loop consumes batches until it stops; it consumes all of them unless it stopped |
| Miner.RunWritten | src/main.rs:113-122 | the records this run appends hold exactly the matches of the consumed batches, in order |
| Miner.RunInvariant | src/main.rs:83-141 | the invariant holds after any number of batches |
| Miner.NoLimitNeverStops | src/main.rs:135 | with limit 0 the loop never stops and consumes every batch |
| Miner.LimitScenario | src/main.rs:105-138 | limit 5, batches of 100 with 3, 2 and 2 matches: two batches are consumed, 5 records written, 200 attempts made, the third batch never starts |

## Left out

- Secp256k1 scalar validation and point multiplication: foreign library code. They are the parameter `publicKeyOf`, with `None` for a rejected scalar.
- Keccak-256 and SHA-256 internals: foreign library code. They are parameters whose only stated property is the 32-byte output.
- Base58 encoding and decoding: foreign library code. The encoder is a parameter producing text over the Base58 alphabet. The checksum round trip is stated for any decoder that inverts it.
- Random key generation: randomness. Keys are inputs to `Generator.Attempt` and `Miner.MineBatch`.
- The rayon pool, the relaxed atomics and the mutex: concurrency plumbing. After the parallel map is collected, all the modelled logic runs on the main thread. Per-worker scratch state is an arbitrary input, shown not to matter.
- File opening, buffering and flushing, and write errors: I/O. `Miner.Output` is the text this run appends to the file. A failed write aborts the process, which is not modelled.
- Earlier contents of the output file: it is opened in append mode (src/main.rs:74-78), so it may already hold records of earlier runs. The model covers only what this run appends.
- Argument parsing, the `MIN_SAME_CHARS` environment default, the banner, the text of the progress and find messages, and the rate computation: I/O and floating point. Only the progress trigger and which finds get printed are modelled.
- Miner.Step: the attempt and found counters are `u64` in the code and wrap after 2^64 increments. The model uses unbounded naturals, because that many attempts cannot happen in practice.
- Decimal.Show: a `usize` run length is rendered as an unbounded natural. It can never exceed the address length.
