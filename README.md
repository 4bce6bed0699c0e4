# monero-secret-sharing, modelled in Dafny

This is a model of the command-line tool that splits a Monero testnet wallet into `n`
threshold shares, any `t` of which recover it.

- **Creating a folder** (`new`): the tool simulates a FROST distributed key generation among
  `n` participants in one process. It checks that all bundles agree on the group key and
  recovers the group secret as the wallet's private spend key. Then it derives the view key
  and the address and writes one JSON record per participant into a fresh folder. Every
  record carries the same address and view key (the audit fields) plus that participant's
  serialised bundle, hex-encoded. Last, it reads the folder back and insists that it yields
  the same wallet.
- **Loading a folder** (`load`): every record is decoded and keyed by the index embedded in its
  bundle, not by its file name. The tool then recovers the spend key and re-derives the view
  key and address.

Modules, one per concern of `src/main.rs`:

- `Wrappers`: `Option`, `Result` and the error kinds. Each error kind names one kind of
  abort of the program, and a kind can stand for several sites:
  - `CryptoFailure` covers the unwraps at lines 33, 41 and 55.
  - `RoundTripMismatch` covers the three `assert_eq!` at lines 147-149.
  - `RecoveryFailed` is a failure inside the library's `recover` (lines 117 and 126), which
    the program itself does not unwrap.
- `BoundedInts`: `uint8` and `uint16`.
- `Numerals`: decimal rendering of an unsigned integer, as `format!` prints `{i}`.
- `Hex`: the `hex` crate's encoding. It encodes in lower case and decodes either case.
- `Frost`: the library's interface as the program sees it. `MultisigParams::new`'s validation
  is concrete. The state machine, bundles, serialisation and `recover` are opaque functions
  collected in the `Library` datatype, which every operation takes as a parameter.
- `Monero`: `view` and `address` (`src/main.rs:94-105`) over the opaque primitives in `Curve`.
- `Dkg`: `key_gen`, round by round, as methods with loops. Each is proved against a
  specification function.
- `Persistence`: file names, the records, writing a folder, reading it back, `load` and `new`.
- `Cli`: `main`.

The file system is a map from folder path to folder. A folder is a map from file name to
record. The program iterates over a `HashMap` and over `read_dir` in an order it does not
control. Each such loop is modelled as picking any element from the set still to visit, so
every proved property holds for every visiting order.

## Model

| member | source | states |
|---|---|---|
| Numerals.Decimal | src/main.rs:141 | the number in a file name prints as a non-empty string of digits with no leading zero |
| Numerals.ValueOfDecimal | src/main.rs:141 | reading the printed numeral back gives the number |
| Numerals.DecimalInjective | src/main.rs:141 | distinct numbers print as distinct numerals |
| Hex.HexEncode | src/main.rs:132 | encoding gives two characters per byte, and each is a hex digit |
| Hex.HexRoundTrip | src/main.rs:113 | decoding an encoded byte string gives back exactly those bytes, so `hex::decode` inverts the `hex::encode` of lines 132 and 139 |
| Hex.HexDecode | src/main.rs:113 | definition, no contract: either case accepted, None on an odd length or a non-hex character (its property is HexRoundTrip) |
| Frost.IndexOf | src/main.rs:114 | definition, no contract: the index a bundle carries, `share.params().i()` |
| Frost.NewParams | src/main.rs:22 | the parameters are accepted iff 1 ≤ t ≤ n and 1 ≤ i ≤ n, and then they are exactly (t, n, i) |
| Monero.View | src/main.rs:94-96 | definition, no contract: the Keccak-256 hash of the spend key's bytes, reduced modulo the group order |
| Monero.Address | src/main.rs:98-105 | definition, no contract: the standard testnet address of the public spend and view points |
| Monero.Derive | src/main.rs:117-119 | definition, no contract: the (spend, view, address) triple derived from a spend key, as both load and new build it |
| Dkg.Participants | src/main.rs:19 | it holds exactly the indices 1..n that the first loop visits |
| Dkg.ParticipantsCount | src/main.rs:19 | there are exactly n participants |
| Dkg.CommitRound | src/main.rs:15-35 | round 1 succeeds iff every participant's parameters are valid and every generate_coefficients succeeds; invalid parameters (n ≥ 1 and not 1 ≤ t ≤ n) are reported as such; on success params, machines and commitments are keyed exactly by 1..n, each machine is created with (t, n, i) and the context "FROST Test key_gen" |
| Dkg.DealRound | src/main.rs:37-43 | round 2 succeeds iff every machine deals from the full commitment map; on success each machine's new state and share map are what generate_secret_shares gave it, for every visiting order |
| Dkg.Route | src/main.rs:48-54 | the shares for participant i are found iff every other sender addressed one to i; the result is keyed by every sender except i and holds the share that sender addressed to i; a missing share is an error |
| Dkg.FinishRound | src/main.rs:45-64 | round 3 succeeds iff every machine completes with its routed shares and all bundles report one group key; the result holds one bundle per machine; when every machine completes but the group keys differ, the error is a group-key mismatch, whichever participant comes first; a missing-share error names a participant some sender addressed no share to; a crypto failure names a routable participant whose `complete` fails; a mismatch names two completed participants with different group keys |
| Dkg.KeyGen | src/main.rs:14-67 | key_gen succeeds iff all three rounds do; the result is keyed exactly by 1..n and its bundles agree on the group key; invalid (t, n) is reported as such; once rounds 1 and 2 succeed, a round-3 error is tied to its cause as in FinishRound: a mismatch when every completion succeeds but the group keys differ, and a missing share, failed completion or disagreeing pair otherwise |
| Dkg.FinishedRouting | src/main.rs:47-55 | in a completed batch, each participant was completed with exactly one share from every other sender, never its own, namely the share that sender addressed to it |
| Dkg.KeyGenFinished | src/main.rs:63-66 | a batch that completes returns round 3's bundles, one for each participant 1..n |
| Dkg.KeyGenParams | src/main.rs:20-33 | when the library keeps each machine's parameters, the bundle keyed i carries parameters (t, n, i), so it embeds its own key as index |
| Persistence.FileName | src/main.rs:141 | definition, no contract: `share.{i}-{n}.json` with both numbers in decimal (its property is FileNameInjective) |
| Persistence.AuditTemplate | src/main.rs:130-134 | definition, no contract: the record with the address, the hex of the view key and an empty bundle field |
| Persistence.Record | src/main.rs:138-139 | definition, no contract: the template with its bundle field set to the hex of one bundle |
| Persistence.DecodeRecord | src/main.rs:112-113 | definition: hex decode then deserialise, failing as bad hex or as a bad bundle (its property is DecodeRecordOfRecord) |
| Persistence.DecodeRecordOfRecord | src/main.rs:113-139 | a record written from a bundle (line 139) decodes back (line 113) to that bundle when deserialisation inverts serialisation, whatever the template |
| Persistence.FileNameInjective | src/main.rs:141 | distinct (i, n) pairs give distinct file names `share.{i}-{n}.json` |
| Persistence.FileNamesCount | src/main.rs:137-143 | the participants of a batch get as many distinct file names as there are participants |
| Persistence.WriteShares | src/main.rs:130-143 | the folder holds exactly the files `share.{i}-{n}.json`, one per bundle; each holds the audit template with that bundle hex-encoded; every record has the template's address and view; there are as many files as bundles |
| Persistence.ReadKeys | src/main.rs:110-115 | reading succeeds iff every record hex-decodes and deserialises; the result is keyed exactly by the indices embedded in the bundles, each entry being a bundle of the folder with that index; a failure names a record that fails in that way |
| Persistence.CollectedUnique | src/main.rs:114 | when records with the same embedded index decode to the same bundle (their hex text may still differ, for instance in letter case), every reading order gives the same map |
| Persistence.WrittenRecordsDecode | src/main.rs:113-139 | a record written at line 139 and decoded as line 113 decodes to the bundle it was written from |
| Persistence.WrittenSharesLoadBack | src/main.rs:137-146 | a folder written from self-indexed bundles reads back as exactly those bundles, whatever the directory order |
| Persistence.LoadWrittenShares | src/main.rs:145-151 | loading such a folder cannot fail to decode; every reading of it recovers the original spend key, and the only possible result is the wallet derived from that key |
| Persistence.Load | src/main.rs:107-120 | load fails with a missing path iff the folder does not exist; an undecodable folder fails naming a bad record; a decodable folder either recovers or fails for a reading whose recovery fails; a success is the wallet derived from a recovery of the folder's bundles |
| Persistence.WriteAndVerify | src/main.rs:130-151 | only the new folder is added to the file system, and it is the share folder of the bundles; a success returns the wallet written and loadable from the folder; for self-indexed bundles whose recovery is that wallet's spend key, and a library whose deserialisation inverts serialisation, the read-back check passes |
| Persistence.New | src/main.rs:122-152 | new fails with "already exists" iff the path exists, and then nothing changes; on a fresh path it fails with invalid parameters iff n ≥ 1 and not 1 ≤ t ≤ n; every error is one of the load, key-generation and read-back errors; a failed key generation or recovery writes nothing; otherwise the folder holds n records for the recovered wallet and the audit fields; a success is loadable from the folder; with a correct library it always succeeds once key generation and recovery do |
| Cli.Run | src/main.rs:154-175 | `--load` changes no file and fails with a missing path iff the folder is missing; creating without both t and n fails before touching files; with both, it fails with "already exists" iff the path exists, and on a fresh path with invalid parameters iff n ≥ 1 and not 1 ≤ t ≤ n; a success is loadable from the folder and prints the warnings (on create) and then the three key lines; after a create every record's address and view are the printed ones; a refused create changes nothing, and any run changes at most the one folder at the given path, which did not exist before |
| Cli.Report | src/main.rs:171-174 | definition, no contract: the three printed lines, the spend and view keys in hex and the address |

## Left out

- Cryptography. The FROST state machine, secret shares, bundles, their serialisation and
  `recover`, plus Keccak-256, scalar reduction, point multiplication and address encoding, are
  opaque functions in `Frost.Library` and `Monero.Curve`. Nothing is proved about the wallet's
  secrecy or about the threshold. The claims that any t shares recover the key and that t-1
  do not are properties of the library that this model does not capture.
- Randomness. The `OsRng` argument of each round is folded into the opaque library function.
  Each function is called once per machine state, so it needs no separate parameter.
- Library behaviour is an assumption. `Frost.Laws` states what a correct library does: it
  keeps parameters through the rounds and deserialisation inverts serialisation. It appears
  only as a hypothesis, in `Dkg.KeyGenParams` and in the "always succeeds" clauses of
  `Persistence.New` and `Cli.Run`.
- `Frost.NewParams` follows the library's documented checks, which the program relies on
  through `unwrap`: t and n positive, t ≤ n, and 1 ≤ i ≤ n. The library's source is not part
  of this model.
- JSON. A record is the parsed `KeyFile` value. `serde_json` reading and writing, and the
  failure to parse a file, are not modelled.
- A path that names a regular file is not modelled: the file system holds only folders. On
  such a path the program's `new` refuses at line 123, because `Path::exists` is true for a
  file too. Its `load` gets past line 108 and then aborts at `read_dir(path).unwrap()`
  (line 111).
- File-system I/O failures (`create_dir`, `File::create`, `write_all`, `read_dir`,
  `File::open`) are not modelled. A folder is a map that is written all at once. Only the
  existence checks of lines 108 and 123 are modelled.
- Printing is modelled as the lines `Cli.Run` returns. Argument parsing (`structopt`) is
  modelled as the parsed `Cli.Options` value.
- Persistence.Load: a folder with two decodable records carrying the same index keeps
  whichever the directory lists last. The model states this as "some bundle of the folder
  with that index", not as which one.
- Dkg.FinishRound, Dkg.DealRound, Persistence.ReadKeys: when several items fail, which failure
  is reported depends on the visiting order. The contracts therefore state the error kind and
  that some item fails that way (a participant, or a record), not which item is reported.
- Abort versus return. A `panic`, a failed `assert` and an `unwrap` on an error all abort
  the program. The model returns an `Err` naming the check instead. A folder that `new`
  writes before its read-back check fails stays on disk in both the program and the model.
