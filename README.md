# kafkacat-hk in Dafny

kafkacat-hk wraps the `kafkacat` command-line Kafka client. It reads
Heroku-style Kafka settings and credentials from the environment, hands
kafkacat the TLS settings and the broker list, and gives the child the CA
certificate, the client certificate and the client key. The credentials go
through anonymous pipes that the child sees as descriptors 3, 4 and 5. The
wrapper finally exits with kafkacat's own exit status.

The model follows the single source file, `kafkacat-hk.go`, and splits it
into modules:

- `Wrappers` holds `Option` and `Result`.
- `GoBytes` holds bytes and `[]byte(s)`. Environment values are strings, and converting one to bytes is its UTF-8 encoding.
- `GoStrings` holds the parts of Go's `strings` package the wrapper calls:
  - `TrimPrefix`, `TrimSuffix` and `Index`.
  - `Replace` with count -1 (`ReplaceAll`).
  - `Split`/`Join`, as an independent reference for `Replace`.
  - Decimal rendering of an offset.
- `Base64` is Go's `base64.StdEncoding` with the standard alphabet and padding of RFC 4648:
  - Decoding works quantum by quantum.
  - It reports the same `CorruptInputError` offsets as Go.
  - It is not strict: unused padding bits are ignored.
- `Credentials` is `loadCertsFromEnv`:
  - Heroku mode takes the three values verbatim.
  - Encoded mode trims one quote at each end.
  - A blank value is fatal.
  - Cert, key and CA are decoded in that order, and the first corrupt one is fatal.
  - The result is the triple (CA, cert, key).
- `Arguments` holds `sslArgs` and the argument vector: sslArgs, then `-b` and `KAFKA_URL` with every `kafka://` removed (only when `KAFKA_URL` is set), then `os.Args[1:]`.
- `Launcher` is `main`:
  - `Launch` is a function that gives the ordered side effects and the outcome.
  - `RunWrapper` is the step-by-step method for `main`: it builds the argument vector by appends and fills an `exec.Cmd` object field by field. `RunWrapper` is proved equal to `Launch`.
  - Exit relay: only an `ExitError` that carries a wait status sets the exit code. In every other case the process exits with 0.
  - Fatal paths exit with 1.

The surroundings are parameters:
- The environment is a map.
- What `os.Stat` finds is a set of paths.
- What `cmd.Run` reports is a `RunResult`.

The side effects main performs are recorded as a trace, in order:
- `Stat(path)`
- `OpenPipe(bytes)`
- `Start(command)`

Where the code and its documentation disagree, the model follows the code:
- **Exit status.** When `cmd.Run` fails without an exit status the model can read, the wrapper exits with 0. No fatal error is raised.
- **Missing binary.** The message always names the default path `/usr/bin/kafkacat`, even when `KAFKACAT_BIN` named another path.
- **Round trip of the credentials.** Decoding and then re-encoding gives the text back only for canonical base64. Go's `StdEncoding` also accepts text whose unused padding bits are not zero.

## Model

| member | source | states |
|---|---|---|
| GoBytes.Utf8Char | kafkacat-hk.go:81 | UTF-8 of one character: its length follows from the code point range (below 0x80, 0x800, 0x10000, above); ASCII is the single byte of its code; the lead byte is in 0xC2..0xDF, 0xE0..0xEF or 0xF0..0xF4 by length; continuation bytes are in 0x80..0xBF; the bytes read back (`Utf8Value`) to the code point |
| GoBytes.Utf8CharInjective | kafkacat-hk.go:81 | different characters have different encodings |
| GoBytes.Bytes | kafkacat-hk.go:81 | `[]byte(s)` has between one and four bytes per character |
| GoBytes.BytesAppend | kafkacat-hk.go:81 | `[]byte(a + b)` is `[]byte(a)` followed by `[]byte(b)` |
| GoBytes.BytesInjective | kafkacat-hk.go:81 | different strings give different bytes, so the conversion loses nothing |
| GoBytes.BytesOfAscii | kafkacat-hk.go:81 | an ASCII string becomes exactly its codes, one byte per character |
| GoStrings.TrimPrefix | kafkacat-hk.go:84-86 | with the prefix present the input is prefix + result, otherwise the input is returned unchanged |
| GoStrings.TrimSuffix | kafkacat-hk.go:84-86 | with the suffix present the input is result + suffix, otherwise the input is returned unchanged |
| GoStrings.Index | kafkacat-hk.go:41 | the result is the leftmost occurrence (one there, none before it); None means no occurrence anywhere |
| GoStrings.JoinSplit | kafkacat-hk.go:41 | joining the pieces of Split with the pattern gives the input back |
| GoStrings.SplitLeftmost | kafkacat-hk.go:41 | Split cuts at leftmost non-overlapping occurrences: no piece contains the pattern, not even one running into its separator |
| GoStrings.ReplaceAllIsJoinOfSplit | kafkacat-hk.go:41 | replace-all equals Join of Split with the replacement as separator |
| GoStrings.ReplaceAll | kafkacat-hk.go:41 | text without the pattern is returned unchanged; a replacement no longer than the pattern never lengthens the text, and shortens it by at least the difference once the pattern occurs |
| GoStrings.ReplaceAllStep | kafkacat-hk.go:41 | at the first occurrence the text before it is kept, the replacement put in, and the rest handled alike |
| GoStrings.Decimal | kafkacat-hk.go:91-93 | the offset is written as non-empty decimal digits without a leading zero |
| GoStrings.DecimalValue | kafkacat-hk.go:91-93 | reading those digits back gives the number |
| Base64.Char | kafkacat-hk.go:90 | an alphabet character is never the padding character |
| Base64.Value | kafkacat-hk.go:90 | a decoded character value is below 64 and maps back to the character; "=" has no value |
| Base64.Encode | kafkacat-hk.go:90 | the encoding is padded to 4 characters per started group of 3 bytes |
| Base64.FrontQuantum | kafkacat-hk.go:90 | a full quantum gives 3 bytes, the final padded one 1 or 2 bytes, a corrupt one an offset within the text |
| Base64.Decode | kafkacat-hk.go:90-101 | an error offset lies within the text |
| Base64.DecodeEncode | kafkacat-hk.go:90 | decoding an encoding gives the bytes back, for every byte sequence |
| Base64.EncodePadBitsZero | kafkacat-hk.go:90 | every encoding is canonical (unused padding bits are zero) |
| Base64.EncodeDecode | kafkacat-hk.go:90 | canonical text that decodes re-encodes to itself |
| Base64.NonCanonicalAccepted | kafkacat-hk.go:90 | "QQ==" and "QR==" both decode to "A", because decoding is not strict |
| Base64.CorruptOffsets | kafkacat-hk.go:90-101 | Go's offsets: a truncated quantum, a lone "=", a character outside the alphabet, data after the padding |
| Base64.CorruptInputMessage | kafkacat-hk.go:91-93 | the logged error text starts with Go's prefix, and the offset can be read back from its digits |
| Credentials.Getenv | kafkacat-hk.go:80-86 | an unset variable reads as "" |
| Credentials.TrimQuotes | kafkacat-hk.go:84-86 | at most one quote goes from each end; a leading quote always goes; a trailing quote goes when more than one character is there; a value of two or more characters quoted at both ends loses exactly both quotes |
| Credentials.TrimQuotesUnquoted | kafkacat-hk.go:84-86 | a value with no quote at either end is unchanged, so trimming it again changes nothing |
| Credentials.TrimQuotesNotIdempotent | kafkacat-hk.go:84-86 | only one quote goes from each end: `""x""` trims to `"x"` |
| Credentials.TrimQuotesEmpty | kafkacat-hk.go:84-89 | a value trims to blank exactly when it is empty, one quote or two quotes |
| Credentials.LoadErrorMessage | kafkacat-hk.go:88-100 | a blank value logs the not-set text; corrupt base64 logs Go's `CorruptInputError` text, whose digits read back to the failing offset |
| Credentials.FirstFailure | kafkacat-hk.go:90-102 | decoding succeeds iff all three parts decode, giving (CA, cert, key); otherwise the error names the first failing part, in the order cert, key, CA |
| Credentials.LoadCerts | kafkacat-hk.go:78-103 | Heroku mode always succeeds; in encoded mode the not-set failure happens exactly when some trimmed value is blank |
| Credentials.EncodedLoad | kafkacat-hk.go:84-102 | encoded mode succeeds iff every part is set and decodes, and then each part holds its decoded bytes |
| Credentials.FirstCorruptPart | kafkacat-hk.go:87-101 | a corrupt-data failure happens only once all parts are set; it names a part that fails with its offset, and every part decoded before it succeeded |
| Credentials.LoadedReencodes | kafkacat-hk.go:84-102 | each loaded part re-encodes to its trimmed value when that value is canonical |
| Credentials.RawVerbatim | kafkacat-hk.go:80-82 | in Heroku mode each part is its variable's bytes: no trimming, no check |
| Credentials.RawAsciiVerbatim | kafkacat-hk.go:80-82 | in Heroku mode ASCII (PEM) text arrives byte for byte |
| Arguments.ComposeArgs | kafkacat-hk.go:39-43 | the arguments are the 8 TLS settings, then `-b` and the stripped URL when `KAFKA_URL` is set, then the user's arguments unchanged |
| Arguments.SslArgs | kafkacat-hk.go:61-63 | eight arguments, `-X` at every even position, the first setting is `security.protocol=ssl` (the locations: `Launcher.SslArgsLocations`) |
| Arguments.StripScheme | kafkacat-hk.go:41 | a URL without "kafka://" is passed on unchanged; stripping never lengthens the URL and removes at least the scheme's eight characters once it occurs |
| Arguments.StripSchemeLeading | kafkacat-hk.go:41 | a leading "kafka://" is removed |
| Arguments.StripSchemeIsConcatOfPieces | kafkacat-hk.go:41 | stripping keeps exactly the text between the occurrences |
| Arguments.StripSchemeAfter | kafkacat-hk.go:41 | text before a "kafka://" is kept and the rest is stripped alike |
| Arguments.StripSchemeBrokerList | kafkacat-hk.go:40-41 | from a Heroku broker list every scheme is removed, not only the first: the result is the hosts joined by commas |
| Arguments.StripSchemeSinglePass | kafkacat-hk.go:41 | replacement is one pass: for every host without a scheme, "kafka" + "kafka://" + "://" + host becomes "kafka://" + host, so a scheme formed by the removal stays |
| Launcher.Executable | kafkacat-hk.go:18-21 | the binary is `KAFKACAT_BIN` when set and non-empty, otherwise `/usr/bin/kafkacat` |
| Launcher.ChildFd | kafkacat-hk.go:50-51 | a child descriptor holds an extra file exactly for 3 up to 2 + the number of ExtraFiles |
| Launcher.RelayedExitCode | kafkacat-hk.go:53-58 | the code is the wait status of an ExitError that carries one, and 0 in every other case |
| Launcher.Cmd.constructor | kafkacat-hk.go:45 | `exec.Command` gives a command with the checked name as its path, the arguments, no streams and no extra files |
| Launcher.FailureMessage | kafkacat-hk.go:24-26 | a missing binary is reported under the default path with a hint naming `KAFKACAT_BIN`; a credential failure under its own message |
| Launcher.Launch | kafkacat-hk.go:17-53 | the binary check always comes first; kafkacat is started iff the binary exists and the credentials load, as the fifth and last effect; otherwise main stops after the check |
| Launcher.StartWith | kafkacat-hk.go:30-51 | after loading: pipes CA, cert, key, then the start; the child finds CA, cert and key at descriptors 3, 4 and 5 and nothing at any other descriptor past the standard ones |
| Launcher.ProcessExitCode | kafkacat-hk.go:24-59 | 1 after a fatal log, otherwise the relayed code; 0 exactly when kafkacat was started and reported no non-zero wait status |
| Launcher.RunWrapper | kafkacat-hk.go:17-59 | the step-by-step driver performs exactly the effects and outcome of `Launch`, and exits with 1 when fatal or with the relayed code otherwise |
| Launcher.StartKafkacat | kafkacat-hk.go:30-51 | the pipes, the appended argument vector and the filled-in command give exactly `StartWith` |
| Launcher.BuildCmdFields | kafkacat-hk.go:39-43 | the appended argument vector is `ComposeArgs` |
| Launcher.PrepareCommand | kafkacat-hk.go:45-51 | the command holds the path, the arguments, the parent's three streams and the pipes as ExtraFiles |
| Launcher.RelayExit | kafkacat-hk.go:53-58 | the relay computes `RelayedExitCode` |
| Launcher.MissingBinaryFirst | kafkacat-hk.go:18-26 | a missing binary stops main after only the stat; the message names the default path; the exit code is 1 whatever else happens |
| Launcher.CredentialFailureBeforePipes | kafkacat-hk.go:23-28 | a credential failure happens after the stat and before any pipe or start |
| Launcher.SpawnedIff | kafkacat-hk.go:23-53 | kafkacat is started iff the binary exists and the credentials load; otherwise only the stat happened |
| Launcher.SpawnShape | kafkacat-hk.go:28-51 | pipes are made CA, cert, key, before the start; the command has the composed arguments, the parent's streams and the pipes in that order |
| Launcher.SslArgsLocations | kafkacat-hk.go:61-63 | sslArgs points the CA, cert and key locations at `/dev/fd/3`, `4` and `5` |
| Launcher.DescriptorsMatchRoles | kafkacat-hk.go:50-62 | for each part, the `-X` setting names descriptor 3 + k, and that descriptor holds a pipe with that very part |
| Launcher.ListBrokersEndToEnd | kafkacat-hk.go:17-62 | a valid encoded setup with `-L` and no `KAFKA_URL` starts kafkacat with the TLS settings then `-L`; exit status 7 is relayed |

## Left out

- `os.Pipe` failing is not modelled: creating a pipe always succeeds. The goroutine that copies the bytes into the pipe is not modelled either; a pipe is the bytes its reader will see.
- `os.Stat` is modelled only as a membership test in the set of existing paths. Permissions, symbolic links and the executable bit are not part of the model.
- The `defer ... Close()` calls are not modelled. They run only when main returns, after the child has ended, and change nothing observable.
- Running the child is not modelled. The effect of `cmd.Run` is the `RunResult` parameter: the child's I/O and its own option parsing are outside the wrapper.
- `os.Args[0]` is not part of the model, since only `os.Args[1:]` reaches kafkacat. User `-X` options that override the TLS settings are kafkacat's concern.
- Base64 decoding does not skip `\r` and `\n` the way Go's decoder does. The model treats them as corrupt characters, which differs from Go only for values that contain line breaks.
- Base64 decoding works over the characters of a value, not over its UTF-8 bytes. Every non-ASCII character is outside the alphabet in both views, so the same values are accepted; the model does not prove that the reported offsets coincide after a multi-byte character.
- Environment values are modelled as Unicode strings. Values holding bytes that are not valid UTF-8 are not modelled.
- `WaitStatus.ExitStatus()` is taken as given. Its platform-specific values, such as -1 for a child ended by a signal, are whatever the `RunResult` carries.
- GoStrings.ReplaceAll: requires a non-empty pattern, so the empty-pattern behaviour of `strings.Replace` is not modelled. The wrapper only ever replaces "kafka://".
- Launcher.Cmd.constructor: the path lookup of `exec.Command` is not modelled. A name without a path separator is searched for on `PATH`, so a separator-free `KAFKACAT_BIN` is stat-checked relative to the working directory but run from `PATH`. The model's command path is always the checked name.
- `log.Fatal` and `log.Fatalf` are modelled as the failure message plus exit status 1. The timestamp prefix of the standard logger is left out.
