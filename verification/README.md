# Verified model of ssh-key-sync

`ssh-key-sync` is a daemon that lets the hosts of one group collect each other's SSH public keys.
Hosts that share a SID and a secret SID_TOKEN find each other through configured peers and signed
UDP announcements, ask each other for their keys over HTTP with signed request and response
envelopes, and write what they learn into one managed block of `authorized_keys`.

This Dafny project models that protocol, the text formats under it, the file editor and the daemon's
state machine, and proves laws about all inputs and all runs.
`dafny verify dfyconfig.toml` checks everything.

## How the model is laid out

| files | what they model |
|---|---|
| `Prelude`, `Text`, `Utf8` | result types; the string operations used (`lines`, `trim`, `split_once`, `rsplit_once`, `split_whitespace`, `join`, decimals); UTF-8 encoding, strict and lossy decoding (RFC 3629) |
| `Hex` | both base-16 decoders and the encoder (RFC 4648, section 8) |
| `SshKeys`, `AuthorizedKeys`, `ManagedBlockText`, `ManagedBlockLaws`, `ManagedBlockPasses`, `ManagedBlockCounts` | key normalisation, removal of repeats, the managed-block editor, and what one, two and many updates of a file do |
| `Auth`, `Replay`, `ReplayLaws` | canonical strings, signing, verifying; the verifier object with its pruned nonce cache; the replay laws |
| `Payload`, `Wire`, `Transport` | `KEY=VALUE` bodies, envelope text, the key-exchange service |
| `Http`, `Exchange`, `Handler` | the streaming HTTP/1.1 request reader (Content-Length framing, sections 6.2 and 6.3 of RFC 9112), the request and response texts, the connection handler, one key fetch and one publication end to end |
| `Discovery`, `DiscoveryLaws` | the discovery engine and the laws of its runs |
| `Daemon`, `DaemonLaws` | the daemon loop and the laws of its runs |
| `RunLoop` | the loop `run_daemon` itself runs, over the discovery engine and its own clock |
| `SyncCycle`, `Group`, `GroupDiscovery`, `Deployment` | the sync cycle; group isolation over runs of many nodes on a hostile network, for keys and for peer records; what ends up in the file |
| `Freshness` | what the HTTP handlers do about old messages, against the verifier with window and nonce cache |

Objects that the program updates in place (`EnvelopeVerifier`, `DiscoveryEngine`, `DaemonLoop`, and
the byte stream it reads from) are classes. Each of the first three carries a ghost history of its
calls, and `Valid()` says that the fields are the state this history leads to by a step function.
Every method is proved to extend the history by its own call and to keep `Valid()`, so a law about
histories is a law about every reachable object. Loops over strings, maps and byte buffers are
methods proved against recursive functions, about which the laws are proved.

HMAC-SHA256 (RFC 2104) and SHA-256 are function values in a `Crypto` record: nothing is assumed about
them. The two cryptographic hypotheses the group laws need (a text that carries the
HMAC of its canonical string under a token nobody outside holds was given that MAC by a node of the
run; bodies that occur do not collide) are preconditions on a run, stated as `Group.Covered` and
`Group.Trustworthy`. They speak of the MAC itself; that acceptance means a right MAC is proved
(`Auth.VerifyIff`). `Group.HonestRunWorks` gives runs that meet them.

## What the proofs settle

Group isolation. Any number of nodes with any SIDs, tokens and ids sign messages and read any texts
the network gives them. Whatever a node accepts under a token that has not leaked was signed, as it
stands and in its role, by a node with the same SID and token (`Group.AcceptedFromGroup`): key
requests, publications, announcements and replies alike. So a node only ever holds the normalised keys
of its own group (`Group.GroupIsolation`) and peer records that were configured or announced by its
own group (`GroupDiscovery.DiscoveryIsolation`), and written to a file the block lists exactly those
keys while the rest of the file is kept (`Deployment.WrittenKeysFromGroup`). Which node inside the
group is another matter. A fetched key came from the node it is kept under if and only if the accepted
reply names that node (`Group.PeerIsolationIff`), and an announced record is of the node that announced
it if and only if its id is that of the announcement's sender (`Group.AnnouncerNamedIff`); the program
makes neither comparison, and both can fail (`Group.MisnamedExample`, `GroupDiscovery.MisnamedRecord`).
No condition on newlines in SIDs or ids is needed: five newlines in a canonical string already force
them out of both sides (`Auth.CanonicalNewlines`).

Replay. For clocks that step back by at most `back` seconds, no message is accepted twice if and only
if `2 * skew + back <= ttl`, or the TTL is the largest 64-bit number, where the saturating age test
never expires anything (`ReplayLaws.ReplayThreshold`). The constants 60 and 120 sit exactly on the
threshold and leave no room for a backward step (`ReplayLaws.RuntimeConstantsSafe`). On clocks that do
not step back, the pruned cache answers every call as a log that forgets nothing would. The HTTP
handlers leave window and cache out; over a run of key requests they nevertheless answer nothing stale
or replayed if and only if every answered request came in its window and no two of them within one TTL
share sender and nonce (`Freshness.AsDocumentedIff`), and the same holds of runs that mix key requests
and publications (`Freshness.HandledAsDocumentedIff`).

Managed block. Overwriting (`update with k1, then k2` equals `update with k2`) holds if and only if the
file is stable: its markers are ordered, no kept line before the block ends in a carriage return, and
the part after the block rereads as itself (`ManagedBlockLaws.OverwriteIff`). What one update writes is
said of the file's own lines (`ManagedBlockText.FirstInsertion`, `ManagedBlockText.Replacement`). Repeated updates reach a
fixed point if and only if the markers are ordered (`ManagedBlockPasses.StabilizesIff`), which is also
when the visible lines outside the block survive one update (`ManagedBlockPasses.OutsideKeptIff`). How
many passes it takes is read off the kept lines (`ManagedBlockCounts.PassCountIff`); `k` blank lines
after the block go away one per pass (`ManagedBlockPasses.BlankTail`).

Formats. An envelope survives printing and parsing if and only if its text fields are trimmed and free
of newlines (`Wire.RoundTripIff`), and whatever was parsed from any text always survives
(`Wire.ParsedRoundTrip`). The streaming reader gives the same answer for every chunking of a stream if
and only if the head ends within 65537 bytes, is never complete, or ends past 66560 bytes
(`Http.ChunkingIff`). A key fetch composed of all the layers returns exactly the responder's SID, id
and key (`Exchange.FullExchange`); a publication is answered with a 202 that says `accepted` for exactly
the published id (`Handler.FullPublication`), and each of the four HTTP statuses is sent exactly when
the path, the envelope and the handler call for it (`Handler.ReplyStatus`). The constants and texts that
two hosts must agree on are written out in full (`Auth.CanonicalIs`, `Wire.EnvelopeText`,
`Handler.PostText`, `Handler.ResponseText`, `Transport.KeyAnswerIs` and their like), so that no law
holds by both sides being wrong in the same way.

Discovery and daemon. On clocks that do not step back, the peer map is a fold over what a
never-forgetting engine would install; the sync trigger is neither lost nor spurious; the reachable control states of the daemon loop are
characterised exactly; the number of direct sync starts is bounded by triggers plus elapsed periods,
and the bound is attained. `DaemonLoop` (src/daemon.rs) is not what `run_daemon` uses: that function
has a loop of its own (src/runtime.rs:189-233), modelled in `RunLoop`. A turn of it syncs if and only
if a sync is due or the turn itself brings news, and its sync cycles number at most the turns with
news plus elapsed intervals plus one, which is attained too. Due times are 64-bit sums that wrap: each
bound holds of all runs up to a clock reading if and only if a due time set at that reading does not
wrap (`DaemonLaws.RateBoundedIff`, `RunLoop.SyncBoundedIff`). The control laws need no such condition.

## Where the code differs from its documentation, or surprises

The model follows the code.

- README.md:240-241 says that replayed or stale messages are rejected. That is true of announcements
  only. HTTP requests and responses go through `verify_envelope` (src/transport.rs:97-140,165-190),
  which checks SID and signature but neither the time window nor the nonce cache. A handler accepts
  exactly what the verifier accepts or refuses for age or nonce alone, so the two agree exactly on
  fresh messages (`Freshness.KeyRequestIff`, `PublicationIff`, `ReplyIff`); `Freshness.ReplayedRequest`
  is a request at which they differ. A reply read again takes a key back to what it was
  (`Freshness.RecordedReplyIff`), also in runs that meet every hypothesis of group isolation
  (`Freshness.RollBack`).
- README.md:256-258 says that updates are idempotent and keep user lines. Kept lines are kept to the
  letter, and updates are idempotent, exactly on stable files; up to blank lines and trimming they are
  kept exactly when the markers are ordered. A blank line after the block is enough for a second update
  to change something and for a line not to be kept to the letter
  (`ManagedBlockPasses.NotIdempotentExample`); behind a stray end marker the old block is kept as if it
  were the user's (`ManagedBlockPasses.NotPreservedExample`).
- The discovery engine refuses a bootstrap peer with an empty host (src/discovery.rs:172-191); the
  runtime's parser accepts it (src/runtime.rs:519-539).
- A fetched key is stored under the id of the endpoint that was asked; the id inside the answer is not
  compared with it (src/runtime.rs:366-377, 397-401). Comparing them is exactly what would tie the key
  to the peer (`Group.PeerIsolationIff`); `Group.MisnamedExample` is a run in which they differ.
- `build_startup_announcement` takes any address and `process_announcement` does not compare the id in
  the payload with the sender's (src/discovery.rs:85-138). An address that holds a newline and a second
  participant id is read as that id (`DiscoveryLaws.SecondIdWins`), and installed under it
  (`GroupDiscovery.MisnamedRecord`).
- The request reader adds head size and declared length in 64 bits (src/runtime.rs:590-604). When the
  sum does not fit, it panics, before any signature is looked at: on the addition where overflow is
  checked, and otherwise on slicing the body (`Http.PanicsIff`, `Exchange.OverflowPanics`).
- A `:` inside an HTTP method makes two different request contexts canonically equal, for every such
  method (`Auth.ColonTwin`, `Auth.ColonIff`); the program itself only uses `POST`.
- The nonce cache joins sender and nonce with a `:`, so a sender id that holds one shares its entries
  with other senders' nonces (`Replay.ColonSender`); ids without one do not (`Replay.NonceKeyIff`).
- A daemon loop stopped by a critical failure runs again when another sync finishes successfully
  (src/daemon.rs:127-151, `DaemonLaws.RunsAgain`); a stop is final exactly when shutdown was requested
  (`DaemonLaws.StoppedForGoodIff`).
- A trigger that arrives while a daemon-loop sync is in flight is lost when that sync ends
  (src/daemon.rs:127-129, `DaemonLaws.TriggerPendingIff`).

## Model

| member | source | states |
|---|---|---|
| Text.TrimUnique | src/transport.rs:317-327 | `trim` removes exactly the surrounding white space: any text cut into blank, trimmed core, blank has that core as its trim |
| Text.LinesAppend | src/runtime.rs:816-822 | reading the lines of two texts laid end to end at a newline gives the lines of both |
| Text.SplitOnceAt | src/runtime.rs:816-822 | splitting at the first separator recovers what was glued, even if the right part holds more separators |
| Text.RSplitOnceAt | src/runtime.rs:519-539 | splitting at the last separator recovers what was glued, even if the left part holds more separators |
| Text.SplitWsJoin | src/ssh_keys.rs:26-63 | joining tokens with single spaces and splitting on white space are inverse |
| Text.SplitWsTrim | src/ssh_keys.rs:20-27 | trimming first does not change the tokens |
| Text.ParseDec | src/runtime.rs:825-829 | a printed number parses to itself exactly when it fits the integer width |
| Text.WhiteSpaceIs | src/transport.rs:317-327 | white space is exactly the 25 characters of the Unicode property |
| Text.LinesAre | src/runtime.rs:816 | one carriage return goes before a newline and nowhere else, and no empty line follows the last newline |
| Text.DecimalsAre | src/runtime.rs:768-812 | printed numbers have no sign and no leading zeros |
| Text.NumbersRead | src/runtime.rs:825-829 | one leading plus and leading zeros are read as well; nothing and a bare sign are not |
| Text.NotANumber | src/runtime.rs:825-829 | any other character makes a number unreadable |
| Text.TrimAround | src/runtime.rs:519-539 | trimming a text around a separator trims its two ends |
| Utf8.DecodeEncode | src/runtime.rs:566-604 | the strict and the lossy decoder both invert encoding, for every string |
| Utf8.EncodeInjective | src/auth.rs:57-82 | different strings have different bytes, so a MAC over bytes is a MAC over the string |
| Utf8.EncodingsAre | src/runtime.rs:566-604 | the first and last character of each encoded length |
| Utf8.IllFormedAre | src/runtime.rs:566-604 | what ill-formed bytes are refused as, or replaced by |
| Hex.EncodeHex | src/auth.rs:173-181 | the pushing loop computes the two-digit encoding that the laws below are about |
| Hex.DecodeHex | src/auth.rs:183-205 | the character-walking decoder stays in range and agrees with the common meaning on every Unicode string, although its parity test counts UTF-8 bytes |
| Hex.FromHex | src/runtime.rs:931-954 | the byte-walking decoder agrees with the same meaning on every Unicode string |
| Hex.DecodeOfEncode | src/auth.rs:173-205 | decoding inverts encoding |
| Hex.EncodeOfDecode | src/auth.rs:173-205 | encoding what was decoded gives the text in lower case |
| Hex.DecodesIff | src/runtime.rs:931-954 | exactly the even-length strings of hex digits decode, to half as many bytes |
| Hex.DigitsAre | src/auth.rs:198-205 | the digits in both cases, and no other character |
| Hex.HexTextIff | src/auth.rs:183-205 | exactly even-length texts of the characters 0-9, a-f and A-F decode |
| Hex.HexByteIs | src/auth.rs:173-181 | a byte is its high digit and then its low one |
| SshKeys.NormalizePublicKey | src/ssh_keys.rs:20-63 | parsing and reassembling a key, with its four error cases, is rewriting its tokens one space apart |
| SshKeys.KeyLineIff | src/ssh_keys.rs:20-80 | a line is a key if and only if it has two tokens or more and the first is one of the five names, with the exact error in each other case, for parsing and normalising |
| SshKeys.ParsedKeyIs | src/ssh_keys.rs:20-52 | a parsed key is its tokens: algorithm, data, and the rest as comment, beside the trimmed line |
| SshKeys.NormalizeCanonical | src/ssh_keys.rs:55-63 | normalising keeps the token list and its result is a fixed point |
| SshKeys.NormalizeAlike | src/ssh_keys.rs:55-63 | two valid keys normalise alike if and only if their token lists are equal |
| SshKeys.NormalizeReparse | src/ssh_keys.rs:20-63 | reparsing a normalised key gives the same algorithm, key data and comment |
| SshKeys.ParseAgrees | src/ssh_keys.rs:20-63 | parsing fails exactly when normalising does, with the same error |
| SshKeys.NormalizedShape | src/ssh_keys.rs:55-80 | a normalised key is one trimmed line that cannot look like a marker |
| AuthorizedKeys.NormalizeAndDedup | src/authorized_keys.rs:84-97 | the loop with its `seen` set yields the first occurrences of the normal forms, or the error of the first bad key |
| AuthorizedKeys.DedupOkIff | src/authorized_keys.rs:84-97 | it succeeds if and only if every key is valid |
| AuthorizedKeys.DedupSound | src/authorized_keys.rs:84-97 | the result is normalised, without repeats, and holds every input key's normal form |
| AuthorizedKeys.DedupOrder | src/authorized_keys.rs:84-97 | each kept key is the normal form of its first occurrence, and first occurrences keep their order |
| AuthorizedKeys.DedupIdempotent | src/authorized_keys.rs:84-97 | doing it twice is doing it once |
| AuthorizedKeys.FindMarker | src/authorized_keys.rs:28-29 | the position search finds the first line that trims to the marker |
| AuthorizedKeys.FirstMarkerUnique | src/authorized_keys.rs:28-29 | a position with a marker and none before it is the one found |
| AuthorizedKeys.AppendManagedBlock | src/authorized_keys.rs:76-82 | the keys are appended between the two markers and nothing else changes |
| AuthorizedKeys.UpsertManagedBlock | src/authorized_keys.rs:21-59 | the imperative editor, with replace, append, separator and missing-end branches, is kept prefix, fresh block, kept suffix |
| ManagedBlockText.FirstInsertion | src/authorized_keys.rs:46-56 | in a file without a begin marker every line stays as it is, then a blank line if the last one was not, the markers and the keys |
| ManagedBlockText.Replacement | src/authorized_keys.rs:37-45 | every line before the first begin marker and after the first end marker stays as it is, with the markers and the keys between |
| ManagedBlockText.UpdateFailsIff | src/authorized_keys.rs:21-35 | an update fails if and only if a key is bad, or a begin marker stands in a file without an end marker |
| ManagedBlockText.NewFile | src/authorized_keys.rs:21-59 | the whole text of a new file with one key |
| ManagedBlockLaws.LinesOfJoin | src/authorized_keys.rs:26-58 | which lines one reads after writing lines joined by newlines |
| ManagedBlockLaws.RereadPlaced | src/authorized_keys.rs:26-58 | the exact lines of the file after an update |
| ManagedBlockLaws.PrefixShape | src/authorized_keys.rs:28-56 | kept lines before the block hold no begin marker, and no end marker if and only if the markers are ordered |
| ManagedBlockLaws.AgainOrdered | src/authorized_keys.rs:28-46 | a further update finds the block of the last one and keeps the same surroundings |
| ManagedBlockLaws.AgainUnordered | src/authorized_keys.rs:28-46 | with a stray end marker first, a further update keeps the whole old block as well |
| ManagedBlockLaws.OverwriteIff | src/authorized_keys.rs:21-59 | update with k1 then k2 equals update with k2 if and only if the file is stable; with k1 = k2 this is idempotence |
| ManagedBlockPasses.NeverFixed | src/authorized_keys.rs:21-59 | with unordered markers no number of updates reaches a fixed point |
| ManagedBlockPasses.StabilizesIff | src/authorized_keys.rs:21-59 | repeated updates reach a fixed point if and only if the markers are ordered |
| ManagedBlockPasses.BlankTail | src/authorized_keys.rs:26-58 | k blank lines after the block vanish one per pass after the first; the fixed point is reached after exactly k + 1 passes, and nothing else changes |
| ManagedBlockPasses.UpdatePreserves | src/authorized_keys.rs:21-59 | after an update with ordered markers the block holds exactly the new keys, the non-blank lines outside it are the old ones in order, and they are the file's own lines outside the markers, with the separator, to the letter if and only if the file is stable |
| ManagedBlockPasses.OutsideKeptIff | src/authorized_keys.rs:21-59 | for every file that can be updated, the visible lines outside the block are kept if and only if the markers are ordered |
| ManagedBlockPasses.NotIdempotentExample | README.md:254-258 | a file with one blank line after the block is changed by a second update with the same keys, and its outside lines are not kept to the letter |
| ManagedBlockPasses.NotPreservedExample | README.md:254-258 | on a file with a stray end marker an update changes the visible lines outside the block |
| ManagedBlockCounts.PassCountIff | src/authorized_keys.rs:26-58 | for every file with ordered markers, n updates reach a fixed point if and only if n exceeds a count taken from the kept lines: trailing carriage returns and vanishing last lines |
| ManagedBlockCounts.CountStep | src/authorized_keys.rs:26-58 | one rereading of the kept lines takes one off that count, which is zero exactly when they reread as themselves |
| Auth.SignedVerifies | src/auth.rs:34-82 | what is signed under a SID and token verifies under them |
| Auth.VerifyIff | src/auth.rs:57-82 | a message is accepted if and only if its SID is the expected one and its signature is the HMAC of its canonical string under the token; every other one is refused for the first of three reasons |
| Auth.TamperedIff | src/auth.rs:57-82 | a signed message with another body passes if and only if the two MACs are equal, and is otherwise refused for its signature |
| Auth.CanonicalIs | src/auth.rs:133-156 | the canonical string of each kind of context, in full |
| Auth.CanonicalNewlines | src/auth.rs:133-156 | a canonical string has five newlines if and only if no field has one |
| Auth.CanonicalInjective | src/auth.rs:133-156 | equal canonical strings, one of newline-free fields, have equal fields, contexts and body hashes, and the other is newline-free too |
| Auth.ContextKinds | src/auth.rs:146-156 | request, response and announcement contexts never coincide |
| Auth.ContextInjective | src/auth.rs:146-156 | canonical contexts agree if and only if the contexts do, up to case of the method, for colon-free ASCII methods |
| Auth.CanonicalIff | src/auth.rs:133-156 | the two laws together, as an if-and-only-if |
| Auth.ColonTwin | src/auth.rs:146-156 | every request whose method holds a colon shares its canonical context with a different request without one |
| Auth.ColonIff | src/auth.rs:146-156 | among ASCII methods, a canonical context determines its request if and only if the method has no colon |
| Replay.EnvelopeVerifier.constructor | src/auth.rs:93-106 | a new verifier has an empty history and cache |
| Replay.EnvelopeVerifier.Verify | src/auth.rs:108-124 | each call extends the history and answers as the step function does on that history: signature, window, prune, nonce, in that order |
| Replay.EnvelopeVerifier.PruneNonces | src/auth.rs:126-130 | exactly the entries of saturating age above the TTL go |
| Replay.VerdictIs | src/auth.rs:108-124 | a rightly signed message is refused exactly when its time is more than the skew from the clock, or its sender and nonce are remembered from at most one TTL ago |
| Replay.RefusedKeepsCache | src/auth.rs:108-124 | a call refused for signature, SID or time leaves the cache alone |
| Replay.NonceKeyIff | src/auth.rs:117-118 | for senders without a colon the cache key names sender and nonce |
| Replay.ColonSender | src/auth.rs:117-118 | a sender with a colon shares its key with another sender and nonce |
| ReplayLaws.StaysCached | src/auth.rs:108-130 | an accepted nonce stays cached, with its time, while no clock reading is more than the TTL past it |
| ReplayLaws.WindowGap | src/auth.rs:110-114 | two clock readings whose saturating windows hold one timestamp are at most twice the skew apart |
| ReplayLaws.AtMostOnce | src/auth.rs:108-130 | with `2 * skew + back <= ttl` no message is accepted twice in any run whose clock steps back by at most `back` |
| ReplayLaws.DoubleAcceptance | src/auth.rs:108-130 | below the threshold, a run within the clock bound accepts one message twice, for every configuration |
| ReplayLaws.ReplayThreshold | src/auth.rs:108-130 | safety of all runs holds if and only if the threshold is met or the TTL is the largest 64-bit number |
| ReplayLaws.RuntimeConstantsSafe | src/runtime.rs:23-24 | with 60 and 120 all runs are safe if and only if the clock never steps back |
| ReplayLaws.RefinesStep | src/auth.rs:108-130 | one call keeps the cache a refinement of the full acceptance log and answers as the log would |
| ReplayLaws.PrunedEqualsIdeal | src/auth.rs:108-130 | on non-decreasing clocks every call of every run is answered as by a verifier that forgets nothing |
| ReplayLaws.CacheBounded | src/auth.rs:117-130 | after every call that reaches pruning, no cached entry is older than the TTL |
| Payload.SerializePayload | src/transport.rs:304-313 | the appending loop writes one `key=value` line per entry |
| Payload.ParsePayloadBody | src/transport.rs:315-327 | the parsing loop gives the last value of each key, or fails on bad UTF-8 or a line that is neither blank nor an entry |
| Payload.PayloadRoundTrip | src/discovery.rs:232-257 | reading what was written gives the entries, the last for each key, for trimmed newline-free keys and values |
| Payload.ParseOfSerialize | src/transport.rs:304-327 | the same through bytes |
| Payload.ReadValuesSafe | src/transport.rs:315-327 | whatever is read is trimmed and free of newlines |
| Payload.LineIs | src/transport.rs:315-327 | white space around key and value does not count, and only the first equals sign separates |
| Payload.PayloadParsesIff | src/transport.rs:315-327 | a body is readable if and only if it is UTF-8 and each of its lines is an entry or white space |
| Wire.SerializeEnvelope | src/runtime.rs:768-812 | the step-by-step printer writes the envelope's entries in order |
| Wire.ReadEnvelope | src/runtime.rs:814-867 | the parser that fills and drains a map computes the same as reading the fields without removing them |
| Wire.DrainEnvelope | src/runtime.rs:825-867 | removing each key as it is read never hides a later one |
| Wire.EntriesRead | src/runtime.rs:768-867 | the entries of an envelope determine it, in each of the three contexts |
| Wire.SignedSafe | src/auth.rs:34-55 | a signed envelope is wire-safe if and only if the fields that were signed are |
| Wire.RoundTripIff | src/runtime.rs:768-867 | an envelope survives printing and parsing if and only if its text fields are trimmed and newline-free, for any body |
| Wire.ParsedRoundTrip | src/runtime.rs:768-867 | whatever was parsed from any text survives printing and parsing again |
| Wire.ParsedLineFree | src/runtime.rs:814-867 | every parsed envelope meets the condition of the injectivity law |
| Wire.JunkIgnored | src/runtime.rs:816-820 | a line that is no entry changes nothing in an envelope, wherever it stands |
| Wire.EnvelopeIff | src/runtime.rs:814-867 | a text is an envelope if and only if its entries give a head, a context and a body in hex, and these are its fields |
| Wire.HeadIs | src/runtime.rs:821-833 | the head needs five entries and a 64-bit time |
| Wire.ContextIs | src/runtime.rs:834-852 | there are three kinds of context, each with its own entries, and no other |
| Wire.EnvelopeText | src/runtime.rs:768-812 | the text of an envelope of each kind, in full |
| Transport.NewService | src/transport.rs:65-79 | every service holds a normalised key |
| Transport.KeyBody | src/transport.rs:97-140 | the client reads from a key body exactly what the responder wrote |
| Transport.RequestAnswered | src/transport.rs:81-120 | a key request between services of one SID and token is always answered |
| Transport.AnswerReadIff | src/transport.rs:97-140 | the client reads the responder's SID, id and key if and only if SID and id are trimmed and newline-free |
| Transport.PublishBody | src/transport.rs:142-163 | a publication is read back as it was written if and only if its fields are trimmed and newline-free |
| Transport.PublishExchange | src/transport.rs:142-190 | a well-formed publication is acknowledged if and only if its key is valid |
| Transport.RequestIs | src/transport.rs:81-95 | the key request: its context, its body and its fields, and that it verifies |
| Transport.KeyAnswerIff | src/transport.rs:97-120 | a key request is answered if and only if its MAC is right and it is a POST, in any letter case, to the key path; else the error says which |
| Transport.KeyAnswerIs | src/transport.rs:97-120 | the answer: a 200 on the key path with the service's own SID, id and key, in full |
| Transport.ReplyReadIff | src/transport.rs:122-140 | which replies a client reads, with the exact error for each other one |
| Transport.ReadKeyNormalized | src/transport.rs:122-140 | a key that a client reads is normalised |
| Transport.AcknowledgedIff | src/transport.rs:165-190 | which publications are acknowledged, with the exact error for each other one |
| Transport.AcknowledgementIs | src/transport.rs:165-190 | the acknowledgement: a 202 on the publication path that says accepted and names the participant, in full |
| Transport.AcknowledgementRead | src/transport.rs:165-190 | what is read from it |
| Http.FindSubslice | src/runtime.rs:869-873 | the first occurrence of the needle, or none anywhere |
| Http.HeaderEndInPrefix | src/runtime.rs:545-564 | the first blank line shows up exactly when enough of the stream has been read |
| Http.ByteStream.Read | src/runtime.rs:546-547 | a read returns the next chunk, or reports the end of the stream |
| Http.ReadHeader | src/runtime.rs:541-564 | the head loop stops at the first blank line of the whole stream, or fails as the outcome function says, with a bounded buffer |
| Http.ScanContentLength | src/runtime.rs:580-588 | the scanning loop computes the length the two laws below are about |
| Http.LastLengthWins | src/runtime.rs:580-588 | the last well-formed Content-Length wins, in any letter case |
| Http.NoLengthIsZero | src/runtime.rs:580-588 | without a well-formed Content-Length the body is empty |
| Http.ReadBody | src/runtime.rs:590-605 | the body loop returns the declared number of bytes of the stream, ignores the surplus, fails on a short stream and panics on a length sum beyond 64 bits |
| Http.ReadHttpRequest | src/runtime.rs:541-606 | for any chunking the streaming reader returns what the whole-stream parser says, panics included, unless a read overran the limit before the head ended; the head buffer stays within 65536 + 1024 bytes |
| Http.PanicsIff | src/runtime.rs:590-604 | it panics if and only if the head is read and its size and declared length exceed 64 bits together |
| Http.SafeOutcome | src/runtime.rs:541-606 | on streams outside the grey zone the answer is that of the whole-stream parser, whatever the chunking |
| Http.GreyZone | src/runtime.rs:559-564 | inside the grey zone two chunkings of one stream give different answers |
| Http.ChunkingIff | src/runtime.rs:541-606 | the answer is independent of the chunking if and only if the stream is outside the grey zone |
| Exchange.HeadEnd | src/runtime.rs:608-673 | the first blank line of a message is the one that ends its head, whatever the body holds |
| Exchange.PostHeadRead | src/runtime.rs:642-646 | the server reads the client's path and length from the request head |
| Exchange.PostArrives | src/runtime.rs:541-646 | a posted text arrives as it was sent, for every chunking |
| Exchange.OverflowPanics | src/runtime.rs:590-604 | a request head declaring more than 64 bits have room for panics the reader, for any body and chunking |
| Exchange.ResponseArrives | src/runtime.rs:608-673 | the client gets the body the server wrote |
| Exchange.NonceSafe | src/runtime.rs:901-907 | generated nonces are trimmed and newline-free |
| Exchange.FullExchange | src/runtime.rs:380-466 | build, print, post, cut up, read, parse, handle, answer, parse, verify: the client ends with exactly the responder's SID, id and normalised key |
| Handler.StreamRead | src/runtime.rs:541-606 | what any request head and the bytes after it come to, with the exact error in each case, for every chunking |
| Handler.NoHead | src/runtime.rs:545-564 | a stream without CR LF CR LF is too large beyond 65536 bytes, else closed or failed |
| Handler.PostText | src/runtime.rs:642-646 | the request text, in full |
| Handler.ResponseText | src/runtime.rs:608-628 | the response text of each of the four statuses, in full |
| Handler.StatusArrives | src/runtime.rs:608-628 | the status can be read back from the response |
| Handler.ReplyStatus | src/runtime.rs:433-466 | 400, 404, 200 and 401 are each sent if and only if the path, the envelope and the handler of the path call for it |
| Handler.ReplyBody | src/runtime.rs:433-466 | the body that goes with each |
| Handler.NoReply | src/runtime.rs:437 | nothing is written back when the request could not be read |
| Handler.FullPublication | src/runtime.rs:433-466 | a publication end to end, for any chunking: status 200, an envelope that verifies, a 202 that says accepted for exactly the published id |
| Handler.NonceIs | src/runtime.rs:901-907 | the form of nonces; different instants give different ones |
| Discovery.DiscoveryEngine.constructor | src/discovery.rs:44-65 | a new engine has an empty history, no peers and no trigger |
| Discovery.DiscoveryEngine.AddBootstrapPeers | src/discovery.rs:67-83 | the call is one bootstrap step of the history, over the fields and the verifier |
| Discovery.DiscoveryEngine.ProcessAnnouncement | src/discovery.rs:115-156 | the call is one announcement step, reaching the verifier only for announcement contexts, and returns that step's outcome |
| Discovery.DiscoveryEngine.RecordAnnouncement | src/discovery.rs:128-155 | an authentic announcement is installed, ignored or refused, and raises the trigger, as the install function says |
| Discovery.DiscoveryEngine.TakeSyncTrigger | src/discovery.rs:158-165 | returns whether the history left a trigger pending, and clears it |
| Discovery.EndpointWithId | src/runtime.rs:519-539 | the first peer form, for any text around the separators: the id ends at the first at-sign, the port starts after the last colon, white space goes |
| Discovery.EndpointBare | src/runtime.rs:519-539 | the second peer form: without an at-sign the whole text is the id |
| Discovery.EndpointNeedsPort | src/runtime.rs:519-539 | nothing else stands for a peer |
| Discovery.BootstrapIs | src/discovery.rs:172-191 | the engine's parser takes what the runtime's does, except an empty host |
| Discovery.AnnouncementIs | src/discovery.rs:193-230 | which bodies are announcements, with the exact error for each other one |
| Discovery.BuiltAnnouncementIs | src/discovery.rs:85-113 | a built announcement, in full |
| Discovery.OutcomeIs | src/discovery.rs:115-156 | the outcome of an announcement, case by case |
| DiscoveryLaws.SeenOfRun | src/discovery.rs:115-127 | the engine's nonce cache is that of a verifier given just the announcement-context calls |
| DiscoveryLaws.NotIgnoredAccepted | src/discovery.rs:115-156 | any outcome but `Ignored`, errors included, was accepted by the verifier |
| DiscoveryLaws.AnnouncementOnce | src/discovery.rs:115-156 | over every run above the replay threshold, a signed announcement has at most one outcome other than `Ignored` |
| DiscoveryLaws.SameVerdict | src/discovery.rs:119-127 | on non-decreasing clocks the engine judges each announcement as a full log would |
| DiscoveryLaws.PeersFold | src/discovery.rs:67-156 | on non-decreasing clocks the peer map is the fold, in arrival order, of bootstrap records and announcements that a never-forgetting engine accepts |
| DiscoveryLaws.PendingIff | src/discovery.rs:67-165 | in every reachable state the trigger is pending if and only if there was news since the last take |
| DiscoveryLaws.TakeIff | src/discovery.rs:158-165 | a take reports news if and only if, since the previous take, a peer was added or updated or a bootstrap id was new |
| DiscoveryLaws.RecordsWellFormed | src/discovery.rs:67-156 | in every reachable state records sit under their own ids, with a trimmed non-empty address and an empty or normalised key |
| DiscoveryLaws.BootstrapForms | src/discovery.rs:172-191 | both documented peer forms parse to what they say; the engine's parser refuses exactly the empty host |
| DiscoveryLaws.AnnouncementBody | src/discovery.rs:193-257 | an announcement body is read back as it was written if and only if its fields are trimmed and newline-free and SID and address not empty |
| DiscoveryLaws.SecondIdWins | src/discovery.rs:85-138 | an announcement whose address holds a newline and a second participant id is read as one of that id |
| DiscoveryLaws.AnnouncementArrives | src/discovery.rs:85-113 | a built announcement survives the wire format, whatever its address |
| DiscoveryLaws.FreshAnnouncementInstalls | src/discovery.rs:85-156 | a fresh in-window announcement installs exactly its sender's record, from any state, and is reported as added, updated or known |
| Daemon.DaemonLoop.constructor | src/daemon.rs:55-73 | the initial state, with the interval raised to at least one second |
| Daemon.DaemonLoop.SetKnownPeersCount | src/daemon.rs:79-81 | one step of the history |
| Daemon.DaemonLoop.TriggerSyncFromDiscovery | src/daemon.rs:83-87 | one step of the history |
| Daemon.DaemonLoop.RequestShutdown | src/daemon.rs:89-99 | one step of the history |
| Daemon.DaemonLoop.ShouldStartSync | src/daemon.rs:101-110 | reads, and does not change, whether a sync is due or triggered |
| Daemon.DaemonLoop.StartSync | src/daemon.rs:112-118 | one step of the history; returns whether a sync was due in the state before |
| Daemon.DaemonLoop.RunStartupSync | src/daemon.rs:120-125 | one step of the history: the sync runs even if none was due |
| Daemon.DaemonLoop.FinishSync | src/daemon.rs:127-151 | one step of the history, in each of the success, shutdown and failure cases |
| DaemonLaws.AlwaysConsistent | src/daemon.rs:55-151 | after any calls in any order: stopping if and only if shut down with a sync in flight, nothing in flight when stopped, no shutdown request while running, a recorded critical error only when stopped |
| DaemonLaws.ReachableIff | src/daemon.rs:55-151 | the reachable control states are exactly the consistent ones |
| DaemonLaws.ShutdownRun | src/daemon.rs:83-151 | after a shutdown request no start succeeds, the loop never runs again, and it is stopped if and only if it was idle then or a sync has ended since |
| DaemonLaws.StoppedForGoodIff | src/daemon.rs:127-151 | a stopped loop stays stopped under all further calls if and only if shutdown was requested |
| DaemonLaws.RunsAgain | src/daemon.rs:127-151 | a run that stops on a critical failure and runs again |
| DaemonLaws.TriggerPendingIff | src/daemon.rs:83-151 | a trigger is pending if and only if one was taken up while running and no sync has ended since |
| DaemonLaws.PeersCountIs | src/daemon.rs:79-81 | the peer count is the last one set |
| DaemonLaws.CriticalErrorIs | src/daemon.rs:127-151 | the critical error is that of the last sync that ended, if it failed |
| DaemonLaws.SuccessIs | src/daemon.rs:127-151 | last success, peer errors and due time are those of the last sync that succeeded |
| DaemonLaws.NothingYet | src/daemon.rs:55-73 | before that, these fields are as at the start |
| DaemonLaws.FlightLasts | src/daemon.rs:89-151 | a sync stays in flight until one ends |
| DaemonLaws.StartsSeparated | src/daemon.rs:101-151 | between two successful starts a sync ended |
| DaemonLaws.SyncRateBound | src/daemon.rs:55-151 | on non-decreasing clocks on which no due time wraps, the successful direct starts number at most the triggers that raised the flag plus the whole periods elapsed |
| DaemonLaws.SyncRateAttained | src/daemon.rs:55-151 | the bound is attained for every number of periods |
| DaemonLaws.RateBoundedIff | src/daemon.rs:55-151 | for interval plus jitter within 64 bits, the bound holds of every run up to a clock reading if and only if a due time set at that reading does not wrap |
| RunLoop.Run | src/runtime.rs:156-225 | the loop, over a discovery engine, syncs in exactly the turns the specification says |
| RunLoop.TriggeredIff | src/runtime.rs:189-195 | the trigger is found set in a turn if and only if that turn brings news, the bootstrap counting with the first |
| RunLoop.SyncsIff | src/runtime.rs:189-196 | a turn syncs if and only if a sync is due or the turn itself brings news |
| RunLoop.NextAfterSync | src/runtime.rs:189-225 | the next sync is due a whole interval after one, at least a second, unless news comes first |
| RunLoop.NextWithoutSync | src/runtime.rs:159-225 | the first sync is due at once, and a turn without one leaves the due time |
| RunLoop.SyncBound | src/runtime.rs:189-225 | on clocks that do not go back and on which no due time wraps, sync cycles number at most the turns with news plus the whole intervals elapsed plus one |
| RunLoop.SyncBoundAttained | src/runtime.rs:189-225 | the bound is attained for every number of intervals |
| RunLoop.SyncBoundedIff | src/runtime.rs:189-225 | the bound holds of every run up to a clock reading if and only if a due time set at that reading does not wrap |
| SyncCycle.CollectEndpoints | src/runtime.rs:351-366 | whatever order the hash map has, discovered peers are collected under their announced addresses, over configured ones |
| SyncCycle.DiscoveredFirst | src/runtime.rs:357-366 | a discovered peer's id stands for its discovered address, whatever is configured |
| SyncCycle.ConfiguredNext | src/runtime.rs:351-356 | any other id stands for the last configured value for it, and for nothing if there is none |
| SyncCycle.CycleIs | src/runtime.rs:344-378 | what a cycle does for one id: whom it asks, and that only an accepted answer changes the key |
| SyncCycle.RunSyncCycle | src/runtime.rs:344-378 | the cycle's result does not depend on the order in which peers are asked: old keys overridden by successful answers, self left out |
| SyncCycle.ManagedIsLatest | src/runtime.rs:344-378 | over every run the managed map holds exactly the peers that ever answered, each with its latest answer |
| SyncCycle.ManagedGrows | src/runtime.rs:189-213 | over every run the managed ids only grow and never contain the node itself |
| Group.OnlyAnswersLookLikeAnswers | src/transport.rs:97-140 | among all that nodes sign, only an answer to a key request has the canonical context of one |
| Group.AcceptedFromGroup | docs/rfcs/0001.md:83-88 | any message a node accepts was signed by a node of its SID and token, with the same sender, time, nonce, body and canonical context |
| Group.PublishedByGroup | docs/rfcs/0001.md:83-88 | an accepted publication was published by a node of the group, and reads as that node's publication if and only if its fields were trimmed and newline-free |
| Group.AnnouncedByGroup | docs/rfcs/0001.md:112-114 | an accepted announcement was made by a node of the group, and reads as what that node announced if and only if the fields were trimmed and newline-free, SID and address not empty |
| Group.AnnouncerOf | src/discovery.rs:85-113 | whoever made an accepted announcement signed it in its own name and wrote its body |
| Group.AnnouncerNamedIff | src/discovery.rs:115-138 | every node that made an accepted announcement has the id read from it if and only if that id is the sender's |
| GroupDiscovery.RecordSource | src/discovery.rs:67-156 | over every run, each peer record was configured or heard in an announcement that verified |
| GroupDiscovery.DiscoveryIsolation | docs/rfcs/0001.md:83-88 | over every run on any clocks, each record of a node whose token has not leaked was configured there or announced by a node of its SID and token, whose id is the record's if and only if the sender's is |
| GroupDiscovery.MisnamedRecord | src/discovery.rs:85-138 | a run of two nodes of a group that meets the hypotheses and installs an announced record under an id that need not be any node's |
| Group.SignerOfReply | src/transport.rs:97-140 | whoever signed an accepted reply was serving exactly the SID, id and key the reply carries |
| Group.ReplyFromGroup | src/runtime.rs:380-402 | an accepted reply was signed by a node of the same SID and token and carries exactly that node's SID, id and key |
| Group.SignerNamedIff | src/runtime.rs:366-401 | the node that signed an accepted reply has the id of the endpoint asked if and only if the reply names that id |
| Group.ManagedIsLastReply | src/runtime.rs:344-402 | the managed map holds exactly the ids with an accepted reply, each with the key of the last one |
| Group.GroupIsolation | src/runtime.rs:344-402 | over every run of any nodes on any network, each managed key of a node whose token has not leaked is the normalised key of a node of the same SID and token |
| Group.PeerIsolationIff | src/runtime.rs:366-401 | over every run, the key kept under an id came from the node of that id if and only if the last accepted reply names the id |
| Group.MisnamedRun | src/runtime.rs:366-401 | any server of the group reached under an id that no node has gets its key kept under that id |
| Group.MisnamedExample | src/runtime.rs:366-401 | a run with concrete nodes in which a key is kept under the wrong id |
| Group.AnsweredOnlyToGroup | src/transport.rs:97-120 | a node answers a key request only if a node with its SID and token signed that very request |
| Group.HonestRunWorks | src/runtime.rs:344-402 | two nodes of a group do exchange a key, in a run that meets the hypotheses of the isolation law |
| Freshness.VerifiedIff | src/auth.rs:108-124 | the handlers' check passes exactly what the verifier passes or refuses for age or nonce alone, and the two differ exactly on messages that are not fresh |
| Freshness.KeyRequestIff | src/transport.rs:97-120 | the same of key requests, after any calls of the verifier |
| Freshness.PublicationIff | src/transport.rs:165-190 | the same of publications with a readable body and a valid key |
| Freshness.ReplyIff | src/transport.rs:122-140 | the same of replies with a readable body |
| Freshness.AnsweredIs | src/transport.rs:97-120 | the answered requests of a run are those the handler answers |
| Freshness.AsDocumentedIff | README.md:240-241 | over whole runs of key requests on any clock, nothing stale or replayed is answered if and only if every answered request is in its window and no two within one TTL share sender and nonce |
| Freshness.HandledIs | src/transport.rs:97-190 | the handled calls are those one of the two handlers answers or acknowledges |
| Freshness.HandledAsDocumentedIff | README.md:240-241 | the same over whole runs of any requests, for a verifier that sees what is handled |
| Freshness.ReplayedRequest | README.md:240-241 | with 60 and 120, one request is answered again at once and at second 1000, where the verifier says replayed and stale |
| Freshness.ReplyInstalls | src/runtime.rs:366-401 | after any run, reading an accepted reply sets the peer's key to the one it carries, whenever it was signed |
| Freshness.RecordedReplyIff | src/runtime.rs:366-401 | reading an earlier reply again restores the map from before the newer one, and changes something if and only if the keys differ |
| Freshness.RollBack | src/runtime.rs:344-402 | a run meeting every hypothesis of group isolation that ends with a host's earlier key |
| Deployment.DedupKeepsNormalized | src/authorized_keys.rs:84-97 | removing repeats from normalised keys loses and adds none |
| Deployment.WrittenKeysFromGroup | src/runtime.rs:189-213 | after any run, writing the managed keys to a file with ordered, closed markers succeeds, lists each managed key once and only keys of the group, and keeps the visible rest of the file |

## Left out

- Sockets, TLS, certificate loading and name resolution (src/runtime.rs:404-431, 675-766): library calls; the network is any text or chunk sequence.
- Files, permissions, atomic rename and the PID, stop and log control files (src/authorized_keys.rs:61-74, 99-182, src/runtime.rs:284-342, 956-1154): input and output without algorithmic content.
- The internals of HMAC and SHA-256, the clock and the source of nonces (src/runtime.rs:894-907): function values and inputs of the run; `next_nonce` is modelled from the nanosecond count on.
- Command line and configuration (src/main.rs, src/config.rs), `parse_port`, `advertised_address`, `read_local_public_key` and `Display` texts: they would only add easy members.
- The receive loop around announcements (src/runtime.rs:468-492): truncation of datagrams at 8192 bytes is not modelled.
- Auth.CanonicalIff: stated for ASCII methods, because only ASCII upper case is modelled (beyond it, `to_uppercase` also merges letters such as U+017F and S), and for colon-free ones, because with a colon the law is false (`Auth.ColonIff`).
- Daemon.DaemonLoop.FinishSync: due times wrap, as in a build without overflow checks; with checks the program panics there instead. The constructor, `RunStartupSync` and `RunLoop.Run` do the same.
- What a turn of `run_daemon` does besides syncing (src/runtime.rs:189-233): serving HTTP requests, writing the file, announcing itself, the stop file and the sleep; a failing write or announcement ends the real loop.
- Exchange.FullExchange: requires a request head of at most 65537 bytes, because longer ones are refused for some chunkings (`Http.GreyZone`).
- Group.GroupIsolation: unforgeability and absence of collisions are hypotheses on the run.
- The output vectors and the managed-key map that the program passes by mutable reference (`append_managed_block`, `run_sync_cycle`, `parse_envelope`) are passed and returned as values: aliasing is not captured.
- The parser's separate error kinds for integers and missing fields of an envelope (src/runtime.rs:814-867) are one `None`, as its only callers treat them alike.
- `usize` is taken to be 64 bits wide.
