# A verified model of the TessariDB client for Go

This project models, in Dafny, the five parts of the client that carry its branching, its state and its
arithmetic, and proves what they promise. `dafny verify dfyconfig.toml` checks all of it.

- **The value codec.** `Values`, `Encoding` and `Decoding` say what the bytes are; `Writing` and `Reading`
  are the writer over a growing buffer and the reader over a cursor, each method proved against them;
  `CodecLaws` and `OrderLaws` hold the theorems. `Layouts` says byte by byte what an encoding is and
  `Acceptance` what decodes, both in literals that share nothing with the writer and the reader. `Words` and
  `Utf8` are the digits, orders and text below, and `Utf8Laws` is RFC 3629.
- **Frames, answers, the connection and redirects.** `Frames`, `Outcomes`, `OutcomeLaws` and
  `AnswerReading` are the stream and what a node answers on it; `AnswerLayouts` and `MessageLayouts` say byte by
  byte what is received and what is sent. `Connections` gives every call as a function
  of the history so far, with the nodes and the network as arbitrary functions of that history;
  `Client` is the connection as the client runs it, fields updated in place and proved equal to those
  functions. `ConnectionLaws` proves what every run keeps, `Exchanges` what each call puts on the wire and on
  which connection, `CallLaws` that each call is what the events it leaves say and nothing else, `TenancyLaws` that
  no redirected request goes without its tenancy, `CredentialLaws` when credentials are sent and when they are lost, and `MessageLaws` that
  every message and every selected tenancy reads back. `VaultStatuses` is what a vault act answers with.
- **The statement builder.** `Texts`, `Spans` and `Statements` say what a statement's text is;
  `Builders` and `WriteBuilders` are the builder classes and their `Render`; `StatementReading` is a reader
  with no precedence or associativity in it, and `StatementLaws` and `ScriptLaws` prove that the text reads
  back, what its references are, and that no value reaches it.
- **Literals.** `Quoting`, `Decimals`, `Durations`, `Uuids`, `Literals`, `LiteralWriting` and `LiteralLaws`;
  `Spellings` says letter by letter what their texts are.
- **Protocols on a shared store.** `Queues` (claim, handle, settle), `Leases` (the lock) and `Loading` (racing
  loaders), each against arbitrary interleavings, and the last two with statements and replies lost anywhere.
  `Caches` is a space of the store, and `CacheStatements` what a cache sends it and what those words mean.

A Go string or byte slice is a sequence of bytes (`Str`). Integers are unbounded unless a type or an explicit
remainder says otherwise; 32-bit truncation of counts and 64-bit wrap-around are written out. A nil interface
is a constructor of its own (`NoValue`, `NoId`, `NoBound`, `NoShape`, `NoFilter`). Errors are told apart where
a caller can tell them apart, and their wording is not modelled. A writer's failure stands for an error and,
for a mantissa that needs more than sixteen bytes and for a nil operand of a junction, for the panic there.

`ReadValue` carries a flag, `canonical`, that the code has no counterpart for: it stays true as long as every
bool byte read is 0 or 1 and every object's names are strictly ascending. The theorem about it says when
reading and writing again gives back the same bytes.

## Where the code and its documentation differ

The model follows the code.

- The repository's README counts two refusal reasons of the builder; `query.go:24-35` has four. `Fault` has
  those four and the two plain errors for an operator and a direction out of range.
- `bytes.go:80-82` says the encoding of a prefix is a byte prefix of the encoding of the whole. That holds of
  the escaped bytes (`OrderLaws.EscapeIsLocal`) and not of the terminator after them: with it, an encoding
  begins the encoding of a longer string if and only if the string is the same (`OrderLaws.PrefixOnlyOfItself`;
  `OrderLaws.PrefixIsLost` is "a" in "ab").
- `conn.go:194-201` says the credential goes with the first statement. It counts as spent before the
  parameters are encoded and before the body is measured, so a call that cannot be written, or whose frame
  would be over the ceiling, spends it unsent. The first Request or Vault frame of the connection a caller
  dialled carries the credential if and only if no earlier call was such a one
  (`CredentialLaws.FirstFrameCarries`); after such a first call it is never sent on that connection
  (`CredentialLaws.SpoiledIsLost`), a nil parameter for one (`CredentialLaws.NilParameterLosesCredentials`).
- `conn.go:249` and `narrowed.go:56` add one to the last sequence seen. The Subscribe frame that is sent asks for
  what follows it if and only if it is not the largest sequence, whose successor wraps to zero and asks for the
  stream from its start (`MessageLaws.FeedResumes`).
- `jsonscalar.go:143-144` says a wrapped product is guarded against. The guard is on the products of seconds;
  the sums, and the products of the smaller units, wrap in silence. `Durations.SumsAreExact` gives the exact
  condition under which a text is read right, and `Durations.SumCanWrap` a text that is not: 2^63 - 1 seconds and
  one second more are read as 2^63 seconds below zero.
- `vault_frame.go:40-41` says how long an unseal lasts. The product that turns its seconds into nanoseconds is
  not guarded: the period is right if and only if it fits an int64 of nanoseconds, about 292 years
  (`VaultStatuses.PeriodIsExact`), and 300 years come out below zero (`VaultStatuses.LongPeriodIsLost`).
- `cache.go:207-210` says that of racing loaders the first to store wins and the others answer its value. So
  they do while what is under the key stays (`Loading.OneValueForAll`), and a change by others keeps every race
  agreed if and only if it lets what is under the key stay and puts no NONE there (`Loading.LetsIsExact`): once a
  value lapses, is deleted or is written over, two callers can answer differently (`Loading.ChangeSplits`;
  `Loading.LapseCanSplit` is one such race).
- A lock's release writes the word `free` as the holder. A holder of that very name is told it holds a lock it
  never took (`Leases.PromisedUnlessNamedFree`).

## Model

| member | source | states |
|---|---|---|
| `CodecLaws.DecodeInvertsEncode` | decode.go:10-112 | for every value the writer accepts, however nested, decoding its encoding gives it back if and only if its counts and lengths are below 2^32, its mantissas inside i128 and its text UTF-8 |
| `CodecLaws.ValueReads` | decode.go:22-112 | reading an encoding followed by any bytes gives that value and stops at those bytes |
| `CodecLaws.EncodingsArePrefixFree` | encode.go:14-105 | two encodings that agree with something after each are one value and one remainder: no encoding is a proper prefix of another |
| `CodecLaws.DecodedIsWritable` | decode.go:10-20 | whatever bytes decode, the value encodes again, in no more bytes, to bytes that decode to it, and to the same bytes exactly when names were ascending and bools 0 or 1 |
| `CodecLaws.ValueWrites` | decode.go:22-112 | what any reading took is never shorter than the value's encoding, and equals it exactly when canonical |
| `CodecLaws.ObjectReads` | decode.go:69-93 | the fields of an object, written in sorted order, are read back to the same map |
| `CodecLaws.ObjectWrites` | encode.go:71-88 | an object read in any order of names, repeated ones included, re-encodes in no more room |
| `CodecLaws.I128Reads` | bytes.go:59-67 | sixteen bytes hold a signed integer if and only if it is inside i128 |
| `CodecLaws.VarbytesReads` | bytes.go:190-214 | an escaped, terminated string reads back whatever follows it |
| `CodecLaws.VarbytesWrite` | bytes.go:190-214 | the bytes read as an escaped string are the only ones it could have been written as |
| `CodecLaws.ShapeReads` | decode.go:267-330 | every geometry reads back, collections nested to any depth |
| `CodecLaws.ShapeWrites` | encode.go:187-225 | a geometry that is read has one encoding, the bytes it was read from |
| `CodecLaws.BoundReads` | decode.go:197-214 | a range bound reads back, the value in it included |
| `CodecLaws.IdReads` | decode.go:169-195 | a record id of each of the four kinds reads back |
| `CodecLaws.MomentReads` | decode.go:138-151 | seconds and nanoseconds read back when the nanoseconds are below 10^9 |
| `Acceptance.DecodedIs` | decode.go:10-112 | bytes decode to a value if and only if they are laid out as it tag by tag, with nothing after it, but for two liberties: any byte but zero is true, and the fields of an object come in any order, the last of a name counting; so every other tag, kind, bound, length, text that is not UTF-8 and whole second of nanoseconds is refused |
| `Layouts.ValueIs` | encode.go:14-105 | some bytes are the encoding of an accepted value if and only if they are laid out as it: the tag of each kind as a literal byte, counts and lengths in four base-256 digits, parts in order with nothing between or after them, fields in ascending order each name before its value, the lower bound before the upper |
| `Layouts.PositionIs` | encode.go:165-170 | sixteen bytes: the first eight are the digits of the longitude and the last eight those of the latitude |
| `Layouts.ShapeIs` | encode.go:187-225 | a geometry by its kind, 1 to 7, its rings and polygons counted, an exterior before the interiors, collections nested to any depth |
| `Layouts.IdIs` | encode.go:129-147 | a record identity by its kind, 1 to 4: eight inverted digits, escaped text, sixteen bytes, escaped bytes |
| `Layouts.BoundIs` | encode.go:149-163 | a bound by its kind, 1 to 3, and its value |
| `Layouts.ClockIs` | encode.go:117-127 | eight digits of the seconds moved up by 2^63 and four of the nanoseconds |
| `Layouts.InvertedIs` | bytes.go:45-50 | eight base-256 digits of the number plus 2^63 |
| `Layouts.Plain128Is` | bytes.go:59-67 | sixteen base-256 digits of the mantissa, or of the mantissa plus 2^128 below zero |
| `Layouts.EndedIs` | bytes.go:80-92 | each byte as it is, 00 FF for a zero byte, and 00 01 at the end |
| `Layouts.FourBytes` | bytes.go:37-39 | four digits count 2^24, 2^16, 2^8 and 1 |
| `Utf8Laws.ValidIsEncoded` | bytes.go:177-188 | a text is accepted if and only if it is a run of encodings of Unicode scalar values as RFC 3629, section 3, lays them out: no surrogate, nothing longer than it need be, nothing above U+10FFFF |
| `OrderLaws.I64Order` | bytes.go:45-50 | the byte order of inverted integers is the order of the integers |
| `OrderLaws.VarbytesOrder` | bytes.go:80-92 | the byte order of escaped strings is the order of the strings, embedded zero bytes included, whatever follows |
| `OrderLaws.MomentOrder` | encode.go:117-127 | the byte order of encoded moments is chronological, before the epoch too |
| `OrderLaws.IdOrder` | encode.go:129-147 | the byte order of encoded record ids is by kind and then by value |
| `OrderLaws.EscapeIsLocal` | bytes.go:80-92 | the encoding of a longer string is the escaped bytes of its beginning and then the encoding of the rest |
| `OrderLaws.PrefixOnlyOfItself` | bytes.go:80-92 | with the terminator, the encoding of a string begins the encoding of one that starts with it if and only if they are the same string |
| `OrderLaws.PrefixIsLost` | bytes.go:80-92 | the encoding of "a" does not begin the encoding of "ab" |
| `Writing.Encode` | encode.go:6-12 | the encoding of an accepted value, and an error for any other |
| `Writing.WriteValue` | encode.go:14-105 | appends exactly the value's bytes, and fails exactly on what is not accepted |
| `Writing.WriteItems` | encode.go:107-115 | appends a count and the items in order |
| `Writing.WriteFields` | encode.go:71-88 | appends the fields in ascending order of their names |
| `Writing.WriteMoment` | encode.go:117-127 | appends seconds and nanoseconds, refusing nanoseconds of a whole second |
| `Writing.WriteId` | encode.go:129-147 | appends the kind and the identity |
| `Writing.WriteBound` | encode.go:149-163 | appends the kind of bound and its value |
| `Writing.WriteShape` | encode.go:187-225 | appends the geometry, longitude before latitude |
| `Writing.Writer.PutI64` | bytes.go:45-50 | appends eight bytes with the first bit inverted |
| `Writing.Writer.PutI128` | bytes.go:59-67 | appends sixteen bytes of two's complement, or fails when they do not suffice |
| `Writing.Writer.PutVarbytes` | bytes.go:83-92 | appends the escaped bytes and the terminator |
| `Reading.Decode` | decode.go:10-20 | a value with nothing after it, or an error |
| `Reading.GetValue` | decode.go:22-112 | reads what the specification reads and leaves the cursor where it does |
| `Reading.GetItems` | decode.go:153-167 | reads as many items as the count says |
| `Reading.GetFields` | decode.go:69-93 | reads as many fields as the count says, the last of a name winning |
| `Reading.GetId` | decode.go:169-195 | reads a record id of one of four kinds, and refuses any other |
| `Reading.GetShape` | decode.go:267-330 | reads a geometry of one of seven kinds, and refuses any other |
| `Reading.Reader.GetVarbytes` | bytes.go:190-214 | reads to the terminator, and refuses any other escape |
| `Reading.Reader.GetText` | bytes.go:179-188 | reads a length and that many bytes, and refuses what is not UTF-8 |
| `Words.SortNames` | statement.go:51-58 | the names of a map, all of them, in ascending byte order |
| `Words.SortedIsUnique` | statement.go:44-58 | there is only one such order |
| `Frames.CutStream` | frame.go:135-161 | a run of frames cut anywhere reads as exactly the whole frames before the cut, then a clean end if the cut is between two frames and a truncation if it is inside one |
| `Frames.OneFrameReads` | frame.go:135-161 | a frame of a known kind within the ceiling reads back, and the stream goes on behind it |
| `Frames.WriteFrame` | frame.go:93-103 | the frame's bytes, and an error for a body over the ceiling |
| `Frames.Stream.NextFrame` | frame.go:135-161 | one frame off the stream: whole, a clean end, truncated, too large or of an unknown kind |
| `Frames.Stream.TakeGreeting` | frame.go:113-128 | six bytes off the stream, the magic judged before the version |
| `MessageLayouts.FrameIs` | frame.go:93-103 | a frame is a kind, four digits of the length of its body, and the body; none is larger than 16,777,216 bytes |
| `MessageLayouts.GreetingIs` | frame.go:113-128 | a peer is understood if and only if its six bytes are TESS, 1 and its minor |
| `MessageLayouts.KindsAndMinors` | frame.go:12-38 | a Request is kind 1, a Vault 17 and a Subscribe 4; a vault act needs minor 2, a declare act 6 and a condition 4 |
| `MessageLayouts.MessageIs` | conn.go:189-218 | some bytes are the body of a message if and only if they are laid out as it: script, credentials and then parameters by ascending name; credentials, place and act, 1 to 5, the current passphrase before the next; sequence, table, cursor, condition |
| `MessageLayouts.RedirectIs` | conn.go:392-417 | a redirect is read if and only if its bytes are the sixteen of the node, eight digits of the epoch, 1 for settled or 2 for not, and a UTF-8 endpoint |
| `MessageLayouts.KindsAreUnderstood` | conn.go:171-187 | a frame is an answer if and only if it is of kind 2 and reads as one, a redirect of kind 13, and a refusal of kind 3 |
| `OutcomeLaws.AnswerReads` | outcome.go:119-145 | an answer of length-delimited entries gives one outcome for each, in order, each from its own bytes alone |
| `OutcomeLaws.AnswerSplits` | outcome.go:119-145 | whatever answer is read is such a list of entries, and what follows it is ignored |
| `OutcomeLaws.UnknownIsLocal` | outcome.go:147-195 | an entry of an unknown tag becomes Unknown and changes no other outcome |
| `AnswerLayouts.OutcomeIs` | outcome.go:147-195 | an outcome is read if and only if its bytes say it: 0 done, 1 records, 2 a value, 3 keys, 4 a count removed, anything else unknown with its bytes; each part in its order, a path by its number and any path above 8 a scan, and nothing asked of what follows |
| `AnswerLayouts.TailIs` | outcome.go:236-292 | the tail is read as what its bytes say group by group, a note kind before its message, any byte but zero for only, zero alone for exact, 1 and 2 for suggestions, what was typed before what to type; where the bytes stop nothing is made up, and an exactness that is not there is unstated |
| `AnswerLayouts.LastOfNames` | outcome.go:326-344 | each id has the last name given for it |
| `AnswerReading.GetAnswer` | outcome.go:119-145 | the loop over entries reads what the specification reads |
| `AnswerReading.GetOutcome` | outcome.go:147-195 | one entry by its tag |
| `AnswerReading.GetRecords` | outcome.go:203-292 | names, rows and as much of the tail as there is |
| `AnswerReading.GetSuggestion` | outcome.go:294-324 | one of three suggestion states, and no other |
| `AnswerReading.GetNames` | outcome.go:326-344 | the names by id, the last of an id winning |
| `ConnectionLaws.EveryRunIsLawful` | conn.go:146-218 | from the first dial, over every run of statements, vault acts and subscriptions against any nodes, every event is one the law allows |
| `ConnectionLaws.OneFrameCarriesCredentials` | conn.go:194-201 | in every run, of two frames sent on one connection at most one carries credentials |
| `ConnectionLaws.NothingFollowsASubscription` | conn.go:159-162 | in every run no frame is sent on a connection after a Subscribe that was delivered |
| `ConnectionLaws.NewFramesReachOnlyNewNodes` | vault_frame.go:138-145 | in every run each frame goes to a node that greeted before it, and vault, declare and condition frames only to one whose own greeting announced minor 2, 6 and 4 |
| `ConnectionLaws.NothingIsSentOnAClosedConnection` | follow.go:60-99 | in every run nothing is sent on a connection after it was closed |
| `ConnectionLaws.RequestsReachTheNodeNamed` | follow.go:102-116 | in every run the caller's request goes to a redirected-to node only after that node's context named the node of the redirect |
| `ConnectionLaws.FollowKeeps` | follow.go:60-99 | following: the home connection is asked its context and nothing else; at most three hops under epochs that never go back, the request at most once on each; an answer is what the request was answered with, on the connection adopted if it is settled and else on one closed again; a settled answer moves the connection, anything else leaves it where it was and open; everything else dialled is closed, a connection whose greeting failed included |
| `ConnectionLaws.ExecuteKeeps` | conn.go:146-155 | a statement, redirected or not, keeps the law and never answers with a redirect |
| `ConnectionLaws.VaultKeeps` | vault_frame.go:135-178 | a vault act keeps the law |
| `ConnectionLaws.SubscribeKeeps` | conn.go:269-282 | a subscription, narrowed or not, keeps the law |
| `CallLaws.ExecuteGoes` | conn.go:146-155 | every statement against any nodes, told from the events it leaves alone: the request; on a redirect the context question at home; at most three hops, each dialled for the newest redirect; and the answer or the one error these events call for, the connection the caller is left on, and credentials on the first frame of each connection alone |
| `CallLaws.HopsGo` | follow.go:60-99 | each hop: a fourth redirect is a loop, an older epoch than the last is stale, a node that is not there or does not greet is not dialled; a settled answer closes the old connection and keeps the new one, anything else closes the new one, and another redirect is followed in turn |
| `CallLaws.ArriveGoes` | follow.go:102-116 | the context question first; nothing more unless the context names the node; then the script that selects just the tenancy, if there is one, and nothing more if that is refused; and only then the request |
| `CallLaws.VaultGoes` | vault_frame.go:135-178 | a vault act, told from its events: below minor 2, or 6 to declare, nothing is sent; one value is its answer, and any other answer or a redirect breaks the protocol |
| `CallLaws.SubscribeGoes` | narrowed.go:69-94 | a subscription, told from its events: refused when subscribed, below minor 4 with a condition, with a parameter that cannot be written or a body too large; and the connection is subscribed if and only if the frame was delivered |
| `TenancyLaws.EveryRequestIsPrepared` | follow.go:102-116 | in every run against any nodes, a request on a connection that a redirect dialled comes after that node, asked its context, named itself as the node of the redirect, and after that, where the context of the session that was redirected had a namespace or a database, after a delivered script that selects exactly those two and was answered without an error |
| `Exchanges.ArriveIsSpoken` | follow.go:102-116 | on arrival everything said is said on that connection, and an answer is what the caller's request was answered with there |
| `Exchanges.FollowSays` | follow.go:60-99 | nothing but the one context question is said on the home connection, and an answer came on the connection adopted or on one closed again |
| `CredentialLaws.FirstFrameCarries` | conn.go:189-218 | over every run, the first Request or Vault frame of the connection dialled with credentials carries them if and only if no earlier call had a parameter that cannot be written or a body over the ceiling; on every connection a redirect dialled the first frame carries them |
| `CredentialLaws.SpoiledIsLost` | conn.go:194-201 | after a first call that cannot be written or is over the ceiling, no frame of that connection ever carries the credentials |
| `CredentialLaws.NilParameterLosesCredentials` | conn.go:194-209 | a first statement with a nil parameter loses the credentials, whatever is asked after it |
| `MessageLaws.MessageReads` | conn.go:189-218 | every Request, Vault and Subscribe body within the ceiling reads back to its message: credentials present or not, each parameter under its name, the target and the act, a condition without a cursor told from a cursor without a condition |
| `MessageLaws.SubscribeReads` | conn.go:285-314 | the same of a Subscribe body by itself |
| `MessageLaws.FeedResumes` | conn.go:242-254 | what a feed sends, narrowed or not, the node reads as a Subscribe that asks for the changes after the last seen if and only if that is not the largest sequence, and for the stream from its start after the largest |
| `MessageLaws.SelectionReads` | follow.go:139-152 | a context can be followed if and only if its namespace and database are plain names where they are text, and the script then selects those two, each at most once, and does nothing else |
| `Client.Connection.Follow` | follow.go:60-99 | the redirect loop leaves the answer, the connection's fields and the history that the specification gives |
| `Client.Connection.Arrive` | follow.go:102-116 | checks the node, selects the tenancy and only then sends the request |
| `Client.Connection.Context` | follow.go:119-136 | the last outcome's object, or an error |
| `Client.Select` | follow.go:139-152 | the USE statements of a context's tenancy, and an error for a name that is not plain |
| `Client.Connection.Open` | conn.go:88-119 | a connection only after a greeting that is understood, with the minor it announced; one whose greeting fails is closed again |
| `Client.Connection.Ask` | conn.go:159-187 | one request and one reply, refused on a subscribed connection |
| `Client.Connection.RequestBody` | conn.go:189-218 | the request's bytes, parameters in ascending order of name, and the credential spent even when a parameter cannot be written |
| `Client.Connection.Execute` | conn.go:146-155 | asks, and follows a redirect |
| `Client.Connection.VaultFrame` | vault_frame.go:135-178 | the gates in their order, the credential spent, and the status that the one value answered shows |
| `VaultStatuses.ReadVaultStatus` | vault_frame.go:91-131 | the status an object shows, fields beside it ignored, and an error exactly when it shows none: a state or a custody outside its set, a period or a moment of another kind |
| `VaultStatuses.SomethingIsShown` | vault_frame.go:91-131 | an object shows a status if and only if state is one of three words, unseal_for a duration, seals_at missing, none or a datetime, and custody missing, own or store |
| `VaultStatuses.SayingsAreAcceptable` | vault_frame.go:91-131 | each part of a status is what stands under its own name |
| `VaultStatuses.PeriodIsExact` | vault_frame.go:100-103 | the period handed on is right if and only if it fits an int64 of nanoseconds |
| `Client.VaultBody` | vault_frame.go:63-89 | the bytes of a vault frame |
| `Client.SubscribeBody` | conn.go:285-314 | the bytes of a Subscribe frame, with an empty cursor in its place when a condition follows |
| `Client.Connection.Changes` | conn.go:242-254 | subscribes from the change after the last seen, wrapping as a uint64 |
| `Client.Connection.ChangesAt` | conn.go:259-266 | subscribes from a cursor |
| `Client.Connection.ChangesWhere` | narrowed.go:55-61 | subscribes with a condition from the change after the last seen, wrapping as a uint64 |
| `Client.Connection.ChangesWhereAt` | narrowed.go:65-67 | subscribes with a condition from a cursor |
| `Client.Connection.Narrowed` | narrowed.go:69-94 | subscribes with a condition, and only to a node that reads one |
| `Client.Connection.SendSubscribe` | conn.go:269-282 | consumes the connection exactly when the frame was delivered |
| `Client.GetElsewhere` | conn.go:392-417 | a redirect, with no settlement byte but 1 and 2 |
| `Client.Understand` | conn.go:171-187 | an answer, a refusal or a redirect by the kind of the frame |
| `StatementLaws.StatementReads` | select.go:136-199 | every statement that renders reads back, by a reader without precedence, to exactly itself: items and windows, the tree of ANDs and ORs with each bound value, orderings, START, LIMIT, STALENESS and ANSWERED BY |
| `StatementLaws.RenderingsAreUnique` | write.go:32-159 | two statements with the same script and parameters are the same statement |
| `StatementLaws.FilterReads` | filter.go:67-105 | the parentheses make the tree built the tree read, with each value in its place |
| `StatementLaws.BindingsHold` | query.go:158-171 | n bound values make n parameters, each under a p and its place counted from zero |
| `ScriptLaws.ScriptIsProper` | query.go:158-171 | in every script the k-th reference is `$p` and k, and the only semicolon is the last character |
| `ScriptLaws.TextIgnoresValues` | query.go:10-16 | the text is the text of the same statement with every value replaced by NONE |
| `ScriptLaws.FilterFaultIsFirst` | filter.go:51-105 | a filter is refused for its first faulty comparison in the order of the text, a bad name before an operator out of range |
| `ScriptLaws.SelectFaultIs` | select.go:136-179 | a query is refused for its filter before its orderings, for the first direction out of range after that, and for nothing else |
| `Spans.CheckSpan` | query.go:79-107 | the greedy loop accepts exactly the texts that some cut makes one or more of digits and a unit |
| `Spans.GreedyIsRight` | query.go:67-107 | taking the longest unit first never takes another unit than the one written |
| `Spellings.EightUnits` | query.go:66-67 | the units are ns, us, ms, s, m, h, d and w |
| `Texts.IsPlain` | query.go:134-149 | accepts exactly a letter or underscore and then letters, digits and underscores, by their characters |
| `Builders.FirstRefusalWins` | statement.go:18-25 | over any calls the refusal kept is the first, and without one the query is legal |
| `Builders.EverySelectReadsBack` | select.go:57-199 | whatever calls built a SELECT, what it renders reads back to what they asked for: items and orderings as they were called for, the last START as the start, the last LIMIT as the limit, the last filter, and the last span and answerer that were accepted |
| `Builders.StepsTell` | select.go:65-134 | after any calls the query holds that, each clause from its own calls alone |
| `Builders.EveryRefusalIsTheFirst` | statement.go:18-25 | a bad table name is the refusal; else the first call with a bad name, span or answerer is, by its own words; and without any the statement renders if and only if its filter and orderings can |
| `Builders.SelectStatement.RenderSelect` | select.go:136-199 | the first refusal, else the first fault of the filter or the orderings, else the script and parameters |
| `Builders.SelectStatement.constructor` | select.go:57-61 | an empty query over a checked table name |
| `Builders.SelectStatement.AddField` | select.go:65-69 | one projection more, after a check of its name |
| `Builders.SelectStatement.AddLines` | select.go:78-82 | one window more, after a check of its name |
| `Builders.SelectStatement.Where` | select.go:86-89 | replaces the filter |
| `Builders.SelectStatement.OrderBy` | select.go:91-95 | one ordering more, after a check of its name |
| `Builders.SelectStatement.Staleness` | select.go:113-120 | sets the bound if it is a span, and refuses it otherwise |
| `Builders.SelectStatement.AnsweredBy` | select.go:127-134 | sets ANY or LEADER, and refuses any other word |
| `Builders.RenderFilter` | filter.go:67-105 | appends the filter's text and binds its values in the order of the text, or reports the first fault in that order |
| `Builders.Binder.Bind` | query.go:167-171 | binds under the next name |
| `WriteBuilders.OrderDoesNotMatter` | statement.go:44-58 | Set calls that leave each name the same last value build the same statement, in whatever order |
| `WriteBuilders.PutsTell` | statement.go:33-42 | after any Set calls each good name has its last value, and the first bad name is the refusal |
| `WriteBuilders.EveryWriteReadsBack` | write.go:32-131 | whatever Set calls built a CREATE or UPDATE, what it renders reads back |
| `WriteBuilders.WriteFields.Set` | statement.go:33-42 | sets a field of a good name, and refuses a bad one without setting it |
| `WriteBuilders.RenderObject` | statement.go:61-72 | appends the object with its names ascending and binds their values in that order |
| `WriteBuilders.CreateRecordStatement.RenderCreate` | write.go:32-50 | the identity bound first, then the fields; incomplete without any |
| `WriteBuilders.CreateInTableStatement.RenderCreate` | write.go:70-85 | the fields; incomplete without any |
| `WriteBuilders.UpdateRecordStatement.RenderUpdate` | write.go:107-131 | the identity bound first, then the assignments; incomplete without any |
| `WriteBuilders.DeleteRecordStatement.RenderDelete` | write.go:147-159 | the identity alone |
| `Quoting.UnquotedInverts` | cache_statements.go:135-153 | unquoting a quoted text gives it back if and only if it is UTF-8, and otherwise with U+FFFD for each byte that begins no rune |
| `Quoting.QuotedReads` | httpseries.go:164-173 | a reader finds the end of a quoted text whatever follows, and reads what unquoted reads |
| `Quoting.WriteQuoted` | httpseries.go:164-173 | the loop over runes writes the quoted text |
| `Quoting.ReadKey` | cache_statements.go:135-153 | the loop over runes computes the unquoted text, and returns anything unquoted as it came |
| `Spellings.QuotesAreSpelled` | httpseries.go:164-173 | quotes around, and a backslash before a quote and before a backslash |
| `Spellings.RunesAreSpelled` | httpseries.go:164-173 | a rune of two bytes as it is, and U+FFFD for a byte that begins none |
| `Spellings.NumberIsSpelled` | query.go:167-171 | a digit by its character, and a longer number as its tens and then its last digit |
| `Decimals.DecimalReads` | jsonscalar.go:79-90 | the decimal text of any mantissa at any scale reads back: zero, negatives, and mantissas shorter than their scale |
| `Spellings.DecimalIsSpelled` | httpseries.go:175-193 | a minus below zero, at least one digit and no idle zero before the point, just as many after it as the scale says, and no point for no scale |
| `Durations.DurationReads` | jsonscalar.go:96-172 | the canonical text of every duration of int64 seconds reads back under wrapping arithmetic, the least int64 included, in the floor form |
| `Durations.SumsAreExact` | jsonscalar.go:117-172 | the texts that are read are those of counts, leading zeros or not, and units, in any order; such a text reads as exactly their sum if and only if its small units fit an int64 of nanoseconds and the whole fits one of seconds |
| `Durations.SumCanWrap` | jsonscalar.go:143-150 | the largest count of seconds and one second more are read, as 2^63 seconds below zero |
| `Durations.GetDuration` | jsonscalar.go:117-172 | the loop over counts and units, with its guard and its wrapping sums |
| `Spellings.LongUnitsSay` | jsonscalar.go:96-107 | h, m and s count 3600 seconds, 60 and one |
| `Spellings.ShortUnitsSay` | jsonscalar.go:96-107 | ms, us and ns count a thousandth, a millionth and a thousand-millionth of a second |
| `Spellings.SixUnits` | jsonscalar.go:96-107 | there is no seventh unit |
| `Spellings.WrapIsInt64` | jsonscalar.go:123-151 | an int64 keeps a number if and only if it fits, and always its remainder by 2^64 |
| `Uuids.UuidReads` | jsonscalar.go:194-205 | the hyphenated text of a UUID reads back |
| `Spellings.UuidIsSpelled` | httpseries.go:118-120 | thirty-six characters: two lower-case hex digits for each byte in order, and hyphens at 8, 13, 18 and 23 |
| `LiteralLaws.EventReadsBack` | httpseries.go:84-162 | the literal of an event reads back to the event with every None field removed at every depth, if and only if all its text is UTF-8 |
| `LiteralLaws.LiteralReads` | httpseries.go:84-162 | a literal reads back whatever follows it, as long as that could not go on a number |
| `LiteralLaws.BatchReadsBack` | httpseries.go:65-81 | a batch reads back to its events in order |
| `LiteralWriting.Batch` | httpseries.go:65-81 | the batch's text, and nothing unless every event is an object an event can be |
| `LiteralWriting.WriteLiteral` | httpseries.go:84-162 | appends the literal, and fails exactly on what an event cannot carry |
| `LiteralWriting.WriteObject` | httpseries.go:129-156 | the fields that are not None, names ascending |
| `Spellings.TokensAreSpelled` | httpseries.go:92-117 | a float without a point or an exponent gets .0, and a moment nine digits of a second or none, and a Z |
| `Spellings.WhatHasASpelling` | httpseries.go:92-112 | a float is refused if and only if its exponent is all ones, and a datetime outside the days of the years 0 to 9999 |
| `Queues.Queue.RunAuto` | queue.go:121-128 | every event is what the store and the handler made of it, handlers run in claim order and never twice, nothing is settled twice, nothing is claimed after a stop; a delivery whose handler failed is released at once and one whose handler did not is deleted; a nil return comes after a stop, with every delivery settled exactly once so, but for those handed back unseen because a stop came after an earlier job of their batch and before their own turn, so that the first job of every batch reaches its handler; an error return ends at what failed, with all before it so settled and nothing after it begun |
| `Queues.Queue.RunManual` | queue.go:131-141 | the same with the handler's own verdicts: deleted if it finished, released after the milliseconds of the delay it gave, or left as it is |
| `Queues.Queue.Run` | queue.go:143-164 | the claim and settle loop: each delivery reaches the handler once and is settled at once as it decided, but for those a stop came before, which go back unseen and are never the first of their batch; an error return ends at what failed |
| `Queues.Queue.TakeNext` | queue.go:169-190 | the next jobs, waiting after empty claims and refusals of class retry and after nothing else: 50 milliseconds, doubled at each wait up to a second, and 50 again at the next call |
| `Queues.Queue.Claim` | queue.go:81-103 | the jobs of the rows, in their order, and nothing sent for a count or a filter that cannot be written |
| `Queues.ToJob` | queue.go:192-210 | a record is work if and only if its value is an object whose attempts are an integer not below zero; a job is its identity, its own fields without attempts, claimed_until and claimed_by, and its attempts |
| `Leases.OneHolder` | cache.go:246-289 | over every run of locks, extensions, releases and clock steps by callers not named free, statements and replies lost anywhere, at most one caller was granted a key and at most one believes it holds it, and whoever believes so was granted it |
| `Leases.EveryLockExpires` | cache_statements.go:110-130 | over every such run no lock key lacks an expiry |
| `Leases.OthersAreShutOut` | cache.go:246-289 | while a grant stands nobody else can take, extend or release the key, and trying changes neither the store nor its holder's belief |
| `Leases.HolderIsHeard` | cache.go:275-289 | while its grant stands a holder can extend and release, and not lock again |
| `Leases.LostIsToldSo` | cache.go:272-289 | a holder whose lease lapsed, was released or was retaken is told false, or hears nothing, and changes nothing |
| `Leases.LockIsTaken` | cache.go:246-265 | a lock is taken exactly when no grant stands and no release is still settling |
| `Leases.LostLockHolds` | cache.go:258-261 | a lock whose reply was lost is held by nobody's belief, and kept from everybody until its ttl is over |
| `Leases.TakenLasts` | cache.go:248-284 | a lock or an extension told true makes a grant its holder believes in, and the key can be taken again from its own ttl on and not before |
| `Leases.ReleasedLock` | cache_statements.go:118-121 | a holder that releases believes in nothing from then on, and the lock can be taken from one millisecond on and not before; from the lease's end if the release was lost on its way |
| `Leases.LapsedLock` | cache.go:246-265 | a lease that nobody renews can be retaken from its end on and not before |
| `Leases.PromisedUnlessNamedFree` | cache_statements.go:118-121 | a holder is told true only while a grant of its own stands, if and only if it is not named free |
| `Leases.Cache.TakeLock` | cache.go:248-265 | one conditional write for a positive ttl, under a fresh name when none is given: a lease if and only if it was told true, an error if the ttl was refused or the reply lost |
| `Leases.Lease.ExtendLease` | cache.go:275-284 | extends by another ttl, its own when that is zero, and an error when the reply is lost |
| `Leases.Lease.ReleaseLease` | cache.go:287-289 | writes the free word if the lease is still held, and an error when the reply is lost |
| `CacheStatements.HeldIsMeant` | cache_statements.go:110-130 | the three statements of a lock, by a reader of their words: a lock writes the holder where nothing is, an extension where the holder is, a release the word free where the holder is and for one millisecond; each in its own tenancy and space, for the ttl it was given |
| `CacheStatements.LoadingIsMeant` | cache_statements.go:46-66 | a loader's read asks for the key, and its write writes the value where nothing is, for the ttl |
| `Caches.Lasting` | cache_statements.go:35-40 | seconds and nanoseconds that make up a positive ttl, and nothing for any other |
| `Loading.OneValueForAll` | cache.go:207-236 | in any interleaving, under any lost statements and whatever others fill the key with, as long as what is under the key stays all callers that answer give one value: the one in the store |
| `Loading.EveryAnswerIsHonest` | cache.go:211-236 | whatever others do to the space, each answer is what the caller made or what the store held at one of the caller's own steps during its call |
| `Loading.LetsIsExact` | cache.go:207-236 | a change that others make to the space lets all callers of every race agree if and only if what is under the key stays and no NONE comes to be there |
| `Loading.ChangeSplits` | cache.go:207-236 | whatever value is lost or written over, a caller that has read it and one that comes later answer differently, whatever else the loader makes |
| `Loading.LapseCanSplit` | cache.go:226-235 | an instance: a lapse between two conditional writes |
| `Loading.GetOrSet` | cache.go:211-236 | the statements it put to the space, each in words that mean just that read or that write and on what others made of the store the last one left, are a caller's steps in their order and nothing else: a refused ttl sends nothing, a value found is the answer and ends the call, what the loader makes is written where nothing is and expires after the ttl, and one that was beaten answers what it then finds, or its own where that is gone; an answer is what the loader made or what a statement found, and what the store then holds if what is under the key stayed |
| `Loading.CallIsARun` | cache.go:211-236 | such a call is one caller's part of a race, whoever else is in it: the same store and the same answer |
| `Loading.AnswerIsHonest` | cache.go:211-236 | a call that answers gives what its loader made or what one of its statements found in the store |

## Left out

- Sockets, dialling, TLS, timers, goroutines and channels: a network and a store are arbitrary functions of what happened before.
- `deliver`, `readChange` and `readProgress`: what a subscribed connection receives.
- A status's moment is a count of nanoseconds: what `time.Time` makes of moments beyond its own range is not modelled.
- `readRefusal` and the refusal classes, but for the class retry that a queue waits on.
- The HTTP surface, the JSON shape readers and the series route around `eventBatch`.
- Float-to-text and calendar formatting: an event's floats and datetimes are tokens whose inside is not looked at, of the shape `Literals.Lexical` states.
- The statement texts of containers, vaults, consumers and queues, the cache's other than the lock's and `GetOrSet`'s, and the consumer's loop, which is a weaker form of the queue's.
- What the store makes of a cache's statements is written down in `CacheStatements.Meant` and `Caches.Apply`; a plain write, a delete and a counter on a lock key are outside the lock's promise.
- Closing a connection by its caller, and the mutex of a connection: calls on one connection come one after another, as the code's own lock makes them.
- `int` conversions of 32-bit lengths on a 32-bit platform.
- Error wording and preallocated capacities.
- Queues.Queue.RunAuto: takes fuel for the loop that need not end; its contract holds for every fuel, and a run cut short by it promises what holds so far.
- Queues.Queue.RunManual: takes the same fuel.
- Leases.OneHolder: counts a lease from the moment the store ran the write; a holder that counts from when the reply arrived believes in its lease a little longer. A holder that asked for a shorter lease and heard nothing is taken to count on no more than it asked for.
