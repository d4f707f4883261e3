# circ: a verified model of the IRC daemon

This project models the parts of circ, a single-server IRC daemon written in C, whose
correctness is hardest to see from the code, and proves what they do. The names in
parentheses below are its files; `dafny verify dfyconfig.toml` checks them all.

- **Hash table** (`Primes`, `Orbits`, `Hashing`, `HashTables`, `HashTable`, `HashTableRuns`,
  `HashTableExamples`). Open addressing with double hashing and tombstones. The exact meaning
  of the table is a *stack* of values per key, because insertion takes the first tombstone it
  meets and so can leave two live copies of one key. Every run of calls that returns refines
  these stacks, and exactly which runs are runs of a finite map is stated. Capacities come
  from a search for a prime, proved to end because primes are unbounded. Probe paths are
  followed on 64-bit words, so that they may wrap and need not come back to their start; a
  path that does not wrap is an orbit of a constant step modulo the capacity.
- **Framing** (`Framing`, `Connection`, `Streams`). The 512-byte store of a connection, cut
  into messages at CR LF or after 510 bytes (section 2.3 of RFC 2812), against a pure framing
  function; then whole streams, for every way of cutting them into reads.
- **Tokeniser and parser** (`Tokeniser`, `Parser`, `ParseLaws`, `RoundTrip`). Destructive
  tokenising in the message buffer against a pure splitter, each command parser against a
  function of the tokens, every return code and stored pointer of the parser by the condition
  under which it comes about, and printing a command followed by parsing it.
- **The three together** (`EndToEnd`, `ClientReads`, `StructReuse`, `StaleExamples`,
  `ServerReads`, `ServerWorld`). From bytes to tokens, to what the handlers see through the
  pointers of a struct that a whole read shares, to the server's state: Client_HandleRead as
  one loop, and then any number of clients whose connections and reads interleave.
- **Server** (`ServerState`, `ServerInvariant`, `ServerRuns`, `ServerLaws`, `ServerOutputs`,
  `ServerObject`). Nicks, clients, channels, registration, counters and reply queues: an
  invariant of every run, laws between messages, what every message writes to every client and
  changes in the tables, and the object whose methods update the tables.
- **Message of the day** (`Motd`). The loop that sends the text in fragments of 80 bytes.

Code that updates memory is modelled by methods over arrays and objects; each is proved
against a function of the inputs or of the old state, and the properties are proved about
that function. What several files share is in `Basics`. Bytes are `char`; C pointers into a buffer are indices and NULL is `None`.
`size_t` is 64 bits wide and `uint32_t` counters wrap, and both are written out. In three
cases in which C leaves undefined what happens (a NULL pointer or a freed channel is used, or
a nickname is copied past its field) the server's state is marked as crashed and its run ends.
A fourth is not counted: some replies are printed into their buffer without a bound
(`src/replies.c:14`, `src/replies.c:35`), and a very long user name or nick overruns it.

## Where the code departs from its documentation

The model follows the code. Each point below has a lemma.

- A read is documented to fill the rest of the store (`include/connection.h:43-49`), but
  `src/connection.c:18` reads to the start of the store, over the bytes held. The two agree on
  one read exactly when nothing is held, nothing arrives, or zeros arrive over zeros
  (`Connections.OverwriteIsAppendIff`), and on all reads of a stream exactly when each is such a
  read (`Streams.WrittenReadsAgreeIff`). A command that arrives in two reads loses its beginning
  (`Streams.SplitCommandIsCorrupted`). The results about streams are about the documented read,
  and `ServerReads.CommandsAreServedAsWritten` carries them to the code on the reads where the
  two agree; `ServerReads.HandleRead` is the code as written.
- When a message is too long, the bytes past the first 510 are "to be discarded later"
  according to `src/read_message.c:146-150` and `167-169`, with a flag of the connection
  (`include/read_message.h:23-32`); nothing in `conn_read_message` ever sets it, so they are
  delivered as another message: `Streams.LongLineIsSplit` is such a line and its two frames.
  So the frames are the lines exactly when no line is longer than 512 bytes and no unfinished
  one than 511 (`Streams.ReadsDeliverLinesIff`). No byte is lost in any case
  (`Streams.ReadsConserveStream`), and a set flag would drop one frame
  (`Framing.DiscardDropsFirst`).
- The message struct is cleared once per read (`src/client.c:119`), not once per message as
  the parser's unit tests do (`test/unit/test_parser.c:14-17`). A handler sees what its message
  says exactly when it sees no field left behind (`StructReuse.SeenIff`), and a stream of
  commands is heard as it was sent exactly when none of its handlers does
  (`ServerReads.CommandsHeardIff`). Only `JOIN 0`, the question for a topic and `LIST` without
  channels can, and not as the first message of a read (`StructReuse.CommandWordsSay`,
  `ServerReads.FirstInReadIsServed`). Saying something and asking for a topic in one read sets
  the topic, to whatever the pointer left behind then leads to (`StaleExamples.StaleTopic`): to
  the empty string if one asks for the topic of the channel that one spoke to
  (`StaleExamples.OwnTopicErased`), and otherwise perhaps to the end of the channel's name,
  already in lower case, since the lookup lowers the name in the message buffer before the
  topic is read (`StaleExamples.TopicReadAfterLowering`).
- Handlers do not check for a nick that is too long, `JOIN 0`, `PART` without a channel, and a
  topic for a channel that does not exist. In which structs the first three make a handler use
  a NULL pointer is `StructReuse.UsesNullIff`. In the others it takes a pointer left behind; two
  NICKs in one read, the second too long, make the server copy the long one past the nickname
  field (`StructReuse.LongNickIff`, `StaleExamples.LongNickTaken`). On which messages the server
  crashes in a run is `ServerInvariant.HandleKeepsInv` and `ServerRuns.CrashesIff`.
- A channel name of more than 50 bytes is cut in the channel but not in the table
  (`ServerRuns.ChannelTableIsSound`). When the last member parts from such a channel, the
  channel is freed under its key (`ServerLaws.ChannelFreedInTableIff`), and another one whose
  name is the first 50 bytes goes out of the table (`ServerLaws.ChannelGoesAwayIff`).
- The hash table reports failure although it has room (`HashTableExamples.InsertCanFailWithRoom`),
  removal can loop for ever (`HashTableExamples.RemoveCanDiverge`), and a removed key can be
  found again (`HashTableExamples.RemovedKeyCanResurface`). The exact conditions are
  `HashTables.InsertSucceedsIff`, `HashTables.RemoveReturnsInFirstRound` and
  `HashTableRuns.OverwriteIsUpdateIff`; for the capacities that the program chooses they are
  conditions on the hashes and the counters (`HashTables.InsertSucceedsInNewTableIff`,
  `HashTables.RemoveReturnsIff`, `HashTables.RemoveReturnsOnOneSlotIff`).
- A message of the day whose length is a positive multiple of 80 loses its last 80 bytes, and
  no other does (`Motd.WholeTextIff`).

## Model

| member | source | states |
|---|---|---|
| Primes.TrialDivisionSuffices | src/hashtable.c:17-20 | trying divisors up to the square root decides primality, both ways |
| Primes.IsPrime | src/hashtable.c:9-23 | accepts exactly the primes and 1 |
| Primes.PrimesUnbounded | src/hashtable.c:25-31 | there is a prime at or above every start, so the search has something to find |
| Primes.NextPrime | src/hashtable.c:25-31 | ends for every start with the least accepted number at or above it, or 1 when the 64-bit counter wraps first |
| Orbits.ClosedForm | src/hashtable.c:119 | the i-th probe is the start plus i steps, less whole laps of the table |
| Orbits.BackAfterCap | src/hashtable.c:119-122 | after as many probes as slots every path is back at its start, whatever the step |
| Orbits.DistinctWithinRound | src/hashtable.c:119-122 | no slot is probed twice before the path returns to its start |
| Orbits.LengthDividesCap | src/hashtable.c:119-122 | the length of a round divides the capacity |
| Orbits.FullCycle | src/hashtable.c:87-119 | for capacities from next_prime a round visits all slots exactly when the capacity is 1 or does not divide the step |
| Hashing.ComputeDjb2 | src/hashtable.c:33-42 | the scanning loop is the left fold of the hash over the key, on words that wrap at 2^64 |
| Hashing.ComputeDjb2a | src/hashtable.c:44-54 | the same for the second hash |
| Hashing.Djb2IsPolynomial | src/hashtable.c:33-42 | djb2 of a key is the number whose digits to the base 33 are 5381 and then the bytes of the key, modulo 2^64 |
| Hashing.Djb2aOfOneMore | src/hashtable.c:44-54 | djb2a of a key with one more byte is 33 times djb2a of the key, exclusive or that byte |
| HashTables.DistinctLocs | src/hashtable.c:119 | the probes of a first round are of different slots |
| HashTables.ProbesStayInRound | src/hashtable.c:165-176 | probing on without a wrap-around test meets no slot that the first round did not, whether or not the sums wrap at 2^64 |
| HashTables.ClosesIff | src/hashtable.c:119-122 | the wrap-around test succeeds at some probe exactly when the path is back at its start after the first round |
| HashTables.DjbProbes | src/hashtable.c:105-119 | the i-th probe for a key is djb2, plus i times djb2a plus one, modulo the capacity, when the sums do not wrap |
| HashTables.FittingPathCloses | src/hashtable.c:119-122 | a path whose sums do not wrap comes back to its start, after a round of the orbit of its step |
| HashTables.CoveringPathReaches | src/hashtable.c:105-123 | a path with as many different slots as the table reaches every slot |
| HashTables.CoversTableIff | src/hashtable.c:87-119 | which keys probe the whole table, for capacities from next_prime and sums that do not wrap |
| HashTables.InsertSucceedsIff | src/hashtable.c:94-130 | insertion succeeds exactly when size is below capacity and some slot on the key's path is free for it |
| HashTables.InsertKeepsInv | src/hashtable.c:94-130 | no live item gets an empty slot before it on its path; items stay on their paths; size and occupied stay the counts of live items and of items |
| HashTables.InsertOnStack | src/hashtable.c:105-127 | a successful insertion replaces the top of the key's stack when it is exposed and pushes otherwise; a failed one changes nothing; size follows |
| HashTables.InsertLeavesOthers | src/hashtable.c:105-127 | insertion changes no other key's stack |
| HashTables.InsertReturnsInFirstRound | src/hashtable.c:98-123 | insertion returns exactly on a full table, on a path that comes back to its start, or when its loop stops within the first round |
| HashTables.InsertSucceedsWhenCovering | src/hashtable.c:98-123 | with a path over the whole table, insertion returns, and succeeds exactly when size is below capacity |
| HashTables.InsertSucceedsInNewTableIff | src/hashtable.c:87-123 | in the tables the program makes, insertion succeeds exactly when size is below capacity and the step is no multiple of the capacity or the first slot is free for the key |
| HashTables.SearchReturnsInFirstRound | src/hashtable.c:140-152 | search returns exactly on a path that comes back to its start, or when its loop stops within the first round |
| HashTables.SearchReadsTop | src/hashtable.c:132-155 | search returns the top of the key's stack, or nothing when it is empty |
| HashTables.RemoveReturnsInFirstRound | src/hashtable.c:162-178 | removal returns exactly when its loop stops within the first round |
| HashTables.RemoveReturnsWhenLive | src/hashtable.c:165-172 | removal returns for every live key |
| HashTables.RemoveReturnsWhenNotFull | src/hashtable.c:165-176 | removal returns for every key whose path covers a table with a never-used slot |
| HashTables.RemoveReturnsIff | src/hashtable.c:165-176 | on a covering path, removal returns exactly for a live key or when occupied is below capacity |
| HashTables.RemoveReturnsOnOneSlotIff | src/hashtable.c:165-176 | on a path of one slot, removal returns exactly when that slot is unused or holds the key |
| HashTables.RemoveKeepsInv | src/hashtable.c:157-179 | removal keeps the table's invariant |
| HashTables.RemovePopsStack | src/hashtable.c:157-179 | removal succeeds exactly when the key is live, pops its stack and decrements size, and otherwise changes nothing |
| HashTables.RemoveLeavesOthers | src/hashtable.c:157-179 | removal changes no other key's stack |
| HashTableObject.HashTable.constructor | src/hashtable.c:82-92 | a new table has the capacity of next_prime, no items, and the invariant |
| HashTableObject.HashTable.Insert | src/hashtable.c:94-130 | on exactly the calls that return, the in-place probing loop ends and computes the specified table and result |
| HashTableObject.HashTable.InsertFrom | src/hashtable.c:98-129 | the same for any pair of hashes |
| HashTableObject.HashTable.Search | src/hashtable.c:132-155 | on exactly the calls that return, ends with the top of the key's stack |
| HashTableObject.HashTable.SearchFrom | src/hashtable.c:137-154 | the same for any pair of hashes |
| HashTableObject.HashTable.Remove | src/hashtable.c:157-179 | on exactly the calls that return, ends and computes the specified table and result |
| HashTableObject.HashTable.RemoveFrom | src/hashtable.c:162-178 | the same for any pair of hashes |
| HashTableRuns.NewTableKeepsInv | src/hashtable.c:86-88 | a table of empty slots satisfies the invariant |
| HashTableRuns.RunKeepsInv | src/hashtable.c:94-179 | every run of calls keeps the invariant |
| HashTableRuns.RunRefinesStacks | src/hashtable.c:94-179 | in every run that returns, every call acts on every key's stack as push, replace, top or pop, and returns accordingly |
| HashTableRuns.FittingCallReturns | src/hashtable.c:94-155 | insertion and search return for every key whose sums do not wrap at 2^64 |
| HashTableRuns.ApplyActsOnMapIff | src/hashtable.c:94-179 | on a table that is a map, a call acts as on the map exactly when it is no insertion, or one with room and with any copy of its key exposed |
| HashTableRuns.RunIsMapIff | src/hashtable.c:94-179 | every table and every outcome of a run on a new table is that of a finite map exactly when every call meets that condition on the table it finds |
| HashTableRuns.RunIsMap | src/hashtable.c:94-179 | so it is when each insertion has room, covers the table and is of a key not live or comes before any removal |
| HashTableRuns.OverwriteIsUpdateIff | src/hashtable.c:107-117 | overwriting a key that has one copy is a map update exactly when only live items precede the copy |
| HashTableExamples.InsertCanFailWithRoom | src/hashtable.c:119-122 | a run in which insertion fails with a slot free |
| HashTableExamples.RemoveCanDiverge | src/hashtable.c:165-176 | a run after which removal never returns |
| HashTableExamples.RemovedKeyCanResurface | src/hashtable.c:113-117 | a run in which a removed key is found again |
| Connections.Strncrlf | src/read_message.c:7-16 | the index of the first CR LF within the limit, or the limit |
| Connections.Connection.TryFrame | src/read_message.c:107-195 | takes exactly the first frame off the store, copies it unless it is to be discarded, and keeps the bytes past the ones held zero |
| Connections.Connection.ReadMessage | src/read_message.c:94-197 | delivers the frame of the pure framing function, padded with zeros, and holds what that function leaves |
| Connections.Connection.KeepExtra | src/read_message.c:171-181 | the one or two bytes past a cut message move to the front, the rest is zero |
| Connections.Connection.Shift | src/read_message.c:130-132 | the bytes after a message move to the front, the rest is zero |
| Connections.Connection.ReadStoreBuffer | src/connection.c:11-25 | the read as written: what arrives overwrites the start of the store and the count grows; a failed read changes nothing and returns -1 |
| Connections.Connection.AppendToStore | include/connection.h:43-49 | the read as documented: what arrives follows the bytes held |
| Connections.OverwriteIsAppendIff | src/connection.c:15-22 | the read as written keeps the stream intact exactly when nothing was held, nothing arrived, or zeros overwrite zeros |
| Framing.FramesConserve | src/read_message.c:106-195 | the frames, without CR LFs that were added, and the leftover make up the bytes stored |
| Framing.LeftoverIsShort | src/read_message.c:106-195 | the leftover has no CR LF and at most 510 bytes |
| Framing.DrainIsFraming | src/read_message.c:94-197 | calling until NULL yields exactly the frames of a recursive framing of the bytes, and its leftover |
| Framing.DiscardDropsFirst | src/read_message.c:134-141 | a discard flag that is set drops exactly the first frame and is then clear |
| Framing.CutKeepsCrlfTogether | src/read_message.c:151-181 | cutting at 510 bytes never separates a CR from its LF |
| Framing.DeliveredShape | src/read_message.c:123-191 | every frame delivered has 2 to 512 bytes and its only CR LF at its end |
| Streams.ReadsConserveStream | src/read_message.c:94-197 | over any sequence of reads no byte is lost, repeated or reordered |
| Streams.ReadsDeliverLinesIff | src/read_message.c:94-197 | for every stream and every cutting into reads that fit, the frames other than bare CR LFs are the complete lines in order, plus a line of which 511 bytes have come, with one frame more than lines for each read that ends there, if and only if no line is longer than 512 bytes and the unfinished one than 511 |
| Streams.LongLineIsSplit | src/read_message.c:146-181 | a line of 513 to 1022 bytes, of which 512 come first, is delivered as two messages, its rest as the second |
| Streams.WrittenReadsAgreeIff | src/connection.c:15-22 | after every read of a stream the code as written stands where the documented one does, if and only if each read finds the store empty, brings nothing, or brings zeros over zeros |
| Streams.SplitCommandIsCorrupted | src/connection.c:15-22 | a NICK command in two reads is delivered without its first two bytes |
| Tokeniser.SpansInOrder | src/msgtok.c:90-126 | tokens are disjoint slices in increasing order, each ended by a space, the last by the CR LF |
| Tokeniser.TokensSurvive | src/msgtok.c:97-122 | the NULs written change no byte of any token, and end each one returned |
| Tokeniser.SpansAreSplit | src/msgtok.c:67-127 | the slices hold exactly the tokens that a pure splitter finds in the body |
| Tokeniser.MessageIsSplit | src/msgtok.c:67-127 | the same for a whole message, after its leading spaces |
| Tokeniser.MsgtokR | src/msgtok.c:67-127 | one call: the token, its length, the saved pointer and the one NUL written, in every case |
| Tokeniser.NextToken | src/msgtok.c:72-77 | a call with the saved pointer returns the next token of the original message, despite the NULs written so far |
| Tokeniser.FirstToken | src/msgtok.c:78-88 | the first call skips spaces and returns the first token, or NULL if the message does not end |
| Tokeniser.Tokenise | src/msgtok.c:67-127 | calling until NULL returns all tokens and overwrites exactly their ends |
| Parser.Scanner.Next | src/msgtok.c:67-127 | each further call within a parse returns the next token of the message |
| Parser.IrcMessage.ParseNick | src/parser.c:84-106 | type, parse error and nick as the tokens determine them: missing, too long, or stored |
| Parser.IrcMessage.ParseUser | src/parser.c:118-158 | user name and full name from the first and fourth parameter, or the missing-parameter error with what was stored before it |
| Parser.IrcMessage.ParsePrivmsg | src/parser.c:160-186 | target and text, or the error for each one missing |
| Parser.IrcMessage.ParseWhois | src/parser.c:213-224 | the optional mask |
| Parser.IrcMessage.ParseJoin | src/parser.c:227-251 | the channel list, the leave-all flag for 0, or the missing-parameter error |
| Parser.IrcMessage.ParsePart | src/parser.c:254-287 | the channel list and the optional message, empty taken as absent |
| Parser.IrcMessage.ParseList | src/parser.c:290-313 | the optional channel list, left alone when absent |
| Parser.IrcMessage.ParseTopic | src/parser.c:316-351 | the channel and the optional topic, left alone when absent |
| Parser.IrcMessage.ParseNames | src/parser.c:354-370 | the optional channel list, cleared when absent |
| Parser.IrcMessage.ParseAway | src/parser.c:373-393 | the optional text, cleared when absent |
| Parser.IrcMessage.CommandType | src/parser.c:36-67 | the comparisons find the type of the command name |
| Parser.IrcMessage.ParseMessage | src/parser.c:28-73 | return code and struct are those of the message's tokens, exactly the ends of the tokens used are overwritten, and every access stays in the buffer |
| ParseLaws.TypeIsName | src/parser.c:36-67 | each of the fourteen command names has its own type, and every other name is unknown |
| ParseLaws.ReturnCodes | src/parser.c:28-393 | parse_message returns -1, 411, 412, 431, 432, 461 or 0, each exactly under its condition on the type, the number of tokens and their lengths; which code is then in the struct, and when the one before stays |
| ParseLaws.PointersStored | src/parser.c:28-393 | which token each pointer of the struct leads to after any message that is not rejected, and which pointers an error or an absent parameter leaves alone |
| ParseLaws.TokensTaken | src/parser.c:28-393 | how many tokens each kind of message takes, so which are ended with NUL |
| Parser.RefersToUsedTokens | src/parser.c:28-393 | a parse stores pointers only to tokens that it has ended with NUL |
| Parser.PointersReadTokens | src/parser.c:28-73 | every pointer stored is a slice of the message and reads, as a C string, as the token it stands for |
| Parser.BareCrlfRejected | src/parser.c:33-72 | a bare CR LF is rejected |
| RoundTrip.ParseOfWords | src/parser.c:28-393 | the words of every well-formed command are parsed to its type and parameters, with no error |
| RoundTrip.SplitOfLine | src/msgtok.c:89-126 | splitting a printed line gives back its words, for any spacing and with or without the last colon |
| RoundTrip.LineOfSplit | src/msgtok.c:89-126 | the other way round: every body is the line of the tokens found in it, with some spacing, and no token but the last holds a space, is empty behind another or begins with a colon |
| RoundTrip.TokensOfLine | src/msgtok.c:67-127 | the same in a buffer, whatever follows the line |
| RoundTrip.PrintThenParse | src/parser.c:28-393 | every well-formed command in every layout, parsed into a cleared struct, gives back its type and parameters with no error |
| RoundTrip.ColonPrintsAll | src/msgtok.c:92-99 | every well-formed command has such a layout |
| EndToEnd.CommandsArrive | src/read_message.c:94-197 | for every list of well-formed commands and every cutting of their bytes into reads, the frames that the parser accepts consist of exactly the words of those commands in order, and nothing is left |
| EndToEnd.LinesArrive | src/read_message.c:94-197 | the same for any lines and their tokens |
| EndToEnd.BareFramesDoNotCount | src/parser.c:33-72 | the bare CR LF frames do not affect what is accepted |
| EndToEnd.FramesAreTerminated | src/read_message.c:123-191 | every frame delivered, with 512 bytes or with NULs inside, stops the parser's scans at its own CR LF, in the message buffer and without it |
| EndToEnd.TokensInsideFrame | src/parser.c:28-73 | every token of a frame is a slice of the frame before its CR LF |
| ClientReads.ReadAndParse | src/client.c:124-127 | one frame is taken and parsed in place, into the struct that earlier frames left, inside the message buffer |
| ClientReads.RoomAfterDrain | src/client.c:145 | draining leaves room for two bytes, so that a read of 0 bytes always means a closed connection |
| StructReuse.SeenIff | src/client.c:119-128 | for any struct left by earlier messages, the handler sees through the pointers what the message's tokens say, if and only if it sees no field left behind |
| StructReuse.UsesNullIff | src/handlers.c:87-494 | exactly which messages, in which structs, make a handler use a NULL pointer |
| StructReuse.LongNickIff | src/handlers.c:106-112 | a handler is given a nick of more than nine bytes exactly when the nick sent is too long and a pointer left behind leads to a long text |
| StructReuse.CommandWordsSay | src/parser.c:28-393 | the words of a well-formed command say what it asks of the server, and exactly JOIN 0, the question for a topic and LIST without channels leave fields alone |
| StructReuse.ErrorsAreSaid | src/handlers.c:87-545 | the handlers hear of exactly the errors that parse_message returns as 411, 412, 431 and, for USER, JOIN and TOPIC, 461; exactly for 432, JOIN 0 and PART without a channel they are left with a NULL pointer |
| StaleExamples.StaleTopic | src/handlers.c:536-576 | a PRIVMSG followed in the same read by the question for any topic reaches the handler as a topic to set: the end of the lower-case channel name, a line feed or the empty string, as the pointer left behind falls |
| StaleExamples.OwnTopicErased | src/handlers.c:536-576 | if the question is for the channel of the PRIVMSG, that topic is the empty string |
| StaleExamples.TopicReadAfterLowering | src/handlers.c:546-574 | PRIVMSG a b and TOPIC #CHANNEL in one read set the topic nnel: the lookup has put the name in lower case when the topic is read from it |
| StaleExamples.LongNickTaken | src/client.c:44-80 | two NICKs in one read, the second too long: the handler is given the long nick through the pointer the first one left |
| ServerInvariant.LookupNeverFails | src/handlers.c:231-249 | the 0 that stands for no entry means the nick is absent, and otherwise the client lookup finds the client with that nick |
| ServerInvariant.HandleKeepsInv | src/handlers.c:63-66 | every message keeps the invariant of tables, counters, nicknames, welcomes and output, and a NULL pointer or a freed channel is used, or the nickname field overrun, on exactly the messages listed |
| ServerInvariant.HandleNickKeepsInv | src/handlers.c:87-130 | NICK keeps the invariant, and overruns the nickname field exactly for a free nick of more than nine bytes |
| ServerInvariant.HandleUserKeepsInv | src/handlers.c:142-183 | USER keeps the invariant |
| ServerInvariant.HandlePrivmsgKeepsInv | src/handlers.c:186-260 | PRIVMSG keeps the invariant, and crashes exactly on a freed channel |
| ServerInvariant.HandleWhoisKeepsInv | src/handlers.c:353-377 | WHOIS keeps the invariant and never uses a NULL pointer |
| ServerInvariant.EnterKeepsInv | src/server.c:113-134 | entering a channel keeps the invariant, whatever its name |
| ServerInvariant.JoinAllCrashesIff | src/handlers.c:399-444 | JOIN uses a freed channel exactly when one of its names led to one before the message |
| ServerInvariant.JoinAllKeepsInv | src/handlers.c:399-444 | a JOIN of any names keeps the invariant |
| ServerInvariant.HandlePartKeepsInv | src/handlers.c:449-494 | PART keeps the invariant, dropping a channel with its last member, and crashes exactly on a freed channel |
| ServerInvariant.AnswerAllKeepsInv | src/handlers.c:518-608 | listing channels by name keeps the invariant, and reads a freed channel exactly when one of the names leads to one |
| ServerInvariant.ListAllKeepsInv | src/handlers.c:506-531 | listing all channels keeps the invariant, and reads a freed channel exactly when the table holds one |
| ServerRuns.HandleIsSteady | src/handlers.c:63-66 | a message adds and removes no client, changes no id and no connection, and leaves nothing in the queue of anyone but the sender |
| ServerRuns.StepKeepsSettled | src/client.c:104-239 | accepting, receiving any message and closing keep the invariant and leave every queue empty |
| ServerRuns.RunKeepsSettled | src/client.c:104-239 | so does every run, and it ends in a crash exactly when it has a message that the crash list names |
| ServerRuns.CrashesIff | src/handlers.c:87-576 | the same from the start of the server; only the last message of a run can be such a message |
| ServerRuns.NickTableIsExact | src/client.c:44-80 | in every reachable state the nick table is exactly the pairs of nickname and id of the clients that have given a nick |
| ServerRuns.NicksAndIdsAreInjective | src/server.c:83-91 | no two clients share an id or a nick, and no id is 0 |
| ServerRuns.CountersAreCounts | src/client.c:145-152 | the two counters are the numbers of open registered and open unregistered connections, so they never underflow |
| ServerRuns.WelcomedExactlyOnce | src/client.c:16-42 | a client has been welcomed once if its NICK and USER have succeeded and not at all otherwise |
| ServerRuns.WelcomeWhenComplete | src/client.c:16-42 | the welcome is written in the very step that completes NICK and USER |
| ServerRuns.OutputIsEverythingQueued | src/client.c:242-254 | every queue is empty between events and the output is everything ever queued, in order |
| ServerRuns.ChannelTableIsSound | src/channel.c:11-31 | each channel is stored under a lower-case key and bears its first 50 bytes; if that is all of it, the channel has a member; its members are the clients with those ids |
| ServerRuns.NicknamesFit | src/client.c:74-76 | every nickname has at most nine bytes |
| ServerLaws.OrdersAgree | src/handlers.c:87-183 | for a new client NICK then USER and USER then NICK reach the same state, nick taken or not |
| ServerLaws.SendReachesMembersOnce | src/channel.c:85-107 | a channel message is written once to each member but the source, and nothing changes for anyone else |
| ServerLaws.PrivateReachesOne | src/handlers.c:228-257 | a private message is written once to the one client with the nick and to no other; only the sender hears of a missing nick or an absent target; nothing else changes |
| ServerLaws.EnterTwice | src/channel.c:72-82 | entering a channel twice is entering it once |
| ServerLaws.JoinIsIdempotent | src/handlers.c:411-438 | a second JOIN adds only its replies |
| ServerLaws.JoinListIsFold | src/handlers.c:399-444 | a JOIN of two lists with a comma between them changes the whole state as a JOIN of the one and then a JOIN of the other, as far as the program goes |
| ServerLaws.LettersAreLowered | src/server.c:101-104 | each letter of the alphabet is put in lower case and no other byte is changed |
| ServerLaws.NameIsItsOwnList | src/handlers.c:399-443 | the names of a list without commas are the one it is |
| ServerLaws.NamesOfTwoLists | src/handlers.c:399-443 | the names of two lists with a comma between them are those of the one and then those of the other; an empty list has none |
| ServerLaws.JoinThenPartRestoresIff | src/handlers.c:399-490 | joining and parting by a non-member restores the channel table exactly when the channel existed or its name fits |
| ServerLaws.ChannelGoesAwayIff | src/handlers.c:481-490 | a channel goes out of the table in a step exactly when someone parts as the only member of a channel the first 50 bytes of whose key are its key |
| ServerLaws.ChannelFreedInTableIff | src/server.c:137-141 | a channel is freed but stays in the table exactly when its only member parts and its key is longer than 50 bytes |
| ServerOutputs.TakenNickIsRefused | src/handlers.c:106-116 | a nick that is taken is refused to the client itself, and nothing else happens |
| ServerOutputs.NickIsTakenOver | src/client.c:16-80 | a free nick of at most nine bytes replaces the one before in the client and in the table; the client is welcomed by it exactly when this completes its registration; nobody else hears anything |
| ServerOutputs.RegisteredUserIsRefused | src/handlers.c:161-168 | USER from a registered client is refused, and nothing else happens |
| ServerOutputs.UserIsStored | src/handlers.c:169-183 | USER stores both names; the client is welcomed with its nick and user name exactly when this completes its registration; nobody else hears anything |
| ServerOutputs.WhoisIsAnswered | src/handlers.c:359-376 | WHOIS is answered by three replies about the client with the nick, or by its absence, and changes nothing |
| ServerOutputs.AwayIsStored | src/handlers.c:615-632 | AWAY stores or clears the text and is confirmed to the client itself alone |
| ServerOutputs.MissingIsTold | src/handlers.c:87-545 | for each parameter that is missing the client itself is told so, and nothing else happens |
| ServerOutputs.NothingIsSaid | src/handlers.c:359-361 | WHOIS and NAMES without a name change nothing and are not answered |
| ServerOutputs.CodesAreTold | src/handlers.c:63-66 | a message that is answered by codes alone tells them to the client itself, in order, and changes nothing |
| ServerOutputs.TopicIsAnswered | src/handlers.c:546-568 | the question for a topic is answered by the topic, by there being none, or by there being no such channel, to the client itself, and changes nothing |
| ServerOutputs.TopicIsStored | src/handlers.c:546-575 | a topic is stored, cut after 255 bytes, nothing else changes and nobody hears of it |
| ServerOutputs.ChannelMessageReachesMembers | src/handlers.c:217-227 | a PRIVMSG to a channel is written once to each member but the sender, with the id of the sender, the name of the channel and the text; nobody else hears anything, also when there is no such channel; no table changes |
| ServerOutputs.PartIsHeard | src/handlers.c:460-485 | a PART is written once to each other member, with the id of the sender, the name of the channel and the text; the sender hears that there is no such channel or that it is not on it, exactly then; nobody else hears anything |
| ServerOutputs.PartLeavesChannel | src/handlers.c:485-490 | the sender of a PART is a member no longer, and the last member takes the channel of that name out of the table |
| ServerOutputs.JoinIsHeard | src/handlers.c:411-438 | after a JOIN of one name the client is a member of the channel, a new one named by the first 50 bytes if there was none; it hears its JOIN, the topic if any, the members and the end of them; the members before it hear the JOIN once, unless it was one of them; nobody else hears anything |
| ServerOutputs.NamesAreAnswered | src/handlers.c:588-609 | NAMES is answered by the members of each channel named, in order, with unknown names passed over, and changes nothing |
| ServerOutputs.ListIsAnswered | src/handlers.c:506-531 | LIST with names is answered by a line for each channel named, in order, between a start and an end, and changes nothing |
| ServerOutputs.WholeListIsAnswered | src/handlers.c:506-531 | LIST without names is answered by a line with the name of each channel in the table, between a start and an end |
| ServerOutputs.AnswersToTwoLists | src/handlers.c:518-608 | the answers to two lists with a comma between them are those to the one and then those to the other |
| ServerOutputs.ConnectionBegins | src/client.c:190-239 | a new client has said and heard nothing, has the next id, and is counted as unknown; every other client is as before |
| ServerOutputs.ConnectionEnds | src/client.c:145-155 | a client whose connection ends stays in every table and is counted no longer, among the users or the unknown as it was registered or not |
| ServerObject.LowerInPlace | src/server.c:98-104 | the loop puts the C string at an index in lower case and changes no other byte of the buffer |
| ServerObject.FindComma | src/handlers.c:443 | the name ends at the next comma or at the end |
| ServerObject.Server.constructor | src/server.c:30-51 | the server starts with empty tables, id 1 and the invariant |
| ServerObject.Server.GenerateId | src/server.c:83-91 | returns the counter and increments it |
| ServerObject.Server.Accept | src/client.c:190-239 | the new client is in the table under a new id, one more connection is unknown, and the invariant holds |
| ServerObject.Server.TryEmptyBuffer | src/client.c:242-254 | the loop writes the whole queue in order and leaves it empty |
| ServerObject.Server.Send | src/client.c:83-87 | the response is written after everything queued before it |
| ServerObject.Server.SendMessage | src/channel.c:85-107 | iterating over the members in any order gives the same state: one copy to each but the source |
| ServerObject.Server.TryRegisterClient | src/client.c:16-42 | registers and welcomes a client exactly when it is due |
| ServerObject.Server.TryChangeNick | src/client.c:44-80 | fails exactly when the nick is taken; otherwise the old entry goes and the new one is made |
| ServerObject.Server.Nick | src/handlers.c:106-130 | the state after NICK |
| ServerObject.Server.User | src/handlers.c:161-183 | the state after USER |
| ServerObject.Server.Privmsg | src/handlers.c:217-259 | the state after PRIVMSG; the lookups never fail |
| ServerObject.Server.JoinChannel | src/handlers.c:411-438 | the state after one name of a JOIN |
| ServerObject.Server.JoinChannels | src/handlers.c:399-444 | the loop over a comma list is the fold over its non-empty names |
| ServerObject.Server.Part | src/handlers.c:460-493 | the state after PART |
| ServerObject.Server.Whois | src/handlers.c:359-376 | the state after WHOIS; the lookups never fail |
| ServerObject.Server.Topic | src/handlers.c:536-576 | the state after TOPIC, with the query and the setting of a topic |
| ServerObject.Server.Away | src/handlers.c:615-632 | the state after AWAY |
| ServerObject.Server.AnswerChannels | src/handlers.c:518-527 | the loop over a comma list answers its non-empty names in turn, up to a freed channel |
| ServerObject.Server.ListChannels | src/handlers.c:511-515 | iterating over the table in any order gives the line of every channel, unless one of them has been freed |
| ServerObject.Server.List | src/handlers.c:497-533 | the state after LIST, with and without names |
| ServerObject.Server.HandleMessage | src/handlers.c:63-66 | every kind of message reaches its handler |
| ServerObject.Server.Receive | src/client.c:127-138 | a message handled and the queue drained, with the invariant kept |
| ServerObject.Server.Close | src/client.c:145-155 | only the counters change, and the invariant holds |
| ServerReads.See | src/handlers.c:87-632 | reading the struct's pointers in the order of the handlers, with the name of PART and TOPIC put in lower case in the buffer in between, gives the message that the struct and the buffer stand for |
| ServerReads.ServeOne | src/client.c:124-138 | one round of the loop: a frame, the handler for what it sees, the queue drained |
| ServerReads.ServeLoop | src/client.c:124-139 | the loop ends in the state that serving exactly the frames of the bytes held gives, with one struct for all of them |
| ServerReads.HandleRead | src/client.c:104-158 | the whole function as written: the overwriting read, the loop, the close, and its result; it keeps the invariant, and leads from a reachable state of the server to a reachable one |
| ServerReads.ReadStaysReachable | src/client.c:104-158 | so does every read, whatever bytes are held and come in |
| ServerReads.OneMoreServedRead | src/client.c:104-158 | one more read, as written, continues the frames and the state of any reads before it |
| ServerReads.FramesServeHeard | src/client.c:124-139 | the loop over the frames of a read is handling the messages heard in them, in order |
| ServerReads.HeardIff | src/client.c:119-139 | in every read the handlers hear what the messages say if and only if none sees a field left behind |
| ServerReads.CommandsHeardIff | src/client.c:104-139 | for every list of commands and every cutting of their bytes into reads, the handlers hear exactly those commands in order if and only if none sees a field left behind |
| ServerReads.CommandsAreServed | src/client.c:104-139 | then the server ends in the state of handling them one after the other, up to a crash |
| ServerReads.CommandsAreServedAsWritten | src/connection.c:11-25 | the same for the read as written, on reads that each find the store empty |
| ServerReads.FirstInReadIsServed | src/client.c:119-139 | it is enough that only the first message of each read is of a kind that leaves fields alone |
| ServerReads.PlainCommandsAreServed | src/client.c:119-139 | all other commands are served as they were sent, in whatever reads they come |
| ServerReads.ServingKeepsServed | src/client.c:124-139 | handling any sequence of messages keeps the invariant and the connection open |
| ServerWorld.EachIsHeard | src/client.c:104-158 | in the events of the server among any inputs, each client is heard as its own reads, as written, say, whatever the others send |
| ServerWorld.WorldIsRun | src/client.c:104-239 | however connections, reads and ends of streams interleave, the server has gone through exactly those events, as far as the first crash, and every store holds what the reads of its own client left |
| ServerWorld.WorldIsReachable | src/client.c:104-239 | so its state is always a reachable one, and what holds in those holds whatever the clients send |
| ServerWorld.EachClientIsServedIff | src/client.c:104-158 | among any other clients, the server handles from one whose reads are aligned exactly the commands it printed, in order, if and only if no handler sees a field that an earlier message of the same read left behind |
| Motd.CopyFragment | src/handlers.c:307 | strncpy copies up to 80 bytes and pads with NUL |
| Motd.SendFragments | src/handlers.c:297-319 | the loop sends exactly the specified fragments |
| Motd.FragmentsMakeUpText | src/handlers.c:300-319 | the fragments make up the text without its last 80 bytes if its length is a positive multiple of 80, and the whole text otherwise |
| Motd.WholeTextIff | src/handlers.c:309-312 | the whole text arrives exactly when its length is not a positive multiple of 80 |
| Motd.FragmentsAreShort | src/handlers.c:306-319 | no fragment is longer than 80 bytes, and every one but the last is that long |

## Left out

- Sockets, epoll, the reactor, configuration, logging, and reading the file of the message of the day: arriving bytes, connections and closes are inputs of the model.
- `read_message` and `read_to_CRLF` in `src/read_message.c`: an older variant that the server does not call.
- `msgtok` in `src/msgtok.c`: the algorithm of `msgtok_r` with the saved pointer in a static variable.
- The text of replies (`src/replies.c`): replies are tagged values, and the lines of a LIST of all channels are a map, since the table has no order; what LUSERS, PING, MOTD and unknown commands send is a list of reply codes.
- ServerInvariant.HandleKeepsInv: does not count as a crash that a reply overruns its buffer, which `sprintf` does not check: the reply to WHOIS for a nick of 504 bytes (`src/replies.c:35`) and a welcome with a user name of about 480 (`src/replies.c:14`) do.
- ServerRuns.CrashesIff: counts the same crashes as ServerInvariant.HandleKeepsInv, so not the replies that overrun their buffer.
- Freeing and destructors, except for channels that are freed while they are in the table; a value in the hash table is never NULL.
- The internals of GLib tables and queues: tables are maps, queues are sequences, iteration takes any order.
- Channel modes, operators, the channel count and `client_join_channel`, which the handlers do not use.
- Failed and partial writes: every response is written whole.
- A failed `accept` or a failed registration with the reactor, and file descriptors that are used again.
- Fixed-size copies of user names, full names and away texts: a message is at most 512 bytes, so they are never cut. Nicknames are modelled.
- Primes.FloorSqrt: the exact integer square root, where the code rounds a floating-point root.
- HashTables.InsertSucceedsInNewTableIff: assumes that the second hash plus the capacity stays below 2^64; for other keys the path may wrap, and `HashTables.InsertSucceedsIff` and `HashTables.InsertReturnsInFirstRound` say what happens.
- HashTableObject.HashTable.Insert: requires the exact condition under which the call returns, because on the other inputs it does not; so do Search and Remove.
- HashTableObject.HashTable.Search: requires the exact condition under which the call returns.
- HashTableObject.HashTable.Remove: requires the exact condition under which the call returns.
- Connections.Connection.AppendToStore: the documented read, which the program does not have; the code's read is Connections.Connection.ReadStoreBuffer.
- ServerReads.CommandsAreServed: is about documented reads, which append; ServerReads.CommandsAreServedAsWritten is about the code's.
- StructReuse.LongNickIff: a pointer left behind is read up to a NUL or the end of the 512-byte message buffer; C would read on into the store behind it.
- ServerRuns.StepKeepsSettled: takes fewer than 2^31 - 1 connections over the life of the server.
- ServerObject.Server.JoinChannel: works on the name as a value; the loop that puts a name in lower case in the message buffer is ServerObject.LowerInPlace.
- ServerObject.Server.Part: takes the name and the message as values; that the two can lie in one buffer, the first lowered under the second, is in StructReuse.MessageOfFields and ServerReads.See, which read them.
- ServerObject.Server.Topic: the same for the name and the topic; and a topic set on a channel that does not exist marks the server as crashed; what C does after that is undefined and not modelled.
