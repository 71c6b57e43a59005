# Stealify: models and proofs

This project models the state machines over buffers, queues and graphs that Stealify's libraries are built on, and
proves what they promise.  Each module mirrors one source file: closures and objects that update state are classes,
loops are methods with invariants, and every one of these is proved against a pure specification, about which the
main results are lemmas over all inputs and all runs.

| modules | what they model |
|---|---|
| `Bytes`, `Text` | octets, big-endian words, and text in UTF-8 against its UTF-16 code units |
| `PgFrames`, `PgMessages`, `PgParser`, `PgRows`, `PgQueries` | the PostgreSQL client's resumable frame parser, the messages it reads, its row window, and the decoding of rows, over whole connections |
| `PgCallbacks` | the queue that matches replies to requests, between a client, the calls it has appended, and a server |
| `PgCompile`, `PgServer` | the statement compiler and its in-place patching of parameters, and a server that reads what was compiled |
| `Bits`, `Rfc1321`, `Md5Block`, `Md5Stream`, `Utf8` | streaming MD5 against RFC 1321 |
| `WebSocket` | the frame parser, the frame writer, and masking (RFC 6455, section 5.2) |
| `Path` | the path normaliser |
| `TaskQueue` | the worker task queue as interleaved steps |
| `Graph`, `DeepFreeze` | graph closure with a persistent frozen set, and property overrides |
| `Base64`, `Chunked`, `Dns` | the codecs: section 4 of RFC 4648, section 7.1 of RFC 9112, sections 4.1 and 4.1.4 of RFC 1035 |
| `Require`, `AsyncQueue` | the caching module loader, and the bounded promise queue |

## Where the code falls short, and exactly when

The models keep what the code does.  Where that is not what is promised, a lemma says for which inputs it is.

- The parser forgets the row window when a read ends on a frame boundary (`src/lib/pg/protocol.js:271`): in every
  connection, the callback of a query finds its rows exactly if no read ended on a boundary after the first of them
  (`PgQueries.QueryServed`, with an example in `PgQueries.BoundaryReadLosesRow`).
- `onParameterStatus` and the statement compiler count characters where the protocol counts octets: they are right
  exactly for ASCII (`PgFrames.StatusBoundary`, `PgServer.Understood`); so is `createMessage` of the WebSocket client
  (`WebSocket.StringExact`).
- `fun.call` patches as if every parameter were a number: right for all new values exactly if none is sent as text
  (`PgCompile.PatchExact`).
- A callback queue entry is never answered, or too early, for a bind alone, an empty or suspended execution, a wrong
  statement count, a function used both to describe and to query while its row description is due, or a request
  written past appended calls with another callback: requests and replies match exactly as long as every step avoids
  these (`PgCallbacks.StepExact`), and from any other step the server's answers lead to a mismatch
  (`PgCallbacks.ImpoliteShows`).
- WebSocket lengths in eight octets are right exactly below 2^31, a masked empty frame in the short form is
  misread (`WebSocket.HeaderExact`), and the writer misses length 65536 and lengths from 2^32 on
  (`WebSocket.WriterExact`).
- Joining a normalised first argument gives another path if that argument is empty, the others make an absolute
  path, and there is not just one other (`Path.JoinOfNormalized`).
- Draining can return exactly unless the queue was stopped with tasks in it (`TaskQueue.DrainCanReturn`); before that,
  workers that go on as long as they can always bring the count to zero (`TaskQueue.HelpingsBounded`,
  `TaskQueue.NoneLeft`).
- A DNS question is read back exactly if its labels have one to 255 octets and none but the last holds a zero
  octet (`Dns.QuestionExact`); the owner of an answer is read in every form, and stepped over rightly exactly if it is
  not labels in front of a pointer (`Dns.ReadOwner`).
- `require` hands out an unfinished module exactly if the modules that the root reaches form a cycle
  (`Require.Loader.LoadRoot`).

## Model

| member | source | states |
|---|---|---|
| PgFrames.FramesPartition | src/lib/pg/protocol.js:219-270 | The frames of a stream and the incomplete frame behind them are the stream, octet for octet |
| PgFrames.FramesOfMore | src/lib/pg/protocol.js:219-272 | Reading on from the incomplete frame finds the frames that the whole stream holds: the split into reads does not matter |
| Bytes.NetworkOrder16 | src/lib/pg/transport.js:160-161 | 16-bit words are stored in network order: they compare as their octets do, from the first on |
| Bytes.NetworkOrder32 | src/lib/pg/protocol.js:247-247 | And so are 32-bit words |
| Text.TextExact | src/lib/pg/protocol.js:328-332 | Octets are well-formed UTF-8 exactly if some well-formed UTF-16 string is written as them, and the length counted for them is that string's |
| Bytes.LengthAgrees | src/lib/pg/protocol.js:328-332 | A decoded string is as long as its octets exactly if it is ASCII |
| PgFrames.StatusBoundary | src/lib/pg/protocol.js:162-170 | The ParameterStatus handler returns the next frame boundary exactly if both texts are ASCII |
| PgFrames.OneFrame | src/lib/pg/protocol.js:246-269 | An encoded message in front of a stream is that stream's first frame |
| PgParser.CopyDown | src/lib/pg/protocol.js:231-237 | The overlapping move to the front of the buffer carries every octet to its place |
| PgMessages.RowDescriptionBack | src/lib/pg/protocol.js:110-134 | Every RowDescription laid out as section 55.7 has it is accepted, and its columns are read back in order, member by member |
| PgMessages.ErrorResponseBack | src/lib/pg/protocol.js:148-160 | Every ErrorResponse is accepted, and its fields are read back in order |
| PgMessages.ParameterStatusBack | src/lib/pg/protocol.js:162-170 | Every ParameterStatus is accepted, and its two texts are read back |
| PgMessages.ParameterDescriptionBack | src/lib/pg/protocol.js:172-182 | Every ParameterDescription is accepted, and each type is where it is looked for |
| PgMessages.AuthenticationBack | src/lib/pg/protocol.js:136-146 | A request for an MD5 password with its salt is accepted, and any other without data |
| PgMessages.Accepted | src/lib/pg/protocol.js:219-311 | A message is accepted exactly if its body is: one octet for ReadyForQuery, two words for BackendKeyData, and anything for a type whose body is not read |
| PgParser.Parser.OnDataRow | src/lib/pg/protocol.js:86-91 | Keeps step with the unbounded client over a DataRow: the window opens at the first row, and the next boundary is returned |
| PgParser.Parser.OnCommandComplete | src/lib/pg/protocol.js:93-102 | Reports rows and window as they are at the CommandComplete frame, and returns the next boundary |
| PgParser.Parser.OnCloseComplete | src/lib/pg/protocol.js:104-108 | Notifies and returns the next boundary |
| PgParser.Parser.OnRowDescription | src/lib/pg/protocol.js:110-134 | From the message for any columns exactly these columns are read, in order and member by member; notifies, and lands on the next boundary |
| PgParser.Parser.OnAuthentication | src/lib/pg/protocol.js:136-146 | Takes the salt and notifies exactly for MD5, and lands on the next boundary |
| PgParser.Parser.OnErrorResponse | src/lib/pg/protocol.js:148-160 | From the message for any error fields exactly these are read, in order; notifies, and lands on the next boundary |
| PgParser.Parser.OnParameterStatus | src/lib/pg/protocol.js:162-170 | Records the message's parameter and value without notifying, and lands on the next boundary |
| PgParser.Parser.OnParameterDescription | src/lib/pg/protocol.js:172-182 | From the message for any parameter types exactly these are read, without notifying, and it lands on the next boundary |
| PgParser.Parser.OnParseComplete | src/lib/pg/protocol.js:184-189 | Notifies and returns the next boundary |
| PgParser.Parser.OnBindComplete | src/lib/pg/protocol.js:191-199 | Opens an empty row window at the next boundary |
| PgParser.Parser.OnReadyForQuery | src/lib/pg/protocol.js:201-207 | Takes the status octet, notifies, and returns the next boundary |
| PgParser.Parser.OnBackendKeyData | src/lib/pg/protocol.js:209-217 | Takes process number and key, notifies, and lands on the next boundary |
| PgParser.Parser.OnDefault | src/lib/pg/protocol.js:274-278 | Notifies for any other type and returns the next boundary |
| PgParser.Parser.Dispatch | src/lib/pg/protocol.js:269-311 | Whatever the type, the frame is delivered once and the next boundary returned |
| PgParser.Parser.KeepWindow | src/lib/pg/protocol.js:229-236 | Relocating the window and the unfinished frame keeps both addressable, and the octets not yet handled unchanged |
| PgParser.Parser.KeepTail | src/lib/pg/protocol.js:237-240 | Relocating the unfinished frame keeps the octets not yet handled unchanged |
| PgParser.Parser.Suspend | src/lib/pg/protocol.js:227-245 | Through every compaction branch the octets kept are the unfinished frame; the move is impossible exactly if the window starts behind it |
| PgParser.Parser.Parse | src/lib/pg/protocol.js:219-272 | Delivers every complete frame, and leaves in [parseNext, buf.offset) exactly the octets not yet delivered |
| PgParser.Parser.Receive | src/lib/pg/protocol.js:219-272 | A read of any size, appended at buf.offset, is delivered like its octets in an unbounded buffer |
| PgParser.Serve | src/lib/pg/protocol.js:219-272 | Over a whole connection, read in any sizes: the parser ends where the unbounded client ends after the same reads, it stops only at the end of the stream or of the sizes or at a full buffer or a cut window, frames and types notified are those of the stream read, and every completed query has its snapshot, whose window is its rows exactly if they were not cut |
| PgParser.CString | src/lib/pg/protocol.js:328-332 | The scan to the zero octet returns the text in front of it |
| PgRows.ParseIntText | src/lib/pg/transport.js:287-288 | parseInt gives back every integer from its decimal text |
| PgRows.GetRows | src/lib/pg/transport.js:265-307 | From a window that holds the frames of a table, exactly the table comes back, value by value, whatever follows them |
| PgRows.ReadRow | src/lib/pg/transport.js:276-300 | One DataRow frame gives back the encoded row and the offset behind it |
| PgRows.ReadColumn | src/lib/pg/transport.js:283-299 | One column gives back its value in each of the four combinations of format and type |
| PgRows.RowColumns | src/lib/pg/transport.js:276-300 | The columns of a row lie one after another, each in its own format or the first |
| PgQueries.QueryServed | src/lib/pg/protocol.js:86-102 | For every error-free extended query of a connection, the callback finds the number of rows, and their frames in buf[query.start..query.end) exactly if no read cut them |
| PgQueries.TableServed | src/lib/pg/protocol.js:86-102 | So for a query that answers with a table: its frames are what the callback can read exactly if no read cut them |
| PgQueries.BoundaryReadLosesRow | src/lib/pg/protocol.js:271-272 | One row and one read ending behind it: the callback does not find the row; with the same octets in one read it does |
| PgQueries.GetServedRows | src/lib/pg/transport.js:265-307 | In such a callback getRows gives back the table |
| PgCallbacks.FiredByOwners | src/lib/pg/transport.js:371-399 | Where every reply fires its own callback, what fires is what is owned, and the queue is what is still owned, in order |
| PgCallbacks.Firing | src/lib/pg/transport.js:371-399 | Which message types fire the head of the queue and take it off, error responses included, and which leave the queue alone; an empty queue is an error exactly for those that fire |
| PgCallbacks.MoreMatches | src/lib/pg/transport.js:325-329 | Pushing behind what is under way disturbs it exactly if it marks a function that a row description is still to fire |
| PgCallbacks.AloneCompletes | src/lib/pg/transport.js:371-399 | Which requests are completed by their own replies, for every kind of request, exactly |
| PgCallbacks.QueryReplies | src/lib/pg/transport.js:325-345 | A raw query is completed exactly if `queries` is its number of statements and the session is authenticated |
| PgCallbacks.AskKeeps | src/lib/pg/transport.js:54-147 | A request written at once, with others under way and calls waiting, keeps every reply matched exactly if it completes, marks no awaited function, and pushes no callback past waiting calls with another one |
| PgCallbacks.AppendKeeps | src/lib/pg/transport.js:79-100 | A call appended keeps every reply matched exactly if it completes |
| PgCallbacks.StepExact | src/lib/pg/transport.js:54-399 | A step of client, server or wire keeps the match exactly if it is polite, and only requests and appended calls can be impolite |
| PgCallbacks.RepliesMatchRequests | src/lib/pg/transport.js:54-147 | In every run of polite steps, pipelined, appended or not: the queue is never shifted when empty, the n-th completion fires the n-th callback pushed, once, and the rest are those still to come |
| PgCallbacks.Overtakes | src/lib/pg/transport.js:101-107 | A request written in front of waiting calls is matched exactly if it completes and pushes nothing or their one callback |
| PgCallbacks.ImpoliteShows | src/lib/pg/transport.js:371-399 | After any impolite step the server's answers alone lead to an empty queue shifted, a wrong callback fired, or one left over |
| PgCallbacks.SharedFunctionBreaks | src/lib/pg/transport.js:393-397 | A function both described with and queried with is not fired by its row description, and the queue stays one behind |
| PgCallbacks.AppendOvertaken | src/lib/pg/transport.js:79-107 | A run from the start: a call is appended, another written at once, then the first sent, and each completion fires the other's callback |
| PgCallbacks.Transport.Send | src/lib/pg/transport.js:320-323 | A request pushes its callback and is written |
| PgCallbacks.Transport.ExecQuery | src/lib/pg/transport.js:325-345 | A raw query pushes its callback once for each statement and marks it |
| PgCallbacks.Transport.Append | src/lib/pg/transport.js:79-100 | An appended call pushes its callback and waits |
| PgCallbacks.Transport.SendAppended | src/lib/pg/transport.js:101-107 | What waits is written, in order, and nothing waits any more |
| PgCallbacks.Transport.Shift | src/lib/pg/transport.js:373-375 | The head of the queue is fired and removed, and an empty queue is a TypeError |
| PgCallbacks.Transport.Message | src/lib/pg/transport.js:371-399 | Each message type fires the head of the queue or leaves it, as the pure queue does |
| PgCompile.SizedRight | src/lib/pg/transport.js:151-154 | A message with a computed length field is the message needed exactly if the length is right |
| PgCompile.ValuesRight | src/lib/pg/transport.js:200-212 | The parameter values are written as needed exactly if each is binary or ASCII |
| PgCompile.PartsRight | src/lib/pg/transport.js:148-258 | Message by message, what compile writes has the length fields and value lengths that are needed exactly if all texts are ASCII |
| PgCompile.ServerReads | src/lib/pg/transport.js:148-258 | Splitting what was written into frames by the length fields gives these seven messages exactly if all texts are ASCII |
| PgServer.ParseRead | src/lib/pg/transport.js:148-165 | The Parse message says the statement's name, its text, and the type of each parameter in its place |
| PgServer.BindRead | src/lib/pg/transport.js:177-220 | The Bind message says portal, statement, parameter formats, values and result formats |
| PgServer.ExecuteRead | src/lib/pg/transport.js:221-233 | The Execute message says the portal and how many rows to return |
| PgServer.NamedRead | src/lib/pg/transport.js:166-175 | The Describe and Close messages say that they mean a statement, and which |
| PgServer.Understood | src/lib/pg/transport.js:148-258 | A server that splits what was written and reads each message takes exactly the statement, its formats and its values from it, if and only if all texts are ASCII |
| PgServer.CompileFor | src/lib/pg/transport.js:32-317 | So it is with the octets that compile leaves in its buffer |
| PgCompile.Statement.constructor | src/lib/pg/transport.js:32-317 | The buffer holds the seven messages and their regions tile it from 0 to size |
| PgCompile.Statement.WriteParse | src/lib/pg/transport.js:149-165 | Appends the Parse message and records its region |
| PgCompile.Statement.WriteDescribe | src/lib/pg/transport.js:166-175 | Appends the Describe message and records its region |
| PgCompile.Statement.WriteBind | src/lib/pg/transport.js:177-220 | Appends the Bind message, whose length field filled in afterwards is right for any texts |
| PgCompile.Statement.WriteValues | src/lib/pg/transport.js:200-212 | Appends the parameter values, each as number or text after its format |
| PgCompile.Statement.WriteExecute | src/lib/pg/transport.js:221-233 | Appends the Execute message and records its region |
| PgCompile.Statement.WriteBare | src/lib/pg/transport.js:234-246 | Appends a Sync or Flush message and returns its region |
| PgCompile.Statement.WriteClose | src/lib/pg/transport.js:248-256 | Appends the Close message and records its region |
| PgCompile.Statement.Store | src/lib/pg/transport.js:56-62 | The loop stores each number four octets into its eight, and nothing else |
| PgCompile.Statement.Call | src/lib/pg/transport.js:54-78 | Writes from the Bind message on; with numbers alone the buffer and what is sent are those of a statement compiled for the new values |
| PgCompile.Statement.Append | src/lib/pg/transport.js:79-100 | The same octets as a call, behind those that wait already |
| PgCompile.Statement.SendAppended | src/lib/pg/transport.js:101-107 | What was appended is written in order, and nothing waits any more |
| PgCompile.PatchIsRecompile | src/lib/pg/transport.js:54-78 | With numbers alone, patching is compiling anew, octet for octet |
| PgCompile.TextBreaks | src/lib/pg/transport.js:206-211 | With a text parameter some new value makes patching wrong |
| PgCompile.PatchExact | src/lib/pg/transport.js:54-78 | Patching is right for all new values exactly if no parameter is sent as text |
| Md5Block.FF | src/lib/pg/md5.js:354-392 | A pair of lines of the first round, with its way to write F, is one operation of RFC 1321 |
| Md5Block.GG | src/lib/pg/md5.js:393-424 | A pair of lines of the second round, with its way to write G, is one operation |
| Md5Block.HH | src/lib/pg/md5.js:425-464 | A pair of lines of the third round is one operation |
| Md5Block.II | src/lib/pg/md5.js:465-496 | A pair of lines of the fourth round is one operation |
| Rfc1321.WordsAre | src/lib/pg/md5.js:36-40 | Word `i` of a block is the number of its four octets with the low-order one first |
| Rfc1321.WordsExact | src/lib/pg/md5.js:36-40 | And those sixteen words are the only ones with these octets |
| Rfc1321.RotatesLeft | src/lib/pg/md5.js:345-496 | The two shifts of a line are a rotation to the left, for each number of places in the table |
| Md5Block.StartOfRound1 | src/lib/pg/md5.js:354-367 | The first four operations on a later block |
| Md5Block.Ops4To8 | src/lib/pg/md5.js:369-376 | Operations 4 to 7 with the constants of the code |
| Md5Block.Ops8To16 | src/lib/pg/md5.js:377-392 | Operations 8 to 15 with the constants of the code |
| Md5Block.Ops16To24 | src/lib/pg/md5.js:393-408 | Operations 16 to 23 with the constants of the code |
| Md5Block.Ops24To32 | src/lib/pg/md5.js:409-424 | Operations 24 to 31 with the constants of the code |
| Md5Block.Ops32To40 | src/lib/pg/md5.js:425-444 | Operations 32 to 39 with the constants of the code |
| Md5Block.Ops40To48 | src/lib/pg/md5.js:445-464 | Operations 40 to 47 with the constants of the code |
| Md5Block.Ops48To56 | src/lib/pg/md5.js:465-480 | Operations 48 to 55 with the constants of the code |
| Md5Block.Ops56To64 | src/lib/pg/md5.js:481-496 | Operations 56 to 63 with the constants of the code |
| Md5Stream.ShortcutOfRound1 | src/lib/pg/md5.js:345-353 | The shortcut on the first block is the first four operations from the standard registers |
| Md5Stream.FoldIV | src/lib/pg/md5.js:498-503 | The constants added after the first block are the standard registers |
| Md5Stream.Md5.Permute | src/lib/pg/md5.js:345-496 | All sixty-four operations, on the first block as on later ones |
| Md5Stream.Md5.Hash | src/lib/pg/md5.js:342-510 | The registers after one more block of the message |
| Md5Stream.Md5.Recycle | src/lib/pg/md5.js:241-248 | The octets behind the block become the front of the next, and the rest is zero |
| Md5Stream.Md5.Fill | src/lib/pg/md5.js:250-302 | Takes octets in order, and the write index never leaves the 68-octet buffer |
| Md5Stream.Md5.TakeBlock | src/lib/pg/md5.js:240-312 | One round of the loop keeps hashed blocks and buffer equal to what was taken |
| Md5Stream.Md5.Update | src/lib/pg/md5.js:215-318 | All of the message is taken, behind what was taken before |
| Md5Stream.Md5.MarkEnd | src/lib/pg/md5.js:326-326 | The word operation puts the end mark into its octet and changes no other |
| Md5Stream.Md5.CloseMessage | src/lib/pg/md5.js:325-336 | End mark and zeros, with room for the length, in each of the three positions of the write index |
| Md5Stream.LengthWords | src/lib/pg/md5.js:337-338 | The two length words are eight times the octet count modulo 2^64 |
| Rfc1321.WordOfValue | src/lib/pg/md5.js:337-338 | A length word holds the number modulo 2^32, the low-order octet first |
| Md5Stream.Md5.Finalize | src/lib/pg/md5.js:320-340 | The blocks hashed are the padded message of sections 3.1 and 3.2 of RFC 1321 |
| Md5Stream.Md5.Digest | src/lib/pg/md5.js:567-577 | The sixteen octets are the RFC 1321 digest of all that was taken |
| Rfc1321.WordOctetsValue | src/lib/pg/md5.js:567-577 | The octets of a register are its value, the low-order one first |
| Md5Stream.DigestOf | src/lib/pg/md5.js:215-510 | For every split of a message into update calls, the digest is that of the message |
| Md5Stream.TextIsUtf8 | src/lib/pg/md5.js:262-280 | A well-formed string is hashed as its UTF-8 octets |
| Utf8.PointRoundTrip | src/lib/pg/md5.js:263-279 | The octets of a code point decode to it, whatever follows |
| Utf8.WellFormedAsUtf8 | src/lib/pg/md5.js:262-280 | The encoder writes a well-formed string as RFC 3629 does |
| WebSocket.LongLengthExact | src/lib/websocket.js:96-154 | A length in eight octets is read right exactly below 2^31 |
| WebSocket.HeaderExact | src/lib/websocket.js:48-201 | A header in any of the three length forms, masked or not, is read right exactly if the frame is supported |
| WebSocket.KeyTakenForHeader | src/lib/websocket.js:68-70 | The key of a masked empty short frame is read as the next header |
| WebSocket.FrameExact | src/lib/websocket.js:44-221 | A frame is reported as RFC 6455 has it, from one boundary to the next, exactly if it is supported |
| WebSocket.StreamRead | src/lib/websocket.js:44-221 | Every stream of supported frames is reported frame by frame |
| WebSocket.SoundExact | src/lib/websocket.js:202-218 | The body counter stays below the length, so `toread === 0` is never met, exactly if no header claims a negative length |
| WebSocket.Parser.HeaderStep | src/lib/websocket.js:47-201 | The switch on the fourteen positions, statement by statement on the fields, is one step of the automaton |
| WebSocket.Parser.BodyStep | src/lib/websocket.js:202-218 | As much of the payload as there is, is as many steps of the automaton |
| WebSocket.Parser.Execute | src/lib/websocket.js:44-221 | Calls and state after any piece are those of its octets one by one |
| WebSocket.ParsePieces | src/lib/websocket.js:44-221 | Supported frames in any pieces: the calls tell each header, payload and end, and nothing else |
| WebSocket.CreateBinaryMessage | src/lib/websocket.js:259-292 | The buffer is the header the code computes and the payload |
| WebSocket.CreateMessage | src/lib/websocket.js:224-257 | The header is for the string's length in UTF-16 code units, and as much of its octets as there is room for follows |
| WebSocket.StringExact | src/lib/websocket.js:224-257 | A string goes out as its octets would exactly if it is ASCII |
| WebSocket.WriterExact | src/lib/websocket.js:259-292 | What is written is the RFC 6455 frame exactly if the length is not 65536 and below 2^32 |
| WebSocket.WriterThenParser | src/lib/websocket.js:44-221 | Parsing any sequence of written frames delivers their payloads, in order |
| WebSocket.PayloadOf65536 | src/lib/websocket.js:266-280 | A payload of 65536 octets comes back as an empty message first |
| WebSocket.Unmask | src/lib/websocket.js:294-301 | Exactly the given stretch is masked with the key, in place |
| WebSocket.MaskedTwice | src/lib/websocket.js:294-301 | Masking twice with one key changes nothing |
| Path.NormalizeString | src/lib/path.js:27-89 | The one-pass automaton computes the fold of the segments: `lastSegmentLength` is the length of the top one throughout |
| Path.SplitExact | src/lib/path.js:19-21 | Slashes and backslashes separate segments and nothing else does: with slashes between them the segments are the path again, with slashes for its backslashes |
| Path.StepBack | src/lib/path.js:44-71 | A `..` takes back a real segment, and is else kept only above the start |
| Path.PopSegment | src/lib/path.js:48-66 | Cutting the text at the last slash takes the top segment off the stack |
| Path.StackCanonical | src/lib/path.js:27-89 | Rooted results hold no `..`, and relative ones only at the front |
| Path.NormalizePath | src/lib/path.js:91-102 | Returns the normal form in every case: empty, rooted, trailing slash, backslash |
| Path.NormalizeIdempotent | src/lib/path.js:91-102 | Normalising twice is normalising once, for all strings |
| Path.NormalFormsAgree | src/lib/path.js:91-102 | Two paths have one normal form exactly if they agree in root, stack and trailing slash |
| Path.NormalizeKeepsMeaning | src/lib/path.js:91-102 | From every directory a path and its normal form lead to the same place |
| Path.JoinPaths | src/lib/path.js:104-120 | Joins the arguments that are not empty and normalises, with an absolute second of two alone |
| Path.JoinOfNormalized | src/lib/path.js:104-120 | Normalising the first argument first makes no difference, but for one family of arguments, exactly |
| TaskQueue.Monitor.Push | packages/zero/src/zero_platform.cc:285-291 | One step of the queue: a task more, and one waiting worker signalled |
| TaskQueue.Monitor.BlockingPop | packages/zero/src/zero_platform.cc:304-316 | One pass of the wait loop: waits, gives up after Stop, or returns the oldest task |
| TaskQueue.Monitor.NotifyOfCompletion | packages/zero/src/zero_platform.cc:318-324 | One task less outstanding, and every drainer woken at zero |
| TaskQueue.Monitor.BlockingDrain | packages/zero/src/zero_platform.cc:326-332 | One pass of the wait loop: waits exactly while tasks are outstanding |
| TaskQueue.Monitor.Stop | packages/zero/src/zero_platform.cc:334-339 | Stopped, and every waiting worker woken |
| TaskQueue.InvStep | packages/zero/src/zero_platform.cc:285-339 | Every step of every thread keeps the queue's invariant, and no worker is lost |
| TaskQueue.NoWakeupIsLost | packages/zero/src/zero_platform.cc:285-339 | Before Stop, while a worker sleeps, each queued task has a woken worker of its own; after Stop none sleeps |
| TaskQueue.TasksLeaveInOrder | packages/zero/src/zero_platform.cc:285-316 | Tasks leave in the order of pushing, each once, and each popped task has run or is with one worker |
| TaskQueue.DrainerSleepsOnlyOnWork | packages/zero/src/zero_platform.cc:326-332 | A sleeping drainer waits for a task that is queued, running or not yet reported |
| TaskQueue.DrainIsSound | packages/zero/src/zero_platform.cc:326-332 | When a drain returns, every task pushed before has run |
| TaskQueue.Progress | packages/zero/src/zero_platform.cc:21-27 | The workers can always bring the count to zero, unless tasks were stopped in the queue |
| TaskQueue.HelpingsBounded | packages/zero/src/zero_platform.cc:21-27 | In every run without pushes, the workers' moves other than waiting or leaving are at most three for each queued task, two for each running and one for each unreported |
| TaskQueue.NoneLeft | packages/zero/src/zero_platform.cc:304-324 | No such move is possible exactly if nothing is outstanding, unless tasks were stopped in the queue |
| TaskQueue.StoppedQueueStays | packages/zero/src/zero_platform.cc:310-312 | Tasks that Stop catches in the queue stay there |
| TaskQueue.DrainCanReturn | packages/zero/src/zero_platform.cc:310-332 | Some later drain can return exactly unless Stop caught tasks in the queue |
| Graph.ClosedHolds | src/lib/freeze.js:254-342 | What is closed under edges holds all that its members reach |
| DeepFreeze.FrozenKeepsEdges | src/lib/freeze.js:293-300 | A frozen object can be changed no more, and keeps its prototype, keys, values and functions |
| DeepFreeze.FrozenKeepsLinks | src/lib/freeze.js:293-300 | Freezing objects changes nothing about what leads where |
| DeepFreeze.Freezer.Enqueue | src/lib/freeze.js:268-283 | An object is queued exactly if it is neither frozen nor queued |
| DeepFreeze.Freezer.DoFreeze | src/lib/freeze.js:285-320 | Freezes one object and queues all it leads to by prototype, value, getter and setter that is not frozen |
| DeepFreeze.Freezer.Dequeue | src/lib/freeze.js:322-325 | The growing queue is worked off on any graph: it ends, with everything queued frozen and led to by the root |
| DeepFreeze.Freezer.Commit | src/lib/freeze.js:327-333 | The queue is added to the frozen set |
| DeepFreeze.Freezer.DeepFreeze | src/lib/freeze.js:254-342 | The frozen set grows by exactly what the root leads to, just those objects are frozen, and nothing leads out of the set |
| DeepFreeze.Freezer.FreezeAll | src/lib/freeze.js:250-251 | Over all roots, the set grows by exactly what some root leads to |
| DeepFreeze.Freezer.EnableDerivedOverride | src/lib/freeze.js:363-401 | A configurable data property becomes an accessor with the same key and flags, whose getter is a new object that holds the value as its `value` and whose setter is another that holds none; nothing else of the object changes, and all that led anywhere still does |
| DeepFreeze.OverrideKeeps | src/lib/freeze.js:371-399 | After an override everything that led anywhere still does, through the two new functions |
| DeepFreeze.OverrideAddsNoMore | src/lib/freeze.js:363-401 | An override leads to nothing more but what the two new functions inherit |
| DeepFreeze.Freezer.EnableDerivedOverrides | src/lib/freeze.js:403-417 | This is so for every own property that is configurable data, and any other stays as it was; and all that led anywhere still does |
| DeepFreeze.Freezer.Lockdown | src/lib/freeze.js:248-251 | After overrides and freeze, all that the roots led to before is frozen |
| Base64.RoundTrip | src/modules/encode/encode.cc:31-157 | Decoding the encoding of any octets gives them back |
| Base64.AlphabetIs | src/modules/encode/encode.cc:113-115 | Symbol `v` is character `v` of the 64 |
| Base64.Unbase64Exact | src/modules/encode/encode.h:10-73 | The decoder takes each of the 64 for its number, '-' and '_' for the last two, and nothing else |
| Base64.EncodedSizeExact | src/modules/encode/encode.h:75-77 | The computed size is the size of the encoding |
| Base64.DecodedSizeEnough | src/modules/encode/encode.cc:19-29 | The computed size is never below what a text decodes to, whatever it holds |
| Base64.CleanMeansLegal | src/modules/encode/encode.cc:69-75 | The mask on four packed table entries finds exactly the groups that hold anything illegal |
| Base64.FastBits | src/modules/encode/encode.cc:80-82 | The shifts of the fast loop take the three octets of a group |
| Base64.Base64Encode | src/modules/encode/encode.cc:99-157 | The buffer holds the encoding of section 4 of RFC 4648, padding included |
| Base64.DecodeGroupSlow | src/modules/encode/encode.cc:31-58 | One group symbol by symbol, over illegal characters: written octets are the group's, or as many as fit, and whether to go on is told rightly |
| Base64.DecodeFast | src/modules/encode/encode.cc:60-91 | Fast loop, realignment and last group together decode any text |
| Base64.Base64Decode | src/modules/encode/encode.cc:93-97 | Any text decodes to the whole octets among its legal symbols before the first padding, cut to the room there is |
| Base64.EncodeThenDecode | src/modules/encode/encode.cc:93-157 | Into a buffer of at least the first text's size, encoding and decoding gives it back |
| Base64.EncodeString | packages/zero/lib/util.js:151-180 | The script encoder refuses units above 255 and else writes the same text |
| Chunked.SpellsExact | src/lib/http/http.js:38-39 | The value of hexadecimal digits is the number that they spell, in any case and with any leading zeros, and no other |
| Chunked.PrintedValue | src/lib/http/http.js:38-39 | Any number printed to the base of sixteen is read back |
| Chunked.DecodesBody | src/lib/http/http.js:22-83 | Of every body whose chunk sizes spell the sizes of its chunks, the octets it carries are reported, and its end once, on the last line feed |
| Chunked.ChunkedParser.HeaderOctet | src/lib/http/http.js:25-65 | One octet of a header is one step of the automaton, and the rest throws |
| Chunked.ChunkedParser.ChunkData | src/lib/http/http.js:66-80 | As much of the chunk as there is, is reported and counted off; behind a whole chunk the offset moves on, and else it stays where the piece began |
| Chunked.ChunkedParser.Parse | src/lib/http/http.js:22-83 | Reports and state after any piece are those of its octets one by one |
| Chunked.DecodePieces | src/lib/http/http.js:15-89 | A valid body in any pieces: its octets in order, and one end |
| Dns.SectionsExact | src/lib/dns/protocol.js:93-104 | The label loop reads back labels exactly if no zero octet comes before the last of them |
| Dns.QuestionExact | src/lib/dns/protocol.js:93-109 | The question comes back exactly if each label has one to 255 octets and none but the last holds a zero octet |
| Dns.QueryRoundTrip | src/lib/dns/protocol.js:68-163 | After create, parse recovers the identifier always, and the question exactly under that condition |
| Dns.QuestionLayout | src/lib/dns/protocol.js:151-162 | In a question the type and then the class lie behind the zero octet of the name |
| Dns.BackwardExpands | src/lib/dns/protocol.js:50-66 | If every pointer leads to before the stretch that it ends, there is a name |
| Dns.OneName | src/lib/dns/protocol.js:50-66 | The octets at an offset stand for one name at most |
| Dns.SelfPointer | src/lib/dns/protocol.js:54-58 | A pointer to itself stands for none |
| Dns.NameInFull | src/lib/dns/protocol.js:53-63 | Labels stand for themselves in front of what follows them |
| Dns.ReadName | src/lib/dns/protocol.js:50-66 | Ends, and returns the expansion of section 4.1.4 of RFC 1035, whenever there is one |
| Dns.ReadOwner | src/lib/dns/protocol.js:113-121 | The owner's name in every form; the offset behind it is right exactly if it is a pointer alone or a name in full, the root included |
| Dns.OwnerSize | src/lib/dns/protocol.js:118-121 | Where the owner is not a pointer alone, the computed step is its size exactly if no pointer ends it |
| Dns.ReadRecord | src/lib/dns/protocol.js:112-137 | An address or alias is kept with its names expanded, any other record is passed over |
| Dns.AnswerOf | src/lib/dns/protocol.js:130-136 | Each address and alias has its answer, in the order of the records, with name, class, time to live, and address or alias |
| Dns.Parse | src/lib/dns/protocol.js:68-139 | Of a response to one question, whatever its authority and additional counts: identifier, flags, question, and its addresses and aliases in order |
| Dns.SplitParts | src/lib/dns/protocol.js:151-151 | The parts of a domain with dots between them are the domain |
| Dns.Create | src/lib/dns/protocol.js:141-163 | The buffer holds the query for the domain's labels |
| Dns.CreateThenParse | src/lib/dns/protocol.js:68-163 | What create writes for a domain, parse reads back: identifier, labels, type and class |
| Require.Loader.Load | src/stealify.js:151-188 | Every call ends, runs each body it starts to its end and no body twice; without handing out an unfinished module, every dependency has finished before |
| Require.Loader.RunBody | src/stealify.js:177-185 | The same for one body, whose cache entry is there first |
| Require.Loader.LoadRoot | src/stealify.js:130-191 | From a fresh cache exactly what the root reaches is run, each once; an unfinished module is handed out exactly if that has a cycle, and else dependencies finish first |
| Require.Loader.OrderRanks | src/stealify.js:177-185 | If every dependency finished first, the modules have no cycle |
| AsyncQueue.InvStep | packages/zero/lib/util.js:109-136 | Jobs start in order, each once, never more at a time than allowed, and none waits while there is room |
| AsyncQueue.RunKeeps | packages/zero/lib/util.js:102-137 | So in every run; and while a job waits another is running |
| AsyncQueue.Queue.Start | packages/zero/lib/util.js:109-129 | Starts the oldest waiting job if there is room, and leaves the counter as it was if there is none waiting |
| AsyncQueue.Queue.AddJob | packages/zero/lib/util.js:131-136 | Adding is one step |
| AsyncQueue.Queue.Settle | packages/zero/lib/util.js:124-125 | A job that settles makes room for the next, in one step |

## Left out

- System calls, sockets, TLS, timers and bindings to native libraries: reads are octets that arrive in arbitrary pieces, and callbacks are recorded.
- PgParser.Parser.OnParameterStatus: is stated for ASCII texts, because the code counts characters; `PgFrames.StatusBoundary` says exactly when that is right.
- PgParser.Parser.OnRowDescription: is stated for ASCII column names, for the same reason.
- PgParser.Parser.OnErrorResponse: is stated for ASCII error texts, for the same reason.
- PgParser: `free` and the list of parsers to use again, SASL authentication, and recovery after an error. `copyFrom` is an overlap-safe move; its native code is not part of this model.
- PgRows.GetRows: columns that are not NULL and texts that are ASCII, which is what the code decodes; and no row description between rows, as in raw queries, over which the code steps one octet too few.
- PgCallbacks: `terminate`, and buffers of appended calls for more than one compiled statement: the calls of one statement wait at a time. Every other request is one step in which the callback is pushed and the request written; error replies occur in `onMessage` but not in the runs.
- PgCompile: a statement larger than its 24 KiB buffer, where the code throws, and a parameter list with an empty format list, where it throws too; the start-up, password and terminate messages.
- PgCompile.Statement.Call: the new values have to lie within the statement, so storing past its end into the unused buffer is not modelled.
- PgCompile.Statement.Store: the same.
- PgCompile.Statement.Append: the same; and what waits has to fit the statement's 4096 octets for appended calls.
- Md5Stream: machines whose words have the high-order octet first, the path without ArrayBuffer, hexadecimal and base64 output, messages of other types, and `update` after `finalize`, which does nothing. The cached exclusive ors of round 3 are written out. `lastByteIndex` starts at 0, where the code leaves it undefined, which the shifts turn into 0.
- WebSocket: `reset`.
- WebSocket.Parser.BodyStep: is stated for bodies whose header did not claim a negative length, like `WebSocket.Parser.Execute`; `WebSocket.SoundExact` says exactly which octets lead to one.
- WebSocket.Parser.Execute: the same.
- WebSocket.CreateMessage: takes the string as its UTF-8 octets and `writeString` as stopping at the end of the buffer; its native code is not part of this model.
- Path: `baseName`, `fileName` and `extName`. Characters are single code units.
- TaskQueue: `Pop` and `PopAll`, which the workers do not use, delayed and foreground tasks. A task is its number in the order of pushing.
- DeepFreeze: proxies, objects that cannot be frozen, and what the setter does when it is called. Own properties are listed in the order of their keys; the names and lengths of functions are primitive values.
- Base64: offsets and lengths in the binding, and hexadecimal.
- Chunked: chunk extensions and trailers, at which the code throws or goes on. Chunk sizes are exact integers, where the code has doubles. The caller puts each piece where `buf.offset` points.
- Dns: more than one question, non-ASCII domains, `getFlags` and the single flag bits, authority and additional records, which `parse` does not read, and malformed responses.
- Dns.Parse: is stated for owners that are not labels in front of a pointer, because the code steps over those wrongly; `Dns.ReadOwner` says exactly when the step is right.
- Require: resolving a path to a file, JSON contents, exported values, and exceptions in a body. A body is the list of modules it requires.
- Concurrency other than the task queue: callbacks run one at a time.
- `src/lib/acorn.js`, `src/lib/html/html.js`, `src/lib/stringify/stringify.js`, `src/lib/justify/justify.js`, `src/lib/fetch/fetch.js`, `src/lib/tcp/tcp.js` and the command-line interface are not part of this model.
