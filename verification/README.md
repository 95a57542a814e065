# Verified models of the Crow and libhttpserver cores

A Dafny project that models the parts of this repository in which the algorithms are: Crow's URL
router, HTTP/1 request parser, JSON parser and printer, WebSocket connection, multipart, query
string and base64 codecs, the SHA-1 class that the WebSocket handshake uses, and libhttpserver's
IPv6 address reader. Each model does what the code does, and the properties that the code is for
are proved of it. `dafny verify dfyconfig.toml` checks everything.

Where the code changes state, so does the model: a class with the same fields, an array that is
written in place, a loop with its invariants. Each such method is proved to compute a function of
the old state, and the properties are lemmas about these functions, or, for a connection, about all
runs of its steps.

| files | what they model | main results |
|---|---|---|
| `RoutePatterns`, `RuleTree`, `RuleTrie` | rules, the compressed tree, its nodes | `RuleTrie.Trie.Search`, `RuleTree.OptimizedFindsTheSame` |
| `Dispatch` | parameter tags and handler calls | `Dispatch.DispatchIsTyped` |
| `HttpMessage`, `HttpRun`, `HttpInvariants`, `HttpParser` | the arms of the parser, the run byte by byte, the parser with marks and batches | `HttpParser.HttpParser.FeedAll`, `HttpInvariants.RunStands` |
| `HttpAssertions` | the assertions of the source | `HttpAssertions.AssertionsHold`, `HttpAssertions.TrapIsNul` |
| `HttpBodies`, `HttpLengths`, `HttpNames`, `HttpRequest` | lengths, chunks, header names, the callbacks | `HttpBodies.ChunkedRoundTrip`, `HttpLengths.LengthFramesBody` |
| `JsonText`, `JsonParser`, `JsonPrinter`, `JsonNumbers` | grammar and escapes, the parser in its buffer, the printer, the number automaton | `JsonPrinter.RoundTrip`, `JsonParser.ReadString`, `JsonNumbers.NumberLanguage` |
| `WsFrame`, `WsConnection`, `WsRuns` | frames, the connection, its runs | `WsRuns.Reassembly`, `WsRuns.WireInOrder`, `WsRuns.EndToEnd` |
| `Sha1` | the streaming class | `Sha1.SHA1.GetDigest` |
| `IpText`, `IpAddress`, `Rfc4291` | tokens and strtol, the constructor, the addresses | `Rfc4291.AddressIsRead` |
| `Base64`, `Multipart` | encoder and decoder, printer and consuming parser | `Base64.RoundTrip`, `Multipart.RoundTrip` |
| `QueryString`, `QueryLookup`, `QueryRoundTrip` | decoding in place, lookups | `QueryRoundTrip.RoundTrip` |

How to read the models:

- Router. A rule is a sequence of tokens; a tree holds rules. `strtoll`, `strtoull` and `strtod` are
  given functions that return a value, an end and whether it is out of range. Rules are well formed:
  a `<` begins a known tag and there is no NUL; with an unknown tag the loop of `add` does not end.
  The loop of `add` is written as one call per token. Indices are natural numbers. A rule with index
  0 only prepares the tree.
- HTTP. `HttpMessage.Arm` is what one byte does in one state; `HttpRun.RunOn` folds it over bytes and
  keeps the callbacks as a log; `HttpRun.Norm` joins neighbouring data of one kind. The class
  `HttpParser.HttpParser` has the marks, the batch loops and the 32-bit header count of the source and is proved
  to give the same run. `FeedAll` is a caller that feeds buffer after buffer and looks at upgrade
  after each, as the parser demands. The assertions are stated of the byte-wise run; a batch meets them alike,
  since whether a value is that of a Connection header does not change within it (`HttpAssertions.ValueCharNames`).
- JSON. `JsonText.ValueOf` is the grammar, depth limit included. `JsonParser.Denotes` says what value
  a parsed tree and its buffer stand for.
- WebSocket. A run is a sequence of events: a read or write that ends, well or not, and calls of send
  and close. Reads may bring any number of payload bytes.
- SHA-1, IPv6, base64. The specifications follow FIPS 180-4, section 2.2 of RFC 4291 and RFC 4648.

Where the code does less than its documentation lets expect, the model follows the code:

- A request header with an empty value is dropped unless it is the last one (`HttpRequest.HeadersArrive`).
- Every header name that only begins with Transfer-Encoding sets `uses_transfer_encoding`
  (`HttpNames.NameIsRecognised`).
- A Content-Length is accepted up to a limit a little below 2^64, since the check is made before the
  last digit is added (`HttpBodies.LengthIsExact`).
- The header count has 32 bits and is added up once for a whole batch: a header name of 2^32 bytes in one
  buffer passes although it is too long (`HttpParser.NameCounts`, `HttpParser.HugeNamePasses`).
- One assertion of the parser can fail: on a Connection value that begins with NUL and goes on
  (`HttpAssertions.TrapIsNul`). A build without assertions ignores the bytes, and so does the model.
- A SHA-1 digest is that of the standard up to 2^29 - 1 bytes only (`Sha1.PaddingIsStandard`).
- "::" before seven groups is refused, and so is a dotted tail behind anything other than "::" at the
  front or zeros (`Rfc4291.AddressIsRead`).
- JSON containers may be nested 5000 deep, half of `max_depth`, since each counts twice
  (`JsonPrinter.FitsIsShallow`).
- A rule whose parameters make a number of 2^64 or more in base 6 gets a tag that does not decode to its
  types: some rules of 25 parameters, and all longer ones (`Dispatch.RuleTagDecodes`, `Dispatch.PathsDecode`).
- The number automaton takes `1.` and `1e-`, and refuses `0e5`; `JsonNumbers.WhereTheyDiffer` says exactly
  where it differs from the standard.

## Model

| member | source | states |
|---|---|---|
| RoutePatterns.MatchLits | Server/MyCrowServer/crow_all.h:10158-10169 | A compressed literal edge is passed exactly when the URL continues with its key; matching then goes on behind the key, with the same captures. |
| RoutePatterns.ScanFindsLeast | Server/MyCrowServer/crow_all.h:10035-10042 | The plain scan over a list of rules gives the least index among the rules whose pattern matches the whole URL, with the captures of a rule that carries it, and 0 exactly when no rule matches. |
| RoutePatterns.LeastIsUnique | Server/MyCrowServer/crow_all.h:10035-10042 | Whatever answers the least matching rule gives the index of the plain scan; and its captures too, unless two rules share that index (as rules share index 1, the slash redirect). |
| RuleTree.FindIsLeast | Server/MyCrowServer/crow_all.h:10016-10176 | The backtracking search below any node with non-empty keys is the plain scan over the rules that the subtree holds, from any position of the URL and with any captures taken before. |
| RuleTree.MergedKeepsEntries | Server/MyCrowServer/crow_all.h:9946-9955 | Merging a simple node with its only child leaves every pattern below it, every index and their order as they were. |
| RuleTree.OptimizedKeepsEntries | Server/MyCrowServer/crow_all.h:9942-9963 | Compressing a subtree changes no pattern and no index, keeps keys non-empty, and keeps the node's parameter. |
| RuleTree.MergedIsSmaller | Server/MyCrowServer/crow_all.h:9946-9954 | Each merge lowers the number of nodes, so compression ends; keys that were not empty stay so. |
| RuleTree.OptimizedFindsTheSame | Server/MyCrowServer/crow_all.h:9932-9963 | For every tree with non-empty keys and every URL, the search finds the same index and the same captures before and after optimize. |
| RuleTree.AddedEntries | Server/MyCrowServer/crow_all.h:10179-10262 | Adding a pattern fails exactly when the tree already carries a rule for it, and otherwise adds that one entry and no other (none for index 0). |
| RuleTree.AddedHolds | Server/MyCrowServer/crow_all.h:10179-10262 | After adding a rule the tree holds exactly the rules added so far; add throws exactly when an earlier rule with an index has the same tokens. |
| RuleTree.OptimizedHolds | Server/MyCrowServer/crow_all.h:9932-9963 | Compression keeps the tree holding the same rules. |
| RuleTree.FoundIsLeast | Server/MyCrowServer/crow_all.h:10016-10176 | In a tree that holds a list of rules, the search gives the least matching rule of the list with its captures, and 0 exactly when none matches. |
| RuleTrie.RoutingParams.Pop | Server/MyCrowServer/crow_all.h:10072 | Popping after a push of the same type restores all four vectors. |
| RuleTrie.Node.IsSimpleNode | Server/MyCrowServer/crow_all.h:9910-9919 | True exactly for a node without rule, blueprint and parameter that has at most one child, itself without parameter. |
| RuleTrie.OptimizeNode | Server/MyCrowServer/crow_all.h:9942-9963 | In place: the subtree becomes the compressed tree, nodes stay unshared, and only nodes of the subtree change. |
| RuleTrie.MergeWithChild | Server/MyCrowServer/crow_all.h:9948-9953 | The child's key is appended and its rule, blueprint index and children move up. |
| RuleTrie.FindLiteral | Server/MyCrowServer/crow_all.h:10236-10245 | The first child whose key begins with the character, or their number if there is none. |
| RuleTrie.FindParam | Server/MyCrowServer/crow_all.h:10209-10219 | The first child with the parameter type, or their number if there is none. |
| RuleTrie.ReadToken | Server/MyCrowServer/crow_all.h:10188-10232 | The token at a position of a rule and its width: the traits are tried in order for a tag, any other character stands for itself. |
| RuleTrie.Descend | Server/MyCrowServer/crow_all.h:10209-10255 | The child for a token is the first that fits; a missing one is made, with the blueprint index at the prefix length. |
| RuleTrie.AddBelow | Server/MyCrowServer/crow_all.h:10179-10262 | In place: the subtree becomes the tree with the rule added, or stays as it was where the source throws. |
| RuleTrie.TakeParam | Server/MyCrowServer/crow_all.h:10055-10156 | What a parameter child takes at a position: one scanner per number type with its first characters, a segment for a string, all the rest for a path; nothing when the scanner overflows or does not move. |
| RuleTrie.FindFrom | Server/MyCrowServer/crow_all.h:10016-10176 | The search on nodes gives the tree search's index and captures, and leaves the shared capture stack as it was. |
| RuleTrie.Trie.Add | Server/MyCrowServer/crow_all.h:10179-10262 | A rule is added unless an earlier one with an index has the same tokens; the tree then holds exactly the rules added. |
| RuleTrie.Trie.Optimize | Server/MyCrowServer/crow_all.h:9932-9938 | The tree holds the same rules afterwards. |
| RuleTrie.Trie.Validate | Server/MyCrowServer/crow_all.h:10008-10013 | Throws exactly when the head is not simple; otherwise compresses, and keeps the rules. |
| RuleTrie.Trie.Search | Server/MyCrowServer/crow_all.h:10016-10176 | After any sequence of add and optimize calls the answer is the least matching rule among all rules added, with its captures, and 0 exactly when none matches. |
| Dispatch.TagAgrees | Server/MyCrowServer/crow_all.h:1671-1682 | The tag reader and the trie see the same parameter type at the same place of a rule, and the closing bracket is where the trie's token ends. |
| Dispatch.TagOfRule | Server/MyCrowServer/crow_all.h:1671-1682 | The tag of a rule is the base-6 number of its parameter types, first parameter last, modulo 2^64. |
| Dispatch.RuleTagDecodes | Server/MyCrowServer/crow_all.h:1768-1780 | For every rule, the tag decodes to the argument types of the rule in order if and only if the base-6 number of its parameters is below 2^64; the tag is then that number. It always is with at most 24 parameters, and never with more than 25. |
| Dispatch.PathsDecode | Server/MyCrowServer/crow_all.h:1671-1682 | A rule of n path parameters is well formed, and its tag decodes to its types if and only if n is at most 24: with 25 of them the handler would get other arguments. |
| Dispatch.MatchPushesTaken | Server/MyCrowServer/crow_all.h:10066-10072 | A match pushes exactly the values that the parameters take, in the order of the rule. |
| Dispatch.TakenHasTypes | Server/MyCrowServer/crow_all.h:10055-10156 | Every parameter takes a value of its own type. |
| Dispatch.CallPicksAll | Server/MyCrowServer/crow_all.h:9391-9441 | The indices counted out per type pick the captured values back in the order of the rule. |
| Dispatch.CallLeavesNone | Server/MyCrowServer/crow_all.h:9391-9441 | Each capture vector grows by exactly as many values as the call has arguments of its type. |
| Dispatch.DispatchIsTyped | Server/MyCrowServer/crow_all.h:9387-9441 | Whenever a rule matches, the decoded argument types are those of the captures if and only if the base-6 number of its parameters is below 2^64; then every index that the call uses exists, the handler gets the values in the order of the rule, and each vector has exactly as many entries as arguments. |
| HttpMessage.Arm | Server/MyCrowServer/crow_all.h:5102-6236 | Every arm that examines a byte again lowers the rank of the state; none starts a body or chunk with no byte to come; an upgrade ends in the start state. |
| HttpRun.RunOnConcat | Server/MyCrowServer/crow_all.h:5095-6237 | A run over two stretches of input is the run over the first and then over the second. |
| HttpRun.RunOnFailed | Server/MyCrowServer/crow_all.h:5053-5055 | After an error no input changes anything. |
| HttpRun.RunOnUpgraded | Server/MyCrowServer/crow_all.h:5989-6002 | After an upgrade no more input is parsed; it is kept as the rest. |
| HttpRun.BodyInside | Server/MyCrowServer/crow_all.h:6064-6085 | Body bytes short of the end count content_length down one by one and are delivered as one piece of body data. |
| HttpRun.BodyToEnd | Server/MyCrowServer/crow_all.h:6086-6096 | The last byte of a body is examined again in the state that completes the message; the last of a chunk leads to its line break. |
| HttpRun.RunSteady | Server/MyCrowServer/crow_all.h:5095-6237 | At any byte of any run the header count is within its limit, a body or chunk that is open has a byte to come, and in the middle of data the log ends with data of that kind. |
| HttpInvariants.ArmKeeps | Server/MyCrowServer/crow_all.h:5102-6236 | Every arm keeps content_length a 64-bit count that is never the value for "none" while it counts, keeps the chunked flag in the chunk states, and lets no upgrade wish pass the end of the headers. |
| HttpInvariants.MethodStays | Server/MyCrowServer/crow_all.h:5156-5208 | The method name is never read past its terminating NUL. |
| HttpInvariants.RunStands | Server/MyCrowServer/crow_all.h:5095-6237 | Every run keeps what the assertions rest on: content_length is a 64-bit count and never the value for "none" while it counts, the chunked flag stands in the chunk states, the header count is 0 before a chunk size, the method index stays in its name; and a run stops exactly with an upgrade. |
| HttpAssertions.AssertionsHold | Server/MyCrowServer/crow_all.h:5095-6237 | At every byte of every run all assertions of the source hold but one: "Unknown header_state", those on content_length, nread and the chunked flag, at every look at a byte. |
| HttpAssertions.TrapIsNul | Server/MyCrowServer/crow_all.h:5728-5731 | The one assertion, "Shouldn't get here", fails in a run if and only if somewhere a Connection or Proxy-Connection value begins with NUL and then, behind folded lines of one space at most, a further byte that is neither CR nor LF is accepted as part of the value. |
| HttpAssertions.NulTraps | Server/MyCrowServer/crow_all.h:5655-5670 | Such an input: either name, the colon, NUL and any one accepted byte. |
| HttpParser.ArmShape | Server/MyCrowServer/crow_all.h:5102-6236 | Marks, data callbacks and notifications of every arm go with its change of state: a mark is set on entering a data state and flushed on leaving it. |
| HttpParser.RedoIsNoBatch | Server/MyCrowServer/crow_all.h:5691-5697 | A byte is never examined again inside a batch loop. |
| HttpParser.NameCounts | Server/MyCrowServer/crow_all.h:5563-5569 | A header name passed as one batch is judged by its 32-bit count as it is byte by byte, if and only if the count with all its bytes is below 2^32 or its remainder modulo 2^32 exceeds the limit. |
| HttpParser.HugeNamePasses | Server/MyCrowServer/crow_all.h:4637-4644 | A name of 2^32 letters fails byte by byte, and its batch count is within the limit. |
| HttpParser.HttpParser.constructor | Server/MyCrowServer/crow_all.h:6271-6279 | A parser starts in the start state with no error, an empty log and a count of 0. |
| HttpParser.HttpParser.CountHeaderSize | Server/MyCrowServer/crow_all.h:4637-4644 | The count grows modulo 2^32; the overflow error is set exactly when it exceeds the limit. |
| HttpParser.HttpParser.CallbackData | Server/MyCrowServer/crow_all.h:4590-4616 | The bytes since the mark are delivered once, the mark is cleared and no other is touched. |
| HttpParser.HttpParser.RunArm | Server/MyCrowServer/crow_all.h:5101-6236 | One arm on the real fields is one arm of the byte-wise run; an arm that goes to re-execution has a lower rank and changes nothing that the byte-wise run would see differently. |
| HttpParser.HttpParser.ScanField | Server/MyCrowServer/crow_all.h:5449-5592 | For a name and a buffer of any size: the batch loop equals the byte-wise run over the same bytes or fails with it, except exactly when the 32-bit count has gone round to within the limit; then the name passes although that run fails. In a buffer of name bytes only it passes exactly if the count says so. |
| HttpParser.HttpParser.ScanValue | Server/MyCrowServer/crow_all.h:5677-5852 | The same for a header value: at CR, at LF or at the end of the buffer it stands where the byte-wise run stands, or has failed with it, except exactly when the count has gone round. |
| HttpParser.HttpParser.SkipPlain | Server/MyCrowServer/crow_all.h:5705-5730 | The inner search for CR or LF in a plain value passes the same bytes as the byte-wise run, or fails where that run fails. |
| HttpParser.HttpParser.ScanBody | Server/MyCrowServer/crow_all.h:6064-6105 | The batch over body or chunk data takes as many bytes as are wanted and present, and equals the byte-wise run. |
| HttpParser.HttpParser.Advance | Server/MyCrowServer/crow_all.h:5095-5101 | One turn of the main loop passes at least one byte, never moves past the end, and equals the byte-wise run over what it passed. |
| HttpParser.HttpParser.DeliverRest | Server/MyCrowServer/crow_all.h:6239-6257 | At the end of a buffer at most one mark is live; its data are delivered. |
| HttpParser.HttpParser.Scan | Server/MyCrowServer/crow_all.h:5095-6237 | The main loop ends; without error or upgrade it has passed the whole buffer. |
| HttpParser.HttpParser.Execute | Server/MyCrowServer/crow_all.h:4978-6269 | For buffers of any size: what the byte-wise run accepts is accepted, len is returned, and state, count and joined callback data are those of the run; an upgrade leaves exactly the unread rest; what the run refuses is an error unless a header count has gone round, which takes a buffer of 2^32 - 81920 bytes at least. After an error nothing changes. An empty buffer completes a body that ends with the connection and is an error inside a message. |
| HttpParser.HttpParser.FeedAll | Server/MyCrowServer/crow_all.h:6469-6487 | For any bytes cut into any non-empty buffers, the outcome is that of the byte-wise run over all of them: the same joined data and order of notifications, the same final state, at an upgrade the same rest, and an error if and only if the run errs, unless a count has gone round in a buffer of 2^32 - 81920 bytes or more. So the cut does not matter. |
| HttpParser.FedRest | Server/MyCrowServer/crow_all.h:5053-5055 | Nothing that comes later changes a run that has failed or stopped. |
| HttpBodies.LengthIsExact | Server/MyCrowServer/crow_all.h:5636-5649 | The digits of a Content-Length are accepted exactly when their decimal value does not exceed the limit below 2^64-1, and content_length is then that value. |
| HttpBodies.DecimalLimit | Server/MyCrowServer/crow_all.h:5753-5766 | The check before the next decimal digit refuses exactly the values above the limit. |
| HttpBodies.BodyArrives | Server/MyCrowServer/crow_all.h:6064-6110 | Bytes delivered plus content_length remaining equal the declared length, and the message completes exactly with the last byte. |
| HttpBodies.SizeIsExact | Server/MyCrowServer/crow_all.h:6112-6163 | A chunk size is the exact value of its hex digits and is accepted exactly when it does not exceed its limit. |
| HttpBodies.ChunkArrives | Server/MyCrowServer/crow_all.h:6112-6231 | One chunk with its size line and line break delivers exactly its bytes, and the next chunk is expected. |
| HttpBodies.ChunksArrive | Server/MyCrowServer/crow_all.h:6112-6231 | Any number of chunks delivers the concatenation of their bytes. |
| HttpBodies.ChunkedRoundTrip | Server/MyCrowServer/crow_all.h:5916-5925 | Section 4.1 of RFC 7230: a body cut into any chunks arrives as it was; on_message_complete is called once, with the final LF and not a byte before. |
| HttpLengths.LengthStays | Server/MyCrowServer/crow_all.h:5399-5914 | Once a Content-Length has been read, whatever header lines follow: the run fails, or the length is still the one that was read. |
| HttpLengths.LengthFramesBody | Server/MyCrowServer/crow_all.h:5989-6062 | A request with a Content-Length, followed by any headers that ask for no other framing and by the empty line, delivers exactly that many bytes as its body and completes with the last of them; with fewer it is still waiting for the difference. |
| HttpNames.NameIsRead | Server/MyCrowServer/crow_all.h:5399-5562 | While a header name is read, state and index tell exactly how far it agrees with a known name. |
| HttpNames.NameIsRecognised | Server/MyCrowServer/crow_all.h:5449-5575 | Content-Length, Transfer-Encoding, Upgrade, Connection and Proxy-Connection are recognised exactly by their whole name, ignoring case; but every name that begins with Transfer-Encoding sets uses_transfer_encoding. |
| HttpRequest.RequestBuilder.Receive | Server/MyCrowServer/crow_all.h:6469-6487 | All callbacks of some feeds give the request that the joined callbacks give. |
| HttpRequest.PiecesDoNotMatter | Server/MyCrowServer/crow_all.h:6384-6457 | The request put together does not depend on how data were cut into pieces. |
| HttpRequest.HeadersArrive | Server/MyCrowServer/crow_all.h:6397-6443 | A header with an empty value is lost unless it is the last; so all headers arrive exactly if only the last may be without a value. |
| JsonText.StringLenMeans | Server/MyCrowServer/crow_all.h:7475-7533 | If the scan finds a closing quote, the bytes before it are well escaped and mean the same without what follows. |
| JsonText.StringLenFinds | Server/MyCrowServer/crow_all.h:7475-7533 | The closing quote of every well-escaped string is found, whatever follows it. |
| JsonText.EscapeRoundTrip | Server/MyCrowServer/crow_all.h:6668-6700 | For every byte string, NUL included, its escaped form is well escaped and unescapes to it. |
| JsonText.UnicodeEscape | Server/MyCrowServer/crow_all.h:7074-7104 | A four-digit escape below 65536 becomes the UTF-8 form of its code point, in the shortest length (section 3 of RFC 3629). |
| JsonText.PlainString | Server/MyCrowServer/crow_all.h:7054-7056 | A well-escaped string without a backslash stands for itself. |
| JsonNumbers.TakesWord | Server/MyCrowServer/crow_all.h:7575-7699 | The number taken off a text is a word that the automaton accepts as a whole, and no byte of a number follows it. |
| JsonNumbers.NumberLanguage | Server/MyCrowServer/crow_all.h:7575-7699 | Exactly which words are numbers to the parser: a sign or none, a whole part without leading zeros, a point with any digits or none, and an exponent with a sign or digits, but not right behind a zero. |
| JsonNumbers.WhereTheyDiffer | Server/MyCrowServer/crow_all.h:7575-7699 | Against section 6 of RFC 8259: a number of the standard is refused if and only if its exponent stands right behind a zero; a word that is none is accepted if and only if digits are missing behind its point or its exponent's sign, and nothing else is wrong with it. |
| JsonNumbers.Differing | Server/MyCrowServer/crow_all.h:7575-7699 | Words of each kind: "1." and "1e-" are accepted, "0e5" is refused. |
| JsonParser.Unescape | Server/MyCrowServer/crow_all.h:7054-7116 | In place, the write cursor never passing the read cursor: the bytes become the string they stand for, a NUL follows, nothing outside changes, and a second call changes nothing. |
| JsonParser.Parser.Consume | Server/MyCrowServer/crow_all.h:7456-7467 | One byte is passed exactly if it is the one asked for. |
| JsonParser.Parser.WsSkip | Server/MyCrowServer/crow_all.h:7469-7473 | All white space is passed, and nothing else. |
| JsonParser.Parser.ScanString | Server/MyCrowServer/crow_all.h:7475-7533 | The scan stops at the right closing quote or fails, and notes whether there is an escape. |
| JsonParser.Parser.DecodeString | Server/MyCrowServer/crow_all.h:7475-7533 | A string is decoded exactly if the grammar has one here; what it stands for lies in its own stretch of the buffer. |
| JsonParser.Parser.DecodeNumber | Server/MyCrowServer/crow_all.h:7575-7699 | The number automaton with its skip over digit runs takes as many bytes as the step-by-step automaton, or fails with it. |
| JsonParser.Parser.DecodeValue | Server/MyCrowServer/crow_all.h:7702-7754 | A value is decoded exactly if the grammar has one here at this depth; the cursor stops behind it, and the buffer before it is untouched. |
| JsonParser.Parser.DecodeList | Server/MyCrowServer/crow_all.h:7535-7573 | The same for lists. |
| JsonParser.Parser.DecodeObject | Server/MyCrowServer/crow_all.h:7756-7817 | The same for objects; keys are unescaped at once, in place. |
| JsonParser.Parser.DecodeKey | Server/MyCrowServer/crow_all.h:7775-7793 | A key with its colon is read and unescaped in its own bytes. |
| JsonParser.Parser.Parse | Server/MyCrowServer/crow_all.h:7819-7827 | A text is parsed exactly if it is one value between white space up to the first NUL, and the buffer then denotes that value. |
| JsonParser.Load | Server/MyCrowServer/crow_all.h:7833-7844 | The input is copied into a new buffer with a NUL behind it; the outcome is that of the grammar. |
| JsonParser.ReadString | Server/MyCrowServer/crow_all.h:7027-7035 | s() on any string in a parsed tree gives the string that was parsed; unescaping it in place leaves every other value of the tree as it read before. |
| JsonParser.DenotesFrame | Server/MyCrowServer/crow_all.h:7054-7116 | A parsed value depends on its own stretch of the buffer only. |
| JsonPrinter.Escape | Server/MyCrowServer/crow_all.h:6668-6700 | The loop appends the escaped form of the string. |
| JsonPrinter.Dump | Server/MyCrowServer/crow_all.h:8391-8516 | The printer appends the text of the tree, separators between elements only. |
| JsonPrinter.IntComesBack | Server/MyCrowServer/crow_all.h:8448-8468 | A printed 64-bit integer is read back with its value; one that is not negative comes back as unsigned. |
| JsonPrinter.StringIsRead | Server/MyCrowServer/crow_all.h:8384-8389 | A printed string is read back, whatever follows its closing quote. |
| JsonPrinter.ValueRoundTrip | Server/MyCrowServer/crow_all.h:8391-8516 | The text of a tree followed by a delimiter is read as that tree, exactly if it is shallow enough for the depth, and the cursor stops behind it. |
| JsonPrinter.FitsIsShallow | Server/MyCrowServer/crow_all.h:7538 | The parser's depth test refuses exactly the trees nested too deep: each container counts twice. |
| JsonPrinter.RoundTrip | Server/MyCrowServer/crow_all.h:7448-7832 | Print, then parse: for every tree of null, booleans, 64-bit integers, byte strings, lists and objects the same tree comes back if containers are nested at most 5000 deep, and the text is refused if they are nested deeper. |
| WsFrame.BigEndianRoundTrip | Server/MyCrowServer/crow_all.h:3907-3918 | A number that fits comes back from its bytes in network order. |
| WsFrame.MaskTwice | Server/MyCrowServer/crow_all.h:4182-4188 | Section 5.3 of RFC 6455: masking twice with one key gives the payload back. |
| WsFrame.FrameTells | Server/MyCrowServer/crow_all.h:3948-4126 | No frame is the beginning of another: header and length fields alone tell where a frame ends. |
| WsFrame.FramesTell | Server/MyCrowServer/crow_all.h:3948-4126 | Frames taken off a stream of frames are its first ones, in order. |
| WsConnection.Connection.constructor | Server/MyCrowServer/crow_all.h:3925-3939 | The handshake's answer is written and the first read begins. |
| WsConnection.Connection.BuildHeader | Server/MyCrowServer/crow_all.h:3898-3919 | FIN, the operation code, and the size in 7, 16 or 64 bits. |
| WsConnection.Connection.Send | Server/MyCrowServer/crow_all.h:3824-3869 | Header and payload are queued next to each other, and a write is tried. |
| WsConnection.Connection.OnPayload | Server/MyCrowServer/crow_all.h:4128-4160 | Any number of payload bytes is collected; with the last one the frame is handled. |
| WsConnection.Connection.Unmask | Server/MyCrowServer/crow_all.h:4182-4188 | The loop unmasks the fragment in place, byte by byte with the key repeated. |
| WsConnection.Connection.HandleFragment | Server/MyCrowServer/crow_all.h:4180-4260 | Data frames join the message, which is handed over at FIN; pings are answered, a close is answered or ends the connection. |
| WsRuns.ReadStepIsPayloadRead | Server/MyCrowServer/crow_all.h:4128-4160 | A payload read in a run changes the connection as the method OnPayload does. |
| WsRuns.StepKeeps | Server/MyCrowServer/crow_all.h:3948-4295 | Every step of a connection keeps: what was written, is in flight and waits is what was queued, in order and in whole frames; what was received is the frames handled and the part of the next one that the reader holds; and the calls made are what those frames ask for. |
| WsRuns.AllRuns | Server/MyCrowServer/crow_all.h:3925-4295 | The same after every run from the start. |
| WsRuns.ReadsAreLegal | Server/MyCrowServer/crow_all.h:3948-4162 | In every run a read of the size asked for is a possible step. |
| WsRuns.FramesArrive | Server/MyCrowServer/crow_all.h:3948-4162 | However the bytes of some frames arrive, the frames handled are the first of them, in order, and all once the last read has ended. |
| WsRuns.MessageJoins | Server/MyCrowServer/crow_all.h:4189-4225 | The fragments of one message are joined and handed over once, with the kind of the first. |
| WsRuns.OnlyDataMatters | Server/MyCrowServer/crow_all.h:4226-4256 | Control frames between fragments change neither the messages nor their kind. |
| WsRuns.RepliesAreQueued | Server/MyCrowServer/crow_all.h:4247-4251 | The pings that a run has answered are, in order, the pongs that its reads have appended to the write queue. |
| WsRuns.AllPongs | Server/MyCrowServer/crow_all.h:4247-4251 | If the application sends no pongs of its own, those are all the pongs in the queue. |
| WsRuns.Reassembly | Server/MyCrowServer/crow_all.h:3948-4260 | Sections 5.3 and 5.4 of RFC 6455: messages cut into any fragments, masked with any keys or not, control frames between them, read in any pieces: each is delivered exactly once, in order, with its bytes and its kind, and the pongs that the reads append to the write queue are one for each ping, with its payload, in order. |
| WsRuns.WireInOrder | Server/MyCrowServer/crow_all.h:4266-4295 | As long as no write has failed, wire, write in flight and waiting buffers are everything queued, in order; the wire holds whole frames, each header next to its payload. |
| WsRuns.TwoWritesFlush | Server/MyCrowServer/crow_all.h:4279-4288 | Two successful writes after it was queued, everything is on the wire, also a close frame and what came before it. |
| WsRuns.HeaderIsRead | Server/MyCrowServer/crow_all.h:3953-4087 | The header states take apart what build_header made: FIN, operation code and size, for every 64-bit size. |
| WsRuns.SentIsQueued | Server/MyCrowServer/crow_all.h:3849-3871 | The texts in the queue are those that the application has sent, in order. |
| WsRuns.EndToEnd | Server/MyCrowServer/crow_all.h:3824-4295 | If one connection has received what another has written behind its handshake, the messages delivered, followed by those not written yet, are what the other application has sent, each once and in order, whatever the sizes of reads and writes. |
| Sha1.FCodeIsF | Server/MyCrowServer/Crow/include/crow/TinySHA1.hpp:179-191 | The program's three bit formulas are Ch, Parity and Maj of section 4.1.1 of FIPS 180-4. |
| Sha1.Rotations | Server/MyCrowServer/Crow/include/crow/TinySHA1.hpp:52-54 | Shifting both ways and joining is a rotation to the left by 1, 5 or 30. |
| Sha1.ScheduleNext | Server/MyCrowServer/Crow/include/crow/TinySHA1.hpp:165-167 | A word of the schedule is the rotated sum of four earlier ones. |
| Sha1.NextBlock | Server/MyCrowServer/Crow/include/crow/TinySHA1.hpp:157-205 | A block behind whole blocks is compressed into their value. |
| Sha1.SHA1.Reset | Server/MyCrowServer/Crow/include/crow/TinySHA1.hpp:65-74 | The object stands for the empty message. |
| Sha1.SHA1.ProcessByte | Server/MyCrowServer/Crow/include/crow/TinySHA1.hpp:75-83 | The object stands for the message with one byte more; a full block is processed. |
| Sha1.SHA1.ProcessBytes | Server/MyCrowServer/Crow/include/crow/TinySHA1.hpp:84-97 | The object stands for the message with the data appended; so it does not matter how a message is divided among calls. |
| Sha1.SHA1.Schedules | Server/MyCrowServer/Crow/include/crow/TinySHA1.hpp:158-167 | The array holds the message schedule of section 6.1.2. |
| Sha1.SHA1.ProcessBlock | Server/MyCrowServer/Crow/include/crow/TinySHA1.hpp:157-205 | The eighty steps are the compression of section 6.1.2. |
| Sha1.SHA1.ZerosUntil | Server/MyCrowServer/Crow/include/crow/TinySHA1.hpp:101-112 | Zeros are processed until the block has the number of bytes, across a block's end if need be. |
| Sha1.SHA1.GetDigest | Server/MyCrowServer/Crow/include/crow/TinySHA1.hpp:98-124 | For every message shorter than 2^29 bytes the result is its SHA-1 digest by sections 5.1.1 and 6.1; in any case it is the value of the blocks that were processed. |
| Sha1.SHA1.GetDigestBytes | Server/MyCrowServer/Crow/include/crow/TinySHA1.hpp:125-154 | The twenty bytes are the five words of the digest in network order. |
| Sha1.WordRoundTrip | Server/MyCrowServer/Crow/include/crow/TinySHA1.hpp:129-152 | A word comes back from its four bytes. |
| Sha1.PaddingIsStandard | Server/MyCrowServer/Crow/include/crow/TinySHA1.hpp:98-120 | The padding written is the standard's exactly for messages shorter than 2^29 bytes: longer ones lose the upper half of the length. |
| IpText.SplitJoin | Server/CPP-HTTP-LIB/libhttpserver/src/string_utilities.cpp:46-56 | Tokens that are joined come apart again, but for an empty one at the end. |
| IpText.StrtolIs | Server/CPP-HTTP-LIB/libhttpserver/src/http_utils.cpp:406 | strtol on digits gives their value. |
| IpAddress.StringSplit | Server/CPP-HTTP-LIB/libhttpserver/src/string_utilities.cpp:46-56 | The tokens between separators, without the empty ones if they are collapsed, and without one behind a separator at the end. |
| IpAddress.RoomForAll | Server/CPP-HTTP-LIB/libhttpserver/src/http_utils.cpp:363-384 | The parts stand for at most eight groups, so the cursor never exceeds 16, for any input. |
| IpAddress.PartRoom | Server/CPP-HTTP-LIB/libhttpserver/src/http_utils.cpp:387-449 | One part moves the cursor by two per group at most. |
| IpAddress.IpRepresentation.Prepare | Server/CPP-HTTP-LIB/libhttpserver/src/http_utils.cpp:363-384 | The parts to read and the number of groups left out, or an exception for more than eight parts or a second gap. |
| IpAddress.IpRepresentation.ReadPart | Server/CPP-HTTP-LIB/libhttpserver/src/http_utils.cpp:387-449 | A wildcard clears the two bits of its bytes; a gap writes zeros; a group writes its two bytes; a dotted tail is nested; anything else throws. |
| IpAddress.IpRepresentation.ReadNested | Server/CPP-HTTP-LIB/libhttpserver/src/http_utils.cpp:412-440 | A dotted tail is read at the end, at byte 12, behind zeros or two 255; else an exception. |
| IpAddress.IpRepresentation.ReadOctets | Server/CPP-HTTP-LIB/libhttpserver/src/http_utils.cpp:430-437 | Each number is written or refused above 255; each wildcard clears its bit. |
| IpAddress.IpRepresentation.Read | Server/CPP-HTTP-LIB/libhttpserver/src/http_utils.cpp:356-467 | The constructor on the real arrays gives the bytes and the mask of the specification or throws with it, for every input string. |
| Rfc4291.GroupIsRead | Server/CPP-HTTP-LIB/libhttpserver/src/http_utils.cpp:399-409 | A group of one to four hex digits gives its two bytes; a wildcard clears exactly their bits. |
| Rfc4291.GapIsRead | Server/CPP-HTTP-LIB/libhttpserver/src/http_utils.cpp:389-397 | "::" stands for as many zero bytes as are missing. |
| Rfc4291.TailIsRead | Server/CPP-HTTP-LIB/libhttpserver/src/http_utils.cpp:411-440 | A dotted tail gives its four bytes where it is allowed. |
| Rfc4291.PreparedParts | Server/CPP-HTTP-LIB/libhttpserver/src/http_utils.cpp:362-384 | The text of a valid address is split into its groups, its gap and its tail; only "::" before seven groups is refused here. |
| Rfc4291.AddressIsRead | Server/CPP-HTTP-LIB/libhttpserver/src/http_utils.cpp:356-450 | For every address in the form of section 2.2 of RFC 4291, "::" anywhere, wildcards and a dotted tail included: pieces holds exactly the sixteen bytes denoted and the mask clears exactly the wildcards, if the address is one that is accepted; every other one throws. |
| Rfc4291.DottedIsRead | Server/CPP-HTTP-LIB/libhttpserver/src/http_utils.cpp:451-466 | A dotted address fills bytes 12 to 15, wildcards clearing their bits. |
| Base64.EncoderBits | Server/MyCrowServer/crow_all.h:1989-1994 | Quotients and remainders by 4, 16 and 64, which are the values of the shifts and masks, are the base-64 digits of the 24-bit number of three bytes. |
| Base64.DecoderBits | Server/MyCrowServer/crow_all.h:2075-2084 | Products, quotients and remainders, which are the values of the shifts and masks, are the bytes of the 24-bit number of four digits. |
| Base64.Encode | Server/MyCrowServer/crow_all.h:1982-2016 | The array written through the iterator is the encoding by section 4 of RFC 4648, padding included. |
| Base64.Decode | Server/MyCrowServer/crow_all.h:2033-2106 | The bytes of the digits, as many as size and padding tell. |
| Base64.LettersDecode | Server/MyCrowServer/crow_all.h:2072-2104 | The characters that hold bits decode to the data, whatever follows them. |
| Base64.PaddingTells | Server/MyCrowServer/crow_all.h:2048-2062 | The last two characters of an encoding tell how many bytes its last group has. |
| Base64.NoEquals | Server/MyCrowServer/crow_all.h:1998-2014 | An encoding has "=" exactly in its padding. |
| Base64.RoundTrip | Server/MyCrowServer/crow_all.h:1982-2106 | For every non-empty byte string and either alphabet, decoding its encoding, with the padding kept or stripped, gives the bytes and their number back. |
| Multipart.DumpPart | Server/MyCrowServer/crow_all.h:2738-2754 | The headers with their quoted parameters, an empty line, and the body. |
| Multipart.Dump | Server/MyCrowServer/crow_all.h:2723-2735 | Each part behind a delimiter line, and the closing delimiter. |
| Multipart.ParseParams | Server/MyCrowServer/crow_all.h:2863-2877 | Parameters are cut off the front of the line; the first of a name stays; quotes are trimmed. |
| Multipart.ParseHead | Server/MyCrowServer/crow_all.h:2836-2880 | Lines are cut off the front until none is left. |
| Multipart.ParseSection | Server/MyCrowServer/crow_all.h:2823-2834 | The head up to the first empty line; the body without its last line break. |
| Multipart.ParseBody | Server/MyCrowServer/crow_all.h:2798-2821 | Sections are cut off the front until only a line break is left; None where the loop would not end or a missing name would be read. |
| Multipart.ParamsAreRead | Server/MyCrowServer/crow_all.h:2863-2877 | Printed parameters with different names are read back in order. |
| Multipart.LineIsRead | Server/MyCrowServer/crow_all.h:2842-2860 | A printed header line is read back. |
| Multipart.HeadIsRead | Server/MyCrowServer/crow_all.h:2836-2880 | Printed headers are read back in order. |
| Multipart.FirstBlank | Server/MyCrowServer/crow_all.h:2827 | The first empty line of a printed part is the one behind its headers, whatever the body is. |
| Multipart.SectionIsRead | Server/MyCrowServer/crow_all.h:2823-2834 | A printed part is read back, body included. |
| Multipart.FindDelimiter | Server/MyCrowServer/crow_all.h:2806 | The delimiter is found where a part ends. |
| Multipart.PartsAreRead | Server/MyCrowServer/crow_all.h:2804-2820 | Behind a delimiter all printed parts are read back and the loop ends. |
| Multipart.RoundTrip | Server/MyCrowServer/crow_all.h:2723-2821 | parse_body of dump ends and gives the same parts in order, with their headers, parameters and bodies. |
| QueryString.Decode | Server/MyCrowServer/crow_all.h:802-829 | In place: the value becomes the decoded text up to the first bad escape and is ended by a NUL; nothing outside its stretch changes. |
| QueryString.FindPairs | Server/MyCrowServer/crow_all.h:766-781 | The beginnings of the first pairs, at most as many as there is room for. |
| QueryString.DecodePair | Server/MyCrowServer/crow_all.h:785-792 | One pair is decoded in its own bytes. |
| QueryString.PairStays | Server/MyCrowServer/crow_all.h:785-792 | A decoded pair is not disturbed by anything that happens behind it. |
| QueryString.Parse | Server/MyCrowServer/crow_all.h:759-799 | For every text, all pairs are found and each value is decoded in its place. |
| QueryLookup.Strncmp | Server/MyCrowServer/crow_all.h:711-756 | 0 exactly when the first n characters agree, plus signs and escapes decoded on the fly, and the pair's key ends behind them. |
| QueryLookup.Query.constructor | Server/MyCrowServer/crow_all.h:993-1003 | The string is copied and parsed in place, at most 256 pairs. |
| QueryLookup.Query.K2v | Server/MyCrowServer/crow_all.h:831-859 | The value of the nth pair with the name, or nothing. |
| QueryLookup.Query.GetList | Server/MyCrowServer/crow_all.h:1057-1072 | All values that the lookup gives, one after the other; the loop ends. |
| QueryLookup.LookupEnds | Server/MyCrowServer/crow_all.h:1063-1070 | There are no more matches than pairs. |
| QueryRoundTrip.EncodingRoundTrip | Server/MyCrowServer/crow_all.h:802-829 | Section 2.1 of RFC 3986: every byte string comes back from its percent-encoding. |
| QueryRoundTrip.NameMatches | Server/MyCrowServer/crow_all.h:711-756 | A name of unreserved characters matches exactly the pair whose key it is. |
| QueryRoundTrip.LookupFinds | Server/MyCrowServer/crow_all.h:831-859 | The nth lookup of a name finds its nth value. |
| QueryRoundTrip.PairsAreStored | Server/MyCrowServer/crow_all.h:759-799 | Behind the question mark every pair lies in the buffer with its decoded value, as a string of its own. |
| QueryRoundTrip.RoundTrip | Server/MyCrowServer/crow_all.h:993-1072 | For at most 256 pairs with unreserved keys and encoded values without NUL: get gives the first value of a name, or nothing if it has none; get_list gives all of them, in order. |

## Left out

Router
- The list of blueprint indices that a search collects: pops are not paired with pushes, and the list is moved from before it is returned. Nodes keep their blueprint index.
- Rules that are not well formed: an unknown tag makes `add` loop without end.
- `uint16_t` as the type of rule indices: they are natural numbers here.
- `is_parameter_tag_compatible`, debug printing, method lookup and the slash redirect itself.
- RuleTrie.AddBelow: the loop of `add` over the rule is one recursive call per token, since it walks down a tree of unshared nodes.

HTTP
- `qs_point`, URL fragments, and the `url` cut at `qs_point`: the mark they depend on is lost between buffers.
- Callbacks that fail or pause the parser: all but `on_headers_complete` return 0; the answer of that one is a function of the state.
- HttpBodies.SizeIsExact: chunk sizes with bytes of 128 and above, which the `unhex` table takes for 0, are in the model but not in the claim.
- Strings that were moved from are taken to be empty; `keep_alive` and the parsed URL parameters of a request are not kept.

JSON
- Floating-point numbers, surrogate pairs, lookup by key with its sorted members, and the growth of the member array.
- Move assignment of `wvalue`, which does not carry the number type, and the custom function type.
- Whether keys are distinct does not matter to printing and parsing, so it is not asked for.
- JsonParser.Parser.DecodeValue: the comparisons for true, false and null, written out in the source, are one loop over the word.

WebSocket
- Deletion of the object, and with it how often the close handler is called.
- Dispatched lambdas and completion handlers run as whole steps; a handler that sends or closes is a later step. All handlers are set.
- The build with `CROW_ENFORCE_WS_SPEC`.
- WsConnection.Connection.OnMiniHeader: the two bytes arrive together.
- The handshake's key digest, and reserved bits, which the reader ignores as well.
- Exclusive or is defined on the bits of numbers instead of a machine type.

SHA-1
- Copying of the object. Counts are taken modulo 2^64, as on a 64-bit machine.

IPv6
- The constructor from a socket address, and the order `operator<`, whose weighted sum is no order.
- The mask is an array of sixteen booleans instead of the bits of a number.

Codecs
- Base64.Decode: inputs of fewer than two characters, for which the source reads before the data. Shifts and masks are written as products, quotients and remainders.
- Multipart.ParseBody: malformed input is None as soon as the program would not end, throw, or read a name that is not there.
- Multipart.RoundTrip: maps are sequences in the order in which they are iterated; `part_map`, `get_boundary` and the headers of the message are not modelled.
- QueryLookup.Strncmp: what lies behind the NUL of a string counts as NUL.
- `pop`, `pop_list`, `get_dict`, the bracket form of `get_list`, and copying of a query string.

Everything else
- Sockets, asio, TLS, threads, timers, files, compression, logging and clocks: they are calls into foreign code.
- Mustache templates, middleware, cookies, CORS, `task_timer`, libhttpserver's request handling and its endpoint expressions, the Pistache files, examples and toy programs.
