# GamesArena: verified models

This project models the parts of GamesArena in which state, buffers and protocols meet, and proves what they promise.
`dafny verify dfyconfig.toml` checks everything.

Most of the code modelled here is the vendored Crow web framework and the bcrypt library; the last two components are
the application's own.

| component | files | main results |
|---|---|---|
| Route trie | `RouteRules`, `RouteTrie`, `Router` | a lookup in the compressed tree equals trying every rule in turn |
| JSON | `Json`, `JsonWriter`, `JsonReader`, `JsonRoundTrip`, `JsonDocument` | load undoes dump exactly up to nesting 5000; in-place unescaping is the functional decoder |
| Mustache | `Mustache`, `MustacheTemplate`, `MustacheRender` | running the flat action array by jumps equals rendering the nested tree |
| HTTP body parser | `HttpBody`, `HttpParser` | chunked round trip, exact overflow guards, independence of how the stream is cut |
| Session cache | `SessionModel`, `SessionCache` | under every interleaving one shared map per session id |
| Multipart | `Multipart`, `MultipartMessage` | parsing undoes printing |
| SHA-1 | `Sha1Standard`, `Sha1` | the incremental object computes FIPS 180-4 for any pieces |
| WebSocket | `WebSocketFrames`, `WebSocket` | any fragmented, masked, interleaved stream delivers exactly its messages if no header is cut apart |
| Blowfish CBC | `BlowfishCbc` | in-place decryption undoes in-place encryption, for any tables |
| bcrypt format | `Bcrypt`, `BcryptBuffers` | a password validates against its own hash; headers, costs and salts parse back |
| Base 64 | `Base64` | decoding undoes encoding for both alphabets |
| Matchmaking | `Matchmaking` | the two tables stay consistent over every run |
| Backgammon | `Backgammon`, `BackgammonRuns` | checkers are conserved over every run; when exactly a colour has finished |

`Wrappers` and `Buffers` are shared helpers. Code that works by changing things is modelled by classes and methods with
loops; each such method is proved against a function, and the lemmas are about those functions.

## How the models are set up

- A `char` stands for one byte wherever text is handled as bytes; machine integers are unbounded with the wrap-around
  or truncation written out where the code can reach it (`uint64_t` lengths in the HTTP parser and the SHA-1 byte
  count, the `u_int8_t` cost of bcrypt).
- `strtoll`, `strtoull` and `strtod` are parameters of the router; what is required of them is that a scan that
  succeeds ends behind its start and inside the URL.
- Random bytes, new session ids, dice, cookies, what a C++ move leaves behind and what an uninitialized buffer holds
  are parameters. The store's scan may return any matching row first.
- The trie's nodes own their children, so the tree is a value and the moving pointer of `add` is a path into it. The
  session cache shares nodes by reference, so there the nodes are objects.

## Where the code falls short

Each of these is proved, with the exact condition under which the expected property holds.

- HTTP: when the data of a chunk is not followed by CR, the body bytes of the current buffer are lost with the error, so
  what was delivered depends on how the stream was cut; on all other streams it does not
  (`HttpBody.SplitsAgreeUnlessUnterminated`, with the five bytes of `HttpBody.OneByteLost`).
- SHA-1: only 32 bits of the length are written, so the padding is the standard's exactly below 2^29 bytes
  (`Sha1.PaddingIsStandard`).
- Mustache: the test that decides where a dotted name is looked up counts the closing tags of inverted blocks but not
  their opening tags, so every inverted block that is over hides one of the sections around a tag behind it. The test
  is right exactly if some section around the tag is left over, or there is none at all
  (`MustacheTemplate.EnclosedExactly`). An empty inverted block, which shows nothing by itself, can so change what the
  template shows (`MustacheRender.HiddenSectionShowsMore`).
- WebSocket: the two header bytes are read with one read that may bring one of them; that byte alone is taken for a whole
  empty frame (`WebSocketFrames.ShortHeader`). Non-empty messages in one piece each are delivered exactly if and only if
  every header comes in one read (`WebSocketFrames.HeadersMustArriveWhole`).
- Matchmaking: the scan compares by substring, so a user whose name is part of a player's name is sent to that player's
  session. Every run serves its users exactly for sets of names of which none is empty, has a comma or is part of
  another (`Matchmaking.ServesExactlyGoodNames`, with `Matchmaking.AlAndAlice`). Splitting undoes joining exactly without
  commas and with a non-empty last name (`Matchmaking.SplitUndoesJoin`).
- Backgammon: the counters of checkers to bear off start at 24 while a colour has fifteen checkers, so without a checker
  on the board a colour has finished exactly if it hit nine checkers more than it lost (`Backgammon.FinishedExactly`);
  `BackgammonRuns.BlackIsGone` is a run in which black is gone and has not finished. A double allows one move only: the
  second die counts as used, whatever the board, exactly after one move with a double (`Backgammon.NoMoveOnAnyBoard`),
  and nothing changes until the dice are rolled anew (`Backgammon.DoublesBlock`, `BackgammonRuns.DoubleSix`).
- bcrypt: the round count goes through one byte before it is limited to 4 to 31, so 260 rounds mean cost 4; the cost is
  the intended one exactly below 256 or with a low byte of 31 or more (`Bcrypt.RoundsThroughAByte`).
- Base 64: the text of a single `=` makes the computed length negative; no other text does (`Base64.OnlyOneTextFails`).

## Model

| member | source | states |
|---|---|---|
| RouteRules.ScanAllIsSmallestMatch | backend/Crow/include/crow/routing.h:832-988 | trying all rules one after the other yields the smallest index among the matching rules, 0 if none, with the captures of a rule that has that index |
| RouteRules.SameRulesSameAnswer | backend/Crow/include/crow/routing.h:832-988 | two tables with the same rules in any order give the same index, and the same captures unless the index is shared by several patterns |
| RouteTrie.RoutingParams.PushBack | backend/Crow/include/crow/routing.h:878-880 | a capture is appended to the list of its kind and to no other |
| RouteTrie.RoutingParams.PopBack | backend/Crow/include/crow/routing.h:883-885 | popping after the recursive call restores the capture lists exactly |
| RouteTrie.ScanNode | backend/Crow/include/crow/routing.h:832-850 | below a node, the rules that can still match are those of its children, or at the end of the URL the rule of the node itself |
| RouteTrie.ScanOneMoreChild | backend/Crow/include/crow/routing.h:853-983 | trying one more child equals scanning the rules below it too, with the smaller index kept |
| RouteTrie.MergeKeepsRules | backend/Crow/include/crow/routing.h:752-765 | merging a simple node with its only child denotes the same rules, drops the node count, and keeps sibling keys distinct |
| RouteTrie.OptimizeNode | backend/Crow/include/crow/routing.h:752-773 | path compression keeps the list of rules of a subtree in order, leaves nothing mergeable, keeps non-empty labels and siblings distinct in their first character |
| RouteTrie.FreshSiblingsDiffer | backend/Crow/include/crow/routing.h:996-1073 | a tree built by insertions only has siblings that differ in their first character or parameter |
| RouteTrie.RuleAtCursor | backend/Crow/include/crow/routing.h:1075-1078 | in a tree built by insertions, a rule with the spelled pattern is there exactly when the node at the cursor has its index |
| RouteTrie.AddLeafKeepsRules | backend/Crow/include/crow/routing.h:1040-1071 | a new leaf below any node adds no rule, keeps the shape, and spells the pattern one token further |
| RouteTrie.SetRuleAddsRule | backend/Crow/include/crow/routing.h:1075-1078 | storing an index at a node adds exactly the rule it spells, anywhere in the tree |
| Router.Trie.constructor | backend/Crow/include/crow/routing.h:820-823 | a new tree has no rules |
| Router.Trie.StepParam | backend/Crow/include/crow/routing.h:1022-1046 | a parameter tag follows the child with that parameter or adds one; no rule is gained or lost |
| Router.Trie.StepLiteral | backend/Crow/include/crow/routing.h:1050-1072 | a character follows the child with that key or adds one; no rule is gained or lost |
| Router.Trie.ReadTag | backend/Crow/include/crow/routing.h:1009-1025 | the first tag of the table that stands at the position is read |
| Router.Trie.Add | backend/Crow/include/crow/routing.h:996-1079 | a rule is refused, and the tree is unchanged, exactly when one with the same pattern was added before; otherwise exactly that rule is added |
| Router.Trie.Optimize | backend/Crow/include/crow/routing.h:742-750 | optimizing keeps the rules and compresses every subtree of the root |
| Router.Trie.Validate | backend/Crow/include/crow/routing.h:824-829 | a root that is not simple is refused without a change; otherwise the tree is optimized and keeps its rules |
| Router.Trie.FindFrom | backend/Crow/include/crow/routing.h:832-988 | the backtracking search below a node equals scanning its rules, and leaves the shared captures as they were |
| Router.Trie.Find | backend/Crow/include/crow/routing.h:990-993 | a lookup returns the smallest index among the added rules that match, 0 if none, with exactly its captures |
| Router.AddOptimizeFind | backend/Crow/include/crow/routing.h:742-1079 | after adding any distinct well-formed patterns and optimizing, a lookup equals the linear scan over all rules |
| Json.StringBody | backend/Crow/include/crow/json.h:902-960 | the text before the quote at which the string scan stops is a literal in which every backslash starts a known escape |
| JsonRoundTrip.EscapeRoundTrip | backend/Crow/include/crow/json.h:45-71 | unescaping an escaped string gives it back, for every byte string |
| JsonRoundTrip.ParseQuoted | backend/Crow/include/crow/json.h:902-960 | a quoted escaped string is read as the string it was written from, up to its closing quote |
| JsonRoundTrip.NumberEndDecimal | backend/Crow/include/crow/json.h:1002-1127 | the number automaton reads a written integer to its end and no further |
| JsonRoundTrip.IntegersReadBack | backend/Crow/include/crow/json.h:743-761 | an integer of any size is classified as signed exactly when negative and its digits denote it |
| JsonRoundTrip.ParseDump | backend/Crow/include/crow/json.h:1129-1181 | a value written anywhere in a text and at any depth parses back exactly when it fits under the depth limit, and fails otherwise |
| JsonRoundTrip.DocumentRoundTrip | backend/Crow/include/crow/json.h:875-1258 | load of dump gives the value back exactly when it is nested at most 5000 deep, in every layout whose separator is white space |
| JsonWriter.Output.AppendEscaped | backend/Crow/include/crow/json.h:45-71 | the loop over the string appends its escaped form |
| JsonWriter.Output.DumpInternal | backend/Crow/include/crow/json.h:1852-2028 | the recursive writer appends the text of the value and nothing else |
| JsonWriter.DumpDocument | backend/Crow/include/crow/json.h:2031-2043 | dump returns the text of the value |
| JsonReader.ViewFrame | backend/Crow/include/crow/json.h:480-542 | a parsed tree stands for the same value whatever happens to the bytes outside its range |
| JsonReader.UnescapeInPlace | backend/Crow/include/crow/json.h:480-542 | unescaping in place equals the functional decoder, never writes past what it has read, leaves all other bytes alone and clears the flag |
| JsonReader.WriteUtf8 | backend/Crow/include/crow/json.h:501-518 | a code unit is written in place as its UTF-8 bytes |
| JsonReader.Parser.DecodeString | backend/Crow/include/crow/json.h:902-960 | a string literal is accepted exactly when the grammar accepts it; its range decodes to the string, and earlier bytes are untouched |
| JsonReader.Parser.DecodeNumber | backend/Crow/include/crow/json.h:1002-1127 | a number is accepted exactly when the automaton accepts it; the range is the whole token |
| JsonReader.Parser.DecodeValue | backend/Crow/include/crow/json.h:1129-1181 | a value is accepted exactly when the grammar with the depth limit accepts it, and the tree of ranges stands for it |
| JsonReader.Parser.DecodeList | backend/Crow/include/crow/json.h:962-1000 | a list is accepted exactly when the grammar accepts it, and its ranges stand for its items in order |
| JsonReader.Parser.DecodeObject | backend/Crow/include/crow/json.h:1183-1244 | an object is accepted exactly when the grammar accepts it, and its ranges stand for its members in order |
| JsonReader.Parser.Parse | backend/Crow/include/crow/json.h:1246-1255 | a document is accepted exactly when one value with white space around it fills the text |
| JsonReader.LoadText | backend/Crow/include/crow/json.h:1260-1272 | load copies the text and the tree over the copy stands for what the text denotes |
| JsonDocument.DumpAndLoad | backend/Crow/include/crow/json.h:875-2043 | the writer and the reader as they run undo each other, exactly for values nested at most 5000 deep |
| MustacheTemplate.VerdictOfTree | backend/Crow/include/crow/mustache.h:527-676 | the tags of a tree are read without effect on what surrounds them |
| MustacheTemplate.AcceptedAreTrees | backend/Crow/include/crow/mustache.h:527-676 | the tags of every tree are accepted |
| MustacheTemplate.LinkedIsTree | backend/Crow/include/crow/mustache.h:527-676 | a linked action array has the tags of a tree, and the tree has every fragment once and in its place |
| MustacheTemplate.LinkEnds | backend/Crow/include/crow/mustache.h:552-568 | closing a block links its two ends to each other and keeps everything else linked |
| MustacheTemplate.Template.PushClose | backend/Crow/include/crow/mustache.h:538-569 | a closing tag is refused without an open block or with another name, for exactly that reason |
| MustacheTemplate.Template.Parse | backend/Crow/include/crow/mustache.h:495-676 | tags are accepted exactly when the block tags nest by name; the first misfit is reported; then every block has mutual position links |
| MustacheTemplate.Template.EnsureNoUnmatchedTags | backend/Crow/include/crow/mustache.h:664-676 | the final scan refuses exactly when a block is still open |
| MustacheTemplate.EnclosedExactly | backend/Crow/include/crow/mustache.h:256-278 | for every compiled template and every tag: the backward count finds the tag inside an object block exactly when some section around it has, between its opening tag and the tag, no more inverted blocks that are over than further sections still open; so the answer is right exactly when there is such a section or no section at all |
| MustacheTemplate.OneSectionAround | backend/Crow/include/crow/mustache.h:256-278 | with one section around it a tag counts as inside exactly when no inverted block is over since the section began |
| MustacheTemplate.EnclosedMeansInASection | backend/Crow/include/crow/mustache.h:256-278 | in a template without inverted blocks the backward count is right for every tag |
| MustacheTemplate.InvertedBlockHidesTheSection | backend/Crow/include/crow/mustache.h:256-278 | a compiled template of one section with an empty inverted block in front of its tag, for which the count is wrong, while without that block it is right |
| MustacheRender.HiddenSectionShowsMore | backend/Crow/include/crow/mustache.h:171-278 | these two templates render differently: with the empty inverted block a dotted name is found outside of the object of the section, without it nothing is shown |
| MustacheRender.WalkDown | backend/Crow/include/crow/mustache.h:171-234 | a dotted name is followed part by part |
| MustacheRender.FindContextInStack | backend/Crow/include/crow/mustache.h:171-234 | a name is looked up from the top of the stack down, or only on top |
| MustacheRender.EscapeText | backend/Crow/include/crow/mustache.h:236-254 | the loop writes the HTML-escaped text |
| MustacheRender.Renderer.IsTagInsideObjectBlock | backend/Crow/include/crow/mustache.h:256-278 | the loop computes the backward count over the actions |
| MustacheRender.Renderer.RenderTag | backend/Crow/include/crow/mustache.h:305-347 | a variable appends what its value shows, or throws for a value that cannot be shown |
| MustacheRender.Renderer.RenderList | backend/Crow/include/crow/mustache.h:384-400 | a list section is rendered once per element, and the stack is as it was |
| MustacheRender.Renderer.RenderElseBlock | backend/Crow/include/crow/mustache.h:348-375 | an inverted block is entered exactly for a missing, false, null or empty value |
| MustacheRender.Renderer.RenderOpenBlock | backend/Crow/include/crow/mustache.h:376-420 | a section is skipped, entered or repeated as its value says |
| MustacheRender.Renderer.RenderInternal | backend/Crow/include/crow/mustache.h:280-440 | running the flat array by jumps appends the rendering of the nested tree, restores the context stack exactly, and throws exactly when the tree cannot be shown |
| MustacheRender.RenderString | backend/Crow/include/crow/mustache.h:484-492 | a template renders as its tree against one context |
| MustacheRender.CompileAndRender | backend/Crow/include/crow/mustache.h:484-676 | any tags are refused exactly when they do not nest; otherwise the output is the rendering of the tree of the linked array, which has these tags and these fragments in these places |
| HttpBody.StepSane | backend/Crow/include/crow/http_parser_merged.h:1723-1888 | every byte keeps the counters below the sentinel and the body states with bytes left to read |
| HttpBody.RunSane | backend/Crow/include/crow/http_parser_merged.h:1723-1888 | the assertions of the body states hold in every reachable state |
| HttpBody.SizeDigitIsExact | backend/Crow/include/crow/http_parser_merged.h:1786-1821 | a size digit is refused exactly when the size reaches 2^64 - 16, so the accumulator never wraps |
| HttpBody.SizeLine | backend/Crow/include/crow/http_parser_merged.h:1770-1821 | a line of hexadecimal digits is read as the number it spells and refused exactly from 2^64 - 16 on |
| HttpBody.ChunkDataRun | backend/Crow/include/crow/http_parser_merged.h:1851-1872 | the data of a chunk is taken byte for byte until the length is used up |
| HttpBody.IdentityRun | backend/Crow/include/crow/http_parser_merged.h:1723-1757 | a body of known length is complete exactly with its last byte |
| HttpBody.ChunkedRoundTrip | backend/Crow/include/crow/http_parser_merged.h:1770-1888 | the chunked encoding of any non-empty chunks, each and the last with any extension, delivers exactly their concatenation and completes on its last byte |
| HttpBody.SplitInvariance | backend/Crow/include/crow/http_parser_merged.h:1907-1918 | for any way of cutting a stream the state, error and completion offsets are the same, and the body too unless a chunk is not ended by CR |
| HttpBody.SplitsAgreeUnlessUnterminated | backend/Crow/include/crow/http_parser_merged.h:1874-1880 | all ways of cutting deliver the same body if and only if nowhere in the stream the data of a chunk is over and a byte other than CR follows |
| HttpBody.BadTerminatorIsUnterminated | backend/Crow/include/crow/http_parser_merged.h:1874-1880 | the parser stops with that error exactly on the streams that have such a place |
| HttpBody.OneByteLost | backend/Crow/include/crow/http_parser_merged.h:1874-1880 | a stream of five bytes that delivers nothing in one buffer and one byte in two |
| HttpParser.ReadContentLength | backend/Crow/include/crow/http_parser_merged.h:1300-1440 | a Content-Length is accepted exactly when it is the first, below 2^64 - 6 and followed by spaces only; then it is the number it spells |
| HttpParser.AppendDigit | backend/Crow/include/crow/http_parser_merged.h:1411-1429 | the overflow guard refuses exactly the numbers from 2^64 - 6 on |
| HttpParser.StartIsSane | backend/Crow/include/crow/http_parser_merged.h:1652-1714 | however the headers frame the body, it starts in a state in which the assertions hold |
| HttpParser.Parser.Execute | backend/Crow/include/crow/http_parser_merged.h:633-660 | one call over a buffer equals the byte-by-byte machine with delivery at the end of the buffer, and reports how far it read |
| HttpParser.Parser.TakeBody | backend/Crow/include/crow/http_parser_merged.h:1723-1757 | a stretch of body data taken at once equals its bytes taken one by one |
| HttpParser.Parser.ReadByte | backend/Crow/include/crow/http_parser_merged.h:1770-1888 | a byte outside body data changes the parser as the machine says |
| SessionModel.BeforeRefines | backend/Crow/include/crow/middlewares/session.h:327-363 | picking up a session keeps the invariant and binds the request to the session of its cookie, if there is one |
| SessionModel.SetRefines | backend/Crow/include/crow/middlewares/session.h:229-236 | set changes the one entry of the session as every holder sees it |
| SessionModel.ApplyRefines | backend/Crow/include/crow/middlewares/session.h:246-255 | apply changes the entry by the function of what get returns |
| SessionModel.RemoveRefines | backend/Crow/include/crow/middlewares/session.h:258-264 | remove deletes the entry and nothing else; without a session nothing happens |
| SessionModel.MutexRefines | backend/Crow/include/crow/middlewares/session.h:200-204 | asking for the mutex changes no entry, and gives a request without a session entries of its own |
| SessionModel.RefreshRefines | backend/Crow/include/crow/middlewares/session.h:291-295 | asking for a refresh changes no entry |
| SessionModel.AfterRefines | backend/Crow/include/crow/middlewares/session.h:366-402 | letting go keeps the invariant; the last holder stores the entries, a new session under its new id |
| SessionModel.RunRefines | backend/Crow/include/crow/middlewares/session.h:327-402 | under every interleaving the cache with the store behaves as one map of entries per session id |
| SessionModel.InitialInv | backend/Crow/include/crow/middlewares/session.h:440-463 | the empty cache and store satisfy the invariant and stand for no sessions |
| SessionModel.QuietMeansStored | backend/Crow/include/crow/middlewares/session.h:366-402 | a cached node counts exactly the requests that hold it; with none in flight the cache is empty and the store holds every session |
| SessionModel.SharedSessionIsShared | backend/Crow/include/crow/middlewares/session.h:335-342 | requests that hold the same session read each other's writes |
| SessionModel.ReadsSeeTheSession | backend/Crow/include/crow/middlewares/session.h:211-225 | what a request reads from its node are the entries of its session in the one map |
| SessionModel.NewSessionsGetACookie | backend/Crow/include/crow/middlewares/session.h:366-391 | a session without an id is stored under its new id and sends that id back |
| SessionCache.InMemoryStore.Load | backend/Crow/include/crow/middlewares/session.h:444-448 | load hands over the stored entries and leaves what a move leaves |
| SessionCache.InMemoryStore.Save | backend/Crow/include/crow/middlewares/session.h:451-455 | save stores the entries under the session id |
| SessionCache.Context.Get | backend/Crow/include/crow/middlewares/session.h:211-225 | get returns the entry if it has the kind of the fallback, and sees the session of the one map |
| SessionCache.Context.Set | backend/Crow/include/crow/middlewares/session.h:229-236 | the method does the set step of the model |
| SessionCache.Context.Apply | backend/Crow/include/crow/middlewares/session.h:246-255 | the method does the apply step of the model |
| SessionCache.Context.Remove | backend/Crow/include/crow/middlewares/session.h:258-264 | the method does the remove step of the model |
| SessionCache.Context.RefreshExpiration | backend/Crow/include/crow/middlewares/session.h:291-295 | the method does the refresh step of the model |
| SessionCache.Context.CheckNode | backend/Crow/include/crow/middlewares/session.h:300-303 | a request without a node gets a fresh one |
| SessionCache.Context.Mutex | backend/Crow/include/crow/middlewares/session.h:200-204 | asking for the mutex gives a request without a session a node of its own |
| SessionCache.Context.Contains | backend/Crow/include/crow/middlewares/session.h:238-242 | a key is found exactly if the session has an entry for it |
| SessionCache.Context.Keys | backend/Crow/include/crow/middlewares/session.h:278-287 | the keys of the session are listed, each once |
| SessionCache.SessionMiddleware.constructor | backend/Crow/include/crow/middlewares/session.h:308-324 | a new middleware is the initial state |
| SessionCache.SessionMiddleware.BeforeHandle | backend/Crow/include/crow/middlewares/session.h:327-363 | the method does the pick-up step of the model over shared objects |
| SessionCache.SessionMiddleware.AfterHandle | backend/Crow/include/crow/middlewares/session.h:366-402 | the method does the letting-go step of the model and sends the cookie that is due |
| Multipart.FindFrom | backend/Crow/include/crow/multipart.h:184-185 | the first occurrence of a text is found, and none is missed |
| Multipart.FirstDelimiter | backend/Crow/include/crow/multipart.h:178-196 | the delimiter behind a section is the first one found, if it occurs in no section and has no line feed |
| Multipart.SplitParam | backend/Crow/include/crow/multipart.h:246-262 | a written parameter splits at its first equals sign into its name and its unquoted value |
| Multipart.ReadParams | backend/Crow/include/crow/multipart.h:246-262 | written parameters are read back in order |
| Multipart.ReadLine | backend/Crow/include/crow/multipart.h:222-262 | a written header line is read back with its value and parameters |
| Multipart.ReadHeaders | backend/Crow/include/crow/multipart.h:220-264 | written header lines are read back in order |
| Multipart.NoBlankBefore | backend/Crow/include/crow/multipart.h:209-213 | no blank line is found before the end of the headers |
| Multipart.ReadPart | backend/Crow/include/crow/multipart.h:207-218 | a written part is read back with its headers and its body |
| Multipart.RoundTrip | backend/Crow/include/crow/multipart.h:97-264 | parsing the output of dump gives back the same parts, headers, parameters and bodies in order |
| MultipartMessage.Message.FromParts | backend/Crow/include/crow/multipart.h:131-143 | a message made from parts files each of them under its name, up to the first one without a name parameter |
| MultipartMessage.Message.Dump | backend/Crow/include/crow/multipart.h:97-109 | the loop over the parts writes the whole text |
| MultipartMessage.Message.DumpHead | backend/Crow/include/crow/multipart.h:112-125 | the loop over the headers writes their lines |
| MultipartMessage.Message.ParseBody | backend/Crow/include/crow/multipart.h:178-205 | the loop ends for every body and yields the parsed parts with their names, or the failure |
| MultipartMessage.Message.ParseSection | backend/Crow/include/crow/multipart.h:207-218 | a section is split as its text says, at a missing blank line too |
| MultipartMessage.Message.ParseSectionHead | backend/Crow/include/crow/multipart.h:220-264 | the loop over the lines yields the parsed headers |
| MultipartMessage.Message.ParseLine | backend/Crow/include/crow/multipart.h:222-262 | a line yields its header with its parameters, or the range error |
| MultipartMessage.DumpAndParse | backend/Crow/include/crow/multipart.h:97-264 | a message that is printed and read back is the same message with the same names |
| Sha1Standard.PaddingEndsABlock | backend/Crow/include/crow/TinySHA1.hpp:98-122 | the padding of FIPS 180-4 section 5.1.1 ends on a block boundary |
| Sha1Standard.PaddingIsLeast | backend/Crow/include/crow/TinySHA1.hpp:98-112 | it has the least number of zeros that does |
| Sha1.ChoiceIsCh | backend/Crow/include/crow/TinySHA1.hpp:180-182 | the choice function of the code is Ch of FIPS 180-4 |
| Sha1.MajorityIsMaj | backend/Crow/include/crow/TinySHA1.hpp:186-188 | the majority function of the code is Maj of FIPS 180-4 |
| Sha1.Hasher.Reset | backend/Crow/include/crow/TinySHA1.hpp:65-74 | a reset object has been fed nothing |
| Sha1.Hasher.ProcessByte | backend/Crow/include/crow/TinySHA1.hpp:75-83 | a byte extends what was fed; the digest is that of the whole blocks and the block holds the rest |
| Sha1.Hasher.ProcessBytes | backend/Crow/include/crow/TinySHA1.hpp:84-97 | bytes extend what was fed, in any pieces |
| Sha1.Hasher.ProcessBlock | backend/Crow/include/crow/TinySHA1.hpp:157-207 | a full block is compressed as in section 6.1.2 of FIPS 180-4 |
| Sha1.Hasher.Schedule | backend/Crow/include/crow/TinySHA1.hpp:158-167 | the eighty words are the message schedule |
| Sha1.Hasher.Step | backend/Crow/include/crow/TinySHA1.hpp:175-197 | one of the eighty steps is the round of FIPS 180-4 |
| Sha1.Hasher.PadTo56 | backend/Crow/include/crow/TinySHA1.hpp:98-112 | after the one bit exactly the zeros of the standard are fed |
| Sha1.Hasher.GetDigest | backend/Crow/include/crow/TinySHA1.hpp:98-124 | the digest is SHA-1 of everything fed, for messages shorter than 2^29 bytes |
| Sha1.LengthField | backend/Crow/include/crow/TinySHA1.hpp:99-120 | the four length bytes are the low 32 bits of the bit count, also when the counter has wrapped |
| Sha1.PaddingIsStandard | backend/Crow/include/crow/TinySHA1.hpp:98-120 | the padding that is fed is the standard's exactly for messages shorter than 2^29 bytes |
| Sha1.HashPieces | backend/Crow/include/crow/TinySHA1.hpp:75-124 | however a message is cut into pieces, the digest is that of the whole |
| WebSocketFrames.MaskedTwice | backend/Crow/include/crow/websocket.h:616-622 | masking twice with the same key restores the payload |
| WebSocketFrames.BuiltHeaderReadsBack | backend/Crow/include/crow/websocket.h:298-319 | from a built header FIN, opcode, no mask and the length are read back, for every length below 2^64 |
| WebSocketFrames.BuiltHeaderIsAFrame | backend/Crow/include/crow/websocket.h:298-319 | a built header and its payload are a final frame without a mask |
| WebSocketFrames.RunHeader | backend/Crow/include/crow/websocket.h:370-515 | reading the header of any frame sets the opcode, the mask flag and the length |
| WebSocketFrames.RunPayload | backend/Crow/include/crow/websocket.h:516-556 | a payload is collected whole, whatever the sizes of its reads |
| WebSocketFrames.RunFrame | backend/Crow/include/crow/websocket.h:355-556 | any frame is read whole, whatever the sizes of its payload reads |
| WebSocketFrames.DataFrame | backend/Crow/include/crow/websocket.h:624-660 | a data frame extends the message and, if final, delivers it with the flag of its first frame |
| WebSocketFrames.ControlFrameDone | backend/Crow/include/crow/websocket.h:698-707 | a ping is answered with the same payload, and no control frame touches the message in progress |
| WebSocketFrames.RunMore | backend/Crow/include/crow/websocket.h:355-712 | the rest of a fragmented message with pings and pongs in between completes it |
| WebSocketFrames.DeliversMessages | backend/Crow/include/crow/websocket.h:355-712 | any messages in any fragments, with any masks, control frames and payload read sizes, are delivered exactly, in order, with their text or binary flag, as long as no read cuts the first two bytes of a frame apart |
| WebSocketFrames.ShortHeader | backend/Crow/include/crow/websocket.h:373-410 | a first read that brings one byte only, of any opcode, is taken for a whole frame without a payload |
| WebSocketFrames.HeadersMustArriveWhole | backend/Crow/include/crow/websocket.h:373-410 | a stream of non-empty messages in one piece each is delivered exactly if and only if every header comes in one read |
| WebSocket.StoreWhatWasRead | backend/Crow/include/crow/websocket.h:311-316 | a number in network order lies in memory most significant byte first |
| WebSocket.SwappedHalves | backend/Crow/include/crow/websocket.h:316-316 | the two swapped halves of a 64-bit length lie in memory as its eight bytes, most significant first |
| WebSocket.Connection.BuildHeader | backend/Crow/include/crow/websocket.h:298-319 | the method builds the header of RFC 6455 section 5.2 |
| WebSocket.Connection.Unmask | backend/Crow/include/crow/websocket.h:616-622 | the loop takes the mask off the fragment in place |
| WebSocket.Connection.HandleFragment | backend/Crow/include/crow/websocket.h:614-712 | a finished frame is handled as its opcode says |
| WebSocket.Connection.ReceiveClose | backend/Crow/include/crow/websocket.h:662-696 | a close frame is answered or ends the connection, and the handler is called once |
| WebSocket.Connection.Close | backend/Crow/include/crow/websocket.h:259-281 | closing sends a close frame and calls the handler if the other side has closed |
| WebSocket.Connection.DoRead | backend/Crow/include/crow/websocket.h:355-366 | asking for the next bytes goes on by itself where nothing has to be read |
| WebSocket.Connection.OnRead | backend/Crow/include/crow/websocket.h:370-556 | a completed read changes the connection as the machine says |
| WebSocket.ReceiveAll | backend/Crow/include/crow/websocket.h:355-712 | over a whole stream the handlers get exactly what was sent |
| BlowfishCbc.BackwardUndoesForward | backend/libs/Bcrypt.cpp/src/blowfish.cpp:60-108 | the rounds in reverse order undo the rounds |
| BlowfishCbc.DecipherUndoesEncipher | backend/libs/Bcrypt.cpp/src/blowfish.cpp:60-108 | deciphering inverts enciphering for every S-box and subkey |
| BlowfishCbc.BlowfishEncipher | backend/libs/Bcrypt.cpp/src/blowfish.cpp:60-83 | the sixteen unrolled rounds compute the cipher |
| BlowfishCbc.BlowfishDecipher | backend/libs/Bcrypt.cpp/src/blowfish.cpp:85-108 | the sixteen unrolled rounds in reverse compute the inverse |
| BlowfishCbc.PackUnpack | backend/libs/Bcrypt.cpp/src/blowfish.cpp:579-590 | two words survive being stored as eight bytes |
| BlowfishCbc.UnpackPack | backend/libs/Bcrypt.cpp/src/blowfish.cpp:579-590 | eight bytes survive being read as two words |
| BlowfishCbc.CbcRoundTrip | backend/libs/Bcrypt.cpp/src/blowfish.cpp:571-635 | unchaining the chained text restores it, for every key state, vector and number of blocks |
| BlowfishCbc.XorInto | backend/libs/Bcrypt.cpp/src/blowfish.cpp:577-578 | a block is combined in place with eight other bytes, which may be those of the block before |
| BlowfishCbc.BlfCbcEncrypt | backend/libs/Bcrypt.cpp/src/blowfish.cpp:571-594 | the loop encrypts the buffer in place |
| BlowfishCbc.BlfCbcDecrypt | backend/libs/Bcrypt.cpp/src/blowfish.cpp:596-635 | the backward loop decrypts the buffer in place |
| BlowfishCbc.EncryptThenDecrypt | backend/libs/Bcrypt.cpp/src/blowfish.cpp:571-635 | in-place decryption after in-place encryption restores the buffer |
| Bcrypt.EncodeLength | backend/libs/Bcrypt.cpp/src/bcrypt.cpp:291-319 | the encoded length is that of the format and no character is a zero |
| Bcrypt.DecodeEncode | backend/libs/Bcrypt.cpp/src/bcrypt.cpp:83-115 | decoding as many bytes as were encoded gives them back, whatever follows |
| Bcrypt.ParsePrinted | backend/libs/Bcrypt.cpp/src/bcrypt.cpp:165-220 | a printed header with its salt parses back to the same minor version, cost and salt, whatever follows |
| Bcrypt.GeneratedHash | backend/libs/Bcrypt.cpp/src/bcrypt.cpp:321-335 | a generated hash has 60 characters; it and the bare salt parse back to the clamped cost and the seed |
| Bcrypt.RoundsThroughAByte | backend/libs/Bcrypt.cpp/src/bcrypt.cpp:138-147 | the cost in a generated hash is the round count limited to 4 to 31 exactly when the count is below 256 or its low byte is 31 or more; 260 rounds give cost 4 |
| Bcrypt.OwnHashValidates | backend/libs/Bcrypt.cpp/src/bcrypt.cpp:321-342 | a password validates against its own hash for every round count and seed |
| Bcrypt.OtherPasswordValidates | backend/libs/Bcrypt.cpp/src/bcrypt.cpp:321-342 | another password validates exactly when the cipher gives the same 23 bytes for its key |
| BcryptBuffers.EncodeBase64 | backend/libs/Bcrypt.cpp/src/bcrypt.cpp:291-319 | the pointer loop writes the encoded characters and a zero |
| BcryptBuffers.DecodeBase64 | backend/libs/Bcrypt.cpp/src/bcrypt.cpp:83-115 | the pointer loop writes the decoded bytes and stops at the first bad character |
| BcryptBuffers.EncodeSalt | backend/libs/Bcrypt.cpp/src/bcrypt.cpp:118-131 | the header and the salt are written as a C string |
| BcryptBuffers.BcryptGensalt | backend/libs/Bcrypt.cpp/src/bcrypt.cpp:138-147 | the cost is clamped to 4 to 31 and written with the salt |
| BcryptBuffers.ReadHeader | backend/libs/Bcrypt.cpp/src/bcrypt.cpp:165-220 | the moving pointer accepts exactly the headers of the format |
| BcryptBuffers.NodeBcrypt | backend/libs/Bcrypt.cpp/src/bcrypt.cpp:152-276 | the buffer holds the hash, or the error mark, and zeros |
| BcryptBuffers.GenerateHashOf | backend/libs/Bcrypt.cpp/src/bcrypt.cpp:321-335 | generating a hash yields the text of the format |
| BcryptBuffers.ValidatePasswordAgainst | backend/libs/Bcrypt.cpp/src/bcrypt.cpp:337-342 | validation compares the whole text |
| Matchmaking.SplitUndoesJoin | backend/src/utils/db_utils.cpp:5-22 | splitting undoes joining exactly when no name has a comma and the last one is not empty |
| Matchmaking.SplitOfJoin | backend/src/utils/db_utils.cpp:5-22 | names without commas come back except an empty last one |
| Matchmaking.JoinPlayers | backend/src/utils/db_utils.cpp:5-12 | the loop joins the names with commas |
| Matchmaking.SplitPlayers | backend/src/utils/db_utils.cpp:13-22 | the loop splits at every comma |
| Matchmaking.ContainsInPair | backend/src/services/session_service.cpp:54-58 | a name without a comma is found in a joined pair exactly when it is part of one of the two names |
| Matchmaking.HitsArePlayers | backend/src/services/session_service.cpp:54-71 | among names of which none is part of another the scan finds exactly the players |
| Matchmaking.SessionService.FindOrCreateSession | backend/src/services/session_service.cpp:44-146 | the method does one step on the two tables |
| Matchmaking.AskAgain | backend/src/services/session_service.cpp:52-73 | a user who has asked before gets the same session again and nothing changes |
| Matchmaking.OpenSession | backend/src/services/session_service.cpp:81-100 | a new user of a game where nobody waits opens the waiting session |
| Matchmaking.JoinSession | backend/src/services/session_service.cpp:101-144 | a new user of a game where somebody waits is matched, without an error |
| Matchmaking.RunKeeps | backend/src/services/session_service.cpp:44-146 | every run keeps the tables consistent, answers every user with a session that he stays in, and never fails |
| Matchmaking.RunFromEmpty | backend/src/services/session_service.cpp:44-146 | from empty tables equal requests get equal sessions, and the one-player sessions of a game are as many as its distinct users modulo 2 |
| Matchmaking.ServesExactlyGoodNames | backend/src/services/session_service.cpp:44-146 | in every run from empty tables every request is answered by a session that its user is a player of, if and only if no name is empty, has a comma, or is part of another name |
| Matchmaking.LostName | backend/src/services/session_service.cpp:44-146 | an empty name, or one with a comma, is no player of the session it opens |
| Matchmaking.PartOfAName | backend/src/services/session_service.cpp:54-71 | for any two names of which one is part of the other there is a run in which the shorter is sent to the session of the longer without becoming a player |
| Matchmaking.AlAndAlice | backend/src/services/session_service.cpp:54-71 | al and alice are two such names |
| Backgammon.InitialInv | backend/src/compoments/backgammon.cpp:6-24 | the start position has fifteen checkers of each colour |
| Backgammon.MovedCounts | backend/src/compoments/backgammon.cpp:62-88 | a move keeps the mover's checkers except one borne off, and a hit turns one checker over |
| Backgammon.RunKeeps | backend/src/compoments/backgammon.cpp:26-98 | every run keeps what each colour owns up to the hits |
| Backgammon.Conservation | backend/src/compoments/backgammon.cpp:26-98 | over every run the checkers on the board and borne off are thirty, points are colourless exactly when empty, and at most one die is recorded |
| Backgammon.FinishedExactly | backend/src/compoments/backgammon.cpp:6-136 | over every run a colour has finished exactly when it has on the board what it is ahead in hits less nine, and its counter is what it has on the board exactly when it is ahead by nine |
| Backgammon.NoMoveOnAnyBoard | backend/src/compoments/backgammon.cpp:52-60 | no move is possible whatever stands on the board exactly after one move with a double |
| Backgammon.DoublesBlock | backend/src/compoments/backgammon.cpp:26-98 | then no sequence of requests changes anything until the dice are rolled again |
| BackgammonRuns.DoubleSix | backend/src/compoments/backgammon.cpp:26-98 | a fresh game reaches such a state with its first move |
| BackgammonRuns.BlackIsGone | backend/src/compoments/backgammon.cpp:6-98 | a run from a fresh game after which black has no checker on the board and has not finished |
| Backgammon.Game.Finished | backend/src/compoments/backgammon.cpp:130-136 | the test of the object is that of the model |
| Backgammon.Game.InitBoard | backend/src/compoments/backgammon.cpp:14-24 | the eight assignments set up the start position |
| Backgammon.Game.StartTurn | backend/src/compoments/backgammon.cpp:138-143 | rolling changes the dice only |
| Backgammon.Game.HandleMove | backend/src/compoments/backgammon.cpp:26-98 | a move does what the rules of the engine say or nothing, and the branch for an invalid destination is never reached |
| Base64.DigitsReadBack | backend/Crow/include/crow/utility.h:567-572 | three bytes survive being cut into four digits |
| Base64.EncodedLength | backend/Crow/include/crow/utility.h:562-563 | the length of the text is the one computed up front |
| Base64.LengthsReadBack | backend/Crow/include/crow/utility.h:626-640 | from the text, padded or not, the number of bytes is computed |
| Base64.ReadsStayInside | backend/Crow/include/crow/utility.h:626-682 | no read leaves the text, for any text |
| Base64.OnlyOneTextFails | backend/Crow/include/crow/utility.h:635-643 | the computed length is negative exactly for the text of a single equals sign |
| Base64.RoundTrip | backend/Crow/include/crow/utility.h:560-684 | decoding undoes encoding for every byte string and both alphabets, with or without padding |
| Base64.Base64Encode | backend/Crow/include/crow/utility.h:560-594 | the loop writes the encoded text |
| Base64.Base64Decode | backend/Crow/include/crow/utility.h:611-684 | the loop writes the decoded bytes |

## Left out

- Sockets, asio, timers, DynamoDB, Postgres and the front end: input and output. Store calls succeed and are atomic.
- Blueprint lists of the router: the indices are carried in the nodes, but which of them a lookup reports is not stated, because the list is popped also where nothing was pushed.
- Captures for the index that all trailing-slash redirects share: only the index is stated for them.
- JSON floating point, and strings that are no byte strings; objects are read as their members in the order of the text.
- JSON `rvalue` lookup by key and the sorting it does.
- Mustache partials, lambdas, delimiter changes, the cutting of the text into tags and the trimming of lines that hold a block tag only: the fragments between tags are arbitrary here.
- HTTP request line and header names, bodies that end with the connection, trailer fields after the last chunk (their first byte ends the modelled part), and lenient mode. Callbacks return 0, and the header size limit is the built-in one.
- Printing a session entry as text (`string`), which formats one value; `FileStore` and its expirations; exceptions of a session store; `requested_session_id`, which no context sets, is carried and always empty.
- Multipart: the message headers and the boundary parameter of the content type. Headers and parameters are sequences in the order the hash tables are walked; looking into a missing name parameter, which the code does unchecked, ends reading and building a message with `Nameless`.
- `GetDigest`: the digest is returned as five words; `getDigestBytes` only writes them out byte by byte.
- WebSocket: the upgrade handshake, sending of messages by the application, and the queue of write buffers. The longer lengths and the mask are read whole, which `async_read` promises; builds with `CROW_ENABLE_DEBUG`, which throw on a short header, are not part of this model.
- Blowfish key setup and its tables, ECB mode and the strength of the cipher; bcrypt takes the cipher as a function of cost, salt and key.
- bcrypt: reading past the end of a shorter hash text is modelled as reading zeros.
- `Bcrypt.OwnHashValidates`: says nothing about different passwords being refused, which is a property of the cipher; `Bcrypt.OtherPasswordValidates` gives the exact condition.
- Backgammon: a request in a game of one player whose turn has passed to the missing second one, where the code reads beyond its list; whether a game makes progress.
- Serialization of both games, tic-tac-toe, password rules, CORS, MIME tables and cookie text.
- Template metaprogramming, logging and the vendored asio headers.
