# csilk in Dafny

A model of the parts of the csilk web framework whose correctness is hardest to see, with proofs about
every input or every run. Code that works step by step on buffers, objects and tables is written as
methods and classes and proved against a specification; what the framework promises is then proved
about the specification.

| file | models |
|---|---|
| `Radix.dfy` | the numbers that byte strings and 6-bit digit strings spell; shared by both text codecs |
| `Ascii.dfy`, `Sequences.dfy`, `Wrappers.dfy` | letters and digits by position; sequences without repeats and places picked from a sequence; optional values and allocations |
| `Words.dfy` | 32-bit words, exclusive or, and the bytes of a word as base-256 digits of a number |
| `Base64.dfy` | Base64 and Base64URL (sections 4 and 5 of RFC 4648) |
| `BcryptCodec.dfy` | the private text codec of bcrypt |
| `Blowfish.dfy` | the 16-round cipher and its key schedule |
| `Bcrypt.dfy` | hashing and verifying passwords |
| `Depends.dfy` | dependency injection with a shared cache |
| `Paths.dfy`, `Groups.dfy`, `AppRoutes.dfy` | path joining, route groups with inherited middleware, the application's group cache |
| `RouteTrie.dfy` | the routing trie and its matcher |
| `Asgi.dfy` | ASGI applications served through the closure queue |
| `HeaderDict.dfy`, `Sessions.dfy` | the case-insensitive dictionary and the session store of a request context |
| `McpClient.dfy` | correlation of JSON-RPC requests and replies |
| `TtlCache.dfy`, `ItemTable.dfy` | two stateful example services |

Main results, in the order of the files:

- The streaming Base64URL decoder, whose 32-bit accumulator wraps, computes the top bits of the
  unbounded number that its digits spell. Both encoders are inverted by it, and encoding again gives back
  exactly the canonical strings.
- The cipher is a bijection for all table contents, and its round function is determined by how it
  responds to a change of one table entry. The key schedule depends on the password and the salt only
  through two cyclic byte streams and not on what the state held before; it is the end of a run of 521
  enciphered blocks, each of which says which salt bytes and which table words it touches.
- Deciphering a digest under its own schedule gives the 24 characters of the constant text.
  Verifying a hash with its own password succeeds for every password, cost and salt; another password is
  accepted exactly if it has the same digest. Two short passwords give the same key exactly if they commute.
- Cached dependency resolution gives what plain recursion gives, calls every reachable function once and
  after the functions it needs. Either resolver fails exactly if a reachable function has a marker without
  a target, is asynchronous where that is not allowed, or raises on the arguments it gets. The annotation
  of a parameter matters only if its marker is empty or absent.
- Joining paths is a monoid, so only the sequence of prefixes matters. In every history of group
  operations with failures, the chain of a route is the middleware of its ancestors as it stood then.
- Over every run of requests for groups it is known exactly when a prefix is cached twice, and exactly
  when the group chosen for a path depends on the order of the requests.
- The iterative matcher with backtracking finds, among all registered patterns that accept the request,
  the least one in the order of segments, with its captures; it finds nothing exactly if there is none.
  This holds over every run of registrations, any of which may run out of memory, and whatever captures
  cannot be stored. On texts: which requests a route with given literals, parameters and a wildcard serves,
  with which captures, and that a literal beats a parameter and a parameter a wildcard in every order of
  registration.
- Under every interleaving of requests, each ASGI response is a fixed sequence of native calls with one
  end. Its header calls are the headers other than content length, in order and one for one.
- A session read, a cached response, a header look-up and a pending call are each decided by the last
  or first relevant event of the whole history.

Several things that one might expect are false of the code. They are kept as the code has them, with a
counterexample and the exact condition, or with a statement for all inputs:

- the digest of a password does not depend on the cost, because each round of the key schedule starts
  again from the initial tables (`Bcrypt.HashInternal`);
- a group prefix of 128 characters or more is cached twice, because the cached copy is truncated
  (`AppRoutes.LongPrefixCachedTwice`, `AppRoutes.NoRepeatIffNoClash`);
- the group chosen for a path depends on the order in which groups are asked for, because the 33rd prefix
  is not cached (`AppRoutes.LastOf33`, `AppRoutes.OrderIrrelevantIffRoom`);
- two different passwords can have the same key, because it is the password repeated without a terminator:
  a password and its double, or the empty one and a zero byte (`Bcrypt.DoubledPassword`,
  `Bcrypt.EmptyPassword`, `Bcrypt.SameKeyIffCommuting`);
- the middleware of the caching example does not look at the method, though its comment says that only GET
  requests are cached; it stores the body of the request and not of the response, so a
  request without a body is never cached and a hit replays what an earlier request had sent
  (`TtlCache.HitReplaysRequest`, `TtlCache.NothingCachedWithoutBodies`);
- a cache key of 128 characters or more is never found again, and its value is served for its first 127
  characters (`TtlCache.LongKeyNeverHits`, `TtlCache.StoredIsFoundIffShort`, `TtlCache.LongKeyServesItsPrefix`);
- `has_next` in a page of items is right only if the list ends exactly with a full page
  (`ItemTable.OnlyPageClaimsNext`, `ItemTable.HasNextIffExactEnd`);
- an ASGI adapter that is run without the coroutine wrapper may leave a response without an end
  (`Asgi.StartAloneHasNoEnd`, `Asgi.AdaptedRun`); `mount_asgi` always wraps it
  (`python/csilk/app.py:162-171`);
- the comment on path joining says that two empty parts join to a slash; the code gives the empty string
  (`Paths.EmptyJoinsToEmpty`), and after an empty first part a slash only if the second one is missing or
  a slash itself (`Paths.SlashIffMissing`).

## Model

| member | source | states |
|---|---|---|
| Radix.CarriesUnique | src/crypto/base64.c:51-75 | 6-bit digits that spell the number of a byte string, filled up with zero bits, are determined by it; both encoders are specified by this number and not by their grouping |
| Radix.TopBitsUnique | src/crypto/base64.c:419-441 | the bytes that are the top bits of a digit string's number, and the bits left over, are determined by it |
| Radix.CarriesBytes | src/crypto/base64.c:422-441 | digits are those of the bytes they decode to exactly if their count is not 1 modulo 4 and no bit is left over |
| Base64.TableEntry | src/crypto/base64.c:34 | the encoding table holds A-Z, a-z, 0-9, plus and slash at their places |
| Base64.UrlTableEntry | src/crypto/base64.c:88-137 | the URL alphabet has minus and underscore at places 62 and 63 and the standard characters elsewhere; mapping it back and looking it up gives the place |
| Base64.LookupOfStandardChar | src/crypto/base64.c:147-408 | the reverse table inverts the encoding table |
| Base64.StandardCharOfLookup | src/crypto/base64.c:147-408 | every character that the reverse table accepts is the one the encoding table has there |
| Base64.EncodedLengths | src/crypto/base64.c:44-105 | for n bytes the padded text has 4*ceil(n/3) characters and the URL text ceil(4n/3) |
| Base64.Encode | src/crypto/base64.c:44-77 | the buffer holds the digits of the input's number, the padding and a terminator; the rest of the buffer is unchanged |
| Base64.UrlEncode | src/crypto/base64.c:88-105 | rewriting the padded text in place gives the unpadded URL text |
| Base64.UrlDecode | src/crypto/base64.c:118-444 | for every string and capacity: -1 exactly on allocation failure, an invalid character before the first padding, or too many bytes; else the decoded bytes, and nothing beyond them is written |
| Base64.StreamStep | src/crypto/base64.c:431-440 | the wrapping 32-bit accumulator always holds the bits left over, and each byte it gives up is the next byte of the number |
| Base64.DecodedIsTopBits | src/crypto/base64.c:410-444 | m digits decode to floor(6m/8) bytes whose number is the digits' number without its lowest bits |
| Base64.RoundTrip | src/crypto/base64.c:44-142 | decoding inverts both encoders on every byte string |
| Base64.ReencodeIffCanonical | src/crypto/base64.c:88-142 | for every string that decodes, encoding the result gives back the string exactly if it is canonical: URL alphabet, no padding, possible length, zero spare bits |
| Base64.ReencodeCanonical | src/crypto/base64.c:88-142 | every canonical string decodes, and encodes back to itself |
| Base64.UrlEncodedIsCanonical | src/crypto/base64.c:88-105 | the URL encoder produces only canonical strings |
| BcryptCodec.DecodeCharOfChar | src/crypto/bcrypt.c:76-104 | the character decoder inverts the codec's table |
| BcryptCodec.CharOfDecodeChar | src/crypto/bcrypt.c:85-104 | every character that the decoder knows is the one the table has at that place |
| BcryptCodec.Encode | src/crypto/bcrypt.c:300-317 | writes the digits of the input's number and fills the last group with dots; nothing else is changed |
| BcryptCodec.Decode | src/crypto/bcrypt.c:319-355 | for text of every length, including both partial last groups and characters outside the table, writes exactly the specified bytes |
| BcryptCodec.UnknownIsZero | src/crypto/bcrypt.c:325-330 | a character outside the table counts as the digit 0 |
| BcryptCodec.RoundTrip | src/crypto/bcrypt.c:300-355 | decoding the first ceil(8n/6) characters of the encoding of n bytes gives the bytes back |
| Words.ByteIsDigit | src/crypto/bcrypt.c:112-115 | the j-th byte that shifting and masking take from a word is the j-th base-256 digit of its number |
| Words.BigEndianValue | src/crypto/bcrypt.c:162-171 | four bytes shifted together are the word whose number has them as digits, the first one highest |
| Blowfish.FeistelOfZero | src/crypto/bcrypt.c:109-117 | with all tables zero the round function is zero |
| Blowfish.FeistelDifference | src/crypto/bcrypt.c:109-117 | changing entry k of box j by d changes the round function at x by d if digit j of x is k, and not at all otherwise; with the zero case this determines it |
| Blowfish.CipherIsBijection | src/crypto/bcrypt.c:110-135 | for all table contents the cipher and the inverse cipher undo each other both ways |
| Blowfish.RoundsInverse | src/crypto/bcrypt.c:125-131 | any number of rounds is undone by the inverse rounds, and the other way round |
| Blowfish.EncipherIsNetwork | src/crypto/bcrypt.c:119-135 | there are 18 words, the first two the block, each later one given by the two before it, one P word and the round function, of which the last two and P word 17 are the cipher text |
| Blowfish.NetworkUnique | src/crypto/bcrypt.c:119-135 | these words are determined by the block and the tables |
| Blowfish.WhiteningDifference | src/crypto/bcrypt.c:133-134 | changing P word 16 by d changes only the left output word, by d; P word 17 only the right one |
| Blowfish.State.BlowfishEncipher | src/crypto/bcrypt.c:120-135 | computes the cipher of the input block also when input and output are the same array |
| Blowfish.StreamsAreCyclic | src/crypto/bcrypt.c:159-230 | key byte k is password[k mod length] (the first byte if the length is 0), salt byte k is salt[k mod length] |
| Blowfish.ScheduleOfStream | src/crypto/bcrypt.c:146-230 | two passwords with the same 72 key bytes give the same schedule |
| Blowfish.State.KeySetup | src/crypto/bcrypt.c:146-230 | the cursor loops compute the recursive schedule, whatever the state held before |
| Blowfish.ScheduleIsTrace | src/crypto/bcrypt.c:146-230 | the schedule is the end of any run that folds the key into P and then replaces, in order, two words of P and then of S at a time by the encipherment, under the tables so far, of a block xored with the next eight salt bytes, four in the left word and four in the right; the block is the one before it for P, and the last one of P for all of S |
| Blowfish.TraceExists | src/crypto/bcrypt.c:146-230 | there is such a run for every password and salt |
| Blowfish.State.MixP | src/crypto/bcrypt.c:175-202 | the P phase is the recursive phase, with the salt cursor left where the S phase goes on |
| Blowfish.State.MixS | src/crypto/bcrypt.c:204-230 | the S phase goes on with the salt stream where the P phase stopped |
| Blowfish.NextKeyWord | src/crypto/bcrypt.c:159-173 | the four reads with a cursor that wraps give the next big-endian word of the cyclic key stream |
| Bcrypt.BlockBytesAreBigEndian | src/crypto/bcrypt.c:254-271 | the eight bytes written for a block, read as the key schedule reads bytes, are the block |
| Bcrypt.HashInternal | src/crypto/bcrypt.c:236-298 | after any number 2^cost of rounds the digest is that of a single schedule |
| Bcrypt.DigestDeciphers | src/crypto/bcrypt.c:236-298 | deciphering the three blocks of a digest under its schedule gives the characters of OrpheanBeholderScryDoubt |
| Bcrypt.Hash | src/crypto/bcrypt.c:361-413 | the buffer holds header, clamped cost, salt text and digest text, terminated |
| Bcrypt.ProducedHeader | src/crypto/bcrypt.c:364-407 | a produced text has 61 characters, starts with $2a$ and the two decimal digits of the cost, and has $ in the seventh place |
| Bcrypt.Clamp | src/crypto/bcrypt.c:364-370 | the nearest cost from 4 to 31 |
| Bcrypt.Verify | src/crypto/bcrypt.c:415-461 | returns 0 exactly if the text has a known prefix, a cost in range and the digest of the given password, else -1, whether `char` is signed or not |
| Bcrypt.CostOfText | src/crypto/bcrypt.c:421-422 | two digits are read as their decimal number, and a single digit at the end of the text together with the terminator |
| Bcrypt.AcceptedText | src/crypto/bcrypt.c:415-461 | a text is accepted exactly if it starts with $2, its cost is from 4 to 31 and its stored digest is the digest of the password under its stored salt |
| Bcrypt.StoredFields | src/crypto/bcrypt.c:361-461 | parsing a produced hash gives back the clamped cost, the salt and the digest |
| Bcrypt.VerifyOfHash | src/crypto/bcrypt.c:361-461 | the password verifies against its own hash; any other one does exactly if its digest is equal |
| Bcrypt.LongPasswords | src/crypto/bcrypt.c:372-378 | passwords that agree on their first 72 bytes have the same digest |
| Bcrypt.SameKeyIffCommuting | src/crypto/bcrypt.c:159-173 | for non-empty passwords of at most 72 bytes together, the schedule reads the same key bytes exactly if p followed by q is q followed by p |
| Bcrypt.CommutingHaveSameKey | src/crypto/bcrypt.c:159-173 | passwords of any length that commute give the same key |
| Bcrypt.SameKeySameDigest | src/crypto/bcrypt.c:236-298 | passwords with the same 72 key bytes have the same digest under every salt |
| Bcrypt.DoubledPassword | src/crypto/bcrypt.c:361-461 | a password and its double have the same digest |
| Bcrypt.EmptyPassword | src/crypto/bcrypt.c:159-173 | the empty password and a single zero byte have the same digest |
| Depends.Request.Resolve | python/csilk/depends.py:33-107 | with any faithful cache, gives what plain recursion gives; on success the cache has gained exactly the reachable functions, each called once and after those it needs |
| Depends.Request.Collect | python/csilk/depends.py:51-62 | collects the keyword arguments of a function as plain recursion does |
| Depends.Inject | python/csilk/depends.py:131-173 | a wrapped handler returns what plain recursion gives, and calls each dependency once, in order |
| Depends.KeywordOf | python/csilk/depends.py:48-59 | a parameter that no later one shadows gets the value of the function its marker names, or of its annotation if the marker is empty; without a marker it gets the context exactly if annotated with it or named ctx, and else what the caller gave or nothing |
| Depends.MarkerIsReached | python/csilk/depends.py:48-57 | the function that a marker names, or the annotation of an empty marker, is reachable, hence among the calls |
| Depends.SettledIsCalled | python/csilk/depends.py:33-107 | if every marker's function, or the annotation of an empty marker, resolves, the function is called with its keyword arguments, or refused if it is asynchronous and the resolver is not; parameters without a marker never stop it |
| Depends.FirstFault | python/csilk/depends.py:50-57 | otherwise the first parameter that does not resolve decides the error: its function's own, or the missing dependency with its name |
| Depends.AnnotationIgnored | python/csilk/depends.py:51-52 | if a marker names a function, writing another annotation changes no value, no failure, no injected argument and nothing reachable, for any function of the application |
| Depends.EmptyMarkerIsAnnotation | python/csilk/depends.py:51-52 | an empty marker with an annotation can be replaced by a marker that names it, with the same effect |
| Depends.SyncAgreesWithAsync | python/csilk/depends.py:33-107 | if nothing reachable is refused, both resolvers give the same outcome |
| Depends.FailsIffSomethingFails | python/csilk/depends.py:33-107 | on every acyclic graph either resolver fails exactly if a reachable function is at fault: it has a marker without a target, or is asynchronous in a synchronous resolution, or its arguments can be resolved and it raises on them |
| Depends.SyncFailsIffRefused | python/csilk/depends.py:72-107 | if nothing reachable raises on the arguments it gets, the synchronous resolver fails exactly if a reachable function is asynchronous or has a marker without a target |
| Depends.HandlerFailsIff | python/csilk/depends.py:131-173 | a handler with injected arguments fails exactly if a dependency is at fault, or it has a marker without a target, or it raises on its own arguments |
| Depends.HandlerFailsIffRefused | python/csilk/depends.py:150-173 | if neither a synchronous handler nor anything it reaches raises on the arguments it gets, it fails exactly if something reachable is asynchronous or has a marker without a target |
| Depends.SuccessIsClean | python/csilk/depends.py:72-107 | if the synchronous resolver succeeds, nothing reachable is refused |
| Paths.JoinIsMonoid | src/app/group.c:81-119 | joining is associative with the empty path as identity |
| Paths.JoinAllConcat | src/app/group.c:81-119 | joining a list of parts can be split anywhere |
| Paths.JoinOfCut | src/app/group.c:81-119 | joining one part with another gives a text followed by that other part exactly if the text is the first part without its trailing slashes and the other starts with a single slash |
| Paths.JoinOfSplit | src/app/group.c:81-119 | joining two parts of a path gives the path back exactly if no slash is doubled at the cut |
| Paths.EmptyJoinsToEmpty | src/app/group.c:81-119 | two empty parts join to the empty string |
| Paths.SlashIffMissing | src/app/group.c:81-119 | with an empty or missing first part the result is the second part, and a slash exactly if the second part is missing or a slash |
| Paths.JoinPath | src/app/group.c:81-119 | the procedure computes the join, for missing parts too, and fails only when the allocation does |
| Groups.RunAgrees | src/app/group.c:131-274 | after any history of creations, uses and registrations, each of which may fail, every group has the prefix, parent and middleware that the history gives, and the routes are those the history registers |
| Groups.ChainIsHistory | src/app/group.c:250-274 | the chain gathered for a group is the concatenation, from the root, of what was used on each ancestor |
| Groups.RoutesAreFinal | src/app/group.c:200-221 | later operations never change a registered route |
| Groups.PrefixIsJoined | src/app/group.c:160-184 | a group's prefix is the join of the prefixes given on the way from the root |
| Groups.NestingIsIrrelevant | src/app/group.c:160-184 | the full path of a route depends on the sequence of prefixes and not on how groups were nested |
| Groups.Group.Append | src/app/group.c:200-221 | the doubling array gains the handler or is unchanged; capacity always covers the count |
| Groups.Router.NewGroup | src/app/group.c:131-147 | takes the abstract creation step; when the allocation fails, and only then, there is no group and nothing changes |
| Groups.Router.SubGroup | src/app/group.c:160-184 | takes the abstract sub-group step with the joined prefix; when an allocation fails nothing changes |
| Groups.Router.Use | src/app/group.c:200-221 | takes the abstract use step exactly on success; when the array cannot grow no group and no route changes |
| Groups.Router.Gather | src/app/group.c:250-274 | the recursion to the root with copies on the way back appends the whole chain |
| Groups.Router.AddHandlers | src/app/group.c:482-532 | registers the joined path with the chain followed by the route's handlers; when anything fails no group and no route changes; succeeds if nothing fails |
| AppRoutes.App.FindOrCreate | src/app/app_routes.c:32-71 | returns the cached group or caches a new one, and nothing when the cache is full or memory is short; the cached prefixes are always those of the run of requests |
| AppRoutes.CacheStepByText | src/app/app_routes.c:32-71 | asking for nothing, the empty prefix or a slash caches nothing; a new prefix adds its first 127 characters if there are fewer than 32 entries and memory suffices |
| AppRoutes.App.FindMatching | src/app/app_routes.c:75-99 | chooses a longest cached prefix that ends at a segment boundary of the path, and the rest of the path; in every state reached with prefixes under 128 characters no other entry could be chosen |
| AppRoutes.App.AddRoute | src/app/app_routes.c:284-299 | registers one route with the chain of the chosen group, under its prefix joined with the rest; this is the original path exactly if no group matches, or nothing follows a prefix that fits, or the prefix without trailing slashes is the cached one and a single slash follows |
| AppRoutes.LongestIsUnique | src/app/app_routes.c:75-99 | with distinct prefixes the longest matching entry is unique |
| AppRoutes.CachedIsWanted | src/app/app_routes.c:32-71 | in every run, with failures and prefixes of any length, only what was asked for is cached, and all of it as long as there is room |
| AppRoutes.OrderIrrelevantIffRoom | src/app/app_routes.c:32-99 | for every run with prefixes under 128 characters, the prefix chosen for every path is the same in every order of the requests exactly if at most 32 different prefixes are asked for |
| AppRoutes.LastOf33 | src/app/app_routes.c:49-52 | the last of 33 prefixes is not cached, but it is when it comes first |
| AppRoutes.PathRecovered | src/app/app_routes.c:75-99 | joining the chosen prefix and the rest gives the path back exactly if no slash is doubled at the cut; always for a path without double slashes |
| AppRoutes.CacheHasNoRepeats | src/app/app_routes.c:32-71 | in every run with prefixes under 128 characters the cached prefixes are distinct and at most as many as there is room for |
| AppRoutes.NoRepeatIffNoClash | src/app/app_routes.c:32-71 | in every run, with failures and prefixes of any length, a prefix is cached twice exactly if some request has more than 127 characters, an earlier one asked for the same first 127, and fewer than 32 different ones were asked for before it |
| AppRoutes.LongPrefixCachedTwice | src/app/app_routes.c:42-71 | asking twice for a prefix of 128 characters caches it twice |
| RouteTrie.NextSegment | src/core/primitives/router_simd.c:306-324 | the two scanning loops give the next segment of a path and what follows it |
| RouteTrie.FindChild | src/core/primitives/router.c:59-89 | binary search gives the place of a key among sorted children, and whether it is there |
| RouteTrie.InsertWellFormed | src/core/primitives/router.c:91-133 | insertion keeps all children sorted: literals, then parameters, then wildcards |
| RouteTrie.LookupOfInsert | src/core/primitives/router.c:338-508 | inserting a route changes the entry of that pattern and method only, and only if there was none |
| RouteTrie.InsertHolds | src/core/primitives/router.c:338-508 | a trie that holds, for each pattern and method, the first registered route does so after one more registration |
| RouteTrie.AddBelow | src/core/primitives/router.c:338-508 | walking the segments of a path inserts its pattern; when memory runs out at any segment or at the handler, nodes may have been added but no route is found that was not found before, and none is lost |
| RouteTrie.AddRoute | src/core/primitives/router.c:338-508 | in every run of registrations, any of which may fail, the trie holds exactly the routes whose registration succeeded, the first of each pattern and method |
| RouteTrie.RegisterAll | src/core/primitives/router.c:338-508 | any run of registrations on a new router, each of which may run out of memory, gives a trie that holds exactly the routes whose registration succeeded |
| RouteTrie.CaptureParam | src/core/primitives/router_trie.c:35-118 | keeps the captured parameter unless there is no context, there are 20 already, or memory is short |
| RouteTrie.NextChild | src/core/primitives/router_trie.c:215-306 | the scan for the next child loses no candidate, and captures are undone when a child is left |
| RouteTrie.MatchNode | src/core/primitives/router_trie.c:148-319 | the loop with an explicit stack, depth bound and rollback of captures terminates and finds what the recursive search finds, with or without a context and whatever captures fail; the context keeps some of the match's captures in order, and the first 20 if memory suffices; after a miss none is left |
| RouteTrie.MatchComplete | src/core/primitives/router_trie.c:148-319 | if some registered pattern within the depth bound accepts the path, the search succeeds |
| RouteTrie.RoutingIsLeastPattern | src/core/primitives/router_trie.c:148-319 | for all registrations and requests: no match exactly if no pattern shorter than 64 segments accepts the path; a match is the first registration of the least such pattern, with exactly that pattern's captures |
| RouteTrie.PatternOrder | src/core/primitives/router.c:50-57 | the order of patterns is total and antisymmetric, so the least pattern is one pattern |
| RouteTrie.RouteRequest | src/core/primitives/router_trie.c:148-319 | the iterative matcher on any router that holds some routes: endpoint and kept captures are those of the least accepting pattern, and there is no endpoint and no parameter exactly if none of fewer than 64 segments accepts |
| RouteTrie.OneRoute | src/core/primitives/router.c:338-508 | a router with one route, written as literals, parameters and a last wildcard with any number of slashes after it, serves a request of segments exactly if they fit part by part, with each parameter's segment and the rest at the wildcard as captures |
| RouteTrie.ParameterRoute | src/core/primitives/router.c:360-375 | with only /a/:x registered, /a/v and /a/v/ are served with x = v, and /a/v/w and /a are not |
| RouteTrie.WildcardRoute | src/core/primitives/router.c:360-375 | with only /a/*x registered, /a/ followed by any text is served, with x the text without its leading slashes |
| RouteTrie.LiteralThenParameterThenWildcard | src/core/primitives/router.c:50-57 | of routes that differ in the last part, in every order of registration, the literal is served if there is one, else the parameter, else the wildcard |
| RouteTrie.LesserNameWins | src/core/primitives/router.c:50-57 | of two routes that differ in the name of the last parameter, in every order of registration, the alphabetically first one is served |
| Asgi.MountedRun | python/csilk/asgi.py:127-165 | for every sequence of messages, raising or not: the headers without content length, one status iff there is a body, the non-empty chunks in order, a 500 exactly if it raises before any body, and one end |
| Asgi.HeadersOfRun | python/csilk/asgi.py:128-140 | the header calls of a run are the headers of its start messages that are not content length under any case, each as often and in the same order; no call sets a content length |
| Asgi.AllHeadersSet | python/csilk/asgi.py:128-140 | if no header is a content length the header calls are the headers one for one |
| Asgi.AdaptedRun | python/csilk/asgi.py:127-165 | the adapter alone ends the response exactly if a last body is sent or it raises after a body |
| Asgi.StartAloneHasNoEnd | python/csilk/asgi.py:127-165 | an application that only starts its response is not ended by the adapter alone |
| Asgi.ConformingRun | python/csilk/asgi.py:127-165 | for an application that follows the protocol, stopped anywhere, these calls come in that order |
| Asgi.History | python/csilk/context.py:542-550 | at each moment the server has done, for each request, what that request issued among the closures taken so far |
| Asgi.EveryInterleaving | python/csilk/context.py:487-550 | under every interleaving of any number of requests, each one's native calls are a prefix of its run's calls, and all of them in the end |
| Asgi.HandlerInterleaving | python/csilk/context.py:487-528 | under every interleaving, a coroutine handler that returns a value, returns nothing or raises gives one answer and one end |
| Asgi.HandlerCalls | python/csilk/context.py:503-528 | the exact native calls of a coroutine handler that returns a dictionary, another value, nothing, or raises |
| Asgi.Interleaved | python/csilk/context.py:542-550 | for any closures of a request, its calls are at each moment a prefix of what its closures do alone, whatever the other requests issue |
| Asgi.Context.ResponseWrite | python/csilk/context.py:480-485 | writes, and ends the response unless the request is asynchronous |
| Asgi.Context.Perform | python/csilk/asgi.py:127-165 | the closures do what the specification says to the context's flags and native calls |
| Asgi.Context.ResponseEnd | python/csilk/context.py:552-560 | ends the response once |
| Asgi.Dispatcher.Dispatch | python/csilk/context.py:542-550 | the table of closures by identity and the queue of identities together are a queue of closures, to which one is added |
| Asgi.Dispatcher.Take | python/csilk/context.py:165-176 | takes out the oldest closure, each exactly once, though identities are used again |
| HeaderDict.LookupIsLast | python/csilk/context.py:112-163 | after any operations a key is present exactly if the last operation on any spelling of it was a set, and has that value and spelling |
| HeaderDict.SameSize | python/csilk/context.py:112-163 | the inherited table has one entry per folded key |
| HeaderDict.CaseInsensitiveDict.SetItem | python/csilk/context.py:120-127 | replaces the entry of the folded key and keeps both tables in agreement, one spelling per key |
| HeaderDict.CaseInsensitiveDict.DelItem | python/csilk/context.py:132-135 | removes the entry under any spelling from both tables, or reports a missing key |
| HeaderDict.CaseInsensitiveDict.Update | python/csilk/context.py:146-155 | is the sequence of its sets |
| HeaderDict.CaseInsensitiveDict.Pop | python/csilk/context.py:157-163 | returns the value or the default, and removes the entry |
| Sessions.ReadIsLastSet | python/csilk/context.py:38-103 | with a clock that does not run backwards, a read returns a value if and only if that value was the last one set, nothing removed it, and no gap between successive touches is over 86400 seconds |
| Sessions.SessionsAreIndependent | python/csilk/context.py:38-60 | what a session holds, as long as it has not expired, depends on its own operations only |
| Sessions.Store.Prune | python/csilk/context.py:38-42 | removes exactly the expired sessions |
| Sessions.Store.GetItem | python/csilk/context.py:44-53 | returns the stored value and extends the session |
| Sessions.Store.SetItem | python/csilk/context.py:55-63 | stores the value, creating the session if needed, and extends it; fails without a session identifier |
| Sessions.Store.DelItem | python/csilk/context.py:65-69 | removes the key and does not extend the session |
| Sessions.Store.ContainsItem | python/csilk/context.py:71-77 | tells whether a read would find a value, and does not extend the session |
| Sessions.Store.PopItem | python/csilk/context.py:87-96 | returns what a read would find, or the default, and removes it |
| Sessions.Store.ClearAll | python/csilk/context.py:98-103 | removes all values of the session only |
| Sessions.Store.DestroySession | python/csilk/context.py:737-742 | removes the session without pruning the others |
| McpClient.EveryCall | python/csilk/mcp.py:65-114 | under every interleaving, identifiers count the requests; each call is settled by the first cancellation or reply that names it after it was issued, and stays pending until its reply |
| McpClient.SettledOnce | python/csilk/mcp.py:78-84 | a settled call keeps its outcome whatever follows |
| McpClient.StdioClient.Issue | python/csilk/mcp.py:98-114 | takes the next identifier and registers a fresh future for it |
| McpClient.StdioClient.Deliver | python/csilk/mcp.py:78-84 | settles the pending future of the identifier and no other one |
| McpClient.StdioClient.CancelCall | python/csilk/mcp.py:107-114 | cancelling the future of a call settles it if it waits, and leaves it pending |
| TtlCache.OneSlotPerKey | examples/middleware/example_observability.c:91-120 | in every run with keys under 128 characters at most one slot is active per key |
| TtlCache.HitIsLatest | examples/middleware/example_observability.c:38-58 | a hit returns the latest value stored for the key, cut to 4095 characters, and that store has not expired |
| TtlCache.HitReplaysRequest | examples/middleware/example_observability.c:91-120 | a hit returns the own body of an earlier request for the same path that was answered with 200 |
| TtlCache.ServedThenHit | examples/middleware/example_observability.c:91-120 | a request that misses, is answered with 200 and has a body is followed by hits on its path for 60 seconds and misses after that; without a body or with another status it is followed by misses |
| TtlCache.NothingCachedWithoutBodies | examples/middleware/example_observability.c:112-118 | if no request has a body, the cache stays empty and every look-up misses |
| TtlCache.LatestIsHit | examples/middleware/example_observability.c:38-85 | the latest value stored for a key is found until it expires, unless 64 other stores are no older |
| TtlCache.EvictsUnexpiredOnlyWhenAllAre | examples/middleware/example_observability.c:60-78 | a store gives up an unexpired entry only when all slots hold unexpired entries |
| TtlCache.EveryLookupCounts | examples/middleware/example_observability.c:38-58 | hits and misses add up to the look-ups |
| TtlCache.LongKeyNeverHits | examples/middleware/example_observability.c:60-85 | in no run is a key of 128 characters or more found |
| TtlCache.StoredIsFoundIffShort | examples/middleware/example_observability.c:60-85 | what is stored under a missing key is found under it exactly if the key has at most 127 characters |
| TtlCache.LongKeyServesItsPrefix | examples/middleware/example_observability.c:60-85 | a longer key's value is served for its first 127 characters |
| TtlCache.ResponseCache.Find | examples/middleware/example_observability.c:38-58 | the scan turns off expired slots of the key and returns the first that has not expired |
| TtlCache.ResponseCache.SlotToFill | examples/middleware/example_observability.c:60-78 | the first inactive slot, else the first that expires soonest |
| TtlCache.ResponseCache.Middleware | examples/middleware/example_observability.c:91-120 | look-up, and on a miss the store of the request's own body if it has one and was answered with 200 |
| ItemTable.EveryRun | examples/basic/example_rest_api.c:151-281 | every run of create, update, delete and toggle on the array does what the same operations do on a map by identifier; identifiers stay distinct and below the next one |
| ItemTable.StoredFields | examples/basic/example_rest_api.c:151-281 | which fields each operation leaves: an update replaces only the fields it is given, cut to 127 characters, a toggle only the flag; a new item is active, and there is none if there are 100 already or a field is empty |
| ItemTable.SwapIsMap | examples/basic/example_rest_api.c:245-248 | moving the last item into the deleted one's place removes exactly that item |
| ItemTable.PagesCover | examples/basic/example_rest_api.c:48-125 | for every list and page size, the announced pages one after the other are the list, and later pages are empty |
| ItemTable.HasNextIffExactEnd | examples/basic/example_rest_api.c:72 | the flag tells whether there is a next page exactly if the list ends with a full page here |
| ItemTable.OnlyPageClaimsNext | examples/basic/example_rest_api.c:72 | a list of one item claims a next page |
| ItemTable.Database.ListItems | examples/basic/example_rest_api.c:82-125 | the counting and skipping loops return the page of the filtered items and their total, after clamping the query |
| ItemTable.FilteredPicks | examples/basic/example_rest_api.c:98-122 | what is listed are exactly the items with the wanted flag, in the order of the table |
| ItemTable.Database.CreateItem | examples/basic/example_rest_api.c:151-190 | adds an item with the next identifier, or nothing when the table is full or a field is missing |
| ItemTable.Database.UpdateItem | examples/basic/example_rest_api.c:192-233 | changes the given fields of the first item with the identifier |
| ItemTable.Database.DeleteItem | examples/basic/example_rest_api.c:235-257 | removes the item by moving the last one |
| ItemTable.Database.ToggleItem | examples/basic/example_rest_api.c:259-281 | flips the active flag of the item |

## Left out

- The initial P-array and S-boxes are arbitrary, so nothing is claimed about published bcrypt vectors.
- The random salt is an input, and constant-time comparison is equality; OpenSSL and cipher dispatch are not part of this model.
- Bcrypt.Verify: a text with the prefix and a cost in range but fewer than 29 characters is excluded, because the code then copies from past its end.
- Base64.UrlDecode: the decoded length is unbounded, so a result over 2^31 bytes does not overflow as the C `int` would.
- Bit operations in the codecs are written as arithmetic on the same bits; the cipher keeps 32-bit words.
- Depends.Inject: only the wrapper is modelled; a handler without any marker is returned as it is.
- Depends.Request.Resolve: a dependency is a function of its keyword arguments; effects of calling it, and cyclic graphs, on which the code does not terminate, are left out.
- Permissions, input and output types and the other route metadata of the extended registration functions.
- RouteTrie.AddBelow: works on values, so the child array and its growth by doubling are not captured.
- RouteTrie.NextSegment: the vector variants of the segment scanner are not part of this model.
- Global middleware compiled into handler chains, and reclamation of old tries.
- Asgi.EveryInterleaving: header bytes are taken as decoded, the native queue as first in, first out, and cancellation of the coroutine is left out.
- The receive side of the ASGI adapter, which hands out the request body once and does not touch the response, its WebSocket branch and the lifespan protocol.
- HeaderDict.CaseInsensitiveDict.Update: the order of iteration of the source is the order of the given pairs; methods that the class does not override are left out.
- McpClient.StdioClient.Deliver: an identifier is a number; the subprocess, its pipes and malformed messages are left out.
- TtlCache.ResponseCache.Middleware: a request is served without another one in between, since the cache has no lock; a request that bypasses the cache does not touch it.
- ItemTable.Database.ListItems: the offset is unbounded, so overflow of a page number times the page size is left out, and so is JSON.
- The server, HTTP/2, message queue, Raft, workflow and arena code.
