# Verified models of sharerr

Sharerr shares a media library between friends: it discovers tagged files in the *arr
applications, seeds them through a torrent client, publishes a feed per friend, and keeps
track of where friends are reachable. This project models the parts of it that carry state
across calls or transform data, one module per component, and proves what each of them keeps
over every run.

| file | component |
|---|---|
| `Lighthouse.dfy` | the rendezvous table: pinning, TTL, skew guard, capacity, throttled sweep |
| `XmlRpc.dfy`, `XmlRpcGrammar.dfy` | the XML-RPC reply parser as a cursor over events, and the grammar it reads |
| `XmlRpcText.dfy`, `XmlRpcValues.dfy` | the literal characters and names both sides share, and layouts of every value |
| `XmlRpcRequest.dfy`, `XmlRpcCalls.dfy`, `RtorrentCommands.dfy` | requests as printed text and read back, command quoting, batch verdicts |
| `PeerEndpoints.dfy` | the bounded history of sightings per friend |
| `TouchPeer.dfy`, `FaultCountdown.dfy` | two concurrent protocols, as interleavings of atomic steps |
| `AdvertisedEndpoint.dfy` | the bounded history of this instance's own addresses |
| `Paths.dfy` | translation between the three views of the library |
| `Trackers.dfy` | tracker lists of qBittorrent and Deluge torrents |
| `Numbering.dfy` | which episode names a shared file |
| `Transfers.dfy` | byte totals |
| `SharedItems.dfy`, `Media.dfy` | the item table and its lifecycle |
| `Feed.dfy` | the access rule, in memory and as SQL, and the summaries |
| `Slugs.dfy`, `Discovery.dfy`, `Audience.dfy` | from an *arr tag, through discovery and the stored audience, to a friend's feed |
| `Basics.dfy` | optional values, 64-bit ranges, ASCII folding |

`dafny verify dfyconfig.toml` checks everything.

Stateful code is a class whose methods are proved equal to a step function on values; what the
source promises over whole runs is proved about that function. Clocks are parameters of each
step and are never assumed to grow. Signature checks, decoys and hashes are parameters. Each
SQL statement of `touch_peer`, and each transaction elsewhere, is one atomic step.

## Where the code is narrower than its comments

- `observe` is documented as reporting a change of the advertised endpoint; it reports a change
  of the last observation. `AdvertisedEndpoint.SignalVersusCurrent` states the one difference.
- `resolve_sharerr` is documented as giving a file the same qBittorrent path as `resolve`. That
  depends on the rules: `Paths.AgreementIffCoherent` and `Paths.PassThroughIffTransparent` say
  exactly on which, and `Paths.NestedMountsDisagree` shows a set that fails.
- A lighthouse slot remembers `signed_at` only while it is occupied
  (`Lighthouse.SweptSlotAcceptsOlder`).
- A bare string reply loses whitespace-only text in front of its first entity
  (`XmlRpcGrammar.BareReadBackIff`).
- A stale tracker URL holding a `|` is not removed, and its pieces are
  (`Trackers.ReplacedExactlyIff`).
- The lookup route is documented as answering a malformed key hash with a decoy. It looks the
  input up by its own hash, and an API key is such an input whose hash is on file
  (`Lighthouse.MalformedGetsDecoyIff`, `Lighthouse.ApiKeyFindsItsRecord`).
- `replace_audience` is documented as never letting an item read as being for everyone in
  between. It drops the rows of every file discovery did not walk, and runs before those items
  are withdrawn: an entity that lost its last sharing tag, a file replaced under a new id, a
  file the application's walk drops. `Audience.FollowsTagsIffWalked` states the exact condition,
  the three `...ServedToAnyone` lemmas give the cases, and `Audience.FeedAfterWithdrawal` shows
  that the promise holds again at the end of the pass.

## Model

| member | source | states |
|---|---|---|
| `Lighthouse.NeverDisplaced` | crates/sharerr-lighthouse/src/lib.rs:310-368 | Over every run of reports, on any clocks: a holder whose record never reaches the TTL keeps the slot, under the same keypair, with a record no older |
| `Lighthouse.PubkeyChangeNeedsLapse` | crates/sharerr-lighthouse/src/lib.rs:310-368 | A slot's public key (ignoring hex case) differs at two points of a run only if at some step between them the record then held had lapsed on that step's clock, whether overwritten in place or swept and reclaimed |
| `Lighthouse.TakeoverIffLapsed` | crates/sharerr-lighthouse/src/lib.rs:330-345 | A genuine, newer report by another keypair takes an occupied slot if and only if the record there has lapsed; otherwise the old record stays |
| `Lighthouse.ReachableIsSound` | crates/sharerr-lighthouse/src/lib.rs:315-366 | Every reachable table holds at most `MAX_RECORDS` entries, under keys of 64 lowercase hex digits, and only records that verified |
| `Lighthouse.OthersUntouched` | crates/sharerr-lighthouse/src/lib.rs:346-366 | A report under one key hash never removes or alters an unexpired record under another and never makes one up, even when it sweeps and is then refused |
| `Lighthouse.SweepBudget` | crates/sharerr-lighthouse/src/lib.rs:346-360 | `n` sweeps need a clock of at least `n` sweep intervals, however many reports flood a full table |
| `Lighthouse.SweepsApart` | crates/sharerr-lighthouse/src/lib.rs:346-360 | Any two sweeps of a run are at least `SWEEP_INTERVAL_SECS` apart on their own clocks |
| `Lighthouse.StoredIsLastAccepted` | crates/sharerr-lighthouse/src/lib.rs:310-381 | Whatever is stored is the last record accepted under its key hash, and the slot has been occupied ever since |
| `Lighthouse.AcceptedStrictlyNewer` | crates/sharerr-lighthouse/src/lib.rs:337-366 | While a slot stays occupied each accepted report is signed strictly later than the one accepted before it |
| `Lighthouse.FastClockRecovers` | crates/sharerr-lighthouse/src/lib.rs:322-345 | No slot is locked by a fast clock: the pinned key, signing more than the skew past the clock that stored the current record, is accepted in every reachable state |
| `Lighthouse.SweptSlotAcceptsOlder` | crates/sharerr-lighthouse/src/lib.rs:346-366 | Why occupancy matters: a report the occupied slot would refuse as stale is accepted once another report has swept the lapsed record away |
| `Lighthouse.SweptRunAcceptsOlder` | crates/sharerr-lighthouse/src/lib.rs:346-366 | A whole run, from the empty table, that gets there |
| `Lighthouse.RefusedAtTheDoor` | crates/sharerr-lighthouse/src/lib.rs:315-326 | A bad key hash, an unverified record and a signature more than 300 seconds ahead are each refused exactly then, in that order, and change nothing |
| `Lighthouse.OccupiedSlot` | crates/sharerr-lighthouse/src/lib.rs:332-352 | On an occupied slot: a mismatch exactly while the record is under 30 days old and the keys differ, before anything is said of staleness; otherwise accepted exactly if signed later; nothing else moves |
| `Lighthouse.FreshSlot` | crates/sharerr-lighthouse/src/lib.rs:353-367 | From every state with room, a fresh key hash is accepted and stored, and nothing else moves |
| `Lighthouse.FullTable` | crates/sharerr-lighthouse/src/lib.rs:353-367 | At capacity a fresh key hash is refused untouched within a minute of the last sweep; after it the lapsed records go, and it is accepted exactly if that made room |
| `Lighthouse.KeyHashShape` | crates/sharerr-lighthouse/src/lib.rs:157-160 | A key hash is exactly 64 of the hex digits, listed one by one |
| `Lighthouse.LighthouseState.Report` | crates/sharerr-lighthouse/src/lib.rs:310-368 | The method as written answers and leaves exactly what the step function says, from any state |
| `Lighthouse.LighthouseState.LookupRoute` | crates/sharerr-lighthouse/src/lib.rs:538-553 | Any letter case of a stored key hash finds its record; a malformed key hash is looked up by its own hash, and gets the record on file under that, or else the decoy for it |
| `Lighthouse.MalformedGetsDecoyIff` | crates/sharerr-lighthouse/src/lib.rs:516-553 | In every reachable state a malformed key hash is answered by a decoy if and only if its own hash is not on file |
| `Lighthouse.ApiKeyFindsItsRecord` | crates/sharerr-lighthouse/src/lib.rs:538-553 | Any 40-digit API key is malformed as a key hash, and looking it up returns the real record reported under its hash |
| `XmlRpcGrammar.ParserIsTheGrammar` | crates/sharerr-rtorrent/src/xmlrpc.rs:170-332 | The parser reads exactly the grammar: an event stream parses to `v` leaving `k` if and only if it is some legal layout of `v` followed by `k` |
| `XmlRpcGrammar.ValueReadBack` | crates/sharerr-rtorrent/src/xmlrpc.rs:170-332 | Parsing any layout of a value followed by any events returns that value and exactly those events, for every placement of whitespace, every split of text into text, CDATA and entity events, and both spellings of an empty array |
| `XmlRpcValues.EveryValueReadBack` | crates/sharerr-rtorrent/src/xmlrpc.rs:170-332 | Every value tree has a layout, and is read back from in front of any events |
| `XmlRpcGrammar.ReplyReadBack` | crates/sharerr-rtorrent/src/xmlrpc.rs:124-147 | The first `<param>` of a reply decodes to its value and the first `<fault>` to its message, whatever precedes and follows |
| `XmlRpcGrammar.FaultTextWhereverItStands` | crates/sharerr-rtorrent/src/xmlrpc.rs:155-167 | The fault text does not depend on the position of its member |
| `XmlRpcGrammar.BareReadBackIff` | crates/sharerr-rtorrent/src/xmlrpc.rs:170-190 | A bare `<value>` string is read back as its text if and only if no non-empty whitespace-only piece leads it and it does not open with CDATA |
| `XmlRpcGrammar.BareLosesLeadingSpace` | crates/sharerr-rtorrent/src/xmlrpc.rs:310-317 | A concrete bare string whose leading space is dropped as layout |
| `XmlRpcText.IntegerReadBack` | crates/sharerr-rtorrent/src/xmlrpc.rs:193-201 | Under each of `i4`, `int` and `i8` every 64-bit integer is read back, however its text is cut and whatever white space surrounds it |
| `XmlRpcText.IntegerElementRefused` | crates/sharerr-rtorrent/src/xmlrpc.rs:195-201 | An integer element holding anything but white space, digits and signs is refused with its text |
| `XmlRpcText.IntegerRange` | crates/sharerr-rtorrent/src/xmlrpc.rs:195-201 | Exactly the magnitudes of 64 signed bits are read, with either sign or none |
| `XmlRpcText.OtherTypesRefused` | crates/sharerr-rtorrent/src/xmlrpc.rs:202-203 | A type other than the six known ones is refused by name |
| `XmlRpcText.LayoutSkippedIff` | crates/sharerr-rtorrent/src/xmlrpc.rs:310-317 | Text is skipped where a tag is expected if and only if it is all spaces, tabs, line feeds, carriage returns and form feeds |
| `XmlRpcText.CharRefReadBack` | crates/sharerr-rtorrent/src/xmlrpc.rs:289-308 | Decimal and hexadecimal character references read back as the character they number, and are refused exactly when none has that number |
| `XmlRpcText.CharRefRefused` | crates/sharerr-rtorrent/src/xmlrpc.rs:289-308 | A character reference with no digits, or with anything but digits of its base, is refused |
| `XmlRpcText.EntityIs` | crates/sharerr-rtorrent/src/xmlrpc.rs:289-308 | The five predefined entities, each with its character, and no others |
| `XmlRpcText.FaultReported` | crates/sharerr-rtorrent/src/xmlrpc.rs:124-167 | Every fault reply with an `<i4>` code and a `faultString` reports that string |
| `XmlRpcText.FirstFaultStringWins` | crates/sharerr-rtorrent/src/xmlrpc.rs:155-167 | Of several string members named `faultString` the first is the message, and a struct without one keeps its debug form |
| `XmlRpcText.NothingToRead` | crates/sharerr-rtorrent/src/xmlrpc.rs:142-145 | A reply without `<param>` or `<fault>` is an error that says so |
| `XmlRpc.Reader.NextStructuralEvent` | crates/sharerr-rtorrent/src/xmlrpc.rs:310-317 | The loop skips exactly the whitespace-only text and leaves the cursor after the event it returns |
| `XmlRpc.Reader.ExpectEvent` | crates/sharerr-rtorrent/src/xmlrpc.rs:319-332 | The wanted tag after layout whitespace, or an error naming what stood there |
| `XmlRpc.Reader.ReadTextUntilEnd` | crates/sharerr-rtorrent/src/xmlrpc.rs:268-308 | Appends the text, CDATA and resolved entities up to the closing tag to what was already read |
| `XmlRpc.Reader.ReadElementText` | crates/sharerr-rtorrent/src/xmlrpc.rs:261-265 | The text of an element whose opening tag has been consumed |
| `XmlRpc.Reader.Value` | crates/sharerr-rtorrent/src/xmlrpc.rs:170-207 | The cursor-driven parser computes the recursive `ParseValue` on the remaining events and leaves its remainder |
| `XmlRpc.Reader.Typed` | crates/sharerr-rtorrent/src/xmlrpc.rs:189-203 | The element inside a `<value>`: array, struct, string, integer or an unsupported type |
| `XmlRpc.Reader.ArrayItems` | crates/sharerr-rtorrent/src/xmlrpc.rs:209-232 | The pushing loop collects the items the grammar lists, in order, or the same error |
| `XmlRpc.Reader.StructMember` | crates/sharerr-rtorrent/src/xmlrpc.rs:239-244 | One member: its name and value, in that order |
| `XmlRpc.Reader.StructMembers` | crates/sharerr-rtorrent/src/xmlrpc.rs:234-252 | The pushing loop collects the members the grammar lists, in order, or the same error |
| `XmlRpc.Reader.Response` | crates/sharerr-rtorrent/src/xmlrpc.rs:124-147 | The reply loop decides as `ParseResponse` does and terminates on the remaining events |
| `XmlRpcRequest.MulticallReadBack` | crates/sharerr-rtorrent/src/xmlrpc.rs:45-92 | A printed multicall of string and integer parameters, tokenised and read by the reply parser's grammar, is the same calls with the same parameters in the same order |
| `XmlRpcRequest.MulticallUnambiguous` | crates/sharerr-rtorrent/src/xmlrpc.rs:45-69 | No two batches of string and integer calls print alike |
| `XmlRpcRequest.LexPrint` | crates/sharerr-rtorrent/src/xmlrpc.rs:25-92 | Tokenising a printed document gives its events, whatever characters its escaped text holds |
| `XmlRpcRequest.PiecesSayIt` | crates/sharerr-rtorrent/src/xmlrpc.rs:268-308 | Escaped text, which comes back split at every entity, is put together to the original string |
| `XmlRpcRequest.DecimalReadBack` | crates/sharerr-rtorrent/src/xmlrpc.rs:74-92 | Every 64-bit integer is read back from the decimal text it is printed as |
| `XmlRpcCalls.RequestReadBack` | crates/sharerr-rtorrent/src/xmlrpc.rs:25-36 | A printed call of string and integer parameters, tokenised and read, is the same method name with the same parameters in the same order |
| `XmlRpcCalls.MulticallIsACall` | crates/sharerr-rtorrent/src/xmlrpc.rs:45-69 | A printed multicall is a call of `system.multicall` whose one argument is the array of calls |
| `XmlRpcText.EscapeIs` | crates/sharerr-rtorrent/src/xmlrpc.rs:74-80 | Five characters are escaped, each by its name, and every other stands for itself |
| `XmlRpcText.EscapeJoins` | crates/sharerr-rtorrent/src/xmlrpc.rs:74-80 | Escaping goes character by character |
| `XmlRpcText.DecimalIsCanonical` | crates/sharerr-rtorrent/src/xmlrpc.rs:81-85 | Integers are printed one way: a minus sign exactly for negative ones, and no leading zero |
| `XmlRpcText.DocumentOpens` | crates/sharerr-rtorrent/src/xmlrpc.rs:25-36 | How a call document opens, literally |
| `XmlRpcText.ParamText` | crates/sharerr-rtorrent/src/xmlrpc.rs:74-92 | The text of each kind of parameter, literally |
| `XmlRpcRequest.MulticallRequestXml` | crates/sharerr-rtorrent/src/xmlrpc.rs:45-69 | The appending loops print the multicall document of the calls |
| `XmlRpcRequest.RequestXml` | crates/sharerr-rtorrent/src/xmlrpc.rs:25-36 | The appending loop prints the document of one call |
| `XmlRpcRequest.WriteParamValue` | crates/sharerr-rtorrent/src/xmlrpc.rs:74-92 | Appends one parameter's typed element, escaped, to what was already written |
| `RtorrentCommands.QuotingReadBack` | crates/sharerr-rtorrent/src/xmlrpc.rs:97-108 | Quoting is invertible for every string in every context: read up to its first unescaped quote, a quoted argument followed by anything gives back the string and exactly what followed, so the closing quote is the only unescaped one |
| `RtorrentCommands.EscapesOnlyWhatItMust` | crates/sharerr-rtorrent/src/xmlrpc.rs:97-108 | Quoting adds one character per quote or backslash and leaves every other text as it is |
| `RtorrentCommands.QuoteCommandArg` | crates/sharerr-rtorrent/src/xmlrpc.rs:97-108 | The loop writes the quoted form that `QuotingReadBack` inverts |
| `RtorrentCommands.CallMany` | crates/sharerr-rtorrent/src/client.rs:86-130 | A batch succeeds if and only if the reply is an array with one one-element row per call; otherwise the verdict is that of the first failed row, named by its own call |
| `PeerEndpoints.KeepsTheNewest` | crates/sharerr-store/src/endpoints.rs:84-192 | For any history limit and any run over any peers, the rows kept for a (peer, kind) are the newest entries of the unbounded record, up to which of several equally old addresses is kept |
| `PeerEndpoints.LogIsGreatest` | crates/sharerr-store/src/endpoints.rs:141-176 | That record maps each address ever put on record to the greatest clamped timestamp it was recorded with |
| `PeerEndpoints.ReplayChangesNothing` | crates/sharerr-store/src/endpoints.rs:84-192 | A sighting older than what its address was ever recorded with changes nothing, even after that address has been pruned away |
| `PeerEndpoints.KeptRowIsASighting` | crates/sharerr-store/src/endpoints.rs:141-192 | Over every run each row kept has the timestamp and source of some recorded sighting of its address, at most 300 seconds ahead of the clock that recorded it |
| `PeerEndpoints.StampIs` | crates/sharerr-store/src/endpoints.rs:150-161 | A timestamp within 300 seconds of the clock is kept as given, one past that becomes that bound, and a missing one is the clock |
| `PeerEndpoints.RecordDecides` | crates/sharerr-store/src/endpoints.rs:84-192 | What one sighting does to its history, row by row: which ids, timestamps and sources, and which rows stay |
| `PeerEndpoints.PruneDropsOldest` | crates/sharerr-store/src/endpoints.rs:173-186 | With one row too many the `DELETE` drops exactly the oldest by timestamp, then id |
| `PeerEndpoints.GapFillNeverOverwrites` | crates/sharerr-store/src/endpoints.rs:91-94 | A sighting without a timestamp leaves an address already held as it was |
| `PeerEndpoints.OtherGroupsUntouched` | crates/sharerr-store/src/endpoints.rs:173-186 | Recording for one (peer, kind) leaves every other history as it was |
| `PeerEndpoints.EndpointStore.RecordPeerEndpoint` | crates/sharerr-store/src/endpoints.rs:141-192 | The transaction (clamp, upsert or insert, prune only when a row was written) leaves exactly the specified table |
| `TouchPeer.FirstContactIsUnique` | crates/sharerr-store/src/peers.rs:426-456 | In every interleaving of any number of calls on a never-seen peer at most one answers `First`; while the peer is not deleted exactly one does once any call has finished |
| `TouchPeer.LastSeenNeverMovesBack` | crates/sharerr-store/src/peers.rs:426-456 | Over any stretch of any interleaving `last_seen_at` neither decreases nor becomes NULL again |
| `TouchPeer.RefreshesArePaced` | crates/sharerr-store/src/peers.rs:426-456 | After `n` refreshes `last_seen_at` is more than `n` windows past the first contact, whatever stale clock each caller holds |
| `TouchPeer.StaleReadRefreshes` | crates/sharerr-store/src/peers.rs:441-455 | At any point of any run a caller holding an old time refreshes with its next step if the row is still more than 300 seconds behind its clock |
| `TouchPeer.CallDecides` | crates/sharerr-store/src/peers.rs:426-456 | An uninterrupted call is `First` if and only if never seen, `Refreshed` if and only if last seen more than 300 seconds ago, each writing its clock, and otherwise writes nothing |
| `TouchPeer.UpdateDecides` | crates/sharerr-store/src/peers.rs:436-455 | The update decides by what the row has become since the read |
| `TouchPeer.StepMovesForward` | crates/sharerr-store/src/peers.rs:433-455 | A `Refreshed` write moves `last_seen_at` by more than 300 seconds, a `First` one only leaves NULL, and nothing else writes |
| `TouchPeer.PeerRow.TouchPeer` | crates/sharerr-store/src/peers.rs:426-456 | One uninterrupted call is the two statements of the interleaving model in sequence |
| `FaultCountdown.ExactlyNGranted` | crates/sharerr-store/src/fault.rs:59-70 | In every interleaving of loads and compare-exchanges a countdown armed at `n` answers `false` to the first `n` ticks that finish and `true` to every later one |
| `FaultCountdown.RetriesAreBounded` | crates/sharerr-store/src/fault.rs:62-69 | No tick loses more than `n` exchanges |
| `FaultCountdown.DisarmedNeverFires` | crates/sharerr-store/src/fault.rs:57-64 | A disarmed countdown never answers `true` and never arms itself |
| `FaultCountdown.Countdown.Tick` | crates/sharerr-store/src/fault.rs:59-70 | The loop as written, with any steps of other ticks before each turn, terminates and fires exactly when the first `n` answers are used up |
| `AdvertisedEndpoint.ListRefinesLog` | crates/sharerr-core/src/endpoint.rs:162-240 | Over any run of `observe`, `set_static` and `forget_dynamic` the list is the first four distinct bases of the reversed log since the last forget, with their latest times |
| `AdvertisedEndpoint.AdvertisedOverRuns` | crates/sharerr-core/src/endpoint.rs:162-240 | Over any run the current base is the last observed since the last forget, or else the last static base set, and at most four are remembered |
| `AdvertisedEndpoint.DistinctHoldsLatest` | crates/sharerr-core/src/endpoint.rs:201-231 | The distinct entries of the log are exactly the latest observation of each base |
| `AdvertisedEndpoint.ObserveSignalsChange` | crates/sharerr-core/src/endpoint.rs:195-231 | `observe` answers `false` if and only if the base is the last one observed since the last forget |
| `AdvertisedEndpoint.SignalVersusCurrent` | crates/sharerr-core/src/endpoint.rs:174-231 | `current` changes if and only if `observe` answers `true`, except on a first observation of the static base |
| `AdvertisedEndpoint.AnnounceList` | crates/sharerr-core/src/endpoint.rs:236-253 | `recent` has no duplicates, leads with `current`, holds the static base and every remembered one, and nothing else |
| `AdvertisedEndpoint.AdvertisedEndpoint.Observe` | crates/sharerr-core/src/endpoint.rs:201-231 | Refresh in place, or retain, push to the front and truncate: the specified next list and signal |
| `AdvertisedEndpoint.AdvertisedEndpoint.RecentBases` | crates/sharerr-core/src/endpoint.rs:242-253 | The list `AnnounceList` is about |
| `Paths.AgreementIffCoherent` | crates/sharerr-core/src/paths.rs:73-160 | The two resolvers agree on every path a rule rewrites if and only if the rule set is coherent: every rule that can rewrite leads somewhere absolute, and two rules that overlap on the sharerr side lead to the same qBittorrent place |
| `Paths.PassThroughIffTransparent` | crates/sharerr-core/src/paths.rs:73-160 | On every path no rule rewrites they agree if and only if each library mount no *arr rule covers is one qBittorrent sees at the same place |
| `Paths.SameRuleAgrees` | crates/sharerr-core/src/paths.rs:115-137 | Whenever the same rule wins on both sides an *arr path and its translated sharerr path get the same qBittorrent path |
| `Paths.ArrPathResolves` | crates/sharerr-core/src/paths.rs:73-100 | An *arr path keeps its own view and is rewritten under both other prefixes of the winning rule, or passes through exactly when none matches |
| `Paths.LibraryPathResolves` | crates/sharerr-core/src/paths.rs:115-131 | A library path is its own view on both sides; its qBittorrent view is rewritten exactly if the winning rule names one |
| `Paths.RelativeRefused` | crates/sharerr-core/src/paths.rs:61-76 | Exactly the relative paths are refused, whoever reports them |
| `Paths.NestedMountsDisagree` | crates/sharerr-core/src/paths.rs:105-116 | Two concrete rules under which the same file gets two qBittorrent paths |
| `Paths.WinnerFound` | crates/sharerr-core/src/paths.rs:145-160 | The rule chosen is the one in force with the longest component-wise matching prefix, the last one where prefixes are equal |
| `Paths.OrderDoesNotMatter` | crates/sharerr-core/src/paths.rs:132-160 | With distinct prefixes every permutation of the rules chooses the same one |
| `Trackers.ReplacedExactlyIff` | crates/sharerr-qbit/src/torrents.rs:177-197 | Replacing ends with exactly the wanted URLs and the untouched `**` entries if and only if no stale URL holds the bar character the remove request is joined with |
| `Trackers.BarTakesAway` | crates/sharerr-qbit/src/torrents.rs:184-192 | Any stale URL with one bar stays, and the part before the bar is removed instead, even where it is wanted |
| `Trackers.BarInStaleUrl` | crates/sharerr-qbit/src/torrents.rs:184-192 | Two concrete URLs for which that happens |
| `Trackers.AddedHasEverything` | crates/sharerr-qbit/src/torrents.rs:177-182 | From the add step on every wanted URL is present and nothing listed is gone, even if the remove step never runs |
| `Trackers.ReplacingTwice` | crates/sharerr-qbit/src/torrents.rs:177-197 | A second replacement changes nothing, not even the order, whatever was listed |
| `Trackers.JoinSplit` | crates/sharerr-qbit/src/torrents.rs:276-292 | A non-empty list survives the joined request if none of its URLs holds the separator |
| `Trackers.MissingInOrder` | crates/sharerr-client/src/lib.rs:333-339 | The missing URLs are exactly the unlisted ones, in the order asked for |
| `Trackers.QbitTorrent.SetTorrentTrackers` | crates/sharerr-qbit/src/torrents.rs:177-197 | Add, then remove what is stale: the specified list |
| `Trackers.QbitTorrent.AddTorrentTrackers` | crates/sharerr-qbit/src/torrents.rs:204-217 | The add half alone |
| `Trackers.DelugeKeepsAllBehind` | crates/sharerr-deluge/src/lib.rs:438-462 | Every tracker that was there stays, in order and at its tier distances, strictly behind every new one; the new ones are the missing URLs in the order asked for, each in its own tier |
| `Trackers.DelugeAddingTwice` | crates/sharerr-deluge/src/lib.rs:438-451 | Adding the same URLs again changes nothing |
| `Trackers.DelugeTorrent.AddTrackers` | crates/sharerr-deluge/src/lib.rs:438-462 | Reads, tiers, shifts and rewrites the list to the specified one |
| `Numbering.NumberingByFile` | crates/sharerr-arr/src/sonarr.rs:135-159 | A file is in the index if and only if an episode with a non-zero file id names it, under the minimum-rank such episode |
| `Numbering.OrderDoesNotMatter` | crates/sharerr-arr/src/sonarr.rs:135-159 | Every permutation of the episode list gives the same index |
| `Numbering.LowestRegularNames` | crates/sharerr-arr/src/sonarr.rs:127-139 | The lowest-numbered regular episode names the file, whatever specials share it |
| `Numbering.LowestSpecialNames` | crates/sharerr-arr/src/sonarr.rs:131-139 | A file only specials share is named by the lowest-numbered of them |
| `Numbering.SpecialsLast` | crates/sharerr-arr/src/sonarr.rs:131-139 | A special never names a file it shares with a regular episode |
| `Transfers.BytesAreConserved` | crates/sharerr-store/src/transfers.rs:36-73 | Over every run of creations, deletions and transfers, in both directions: the instance total is everything reported, and it is what live friends hold plus what deleted ones had plus what was credited to nobody |
| `Transfers.RowsHoldTheirOwn` | crates/sharerr-store/src/transfers.rs:60-70 | Over every run each live friend's two figures are exactly what was reported for that friend, in that direction, since it was created |
| `Transfers.OtherFriendsUntouched` | crates/sharerr-store/src/transfers.rs:60-70 | A transfer for one friend leaves every other friend's row as it was |
| `Transfers.TransferStore.Record` | crates/sharerr-store/src/transfers.rs:36-73 | The transaction adds the saturated delta to the total and to the friend's row if there is one |
| `Transfers.TransferStore.DeletePeer` | crates/sharerr-store/src/peers.rs:631-634 | Removes the row, leaves the total, and says whether there was one |
| `SharedItems.RediscoveryNeverInterferes` | crates/sharerr-store/src/db.rs:302-686 | Rediscoveries, with or without media, scattered anywhere through any run of updates leave hash, v2 hash, fingerprint, ownership, privacy, ratios and `created_at` of every item exactly as without them and never blank its media; if none carries media that column ends the same too |
| `SharedItems.RediscoveryResetsTheRest` | crates/sharerr-store/src/db.rs:323-377 | State, error, description and media it knows are what a rediscovery does replace |
| `SharedItems.HashLostOnlyToRebuild` | crates/sharerr-store/src/db.rs:332-337 | A known info hash is lost only to a rebuild |
| `SharedItems.CreatedAtNeverMoves` | crates/sharerr-store/src/db.rs:298-302 | `created_at` stays what the first insertion wrote, whatever run of updates follows |
| `SharedItems.HashIsTheLastRecorded` | crates/sharerr-store/src/db.rs:332-337 | Over every run an item holds the last hash recorded for it, and none after a rebuild |
| `SharedItems.FirstUpsert` | crates/sharerr-store/src/db.rs:302-325 | A first discovery stores what it was given, both times the present |
| `SharedItems.LaterUpsert` | crates/sharerr-store/src/db.rs:325-362 | A later upsert describes the file afresh, fills in what it knows of the torrent and blanks nothing, and leaves ownership, privacy, the v2 hash and `created_at` alone |
| `SharedItems.SeedingLeaves` | crates/sharerr-store/src/db.rs:461-486 | A share that landed: hash, fingerprint, ownership and state together, no v2 hash, privacy only where known, the rest as it was |
| `SharedItems.ReportsLeave` | crates/sharerr-store/src/db.rs:500-544 | A confirmation and a ratio report write just their own columns and agree on the ratios |
| `SharedItems.StateAndV2Leave` | crates/sharerr-store/src/db.rs:421-436 | A state change and a v2 hash write just their own columns |
| `SharedItems.RebuildForgets` | crates/sharerr-store/src/db.rs:671-683 | A rebuild loses hashes, fingerprint and ownership, and keeps the file's columns, media, ratios and age |
| `SharedItems.OneRowAtATime` | crates/sharerr-store/src/db.rs:394-418 | An update touches its own row alone, and only an upsert can make one |
| `Feed.FilterMeansAdmits` | crates/sharerr-store/src/db.rs:788-834 | For every scope and item the compiled clause, evaluated with its positional binds, selects exactly the seeding rows with a hash that the in-memory rule admits |
| `Feed.BindsMatchPlaceholders` | crates/sharerr-store/src/db.rs:788-823 | Every placeholder has its value and no value is left over |
| `Feed.SeedingMembers` | crates/sharerr-store/src/db.rs:258-270 | An item is in the scoped query's result if and only if it is stored, seeding with a hash, and in scope |
| `Feed.FeedMembers` | crates/sharerr-store/src/peers.rs:157-173 | Everything a feed holds: seeding with a hash, in scope, within the caps where they are set and the height is known, and for everyone or that friend by name |
| `Feed.FeedInOrder` | crates/sharerr-store/src/peers.rs:584-592 | A feed keeps the order of the rows, and each row's copies |
| `Feed.ScopeShows` | crates/sharerr-store/src/peers.rs:67-121 | Scope by scope, which application and which directory kind is shown |
| `Feed.DirectoryLikeItsApp` | crates/sharerr-store/src/peers.rs:67-121 | A directory item is visible exactly where an item of that kind's application is, and Whisparr is for `All` alone |
| `Feed.CountedIsTheFeed` | crates/sharerr-store/src/peers.rs:584-619 | Filtering the unscoped list by the in-memory rules lists the same items in the same order as the friend's own feed |
| `Feed.SeedingSummaries` | crates/sharerr-store/src/peers.rs:598-619 | Each friend's summary is the count and saturated size of their own feed |
| `Feed.SummarizeFor` | crates/sharerr-store/src/peers.rs:606-616 | Saturating at every addition gives the saturated total |
| `Audience.FeedFollowsTags` | crates/sharerr-arr/src/client.rs:205-254 | For every stored item: after discovery and `replace_audience`, an in-scope, within-caps seeding item reaches a friend's feed if and only if the entity that yields its file carries the tag named `tagName` or one named `<tag>-<friend>` with that friend's slug, ignoring case, or discovery did not walk its file |
| `Audience.NoLabelNoChange` | crates/sharerr-arr/src/client.rs:205-215 | With no tag of that name discovery fails and nothing is replaced |
| `Audience.FollowsTagsIffWalked` | crates/sharerr-store/src/peers.rs:532-580 | The exact condition: every friend is served an item as its entity's tags say if and only if discovery walked its file or the entity carries the plain tag |
| `Audience.FeedAfterWithdrawal` | crates/sharerr/src/sync/mod.rs:693-697 | Once what was not found has been withdrawn there is no exception: an item is in a friend's feed if and only if its entity's tags name them |
| `Audience.WithdrawUntagged` | crates/sharerr/src/sync/mod.rs:1215-1250 | Marks exactly the rows of the source that discovery did not find and that are still shared, and counts them |
| `Audience.WithdrawalIsScoped` | crates/sharerr/src/sync/mod.rs:1222-1234 | Withdrawing changes only the state, only of what is still shared and not found, and only of its own source |
| `Audience.UnwalkedReadsAsEveryone` | crates/sharerr-store/src/peers.rs:537-580 | Replacing an audience leaves every stored item whose file was not walked without one, which reads as everyone |
| `Audience.UntaggedServedToAnyone` | crates/sharerr/src/sync/mod.rs:604-614 | Until it is withdrawn, any friend is served a film that has lost its friend tag |
| `Audience.UpgradedServedToAnyone` | crates/sharerr/src/sync/mod.rs:604-614 | Until it is withdrawn, any friend is served the old file of a film that still carries another friend's tag and whose file was replaced under a new id |
| `Audience.UnlinkedServedToAnyone` | crates/sharerr-arr/src/sonarr.rs:84-94 | Until it is withdrawn, any friend is served a file of a series that still carries another friend's tag and lists the file, when no episode links it |
| `Audience.AudienceReadsBack` | crates/sharerr-store/src/peers.rs:157-163 | A walked item's stored audience admits exactly the friends its entity's tags name |
| `Audience.StoredAudience` | crates/sharerr-store/src/peers.rs:537-580 | What is read back for an item of the replaced source is what discovery recorded for its file |
| `Audience.OtherSourcesUntouched` | crates/sharerr-store/src/peers.rs:537-580 | Replacing one source's audience leaves every other source's as it was |
| `Audience.AudienceStore.ReplaceAudience` | crates/sharerr-store/src/peers.rs:537-580 | The source's rows become the wanted ones; nothing is written if and only if they already were |
| `Discovery.DiscoverWithAudience` | crates/sharerr-arr/src/client.rs:223-254 | An error if and only if no tag bears the name; otherwise every file walked under the first that does, and the audience map `MapIsAudience` is about |
| `Discovery.FindTagFinds` | crates/sharerr-arr/src/client.rs:205-215 | The tag found is the first bearing the name, ignoring case, and none is found exactly when none bears it |
| `Discovery.FriendOfIff` | crates/sharerr-arr/src/client.rs:227-235 | A tag names a friend if and only if it reads `<tag>-<friend>`, ignoring case |
| `Discovery.WhatAWalkYields` | crates/sharerr-arr/src/sonarr.rs:48-94 | What a series in either order, a film and a parented entity yield, file by file |
| `Discovery.MapIsAudience` | crates/sharerr-arr/src/client.rs:239-252 | With distinct file ids a file has an entry if and only if it was walked without the plain tag, holding the names of the friend tags on its entity |
| `Discovery.AudienceNeverEmpty` | crates/sharerr-arr/src/client.rs:234-252 | What is walked without the plain tag records at least one name, so no list reads as everyone |
| `Discovery.WalkedFrom` | crates/sharerr-arr/src/lib.rs:66-86 | A file is walked, with its entity's tags, if and only if that entity carries one of the tags asked for and its application's walk yields the file |
| `Discovery.WalkInOrder` | crates/sharerr-arr/src/lib.rs:66-86 | Files are walked in the order of their entities, each entity's together |
| `Discovery.WalkSeries` | crates/sharerr-arr/src/sonarr.rs:43-116 | The Sonarr walk yields the listed files some episode links, in order, and none of a series in an alternate order |
| `Discovery.JoinedFiles` | crates/sharerr-arr/src/lib.rs:102-128 | The other walks yield exactly the files whose parent is listed |
| `Discovery.FriendTags` | crates/sharerr-arr/src/client.rs:227-235 | The tags named `<tag>-<friend>`, ignoring case, with the friend each names |
| `Discovery.SlugTagNamesFriend` | crates/sharerr-store/src/peers.rs:175-191 | The tag `<tag>-<slug>` names exactly the friend with that slug |
| `Slugs.FriendSlug` | crates/sharerr-store/src/peers.rs:180-191 | The loop computes the maximal runs of letters and digits, lowercased, joined by single dashes |
| `Slugs.SlugOfWord` | crates/sharerr-store/src/peers.rs:183-185 | Letters and digits are kept, lowercased |
| `Slugs.SlugSkips` | crates/sharerr-store/src/peers.rs:186-190 | Anything else after them leaves no trace |
| `Slugs.SlugJoins` | crates/sharerr-store/src/peers.rs:186-188 | Between them any stretch of it is one dash, and before them none |
| `Slugs.SlugIsCanonical` | crates/sharerr-store/src/peers.rs:175-191 | A slug is its own slug, and is empty exactly for a name with no letter or digit |

## Left out

- `LighthouseState::decoy`, Ed25519, SHA-256, hex and base64: parameters; that a decoy never verifies is a cryptographic assumption.
- Lighthouse.LighthouseState.LookupRoute: the route's Unicode lowercasing is modelled as ASCII lowercasing, which decides only under which hash a malformed key is looked up.
- Lighthouse.MalformedGetsDecoyIff: that decoys do not verify is its premise.
- Lighthouse.SweepBudget: the clock is never before the epoch, as `now_epoch` promises.
- The quick-xml tokeniser: replies are modelled as its events, and `XmlRpcRequest.Lex` covers only the markup printed requests use.
- XmlRpcCalls.RequestReadBack: string and integer parameters, for the same reason as `MulticallReadBack`.
- XmlRpcRequest.MulticallReadBack: leaves out base64 parameters, which the reply grammar refuses as an unsupported type; they are printed as already encoded text.
- XmlRpcGrammar.FaultTextWhereverItStands: a fault without a string `faultString` keeps the value itself instead of its debug rendering.
- RtorrentCommands.CallMany: the HTTP round trip is the parameter `reply`; error texts are constructors.
- PeerEndpoints.KeepsTheNewest: the limit is fixed for a run, `via` is carried but not part of the statement, and deleting a peer (which cascades to its rows) is not modelled.
- `bind_peer_pubkey`: one conditional update, which would only add an easy member.
- Trackers.QbitTorrent.PostAdd: the server is modelled from its Web API (split at the separator, add what is not listed).
- Trackers.QbitTorrent.PostRemove: likewise (split at the separator, remove what is listed).
- Trackers.ReplacedExactlyIff: wanted URLs are those a parsed URL prints as, so they hold no newline and do not start with `**`.
- Trackers.DelugeTorrent.AddTrackers: tier numbers are unbounded; overflow of a 64-bit tier is not modelled.
- Transfers.BytesAreConserved: totals are unbounded; SQLite's switch to floating point past 64 bits and the `updated_at` column are not modelled.
- SharedItems.RediscoveryNeverInterferes: file stamps, share-until dates and origins live in columns and tables of their own and are not modelled; ratios are reals.
- Feed.FilterMeansAdmits: the clause is a syntax tree instead of SQL text, and rows that fail to decode are not modelled.
- Feed.CountedIsTheFeed: rows are taken in the query's order; `ORDER BY` itself and the aggregate `seeding_summary` query are not modelled.
- Audience.FeedFollowsTags: the applications' HTTP answers are the list of entities with their payloads, and file ids are distinct within a source.
- Audience.WithdrawUntagged: the source has answered completely and the store accepts each write; a source that has not, or a failed write, leaves its items in place, and shares ended on their date are not modelled.
- Audience.AudienceStore.ReplaceAudience: the read and the transaction are one step, since one sync pass is the only writer.
- FaultCountdown.Countdown.Tick: the pool and password-hash uses of a fired countdown are not modelled.
- `IpRange`, `QuietHours` and `upload_limit_at`: self-contained arithmetic that would only add easy members.
- HTTP servers and clients, authentication, migrations, the sync loop apart from withdrawal, probing of media files and the remaining torrent clients.
