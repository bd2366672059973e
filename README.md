# spacecore-registry: a Dafny model of the plugin registry core

This project models the orchestration core of the spacecore plugin registry.
It covers the gRPC handlers of `internal/plugin_manager.go`, the best-effort
Pinata call, and peer discovery in `internal/p2p/p2p.go`. The collaborators
are replaced by abstract state:

- The IPFS node is a map from content paths (`/ipfs/<digest>`) to nodes
  (`File(bytes)` or `Dir(links)`), plus a set of pinned paths.
  - The digest is a deterministic, injective stand-in for the content hash:
    the base-16 multibase marker `f` followed by the hex digits of the node's
    block (version 1, the raw or dag-pb codec tag, then the payload).
- Redis is a map from keys `plugin:<name>:<version>` to stored values.
  - A stored value is either the JSON encoding of a descriptor or a value
    that does not decode.
- Every external call that can fail is an input saying whether it did:
  - the uploaded node (a file, a directory, or none when the read or the add
    failed), the pin and the index write are inputs of `RegisterPlugin`;
  - the key enumeration is an input of `DiscoverPlugins`;
  - the HTTP outcome is an input of `PinToPinata`;
  - the DHT is an input of `DiscoverPeers`.

Modules:

- `Wrappers`: `Option` and `Result`.
- `Messages`: the `Plugin` record, the request and response messages, and the error kinds.
- `ContentStore`: content paths, `Add`, `Fetch`.
- `MetadataIndex`: keys, codec, `Lookup`, `Put`, and the listing specification.
- `RemotePin`: `pinToPinata`.
- `PluginManager`: the class `PluginRegistry`, which holds the shared state and the four handlers.
- `P2P`: the rendezvous topic, `Advertise`, and `DiscoverPeers` proved equal to a filter.

The model follows the code as written:

- A registration stores the descriptor with an empty `Path`.
- The response's `cid` is whatever string `pinToPinata` returned. That
  includes its failure messages, so there is no fallback to the raw content id.
- On success that string is the gateway URL followed by the whole `/ipfs/...`
  path, so the namespace appears twice.
- A discovery by name always resolves version `"1.0"`. The request's `cid` is ignored.
- The error of the content add is overwritten before it is checked. The pin
  is the only content-store failure exit of a registration.
- A pinned file whose index write then fails stays pinned. Nothing is rolled back.
- A directory path registers successfully. Its descriptor points at a
  directory node, which a later download refuses as not a file.
- Keys are not injective. A `:` inside a name lets two different
  (name, version) pairs share one key.

## Model

| member | source | states |
|---|---|---|
| `PluginManager.PluginRegistry.constructor` | internal/plugin_manager.go:36-43 | the registry wraps existing stores unchanged; the invariant holds: content-addressed store, pins inside the store |
| `PluginManager.PluginRegistry.RegisterPlugin` | internal/plugin_manager.go:46-94 | the new store, pin set and index are stated exactly. It fails iff the upload is missing, the pin is refused or the index write fails. A pin failure leaves the index unchanged. The Pinata outcome never decides failure. On success the message is "Plugin registered successfully" and the cid is the `pinToPinata` text. Afterwards `GetPlugin` returns the descriptor (given name, version and content path, empty Path). `DownloadPlugin` of that path returns the bytes of an uploaded file and NotAFile for an uploaded directory. Every path stored before fetches exactly what it fetched before, file or directory |
| `PluginManager.PluginRegistry.DiscoverPlugins` | internal/plugin_manager.go:96-156 | empty name: a failed enumeration fails; otherwise the result is the listing of the first ten enumerated keys, with at most 10 entries. Non-empty name: the result is the lookup at version "1.0". The request's cid is never consulted |
| `PluginManager.PluginRegistry.GetPlugin` | internal/plugin_manager.go:196-211 | succeeds iff key `plugin:<name>:<version>` exists and decodes; the result is the descriptor stored there; a missing key gives NotFound and an undecodable value gives DecodeError |
| `PluginManager.PluginRegistry.DownloadPlugin` | internal/plugin_manager.go:171-194 | succeeds iff the path parses, resolves, and is a single file. The result is that file's bytes, and, in this exact-path store, the path is the content path of that file. An unparsable path gives InvalidPath, an unknown path NotFound and a directory NotAFile |
| `PluginManager.Descriptor` | internal/plugin_manager.go:65-69 | a registered descriptor carries the given name, version and content path, and no Path |
| `PluginManager.RegisterLeavesOtherPairs` | internal/plugin_manager.go:78-86 | when names contain no ':', registering one (name, version) leaves the lookup of every other pair unchanged |
| `PluginManager.LastRegistrationWins` | internal/plugin_manager.go:84 | of two writes to the same pair, the later descriptor is the one read back |
| `PluginManager.RegistrationCanShadowAnotherPair` | internal/plugin_manager.go:78 | registering ("a", "b:c") makes the lookup of ("a:b", "c") return a descriptor named "a" |
| `PluginManager.RegistrationPinsBareDigest` | internal/plugin_manager.go:63 | for an uploaded node, the remote pin request carries the bare digest, and a 200 reply is gateway + "/ipfs/" + digest |
| `ContentStore.Add` | internal/plugin_manager.go:50 | adding writes the node under its own path and preserves content addressing |
| `ContentStore.CidPathInjective` | internal/plugin_manager.go:68 | two nodes share a content path iff they are equal |
| `ContentStore.Fetch` | internal/plugin_manager.go:172-186 | parse, resolve and file-type check, with each failure as its own error; success returns the stored bytes |
| `ContentStore.FetchAfterAdd` | internal/plugin_manager.go:176-186 | an added file fetches back byte for byte from its path; an added directory gives NotAFile |
| `ContentStore.AddKeepsFetchable` | internal/plugin_manager.go:50 | adding content never changes what an already stored path fetches, whether a file or a directory |
| `MetadataIndex.PluginKeyInjective` | internal/plugin_manager.go:78 | for names without ':', equal keys imply equal (name, version) |
| `MetadataIndex.PluginKeyCollision` | internal/plugin_manager.go:197 | ("a:b", "c") and ("a", "b:c") format to the same key |
| `MetadataIndex.Decode` | internal/plugin_manager.go:119-123 | decoding succeeds exactly on encoded descriptors; otherwise it gives DecodeError |
| `MetadataIndex.DecodeEncode` | internal/plugin_manager.go:79 | the codec round-trips: decoding an encoded descriptor gives it back |
| `MetadataIndex.Lookup` | internal/plugin_manager.go:198-206 | a missing key gives NotFound; an undecodable value gives DecodeError; success returns the descriptor whose encoding is stored |
| `MetadataIndex.Put` | internal/plugin_manager.go:84 | the write adds or replaces exactly one key |
| `MetadataIndex.LookupAfterPut` | internal/plugin_manager.go:84 | what was last written under a key is what a lookup returns |
| `MetadataIndex.PutLeavesOtherKeys` | internal/plugin_manager.go:84 | every other key's presence, value and lookup are unchanged by a write |
| `MetadataIndex.Truncate` | internal/plugin_manager.go:108-110 | exactly the first 10 keys are kept when more are enumerated, and all of them otherwise |
| `MetadataIndex.PluginKey` | internal/plugin_manager.go:78 | the key is "plugin:", then the name, a ':' and the version |
| `MetadataIndex.Listing` | internal/plugin_manager.go:111-125 | a listing has no more entries than the keys it walks, and its only failure is DecodeError |
| `MetadataIndex.ListingIsFilteredDecode` | internal/plugin_manager.go:111-125 | the listing fails with DecodeError iff some present enumerated key holds an undecodable value. Otherwise it is the stored descriptors of the present keys, in order, with absent keys skipped |
| `MetadataIndex.ListingFailurePersists` | internal/plugin_manager.go:119-123 | once a key aborts the listing, later keys cannot change the outcome |
| `MetadataIndex.PluginsAtMembership` | internal/plugin_manager.go:111-125 | a descriptor is listed iff some enumerated key holds its encoding |
| `MetadataIndex.PluginsAtLength` | internal/plugin_manager.go:124 | the listing never has more entries than the keys it walked |
| `MetadataIndex.ListingBounded` | internal/plugin_manager.go:107-110 | a listing has at most 10 entries and never more than the enumerated keys |
| `MetadataIndex.ListingOfAbsentKeys` | internal/plugin_manager.go:111-117 | when no enumerated key is present, the result is an empty list, not an error |
| `MetadataIndex.NamedLookup` | internal/plugin_manager.go:133-155 | the lookup uses key `plugin:<name>:1.0`. A failure is the lookup's error (NotFound or DecodeError), and a hit is a one-element list |
| `RemotePin.RemoveFirstCutsFirstOccurrence` | internal/plugin_manager.go:217 | when "/ipfs/" first occurs at i, exactly that occurrence is cut out |
| `RemotePin.RemoveFirstWithoutOccurrence` | internal/plugin_manager.go:217 | without an occurrence, the hash is unchanged |
| `RemotePin.BuildPinRequest` | internal/plugin_manager.go:217-227 | the request goes to the pinByHash URL with the fixed host node and the stripped hash |
| `RemotePin.PinToPinata` | internal/plugin_manager.go:213-257 | the error is set iff no response came back. Every attempt that reached the transport sent the request `BuildPinRequest` makes: the pinByHash URL, the fixed host node and the stripped hash. The texts are "Error parsing body ", "Error pinning file to Pinata " or "failed to pin: " + the argument for the three failures before a response. A non-200 status gives "failed to pin: <status>" with no error, and 200 gives the gateway URL + the unstripped argument |
| `RemotePin.RemoveFirst` | internal/plugin_manager.go:217 | the result is the input unchanged, or the input shortened by exactly one occurrence's length |
| `RemotePin.PinReplyIsGatewayUrlIffOk` | internal/plugin_manager.go:240-256 | the returned text starts with the gateway URL iff the status was 200, and then the argument follows the URL unchanged |
| `RemotePin.PinRequestHashOfIpfsPath` | internal/plugin_manager.go:217 | a path under "/ipfs/" is sent as its bare hash |
| `RemotePin.GatewayUrlRepeatsNamespace` | internal/plugin_manager.go:256 | for "/ipfs/h" a 200 reply is "https://gateway.pinata.cloud/ipfs//ipfs/h" |
| `P2P.FindPeers` | internal/p2p/p2p.go:44-47 | the search fails iff it is refused at the start, independently of whether routing is usable; otherwise it streams the topic's recorded providers |
| `P2P.Advertise` | internal/p2p/p2p.go:36-40 | advertising fails iff routing is unusable. On success, the topics are the old ones plus "spacecore-registry". Every other topic keeps its providers, and the node is appended to the rendezvous providers |
| `P2P.DiscoverPeers` | internal/p2p/p2p.go:42-57 | a failed search returns its error and no peers. Otherwise the result is exactly the identified peers of the "spacecore-registry" stream, in order |
| `P2P.ValidPeers` | internal/p2p/p2p.go:49-55 | the filtered stream is never longer than the discovered one |
| `P2P.ValidPeersHaveIds` | internal/p2p/p2p.go:50-53 | every returned peer has a non-empty ID |
| `P2P.ValidPeersMembership` | internal/p2p/p2p.go:49-56 | a peer is returned iff it arrived with a non-empty ID |
| `P2P.ValidPeersAppend` | internal/p2p/p2p.go:49-56 | the filter distributes over concatenation, so arrival order is kept |
| `P2P.ValidPeersOfAnonymous` | internal/p2p/p2p.go:49-56 | a stream with no identified peer yields an empty result |
| `P2P.AdvertisedPeerIsDiscovered` | internal/p2p/p2p.go:36-44 | after a node with an ID advertises, discovery on the same DHT returns it when the search is not refused, because both use one topic |

## Left out

- Redis, IPFS, Pinata, libp2p and gRPC transport: replaced by maps, a set and outcome inputs. A Redis `Get` fails only for a missing key, and other Redis transport errors are not modelled.
- The real content hash and CID encoding: the digest is an injective stand-in, so hash collisions are assumed away.
- `ContentStore.Fetch`: the store is an exact-path map, and the path check is simplified: any "/ipfs/", "/ipns/" or "/ipld/" path with a non-empty rest parses. Four things follow:
  - A path below a root (`/ipfs/<dir-cid>/<name>`) is not resolved through the directory, and gives NotFound. Adding a `Dir` writes no child nodes.
  - Other spellings of one CID (another multibase, CIDv0 against CIDv1, a trailing `/`) give NotFound.
  - IPNS resolution and fetching from other peers are not modelled. Only the local store answers.
  - Nothing is ever removed from the store (no garbage collection), so `pinned` affects no result.
- `PluginManager.PluginRegistry.DownloadPlugin`: its ensures that a successful path is the content path of the returned file (`req.cid == CidPath(File(r.value))`) holds only for this exact-path store. The real `Unixfs().Get` also returns a file for a path below a directory root or for another spelling of the CID.
- JSON byte encoding: `json.Marshal` of a descriptor cannot fail for string fields, so the marshal error exit at internal/plugin_manager.go:80-82 is unreachable in the model.
- `getUnixfsNode`, `os.Stat` and file reading: the uploaded node is an input. `None` stands for a path that cannot be stat'ed or opened, and also for an add that fails on readable content. Both leave the add without a content path, so the pin fails. The unused `path.NewPath(req.Plugin)` call is left out.
- `io.ReadAll` failure in `DownloadPlugin`: reading from the in-memory store cannot fail.
- `godotenv.Load`, the JWT bearer header and logging: they have no effect on results.
- Key expiry: the write passes TTL 0 (none), and the modelled index has no expiry at all.
- The nil dereference of `req.Name` in `DiscoverPlugins`: a present name is a precondition.
- `SetupHost`, DHT bootstrap, the gRPC `Start` wiring and `main`: process and network setup.
- The DHT is a map from topic to provider stream plus two flags: whether routing is usable (it decides `Advertise`) and whether a search is refused. Channel concurrency, cancellation and per-request concurrency are not modelled, and calls are sequential.
- `P2P.FindPeers`: when a search fails is this model's own assumption, because the discovery library is not part of this model. A refused search stands for options or a namespace the library cannot process. An unusable routing table is not an error: the search then streams the recorded providers, which in the real DHT may be none. The model streams the full provider list, while the real provider search caps it (100 by default).
