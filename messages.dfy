/**
  The request, response and record shapes of the registry's RPC surface
  (the `Plugin` message and the request/response messages of the
  PluginRegistry service), and the kinds of error the handlers return.
*/
module Messages {
  import opened Wrappers

  /** One octet of plugin content. */
  type Byte = b: int | 0 <= b < 256

  type Bytes = seq<Byte>

  /** The plugin descriptor stored in the metadata index. */
  datatype Plugin = Plugin(name: string, version: string, cid: string, path: string)

  datatype RegisterPluginRequest = RegisterPluginRequest(name: string, version: string, plugin: string)

  datatype RegisterPluginResponse = RegisterPluginResponse(message: string, cid: string)

  /** Both fields are optional (`oneof` fields, nil when absent). */
  datatype DiscoverPluginsRequest = DiscoverPluginsRequest(name: Option<string>, cid: Option<string>)

  datatype GetPluginRequest = GetPluginRequest(name: string, version: string)

  datatype DownloadPluginRequest = DownloadPluginRequest(cid: string)

  /** The error exits of the handlers, one per failing collaborator call. */
  datatype Error =
    | NotFound           // the index or the content store has no entry (redis.Nil, unresolvable path)
    | DecodeError        // the stored value is not a decodable plugin descriptor
    | PinFailed          // the local pin was refused ("failed to pin content locally")
    | IndexWriteFailed   // the index refused the unconditional write
    | EnumerationFailed  // the index could not enumerate its keys
    | InvalidPath        // the requested content path does not parse
    | NotAFile           // the resolved node is not a single file
    | DiscoveryFailed    // the DHT could not start a provider search
}
