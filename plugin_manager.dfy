/**
  The plugin registry service: the state it shares across requests (the
  content store, its pin set and the metadata index) and its four handlers.
  Every collaborator call that can fail is an input saying whether it did.
*/
module PluginManager {
  import opened Wrappers
  import opened Messages
  import opened ContentStore
  import opened MetadataIndex
  import opened RemotePin

  const RegisteredMessage: string := "Plugin registered successfully"

  /** The descriptor a registration writes: name, version and content path, no Path. */
  function Descriptor(name: string, version: string, cid: string): (p: Plugin)
    ensures p.name == name && p.version == version && p.cid == cid
    ensures p.path == ""
  {
    Plugin(name, version, cid, "")
  }

  class PluginRegistry {
    /** The local content store, keyed by content path. */
    var content: Store
    /** The content paths pinned locally. */
    var pinned: set<string>
    /** The metadata index, keyed by "plugin:<name>:<version>". */
    var index: Index

    ghost predicate Valid()
      reads this
    {
      ContentAddressed(content) && pinned <= content.Keys
    }

    /** The server wraps stores that already exist and may hold content. */
    constructor (content0: Store, pinned0: set<string>, index0: Index)
      requires ContentAddressed(content0) && pinned0 <= content0.Keys
      ensures Valid()
      ensures content == content0 && pinned == pinned0 && index == index0
    {
      content, pinned, index := content0, pinned0, index0;
    }

    /**
      Add the uploaded node, pin it, replicate it best-effort, and write its
      descriptor. `upload` is the node read from the request's path: a file,
      or a directory when the path names one; it is None when the path could
      not be read or the add failed (the add then yields no content path, so
      the pin fails). `pinRefused` and `writeFails` say whether the pin and
      the index write were refused; `pinata` is the outcome of the remote pin
      request.
    */
    method RegisterPlugin(req: RegisterPluginRequest, upload: Option<Node>, pinRefused: bool,
                          pinata: HttpOutcome, writeFails: bool)
      returns (r: Result<RegisterPluginResponse, Error>)
      requires Valid()
      modifies this
      ensures Valid()
      ensures content == if upload.Some? then Add(old(content), upload.value) else old(content)
      ensures pinned == if upload.Some? && !pinRefused then old(pinned) + {CidPath(upload.value)} else old(pinned)
      ensures index == if upload.Some? && !pinRefused && !writeFails
                       then Put(old(index), PluginKey(req.name, req.version),
                                Descriptor(req.name, req.version, CidPath(upload.value)))
                       else old(index)
      // the remote pin outcome never decides success
      ensures r.Failure? <==> upload.None? || pinRefused || writeFails
      ensures r.Failure? ==> r.error == if upload.None? || pinRefused then PinFailed else IndexWriteFailed
      ensures r.Success? ==>
                r.value == RegisterPluginResponse(RegisteredMessage, PinToPinata(CidPath(upload.value), pinata).text)
      // register then get, register then download (a directory registers but does not download)
      ensures r.Success? ==>
                GetPlugin(GetPluginRequest(req.name, req.version))
                == Success(Descriptor(req.name, req.version, CidPath(upload.value)))
      ensures r.Success? ==>
                DownloadPlugin(DownloadPluginRequest(CidPath(upload.value)))
                == if upload.value.File? then Success(upload.value.data) else Failure(NotAFile)
      // content that could be downloaded before still can
      ensures FetchesKept(old(content), content)
    {
      ghost var before := content;
      var cid: string := "";
      if upload.Some? {
        AddKeepsStore(before, upload.value);
        content := Add(content, upload.value);
        cid := CidPath(upload.value);
      }
      if cid !in content || pinRefused {
        return Failure(PinFailed);
      }
      pinned := pinned + {cid};
      var reply := PinToPinata(cid, pinata);
      var plugin := Descriptor(req.name, req.version, cid);
      var key := PluginKey(req.name, req.version);
      var value := Encode(plugin);
      if writeFails {
        return Failure(IndexWriteFailed);
      }
      index := index[key := value];
      FetchAfterAdd(before, upload.value);
      r := Success(RegisterPluginResponse(RegisteredMessage, reply.text));
    }

    /**
      With an empty name, list the descriptors under the first ten keys the
      index enumerates (`keys` is None when the enumeration failed); with a
      name, look up that name at the default version. The request's cid is
      not consulted.
    */
    method DiscoverPlugins(req: DiscoverPluginsRequest, keys: Option<seq<string>>)
      returns (r: Result<seq<Plugin>, Error>)
      requires req.name.Some?
      ensures req.name.value == "" && keys.None? ==> r == Failure(EnumerationFailed)
      ensures req.name.value == "" && keys.Some? ==> r == Listing(index, Truncate(keys.value))
      ensures req.name.value == "" && r.Success? ==> |r.value| <= ListingLimit
      ensures req.name.value != "" ==> r == NamedLookup(index, req.name.value)
    {
      var name := req.name.value;
      if name == "" {
        if keys.None? {
          return Failure(EnumerationFailed);
        }
        var ks := Truncate(keys.value);
        var plugins: seq<Plugin> := [];
        var i := 0;
        while i < |ks|
          invariant 0 <= i <= |ks|
          invariant Listing(index, ks[..i]) == Success(plugins)
        {
          var key := ks[i];
          assert ks[..i + 1][..i] == ks[..i];
          if key in index {
            match Decode(index[key]) {
              case Failure(e) =>
                ListingFailurePersists(index, ks, i + 1);
                return Failure(e);
              case Success(p) =>
                plugins := plugins + [p];
            }
          }
          i := i + 1;
        }
        assert ks[..i] == ks;
        ListingBounded(index, keys.value);
        return Success(plugins);
      }
      match Lookup(index, PluginKey(name, DefaultVersion)) {
        case Failure(e) => r := Failure(e);
        case Success(p) => r := Success([p]);
      }
    }

    /** Exact-key lookup of one (name, version). */
    function GetPlugin(req: GetPluginRequest): (r: Result<Plugin, Error>)
      reads this
      ensures r.Success? <==> PluginKey(req.name, req.version) in index
                              && index[PluginKey(req.name, req.version)].Json?
      ensures r.Success? ==> index[PluginKey(req.name, req.version)] == Encode(r.value)
      ensures PluginKey(req.name, req.version) !in index ==> r == Failure(NotFound)
      ensures PluginKey(req.name, req.version) in index && index[PluginKey(req.name, req.version)].Malformed?
              ==> r == Failure(DecodeError)
    {
      Lookup(index, PluginKey(req.name, req.version))
    }

    /** The bytes of the single file at a content path. */
    function DownloadPlugin(req: DownloadPluginRequest): (r: Result<Bytes, Error>)
      reads this
      ensures r.Success? <==> IsValidPath(req.cid) && req.cid in content && content[req.cid].File?
      ensures r.Success? ==> r.value == content[req.cid].data
      ensures Valid() && r.Success? ==> req.cid == CidPath(File(r.value))
      ensures !IsValidPath(req.cid) ==> r == Failure(InvalidPath)
      ensures IsValidPath(req.cid) && req.cid !in content ==> r == Failure(NotFound)
      ensures IsValidPath(req.cid) && req.cid in content && content[req.cid].Dir? ==> r == Failure(NotAFile)
    {
      Fetch(content, req.cid)
    }
  }

  /**
    Re-registering a (name, version) replaces its descriptor, and when names
    carry no ':' every other (name, version) reads as before.
  */
  lemma RegisterLeavesOtherPairs(index: Index, n1: string, v1: string, cid: string, n2: string, v2: string)
    requires ':' !in n1 && ':' !in n2
    requires (n1, v1) != (n2, v2)
    ensures Lookup(Put(index, PluginKey(n1, v1), Descriptor(n1, v1, cid)), PluginKey(n2, v2))
            == Lookup(index, PluginKey(n2, v2))
  {
    if PluginKey(n1, v1) == PluginKey(n2, v2) {
      PluginKeyInjective(n1, v1, n2, v2);
    }
  }

  /** The later of two writes to the same pair is the one that is read. */
  lemma LastRegistrationWins(index: Index, name: string, version: string, cid1: string, cid2: string)
    ensures var key := PluginKey(name, version);
            Lookup(Put(Put(index, key, Descriptor(name, version, cid1)), key, Descriptor(name, version, cid2)), key)
            == Success(Descriptor(name, version, cid2))
  {
  }

  /**
    A name containing ':' can overwrite another pair's entry: after
    registering ("a", "b:c"), the lookup of ("a:b", "c") returns a
    descriptor whose name is "a".
  */
  lemma RegistrationCanShadowAnotherPair(index: Index, cid: string)
    ensures Lookup(Put(index, PluginKey("a", "b:c"), Descriptor("a", "b:c", cid)), PluginKey("a:b", "c"))
            == Success(Descriptor("a", "b:c", cid))
  {
    PluginKeyCollision();
  }

  /**
    Registration hands the provider the bare digest of the upload, while a
    successful reply echoes the full content path after the gateway.
  */
  lemma RegistrationPinsBareDigest(upload: Node, outcome: HttpOutcome)
    ensures PinToPinata(CidPath(upload), outcome).sent.Some? ==>
              PinToPinata(CidPath(upload), outcome).sent.value.hashToPin == Digest(upload)
    ensures outcome.Responded? && outcome.statusCode == StatusOK ==>
              PinToPinata(CidPath(upload), outcome).text == GatewayUrl + IpfsPrefix + Digest(upload)
  {
    var path := CidPath(upload);
    PinRequestHashOfIpfsPath(Digest(upload));
    assert PinRequestHash(path) == Digest(upload);
    assert GatewayUrl + path == GatewayUrl + IpfsPrefix + Digest(upload);
  }

  /**
    Registering the same pair twice with different files: the lookup sees
    the second file's path, and the first file can still be downloaded.
  */
  method RegisterTwiceThenLookUp(registry: PluginRegistry, name: string, version: string,
                                 first: Bytes, second: Bytes, pinata: HttpOutcome)
    requires registry.Valid()
    modifies registry
  {
    var r1 := registry.RegisterPlugin(RegisterPluginRequest(name, version, "first"), Some(File(first)), false, pinata, false);
    var r2 := registry.RegisterPlugin(RegisterPluginRequest(name, version, "second"), Some(File(second)), false, TransportFailed, false);
    assert r1.Success? && r2.Success?;
    assert registry.GetPlugin(GetPluginRequest(name, version)) == Success(Descriptor(name, version, CidPath(File(second))));
    assert registry.DownloadPlugin(DownloadPluginRequest(CidPath(File(first)))) == Success(first);
  }
}
