/**
  The best-effort remote pinning call (`pinToPinata`): it strips the first
  "/ipfs/" from the content path, posts the bare hash to the pinning
  provider, and folds every outcome into a result string plus an error flag.
  The HTTP exchange itself is an input: `HttpOutcome` says how far it got.
*/
module RemotePin {
  import opened Wrappers
  import opened ContentStore

  const PinByHashUrl: string := "https://api.pinata.cloud/pinning/pinByHash"
  const GatewayUrl: string := "https://gateway.pinata.cloud/ipfs/"

  /** How far the remote pin request got. */
  datatype HttpOutcome =
    | BodyNotEncodable                        // json.Marshal of the request body failed
    | RequestNotBuilt                         // http.NewRequest failed
    | TransportFailed                         // client.Do failed: no response at all
    | Responded(statusCode: int, status: string)  // a response with its status line

  /** The node the provider is asked to fetch the content from. */
  const HostNode: string := "/ip4/73.227.56.113/tcp/18667/p2p/12D3KooWJU4TpmDokPbTftD1PsSfuyx8jvysHpS5o9fL224xYKZM"

  /** The POST that is handed to the HTTP client: target and body fields. */
  datatype PinRequest = PinRequest(url: string, hashToPin: string, hostNodes: seq<string>)

  /**
    The `(string, error)` pair, `failed` standing for a non-nil error, and
    the request that reached the transport, if any.
  */
  datatype PinReply = PinReply(text: string, failed: bool, sent: Option<PinRequest>)

  const StatusOK: int := 200

  predicate OccursAt(s: string, pat: string, i: nat)
  {
    i + |pat| <= |s| && s[i..i + |pat|] == pat
  }

  /** `strings.Replace(s, pat, "", 1)`: drop the first occurrence of `pat`, if any. */
  function RemoveFirst(s: string, pat: string): (r: string)
    requires pat != []
    ensures r == s || |r| == |s| - |pat|
    decreases |s|
  {
    if |s| < |pat| then s
    else if HasPrefix(s, pat) then s[|pat|..]
    else [s[0]] + RemoveFirst(s[1..], pat)
  }

  /** Dropping the first character shifts every occurrence one place left. */
  lemma OccursAtShift(s: string, pat: string, j: nat)
    requires |s| > 0
    ensures OccursAt(s[1..], pat, j) <==> OccursAt(s, pat, j + 1)
  {
    if j + |pat| <= |s| - 1 {
      assert s[1..][j..j + |pat|] == s[j + 1..j + 1 + |pat|];
    }
  }

  /** When `pat` first occurs at `i`, exactly that occurrence is cut out. */
  lemma {:induction false} RemoveFirstCutsFirstOccurrence(s: string, pat: string, i: nat)
    requires pat != []
    requires OccursAt(s, pat, i)
    requires forall j: nat :: j < i ==> !OccursAt(s, pat, j)
    ensures RemoveFirst(s, pat) == s[..i] + s[i + |pat|..]
    decreases i
  {
    if i > 0 {
      assert !OccursAt(s, pat, 0);
      forall j: nat | j < i - 1
        ensures !OccursAt(s[1..], pat, j)
      {
        OccursAtShift(s, pat, j);
      }
      OccursAtShift(s, pat, i - 1);
      RemoveFirstCutsFirstOccurrence(s[1..], pat, i - 1);
      assert s[..i] == [s[0]] + s[1..][..i - 1];
      assert s[i + |pat|..] == s[1..][i - 1 + |pat|..];
    }
  }

  /** With no occurrence of `pat`, the string is returned unchanged. */
  lemma {:induction false} RemoveFirstWithoutOccurrence(s: string, pat: string)
    requires pat != []
    requires forall j: nat :: !OccursAt(s, pat, j)
    ensures RemoveFirst(s, pat) == s
    decreases |s|
  {
    if |s| >= |pat| {
      assert !OccursAt(s, pat, 0);
      forall j: nat
        ensures !OccursAt(s[1..], pat, j)
      {
        OccursAtShift(s, pat, j);
      }
      RemoveFirstWithoutOccurrence(s[1..], pat);
      assert s == [s[0]] + s[1..];
    }
  }

  /** The hash carried in the request body: the path with its first "/ipfs/" removed. */
  function PinRequestHash(hashToPin: string): (r: string)
    ensures |r| == |hashToPin| || |r| == |hashToPin| - |IpfsPrefix|
  {
    RemoveFirst(hashToPin, IpfsPrefix)
  }

  function BuildPinRequest(hashToPin: string): (r: PinRequest)
    ensures r.url == PinByHashUrl && r.hostNodes == [HostNode]
    ensures r.hashToPin == PinRequestHash(hashToPin)
  {
    PinRequest(PinByHashUrl, RemoveFirst(hashToPin, IpfsPrefix), [HostNode])
  }

  /**
    The reply of `pinToPinata(hashToPin)` for a given HTTP outcome. A reply is
    marked failed exactly when no response came back; a response with any
    status yields a nil error, and only status 200 yields a gateway URL, built
    from the ORIGINAL, unstripped argument.
  */
  function PinToPinata(hashToPin: string, outcome: HttpOutcome): (r: PinReply)
    ensures r.failed <==> !outcome.Responded?
    ensures r.sent.Some? <==> outcome.TransportFailed? || outcome.Responded?
    ensures r.sent.Some? ==> r.sent.value == BuildPinRequest(hashToPin)
    ensures outcome.Responded? && outcome.statusCode == StatusOK ==> r.text == GatewayUrl + hashToPin
    ensures outcome.Responded? && outcome.statusCode != StatusOK ==> r.text == "failed to pin: " + outcome.status
    ensures outcome.BodyNotEncodable? ==> r.text == "Error parsing body " + hashToPin
    ensures outcome.RequestNotBuilt? ==> r.text == "Error pinning file to Pinata " + hashToPin
    ensures outcome.TransportFailed? ==> r.text == "failed to pin: " + hashToPin
  {
    var request := BuildPinRequest(hashToPin);
    match outcome
    case BodyNotEncodable => PinReply("Error parsing body " + hashToPin, true, None)
    case RequestNotBuilt => PinReply("Error pinning file to Pinata " + hashToPin, true, None)
    case TransportFailed => PinReply("failed to pin: " + hashToPin, true, Some(request))
    case Responded(code, status) =>
      if code != StatusOK then PinReply("failed to pin: " + status, false, Some(request))
      else PinReply(GatewayUrl + hashToPin, false, Some(request))
  }

  /**
    A caller can tell a gateway URL from a failure message by its prefix
    alone, and the pinned argument is recoverable from the URL.
  */
  lemma PinReplyIsGatewayUrlIffOk(hashToPin: string, outcome: HttpOutcome)
    ensures HasPrefix(PinToPinata(hashToPin, outcome).text, GatewayUrl)
            <==> outcome.Responded? && outcome.statusCode == StatusOK
    ensures outcome.Responded? && outcome.statusCode == StatusOK ==>
              PinToPinata(hashToPin, outcome).text[|GatewayUrl|..] == hashToPin
  {
    var r := PinToPinata(hashToPin, outcome);
    match outcome
    case BodyNotEncodable =>
      assert r.text[0] == 'E' != GatewayUrl[0];
    case RequestNotBuilt =>
      assert r.text[0] == 'E' != GatewayUrl[0];
    case TransportFailed =>
      assert r.text[0] == 'f' != GatewayUrl[0];
    case Responded(code, status) =>
      if code != StatusOK {
        assert r.text[0] == 'f' != GatewayUrl[0];
      } else {
        assert r.text[..|GatewayUrl|] == GatewayUrl;
      }
  }

  /** A path under "/ipfs/" is sent to the provider as its bare hash. */
  lemma PinRequestHashOfIpfsPath(hash: string)
    ensures PinRequestHash(IpfsPrefix + hash) == hash
  {
  }

  /**
    On success the returned URL is the gateway followed by the whole
    "/ipfs/..." path, so the namespace appears twice; the request body
    carries the stripped hash instead.
  */
  lemma GatewayUrlRepeatsNamespace(hash: string, status: string)
    ensures PinToPinata(IpfsPrefix + hash, Responded(StatusOK, status)).text
            == "https://gateway.pinata.cloud/ipfs//ipfs/" + hash
  {
  }
}
