/**
  The content-addressed store behind the registry (the IPFS node): a map from
  "/ipfs/<digest>" paths to nodes, where the digest is a deterministic and
  injective function of a node's block. Adding a file or a directory writes
  it under its own path; fetching resolves a path and insists on a single
  file.
*/
module ContentStore {
  import opened Wrappers
  import opened Messages

  /** A node: a single file, or a directory given by the encoded block of its links. */
  datatype Node = File(data: Bytes) | Dir(links: Bytes)

  type Store = map<string, Node>

  const IpfsPrefix: string := "/ipfs/"

  function HexDigit(d: int): (c: char)
    requires 0 <= d < 16
    ensures ('0' <= c <= '9') || ('a' <= c <= 'f')
  {
    if d < 10 then (48 + d) as char else (87 + d) as char
  }

  /** Lower-case base-16 rendering, two digits per byte. */
  function Hex(b: Bytes): (s: string)
    ensures |s| == 2 * |b|
  {
    if b == [] then [] else [HexDigit(b[0] / 16), HexDigit(b[0] % 16)] + Hex(b[1..])
  }

  /** Codec tags: raw bytes for a file, dag-pb for a directory. */
  const RawCodec: Byte := 0x55
  const DagPbCodec: Byte := 0x70

  /** The version-1 identifier bytes: version, codec, then the node's payload. */
  function Block(n: Node): (b: Bytes)
    ensures |b| >= 2 && b[0] == 1
    ensures b[1] == if n.File? then RawCodec else DagPbCodec
  {
    match n
    case File(data) => [1, RawCodec] + data
    case Dir(links) => [1, DagPbCodec] + links
  }

  /**
    The textual content identifier of a node: the base-16 multibase marker
    'f' followed by the hex digits of its block. It stands for the hash the
    real store computes; what matters is that it is deterministic and
    injective.
  */
  function Digest(n: Node): (s: string)
    ensures |s| > 0 && s[0] == 'f'
  {
    "f" + Hex(Block(n))
  }

  /** The path `cid.String()` yields for added content. */
  function CidPath(n: Node): (p: string)
    ensures InNamespace(p, IpfsPrefix)
  {
    IpfsPrefix + Digest(n)
  }

  /** A path in namespace `ns` with a non-empty remainder. */
  predicate InNamespace(p: string, ns: string)
  {
    |p| > |ns| && HasPrefix(p, ns)
  }

  predicate HasPrefix(s: string, prefix: string)
  {
    |prefix| <= |s| && s[..|prefix|] == prefix
  }

  /** What `path.NewPath` accepts: a known namespace and a non-empty remainder. */
  predicate IsValidPath(p: string)
  {
    InNamespace(p, IpfsPrefix) || InNamespace(p, "/ipns/") || InNamespace(p, "/ipld/")
  }

  lemma HexDigitInjective(d: int, e: int)
    requires 0 <= d < 16 && 0 <= e < 16
    ensures HexDigit(d) == HexDigit(e) ==> d == e
  {
  }

  lemma {:induction false} HexInjective(a: Bytes, b: Bytes)
    ensures Hex(a) == Hex(b) ==> a == b
  {
    if Hex(a) == Hex(b) && a != [] && b != [] {
      var ha, hb := Hex(a), Hex(b);
      assert ha[0] == HexDigit(a[0] / 16) && hb[0] == HexDigit(b[0] / 16);
      assert ha[1] == HexDigit(a[0] % 16) && hb[1] == HexDigit(b[0] % 16);
      HexDigitInjective(a[0] / 16, b[0] / 16);
      HexDigitInjective(a[0] % 16, b[0] % 16);
      assert a[0] == b[0];
      assert ha[2..] == Hex(a[1..]) && hb[2..] == Hex(b[1..]);
      HexInjective(a[1..], b[1..]);
      assert a == [a[0]] + a[1..];
      assert b == [b[0]] + b[1..];
    }
  }

  lemma BlockInjective(a: Node, b: Node)
    ensures Block(a) == Block(b) ==> a == b
  {
    if Block(a) == Block(b) {
      assert Block(a)[2..] == (if a.File? then a.data else a.links);
      assert Block(b)[2..] == (if b.File? then b.data else b.links);
    }
  }

  /** Identical nodes share a path, and different nodes never do. */
  lemma CidPathInjective(a: Node, b: Node)
    ensures CidPath(a) == CidPath(b) <==> a == b
  {
    if CidPath(a) == CidPath(b) {
      PrefixCancels(IpfsPrefix, Digest(a), Digest(b));
      DigestInjective(a, b);
    }
  }

  lemma DigestInjective(a: Node, b: Node)
    requires Digest(a) == Digest(b)
    ensures a == b
  {
    PrefixCancels("f", Hex(Block(a)), Hex(Block(b)));
    HexInjective(Block(a), Block(b));
    BlockInjective(a, b);
  }

  lemma PrefixCancels(prefix: string, x: string, y: string)
    requires prefix + x == prefix + y
    ensures x == y
  {
    assert x == (prefix + x)[|prefix|..];
    assert y == (prefix + y)[|prefix|..];
  }

  /** The store's invariant: every node sits under the path of its own block. */
  ghost predicate ContentAddressed(store: Store)
  {
    forall p :: p in store ==> p == CidPath(store[p])
  }

  /** `Unixfs().Add`: the node is written under its own path. */
  function Add(store: Store, n: Node): (r: Store)
    ensures r.Keys == store.Keys + {CidPath(n)}
    ensures ContentAddressed(store) ==> ContentAddressed(r)
  {
    store[CidPath(n) := n]
  }

  /** `Unixfs().Get` followed by the conversion to a single file. */
  function Fetch(store: Store, path: string): (r: Result<Bytes, Error>)
    ensures r.Success? <==> IsValidPath(path) && path in store && store[path].File?
    ensures r.Success? ==> r.value == store[path].data
    ensures !IsValidPath(path) ==> r == Failure(InvalidPath)
    ensures IsValidPath(path) && path !in store ==> r == Failure(NotFound)
    ensures IsValidPath(path) && path in store && store[path].Dir? ==> r == Failure(NotAFile)
  {
    if !IsValidPath(path) then Failure(InvalidPath)
    else if path !in store then Failure(NotFound)
    else match store[path]
      case File(data) => Success(data)
      case Dir(_) => Failure(NotAFile)
  }

  /**
    An added file fetches back byte for byte from its path; an added
    directory resolves but is refused as not a file.
  */
  lemma FetchAfterAdd(store: Store, n: Node)
    ensures Fetch(Add(store, n), CidPath(n)) == if n.File? then Success(n.data) else Failure(NotAFile)
  {
  }

  /**
    Adding never disturbs content already stored: every stored path, file or
    directory, fetches the same result afterwards. This rests on the digest
    being injective.
  */
  /** Every path stored in `before` fetches the same result from `after`. */
  ghost predicate FetchesKept(before: Store, after: Store)
  {
    forall p :: p in before ==> Fetch(after, p) == Fetch(before, p)
  }

  lemma AddKeepsFetchable(store: Store, n: Node, path: string)
    requires ContentAddressed(store)
    requires path in store
    ensures Fetch(Add(store, n), path) == Fetch(store, path)
  {
    CidPathInjective(store[path], n);
  }

  /** `AddKeepsFetchable` for every stored path at once. */
  lemma AddKeepsStore(store: Store, n: Node)
    requires ContentAddressed(store)
    ensures FetchesKept(store, Add(store, n))
  {
    forall p | p in store
      ensures Fetch(Add(store, n), p) == Fetch(store, p)
    {
      AddKeepsFetchable(store, n, p);
    }
  }
}
