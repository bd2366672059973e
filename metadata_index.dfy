/**
  The metadata index behind the registry (the Redis keyspace): string keys
  "plugin:<name>:<version>" mapped to serialized descriptors, written
  unconditionally and with no expiry. The JSON codec is opaque: a stored
  value is either the encoding of a descriptor or something undecodable.
*/
module MetadataIndex {
  import opened Wrappers
  import opened Messages

  /** A stored value: the encoding of a descriptor, or bytes that do not decode. */
  datatype StoredValue = Json(plugin: Plugin) | Malformed(raw: string)

  type Index = map<string, StoredValue>

  const KeyPrefix: string := "plugin:"
  /** The listing branch keeps at most this many enumerated keys. */
  const ListingLimit: nat := 10
  /** The version a name-only discovery always resolves to. */
  const DefaultVersion: string := "1.0"

  /** `fmt.Sprintf("plugin:%s:%s", name, version)`. */
  function PluginKey(name: string, version: string): (k: string)
    ensures |k| == |KeyPrefix| + |name| + 1 + |version|
    ensures k[..|KeyPrefix|] == KeyPrefix
    ensures k[|KeyPrefix|..|KeyPrefix| + |name|] == name
    ensures k[|KeyPrefix| + |name|] == ':'
    ensures k[|KeyPrefix| + |name| + 1..] == version
  {
    KeyPrefix + name + ":" + version
  }

  /** Names without ':' give every (name, version) pair a key of its own. */
  lemma PluginKeyInjective(n1: string, v1: string, n2: string, v2: string)
    requires ':' !in n1 && ':' !in n2
    requires PluginKey(n1, v1) == PluginKey(n2, v2)
    ensures n1 == n2 && v1 == v2
  {
    // The first ':' after the prefix ends the name, so both names have the same length.
    assert |n1| == |n2|;
  }

  /** A ':' inside a name lets two different pairs share one key. */
  lemma PluginKeyCollision()
    ensures PluginKey("a:b", "c") == PluginKey("a", "b:c")
  {
  }

  function Encode(p: Plugin): (v: StoredValue)
    ensures v.Json?
  {
    Json(p)
  }

  /** `json.Unmarshal` into a descriptor. */
  function Decode(v: StoredValue): (r: Result<Plugin, Error>)
    ensures r.Success? <==> v.Json?
    ensures r.Failure? ==> r.error == DecodeError
  {
    match v
    case Json(p) => Success(p)
    case Malformed(_) => Failure(DecodeError)
  }

  lemma DecodeEncode(p: Plugin)
    ensures Decode(Encode(p)) == Success(p)
  {
  }

  /** `Get(key)` followed by `json.Unmarshal`: a missing key and an undecodable value are told apart. */
  function Lookup(index: Index, key: string): (r: Result<Plugin, Error>)
    ensures r.Success? <==> key in index && index[key].Json?
    ensures r.Success? ==> index[key] == Encode(r.value)
    ensures key !in index ==> r == Failure(NotFound)
    ensures key in index && index[key].Malformed? ==> r == Failure(DecodeError)
  {
    if key !in index then Failure(NotFound) else Decode(index[key])
  }

  /** `Set(key, value, 0)`: an unconditional write with no expiry. */
  function Put(index: Index, key: string, p: Plugin): (r: Index)
    ensures r.Keys == index.Keys + {key}
  {
    index[key := Encode(p)]
  }

  /** What was last written under a key is what a lookup returns. */
  lemma LookupAfterPut(index: Index, key: string, p: Plugin)
    ensures Lookup(Put(index, key, p), key) == Success(p)
  {
  }

  /** A write touches its own key and no other. */
  lemma PutLeavesOtherKeys(index: Index, key: string, p: Plugin, other: string)
    requires other != key
    ensures other in Put(index, key, p) <==> other in index
    ensures other in index ==> Put(index, key, p)[other] == index[other]
    ensures Lookup(Put(index, key, p), other) == Lookup(index, other)
  {
  }

  /** The enumerated keys cut to the first `ListingLimit`. */
  function Truncate(keys: seq<string>): (r: seq<string>)
    ensures |r| <= ListingLimit && |r| <= |keys|
    ensures r == keys[..|r|]
    ensures |keys| <= ListingLimit ==> r == keys
    ensures |keys| > ListingLimit ==> r == keys[..ListingLimit]
  {
    if |keys| > ListingLimit then keys[..ListingLimit] else keys
  }

  /**
    The listing loop, key by key in enumeration order: a key that is absent
    is skipped, a value that does not decode aborts the whole listing, and a
    decoded descriptor is appended.
  */
  function Listing(index: Index, keys: seq<string>): (r: Result<seq<Plugin>, Error>)
    ensures r.Success? ==> |r.value| <= |keys|
    ensures r.Failure? ==> r.error == DecodeError
    decreases |keys|
  {
    if keys == [] then Success([])
    else
      var prior := Listing(index, keys[..|keys| - 1]);
      var key := keys[|keys| - 1];
      if prior.Failure? || key !in index then prior
      else match Decode(index[key])
        case Failure(e) => Failure(e)
        case Success(p) => Success(prior.value + [p])
  }

  /** Every enumerated key that is present holds a decodable value. */
  ghost predicate AllDecodable(index: Index, keys: seq<string>)
  {
    forall i :: 0 <= i < |keys| && keys[i] in index ==> index[keys[i]].Json?
  }

  /** The descriptors stored under the present, decodable keys, in key order. */
  function PluginsAt(index: Index, keys: seq<string>): (r: seq<Plugin>)
    decreases |keys|
  {
    if keys == [] then []
    else
      var key := keys[|keys| - 1];
      PluginsAt(index, keys[..|keys| - 1])
        + (if key in index && index[key].Json? then [index[key].plugin] else [])
  }

  /**
    The listing either fails with a decode error, exactly when some present
    key holds an undecodable value, or returns every descriptor stored under
    the enumerated keys, in order, absent keys skipped.
  */
  lemma {:induction false} ListingIsFilteredDecode(index: Index, keys: seq<string>)
    ensures Listing(index, keys)
            == if AllDecodable(index, keys) then Success(PluginsAt(index, keys)) else Failure(DecodeError)
    decreases |keys|
  {
    if keys != [] {
      var init := keys[..|keys| - 1];
      var key := keys[|keys| - 1];
      ListingIsFilteredDecode(index, init);
      assert forall i :: 0 <= i < |init| ==> init[i] == keys[i];
      if AllDecodable(index, keys) {
        assert AllDecodable(index, init);
        assert key in index ==> index[keys[|keys| - 1]].Json?;
        if key !in index {
          assert PluginsAt(index, init) + [] == PluginsAt(index, init);
        }
      } else if AllDecodable(index, init) {
        assert key in index && index[key].Malformed?;
      }
    }
  }

  /** Once a prefix of the keys has failed, the rest of the keys cannot undo it. */
  lemma {:induction false} ListingFailurePersists(index: Index, keys: seq<string>, n: nat)
    requires n <= |keys|
    requires Listing(index, keys[..n]).Failure?
    ensures Listing(index, keys) == Listing(index, keys[..n])
    decreases |keys| - n
  {
    if n < |keys| {
      assert keys[..n + 1][..n] == keys[..n];
      ListingFailurePersists(index, keys, n + 1);
    } else {
      assert keys[..n] == keys;
    }
  }

  lemma {:induction false} PluginsAtLength(index: Index, keys: seq<string>)
    ensures |PluginsAt(index, keys)| <= |keys|
    decreases |keys|
  {
    if keys != [] {
      PluginsAtLength(index, keys[..|keys| - 1]);
    }
  }

  /** A descriptor is listed exactly when some enumerated key holds its encoding. */
  lemma {:induction false} PluginsAtMembership(index: Index, keys: seq<string>, p: Plugin)
    ensures p in PluginsAt(index, keys)
            <==> exists i :: 0 <= i < |keys| && keys[i] in index && index[keys[i]] == Json(p)
    decreases |keys|
  {
    if keys != [] {
      var init := keys[..|keys| - 1];
      PluginsAtMembership(index, init, p);
      if exists i :: 0 <= i < |keys| && keys[i] in index && index[keys[i]] == Json(p) {
        var i :| 0 <= i < |keys| && keys[i] in index && index[keys[i]] == Json(p);
        if i < |init| {
          assert init[i] == keys[i];
        }
      }
      if exists i :: 0 <= i < |init| && init[i] in index && index[init[i]] == Json(p) {
        var i :| 0 <= i < |init| && init[i] in index && index[init[i]] == Json(p);
        assert keys[i] == init[i];
      }
    }
  }

  /** The listing is capped at ten entries and never exceeds the enumeration. */
  lemma ListingBounded(index: Index, keys: seq<string>)
    ensures Listing(index, Truncate(keys)).Success? ==>
              |Listing(index, Truncate(keys)).value| <= ListingLimit
              && |Listing(index, Truncate(keys)).value| <= |keys|
  {
    ListingIsFilteredDecode(index, Truncate(keys));
    PluginsAtLength(index, Truncate(keys));
  }

  /** Enumerated keys that are all gone give an empty listing, not an error. */
  lemma {:induction false} ListingOfAbsentKeys(index: Index, keys: seq<string>)
    requires forall i :: 0 <= i < |keys| ==> keys[i] !in index
    ensures Listing(index, keys) == Success([])
    decreases |keys|
  {
    if keys != [] {
      ListingOfAbsentKeys(index, keys[..|keys| - 1]);
    }
  }

  /** The name-only branch: one lookup at the fixed default version. */
  function NamedLookup(index: Index, name: string): (r: Result<seq<Plugin>, Error>)
    ensures r.Success? <==> Lookup(index, PluginKey(name, DefaultVersion)).Success?
    ensures r.Success? ==> r.value == [Lookup(index, PluginKey(name, DefaultVersion)).value]
    ensures r.Failure? ==> r.error == Lookup(index, PluginKey(name, DefaultVersion)).error
  {
    match Lookup(index, PluginKey(name, DefaultVersion))
    case Success(p) => Success([p])
    case Failure(e) => Failure(e)
  }
}
