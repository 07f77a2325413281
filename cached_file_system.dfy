/**
 * A file system that remembers what it has read
 * (src/file_system/cached_file_system.rs). Texts and parsed JSON documents
 * are kept in two caches; a JSON object whose values are all strings loses
 * its entries with empty strings before it is cached and returned.
 */
module CachedFs {
  import opened Wrappers
  import opened Json
  import opened FileSystems

  /** Every entry holds a string. */
  predicate AllStrings(fields: seq<(string, Json)>) {
    forall i :: 0 <= i < |fields| ==> fields[i].1.Str?
  }

  /** The entries whose value is not the empty string, in their order. */
  function NonEmptyEntries(fields: seq<(string, Json)>): (r: seq<(string, Json)>)
    ensures |r| <= |fields|
    ensures forall e :: e in r <==> e in fields && e.1 != Str("")
  {
    if fields == [] then []
    else
      var last := fields[|fields| - 1];
      NonEmptyEntries(fields[..|fields| - 1]) + if last.1 == Str("") then [] else [last]
  }

  /**
   * The clean-up applied to a freshly parsed document: an object whose
   * values are all strings drops its empty ones; anything else is kept as is.
   */
  function Pruned(j: Json): Json {
    if j.Object? && AllStrings(j.fields) then Object(NonEmptyEntries(j.fields)) else j
  }

  /** The loop of `read_serde` that builds `new_map`. */
  method Prune(parsed: Json) returns (r: Json)
    ensures r == Pruned(parsed)
  {
    r := parsed;
    if parsed.Object? {
      var fields := parsed.fields;
      var newMap: seq<(string, Json)> := [];
      var doNotOperateFlag := false;
      var i := 0;
      while i < |fields|
        invariant i <= |fields|
        invariant AllStrings(fields[..i])
        invariant newMap == NonEmptyEntries(fields[..i])
      {
        var (k, v) := fields[i];
        if !v.Str? {
          assert !AllStrings(fields);
          doNotOperateFlag := true;
          break;
        }
        PruneStep(fields, i);
        if v.s != "" {
          newMap := newMap + [(k, v)];
        }
        i := i + 1;
      }
      if !doNotOperateFlag {
        assert fields[..i] == fields;
        r := Object(newMap);
      }
    }
  }

  /** One more string entry: the prefix stays all strings and its non-empty entries grow by at most it. */
  lemma PruneStep(fields: seq<(string, Json)>, i: nat)
    requires i < |fields| && AllStrings(fields[..i]) && fields[i].1.Str?
    ensures AllStrings(fields[..i + 1])
    ensures NonEmptyEntries(fields[..i + 1]) ==
      NonEmptyEntries(fields[..i]) + if fields[i].1.s == "" then [] else [fields[i]]
  {
    assert fields[..i + 1][..i] == fields[..i];
  }

  /** What `read_serde` yields for `path` read through `upper`, cache aside. */
  function ReadSerdeThrough(upper: FileSystem, parseJson: string -> Option<Json>, path: string): Option<Json> {
    match upper.read(path)
    case None => None
    case Some(s) =>
      match parseJson(s)
      case None => None
      case Some(j) => Some(Pruned(j))
  }

  /** The cached file system seen from outside: `upper` with the clean-up on JSON reads. */
  function Cached(upper: FileSystem, parseJson: string -> Option<Json>): (fs: FileSystem)
    ensures fs.pathExists == upper.pathExists && fs.read == upper.read
    ensures forall p :: fs.readSerde(p) == ReadSerdeThrough(upper, parseJson, p)
  {
    FileSystem(upper.pathExists, upper.read, p => ReadSerdeThrough(upper, parseJson, p))
  }

  class CachedFileSystem {
    const upper: FileSystem
    /** `serde_json::from_str`, whose text format is not part of this model. */
    const parseJson: string -> Option<Json>
    var cache: map<string, string>
    var cacheSerde: map<string, Json>

    /** Both caches agree with what reading through `upper` gives. */
    ghost predicate Valid()
      reads this
    {
      (forall p | p in cache :: upper.read(p) == Some(cache[p])) &&
      (forall p | p in cacheSerde :: ReadSerdeThrough(upper, parseJson, p) == Some(cacheSerde[p]))
    }

    /** `CachedFileSystem::new`: both caches empty. */
    constructor (upper: FileSystem, parseJson: string -> Option<Json>)
      ensures Valid()
      ensures this.upper == upper && this.parseJson == parseJson
      ensures cache == map[] && cacheSerde == map[]
    {
      this.upper := upper;
      this.parseJson := parseJson;
      cache := map[];
      cacheSerde := map[];
    }

    /** `exists`: asks `upper`, and remembers nothing. */
    method Exists(path: string) returns (b: bool)
      ensures b == upper.pathExists(path)
    {
      b := upper.pathExists(path);
    }

    /** `read`: the cached text, or `upper`'s text, cached when there is one. */
    method Read(path: string) returns (r: Option<string>)
      requires Valid()
      modifies this
      ensures Valid()
      ensures r == upper.read(path)
      ensures cache == if r.Some? then old(cache)[path := r.value] else old(cache)
      ensures cacheSerde == old(cacheSerde)
    {
      if path in cache {
        r := Some(cache[path]);
        assert cache == cache[path := r.value];
      } else {
        r := upper.read(path);
        if r.Some? {
          cache := cache[path := r.value];
        }
      }
    }

    /**
     * `read_serde`: the cached document, or the text read, parsed and
     * cleaned up, cached when there is one.
     */
    method ReadSerde(path: string) returns (r: Option<Json>)
      requires Valid()
      modifies this
      ensures Valid()
      ensures r == ReadSerdeThrough(upper, parseJson, path)
      ensures cacheSerde == if r.Some? then old(cacheSerde)[path := r.value] else old(cacheSerde)
      ensures path in old(cacheSerde) ==> cache == old(cache)
      ensures path !in old(cacheSerde) ==>
        cache == if upper.read(path).Some? then old(cache)[path := upper.read(path).value] else old(cache)
    {
      if path in cacheSerde {
        r := Some(cacheSerde[path]);
        assert cacheSerde == cacheSerde[path := r.value];
        return;
      }
      var s := Read(path);
      if s.None? {
        return None;
      }
      var parsed := parseJson(s.value);
      if parsed.None? {
        return None;
      }
      var pruned := Prune(parsed.value);
      cacheSerde := cacheSerde[path := pruned];
      r := Some(pruned);
    }
  }

  // ---------------------------------------------------------------------
  // What the clean-up does.
  // ---------------------------------------------------------------------

  /** Cleaning up twice is cleaning up once. */
  lemma PrunedIdempotent(j: Json)
    ensures Pruned(Pruned(j)) == Pruned(j)
  {
    if j.Object? && AllStrings(j.fields) {
      NonEmptyAllStrings(j.fields);
      NonEmptyFixed(NonEmptyEntries(j.fields));
    }
  }

  lemma {:induction false} NonEmptyAllStrings(fields: seq<(string, Json)>)
    requires AllStrings(fields)
    ensures AllStrings(NonEmptyEntries(fields))
  {
    var r := NonEmptyEntries(fields);
    forall i | 0 <= i < |r|
      ensures r[i].1.Str?
    {
      assert r[i] in r;
    }
  }

  lemma {:induction false} NonEmptyFixed(fields: seq<(string, Json)>)
    requires forall i :: 0 <= i < |fields| ==> fields[i].1 != Str("")
    ensures NonEmptyEntries(fields) == fields
  {
    if fields != [] {
      NonEmptyFixed(fields[..|fields| - 1]);
      assert fields[..|fields| - 1] + [fields[|fields| - 1]] == fields;
    }
  }

  /**
   * In an all-string object, a key keeps its value unless that value is
   * empty, in which case the key is gone.
   */
  lemma {:induction false} NonEmptyLookup(fields: seq<(string, Json)>, key: string)
    requires DistinctKeys(fields)
    ensures Get(NonEmptyEntries(fields), key) == if Get(fields, key) == Some(Str("")) then None else Get(fields, key)
  {
    if fields != [] {
      var n := |fields|;
      var init, last := fields[..n - 1], fields[n - 1];
      assert init + [last] == fields;
      var kept := NonEmptyEntries(init);
      assert DistinctKeys(init) by {
        forall i, j | 0 <= i < j < |init| ensures init[i].0 != init[j].0 {
          assert init[i] == fields[i] && init[j] == fields[j];
        }
      }
      NonEmptyLookup(init, key);
      GetSnoc(init, last, key);
      if last.0 == key {
        assert Get(init, key) == None by {
          forall i | 0 <= i < |init| ensures init[i].0 != key {
            assert init[i] == fields[i];
          }
        }
        assert Get(kept, key) == None;
      }
      if last.1 == Str("") {
        assert NonEmptyEntries(fields) == kept;
      } else {
        assert NonEmptyEntries(fields) == kept + [last];
        GetSnoc(kept, last, key);
      }
    }
  }

  /** Looking up in a list with one more entry at its end. */
  lemma GetSnoc(fields: seq<(string, Json)>, e: (string, Json), key: string)
    ensures Get(fields + [e], key) == if Get(fields, key).Some? then Get(fields, key) else if e.0 == key then Some(e.1) else None
  {
    if fields != [] {
      assert (fields + [e])[1..] == fields[1..] + [e];
      GetSnoc(fields[1..], e, key);
    }
  }

  /** An object with a value that is not a string is returned untouched. */
  lemma MixedObjectUntouched(fields: seq<(string, Json)>, i: nat)
    requires i < |fields| && !fields[i].1.Str?
    ensures Pruned(Object(fields)) == Object(fields)
  {
  }

  /** The cleaned-up document of a text map has no empty translations left. */
  lemma NoEmptyAfterPruning(j: Json)
    requires j.Object? && AllStrings(j.fields)
    ensures Pruned(j).Object?
    ensures forall e :: e in Pruned(j).fields <==> e in j.fields && e.1 != Str("")
  {
  }
}
