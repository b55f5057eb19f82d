/**
 * The cache of merged packs, which is never visible in what a load answers, and the single-file fast path, which is
 * visible exactly in files that spell out an empty reference.
 */
module PackCache {
  import opened Wrappers
  import opened PackLoader

  type Cache = map<string, Layer>

  function EntryKey(d: Disk, entry: string): string {
    if '/' in entry then d.locate(entry) else entry
  }

  /** Resolved locations are absolute, so they are never mistaken for a bare pack name. */
  ghost predicate AbsoluteLocations(d: Disk) {
    forall s :: '/' in d.locate(s)
  }

  predicate SingleFile(raw: Raw) {
    (raw.base.NoExtends? || raw.base.NullExtends?) && (raw.imports.NoImport? || raw.imports.FalsyImport?)
  }

  /** The whole mapping of a single-file pack, its empty reference keys included. */
  function Whole(raw: Raw): Layer {
    raw.body
    + (if raw.base.NullExtends? then map[ExtendsKey := Null] else map[])
    + (if raw.imports.FalsyImport? then map[ImportKey := raw.imports.value] else map[])
  }

  /** What a load answers when nothing is cached. */
  function Uncached(d: Disk, entry: string): Outcome {
    var file := Resolve(d, entry);
    if file !in d.files then Err(NotFound(entry))
    else if d.files[file].Unreadable? then Err(ReadError)
    else if d.files[file].NotAMapping? then Err(NotMapping)
    else if SingleFile(d.files[file].raw) then Ok(Whole(d.files[file].raw))
    else Merge(d, entry, 0, {})
  }

  /** Every cached value is what loading any of its entries afresh would answer. */
  ghost predicate Faithful(d: Disk, cache: Cache) {
    forall e | EntryKey(d, e) in cache :: Uncached(d, e) == Ok(cache[EntryKey(d, e)])
  }

  datatype Op = Load(entry: string) | Clear

  /** What a load answers, given the cache. */
  function Answer(d: Disk, cache: Cache, entry: string): Outcome {
    if EntryKey(d, entry) in cache then Ok(cache[EntryKey(d, entry)]) else Uncached(d, entry)
  }

  function Next(d: Disk, cache: Cache, op: Op): Cache {
    if op.Clear? then map[]
    else if Answer(d, cache, op.entry).Ok? then cache[EntryKey(d, op.entry) := Answer(d, cache, op.entry).value]
    else cache
  }

  class Loader {
    var merged: Cache

    constructor ()
      ensures merged == map[]
    {
      merged := map[];
    }

    method Clear()
      modifies this
      ensures merged == map[]
    {
      merged := map[];
    }

    method MergedDictForEntry(d: Disk, entry: string) returns (r: Outcome)
      modifies this
      ensures r == Answer(d, old(merged), entry)
      ensures merged == Next(d, old(merged), Load(entry))
    {
      var key := EntryKey(d, entry);
      if key in merged {
        assert merged == merged[key := merged[key]];
        return Ok(merged[key]);
      }
      var file := Resolve(d, entry);
      if file !in d.files {
        return Err(NotFound(entry));
      }
      if d.files[file].Unreadable? {
        return Err(ReadError);
      }
      if d.files[file].NotAMapping? {
        return Err(NotMapping);
      }
      var raw := d.files[file].raw;
      if SingleFile(raw) {
        r := Ok(Whole(raw));
      } else {
        var visiting := new Visiting();
        r := MergePackLayers(d, entry, 0, visiting);
        if r.Err? {
          return;
        }
      }
      merged := merged[key := r.value];
    }
  }

  /** Entries that share a cache key load the same pack. */
  lemma SameKeySamePack(d: Disk, e: string, e': string)
    requires AbsoluteLocations(d) && EntryKey(d, e) == EntryKey(d, e') && Uncached(d, e).Ok?
    ensures Uncached(d, e') == Uncached(d, e)
  {
    assert Resolve(d, e) == Resolve(d, e');
  }

  lemma StoreKeepsFaithful(d: Disk, cache: Cache, entry: string, value: Layer)
    requires AbsoluteLocations(d) && Faithful(d, cache) && Uncached(d, entry) == Ok(value)
    ensures Faithful(d, cache[EntryKey(d, entry) := value])
  {
    forall e | EntryKey(d, e) == EntryKey(d, entry)
      ensures Uncached(d, e) == Ok(value)
    {
      SameKeySamePack(d, entry, e);
    }
  }

  // ---- Any history of loads and clears -------------------------------------

  /** The cache after a sequence of operations, latest last. */
  function CacheAfter(d: Disk, cache: Cache, ops: seq<Op>): Cache {
    if ops == [] then cache else Next(d, CacheAfter(d, cache, ops[..|ops| - 1]), ops[|ops| - 1])
  }

  /** After any sequence of loads and clears, the next load answers what an uncached one would. */
  lemma {:induction false} CacheIsInvisible(d: Disk, ops: seq<Op>, entry: string)
    requires AbsoluteLocations(d)
    ensures Faithful(d, CacheAfter(d, map[], ops))
    ensures Answer(d, CacheAfter(d, map[], ops), entry) == Uncached(d, entry)
  {
    if ops != [] {
      var before, op := ops[..|ops| - 1], ops[|ops| - 1];
      CacheIsInvisible(d, before, entry);
      if op.Load? && Uncached(d, op.entry).Ok? {
        StoreKeepsFaithful(d, CacheAfter(d, map[], before), op.entry, Uncached(d, op.entry).value);
      }
    }
  }

  /** The fast path agrees with the full merge on every key but the two reference keys, and never fails alone. */
  lemma FastPathAgrees(d: Disk, entry: string, k: Key)
    requires Resolve(d, entry) in d.files && d.files[Resolve(d, entry)].Document?
    requires SingleFile(d.files[Resolve(d, entry)].raw) && k != ExtendsKey && k != ImportKey
    ensures Merge(d, entry, 0, {}).Ok?
    ensures var fast, full := Uncached(d, entry).value, Merge(d, entry, 0, {}).value;
            (k in fast <==> k in full) && (k in fast ==> fast[k] == full[k])
  {
    var raw := d.files[Resolve(d, entry)].raw;
    assert ImportNames(raw) == [];
  }

  /** So a load fails exactly when the full merge does, with the same fault, and else has the same pack fields. */
  lemma LoadIsMerge(d: Disk, entry: string, k: Key)
    requires k != ExtendsKey && k != ImportKey
    ensures var load, full := Uncached(d, entry), Merge(d, entry, 0, {});
            if full.Err? then load == full
            else
              && load.Ok? && (k in load.value <==> k in full.value)
              && (k in full.value ==> load.value[k] == full.value[k])
  {
    var file := Resolve(d, entry);
    if file in d.files && d.files[file].Document? && SingleFile(d.files[file].raw) {
      FastPathAgrees(d, entry, k);
    }
  }

  /** A load is kept under the resolved path, or under the bare name; a fault is not kept. */
  lemma LoadIsKept(d: Disk, cache: Cache, entry: string)
    ensures var key, r, after := if '/' in entry then d.locate(entry) else entry,
                                 Answer(d, cache, entry), Next(d, cache, Load(entry));
            && (key in cache ==> r == Ok(cache[key]) && after == cache)
            && (key !in cache ==> r == Uncached(d, entry))
            && (r.Ok? ==> after == cache[key := r.value])
            && (r.Err? ==> after == cache)
  {
    var key := EntryKey(d, entry);
    if key in cache {
      assert cache[key := cache[key]] == cache;
    }
  }

  /** They differ exactly for a file that spells out an empty reference: only the fast path keeps that key. */
  lemma FastPathKeepsEmptyReference(d: Disk, entry: string)
    requires Resolve(d, entry) in d.files && d.files[Resolve(d, entry)].Document?
    requires var raw := d.files[Resolve(d, entry)].raw;
             SingleFile(raw) && ExtendsKey !in raw.body && ImportKey !in raw.body
    ensures Uncached(d, entry) == Merge(d, entry, 0, {}) <==>
            var raw := d.files[Resolve(d, entry)].raw; raw.base.NoExtends? && raw.imports.NoImport?
  {
    var raw := d.files[Resolve(d, entry)].raw;
    assert ImportNames(raw) == [];
    assert Merge(d, entry, 0, {}) == Ok(map[] + raw.body);
    assert map[] + raw.body == raw.body;
    if raw.base.NullExtends? {
      assert ExtendsKey in Whole(raw);
    }
    if raw.imports.FalsyImport? {
      assert ImportKey in Whole(raw);
    } else if raw.base.NoExtends? {
      assert Whole(raw) == raw.body;
    }
  }

  /** The fields of a policy pack; its model forbids any other key. */
  predicate PackField(k: Key) {
    || Scalar(k) || k.ConflictPolicy?
    || (k.Other? && k.name in {"version", "name", "description", "protected_paths", "path_rules", "trust_gates"})
  }

  /** The fields of a policy pack, by name; neither reference is one. */
  lemma PackFieldTable(k: Key)
    ensures PackField(k) <==>
            || Scalar(k) || k == ConflictPolicy
            || k in {Other("version"), Other("name"), Other("description")}
            || k in {Other("protected_paths"), Other("path_rules"), Other("trust_gates")}
    ensures !PackField(ExtendsKey) && !PackField(ImportKey)
  {
  }

  predicate OnlyPackFields(pack: Layer) {
    forall k | k in pack :: PackField(k)
  }

  /**
   * So a file that spells out an empty reference is refused as a pack, for its extra key, although the full merge
   * would have dropped that key: it is loadable exactly when it mentions neither reference.
   */
  lemma EmptyReferenceIsRefused(d: Disk, entry: string)
    requires Resolve(d, entry) in d.files && d.files[Resolve(d, entry)].Document?
    requires var raw := d.files[Resolve(d, entry)].raw; SingleFile(raw) && OnlyPackFields(raw.body)
    ensures Merge(d, entry, 0, {}).Ok? && OnlyPackFields(Merge(d, entry, 0, {}).value)
    ensures OnlyPackFields(Uncached(d, entry).value) <==>
            var raw := d.files[Resolve(d, entry)].raw; raw.base.NoExtends? && raw.imports.NoImport?
  {
    var raw := d.files[Resolve(d, entry)].raw;
    FastPathKeepsEmptyReference(d, entry);
    assert ImportNames(raw) == [];
    assert Merge(d, entry, 0, {}) == Ok(map[] + raw.body);
    if raw.base.NullExtends? {
      assert ExtendsKey in Whole(raw);
    } else if raw.imports.FalsyImport? {
      assert ImportKey in Whole(raw);
    }
  }
}
