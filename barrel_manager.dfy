/** The barrel cache of Barrel-manager.hpp: a term is sent to one of ten
    barrels by its hash, and at most three barrels are held in memory, the
    least recently used one evicted to make room.

    The hash map of loaded barrels is a `map`, the `std::list` of
    recency a `seq` whose head is the most recent; the file system is a
    function from barrel id to the bytes of the file, `None` when it cannot
    be opened. */
module BarrelManager {
  import opened Common
  import Ordering
  import AutocompleteBuilder

  /** `BarrelConfig::NUM_BARRELS` */
  const NumBarrels: nat := 10

  /** `BarrelConfig::MAX_BARRELS_IN_MEMORY` */
  const MaxBarrelsInMemory: nat := 3

  /** What reading `barrel_<id>.bin` gives. */
  type Disk = uint32 -> Option<seq<byte>>

  /** `get_barrel_id`: `std::hash<string>` is implementation-defined, so
      it is a parameter; whatever it yields, the id names a barrel. */
  function BarrelId(term: string, hasher: string -> nat): (id: uint32)
    ensures id < NumBarrels
  {
    hasher(term) % NumBarrels
  }

  // ---------------------------------------------------------------------
  // The cache as a value

  /** `loaded_barrels` and `lru_order`. */
  datatype Cache = Cache(loaded: map<uint32, seq<byte>>, lru: seq<uint32>)

  /** The cache invariant: the recency list names every loaded barrel
      once and nothing else, and no more than three are loaded. */
  ghost predicate CacheValid(c: Cache) {
    Ordering.Distinct(c.lru)
    && (forall id :: id in c.lru <==> id in c.loaded)
    && |c.loaded| <= MaxBarrelsInMemory
  }

  /** `list::remove`: every occurrence of `x` dropped, the rest in order. */
  function Remove(s: seq<uint32>, x: uint32): (r: seq<uint32>)
    ensures x !in r && forall y :: y != x ==> (y in r <==> y in s)
    ensures Ordering.Distinct(s) ==> Ordering.Distinct(r)
    ensures Ordering.Distinct(s) && x in s ==> |r| == |s| - 1
    ensures x !in s ==> r == s
    decreases |s|
  {
    if s == [] then []
    else if s[0] == x then DistinctTail(s); Remove(s[1..], x)
    else DistinctTail(s); DistinctCons(s[0], Remove(s[1..], x)); [s[0]] + Remove(s[1..], x)
  }

  lemma DistinctTail(s: seq<uint32>)
    requires s != []
    ensures Ordering.Distinct(s) ==> Ordering.Distinct(s[1..]) && s[0] !in s[1..]
  {
  }

  lemma DistinctCons(a: uint32, r: seq<uint32>)
    ensures a !in r && Ordering.Distinct(r) ==> Ordering.Distinct([a] + r)
  {
  }

  /** Dropping the least recently used barrel: the back of the list. */
  function Evict(c: Cache): Cache
    requires c.lru != []
  {
    var victim := c.lru[|c.lru| - 1];
    Cache(c.loaded - {victim}, c.lru[..|c.lru| - 1])
  }

  /** `load_barrel`: a hit moves the id to the front; a miss first evicts
      when three barrels are loaded, then reads the file, and fails when it
      cannot be opened. */
  function Load(c: Cache, id: uint32, disk: Disk): (Cache, bool)
    requires CacheValid(c)
  {
    if id in c.loaded then (Cache(c.loaded, [id] + Remove(c.lru, id)), true)
    else
      var room := Room(c);
      match disk(id)
      case None => (room, false)
      case Some(data) => (Cache(room.loaded[id := data], [id] + room.lru), true)
  }

  lemma {:induction false} DistinctInit(s: seq<uint32>)
    requires Ordering.Distinct(s) && s != []
    ensures Ordering.Distinct(s[..|s| - 1]) && s[|s| - 1] !in s[..|s| - 1]
  {
  }

  /** Evicting keeps the invariant and drops exactly the back of the list. */
  lemma EvictValid(c: Cache)
    requires CacheValid(c) && c.lru != []
    ensures CacheValid(Evict(c))
    ensures var victim := c.lru[|c.lru| - 1];
      victim !in Evict(c).loaded && Evict(c).loaded.Keys == c.loaded.Keys - {victim}
  {
    DistinctInit(c.lru);
  }

  /** A full cache has a back to evict. */
  lemma FullHasBack(c: Cache)
    requires CacheValid(c) && |c.loaded| >= MaxBarrelsInMemory
    ensures c.lru != []
  {
    var id :| id in c.loaded;
  }

  /** `load_barrel` keeps the invariant, so at most three barrels are ever
      loaded. */
  lemma LoadValid(c: Cache, id: uint32, disk: Disk)
    requires CacheValid(c)
    ensures CacheValid(Load(c, id, disk).0)
  {
    if id in c.loaded {
      HitValid(c, id);
    } else {
      var room := Room(c);
      RoomValid(c);
      if disk(id).Some? {
        AddValid(room, id, disk(id).value);
      }
    }
  }

  /** The cache a miss reads into: the least recently used barrel evicted
      when three are loaded. */
  function Room(c: Cache): Cache
    requires CacheValid(c)
  {
    if |c.loaded| >= MaxBarrelsInMemory then FullHasBack(c); Evict(c) else c
  }

  lemma RoomValid(c: Cache)
    requires CacheValid(c)
    ensures CacheValid(Room(c)) && |Room(c).loaded| < MaxBarrelsInMemory
    ensures forall k :: k in Room(c).loaded ==> k in c.loaded && Room(c).loaded[k] == c.loaded[k]
  {
    if |c.loaded| >= MaxBarrelsInMemory {
      FullHasBack(c);
      EvictValid(c);
      var victim := c.lru[|c.lru| - 1];
      assert |Room(c).loaded| < |c.loaded| by {
        assert Room(c).loaded.Keys < c.loaded.Keys;
      }
    }
  }

  lemma HitValid(c: Cache, id: uint32)
    requires CacheValid(c) && id in c.loaded
    ensures CacheValid(Cache(c.loaded, [id] + Remove(c.lru, id)))
  {
    DistinctCons(id, Remove(c.lru, id));
  }

  lemma AddValid(room: Cache, id: uint32, data: seq<byte>)
    requires CacheValid(room) && id !in room.loaded && |room.loaded| < MaxBarrelsInMemory
    ensures CacheValid(Cache(room.loaded[id := data], [id] + room.lru))
  {
  }

  /** A hit succeeds, keeps the contents, and moves the id to the front
      with the others in the same order. */
  lemma LoadHit(c: Cache, id: uint32, disk: Disk)
    requires CacheValid(c) && id in c.loaded
    ensures var (next, ok) := Load(c, id, disk);
      ok && next.loaded == c.loaded && next.lru[0] == id && next.lru[1..] == Remove(c.lru, id)
      && |next.lru| == |c.lru|
  {
  }

  /** A miss succeeds exactly when the file opens, and then the id is at
      the front and maps to the file's bytes; a miss with three barrels
      loaded has first evicted the least recently used one, so a failed
      open leaves one barrel fewer. */
  lemma LoadMiss(c: Cache, id: uint32, disk: Disk)
    requires CacheValid(c) && id !in c.loaded
    ensures var (next, ok) := Load(c, id, disk);
      (ok <==> disk(id).Some?)
      && (ok ==> next.lru[0] == id && id in next.loaded && next.loaded[id] == disk(id).value)
      && (|c.loaded| >= MaxBarrelsInMemory ==> c.lru != [] && c.lru[|c.lru| - 1] !in next.loaded)
      && (|c.loaded| >= MaxBarrelsInMemory && !ok ==> |next.loaded| == |c.loaded| - 1)
      && (|c.loaded| < MaxBarrelsInMemory ==> forall k :: k in c.loaded ==> k in next.loaded && next.loaded[k] == c.loaded[k])
  {
    if |c.loaded| >= MaxBarrelsInMemory {
      FullHasBack(c);
      EvictValid(c);
      var victim := c.lru[|c.lru| - 1];
      assert |(c.loaded - {victim}).Keys| == |c.loaded.Keys - {victim}|;
    }
  }

  // ---------------------------------------------------------------------
  // Preloading the barrels of several terms

  /** The loads of `ids` one after the other. */
  function LoadAll(c: Cache, ids: seq<uint32>, disk: Disk): (r: Cache)
    requires CacheValid(c)
    ensures CacheValid(r)
    decreases |ids|
  {
    if ids == [] then c
    else
      LoadValid(c, ids[0], disk);
      LoadAll(Load(c, ids[0], disk).0, ids[1..], disk)
  }

  /** The barrels of the terms, as the `std::set` that holds them. */
  function Needed(terms: seq<string>, hasher: string -> nat): (ids: set<uint32>)
    ensures forall id :: id in ids ==> id < NumBarrels
  {
    set t | t in terms :: BarrelId(t, hasher)
  }

  /** After a preload the barrel loaded last, the greatest needed id, is
      the most recent when its file opens. */
  lemma {:induction false} LoadAllLast(c: Cache, ids: seq<uint32>, disk: Disk)
    requires CacheValid(c) && ids != [] && disk(ids[|ids| - 1]).Some?
    ensures var r := LoadAll(c, ids, disk); r.lru != [] && r.lru[0] == ids[|ids| - 1] && ids[|ids| - 1] in r.loaded
    decreases |ids|
  {
    LoadValid(c, ids[0], disk);
    var next := Load(c, ids[0], disk).0;
    if |ids| == 1 {
      if ids[0] in c.loaded {
        LoadHit(c, ids[0], disk);
      } else {
        LoadMiss(c, ids[0], disk);
      }
    } else {
      LoadAllLast(next, ids[1..], disk);
      assert ids[1..][|ids[1..]| - 1] == ids[|ids| - 1];
    }
  }

  // ---------------------------------------------------------------------
  // The total size of the loaded barrels

  /** The bytes held by the barrels of `m`, added in any order. */
  ghost function TotalSize(m: map<uint32, seq<byte>>): nat
    decreases |m.Keys|
  {
    if m.Keys == {} then 0
    else
      var k :| k in m.Keys;
      assert |(m - {k}).Keys| < |m.Keys| by {
        assert (m - {k}).Keys == m.Keys - {k};
      }
      |m[k]| + TotalSize(m - {k})
  }

  /** The order in which the barrels are added does not matter. */
  lemma {:induction false} TotalSizeRemove(m: map<uint32, seq<byte>>, k: uint32)
    requires k in m
    ensures TotalSize(m) == |m[k]| + TotalSize(m - {k})
    decreases |m.Keys|
  {
    var j :| j in m.Keys && TotalSize(m) == |m[j]| + TotalSize(m - {j});
    if j != k {
      assert (m - {k}).Keys == m.Keys - {k} && (m - {j}).Keys == m.Keys - {j};
      TotalSizeRemove(m - {j}, k);
      TotalSizeRemove(m - {k}, j);
      assert m - {j} - {k} == m - {k} - {j};
    }
  }

  // ---------------------------------------------------------------------
  // barrel_metadata.txt

  /** `BarrelInfo` */
  datatype BarrelInfo = BarrelInfo(barrelId: uint32, startTerm: string, endTerm: string, offset: nat, size: nat, termCount: nat)

  /** A metadata line read as "barrel_id start_term end_term offset size
      term_count"; `None` when any read fails. */
  function InfoOf(line: string): Option<BarrelInfo> {
    match AutocompleteBuilder.ExtractNumber(line, U32)
    case None => None
    case Some(r1) =>
      match AutocompleteBuilder.ExtractWord(r1.1)
      case None => None
      case Some(r2) =>
        match AutocompleteBuilder.ExtractWord(r2.1)
        case None => None
        case Some(r3) =>
          match AutocompleteBuilder.ExtractNumber(r3.1, AutocompleteBuilder.U64)
          case None => None
          case Some(r4) =>
            match AutocompleteBuilder.ExtractNumber(r4.1, AutocompleteBuilder.U64)
            case None => None
            case Some(r5) =>
              match AutocompleteBuilder.ExtractNumber(r5.1, AutocompleteBuilder.U64)
              case None => None
              case Some(r6) => Some(BarrelInfo(r1.0, r2.0, r3.0, r4.0, r5.0, r6.0))
  }

  /** The readable lines of the metadata file, in order. */
  function InfosOf(lines: seq<string>): (r: seq<BarrelInfo>)
    ensures |r| <= |lines|
    decreases |lines|
  {
    if lines == [] then []
    else
      var init := InfosOf(lines[..|lines| - 1]);
      match InfoOf(lines[|lines| - 1])
      case None => init
      case Some(info) => init + [info]
  }

  /** The loop of `load_metadata` over the lines of the file. */
  method ReadInfos(lines: seq<string>) returns (infos: seq<BarrelInfo>)
    ensures infos == InfosOf(lines)
  {
    infos := [];
    for i := 0 to |lines|
      invariant infos == InfosOf(lines[..i])
    {
      assert lines[..i + 1][..i] == lines[..i];
      var info := InfoOf(lines[i]);
      if info.Some? {
        infos := infos + [info.value];
      }
    }
    assert lines[..|lines|] == lines;
  }

  // ---------------------------------------------------------------------
  // `BarrelManager`

  class Manager {
    const indexDir: string
    var metadata: seq<BarrelInfo>
    var loaded: map<uint32, seq<byte>>
    var lru: seq<uint32>

    function State(): Cache
      reads this
    {
      Cache(loaded, lru)
    }

    ghost predicate Valid()
      reads this
    {
      CacheValid(State())
    }

    /** The constructor, with the metadata file's lines (`None` when it
        cannot be opened). */
    constructor(dir: string, metaFile: Option<seq<string>>)
      ensures indexDir == dir && loaded == map[] && lru == [] && Valid()
      ensures metadata == if metaFile.None? then [] else InfosOf(metaFile.value)
    {
      indexDir := dir;
      loaded := map[];
      lru := [];
      var infos := [];
      if metaFile.Some? {
        infos := ReadInfos(metaFile.value);
      }
      metadata := infos;
    }

    /** `load_metadata`: every readable line is appended. */
    method LoadMetadata(metaFile: Option<seq<string>>)
      modifies this
      ensures loaded == old(loaded) && lru == old(lru)
      ensures metadata == old(metadata) + if metaFile.None? then [] else InfosOf(metaFile.value)
    {
      if metaFile.None? {
        assert old(metadata) + [] == old(metadata);
        return;
      }
      var infos := ReadInfos(metaFile.value);
      metadata := metadata + infos;
    }

    /** `load_barrel` */
    method LoadBarrel(id: uint32, disk: Disk) returns (ok: bool)
      requires Valid()
      modifies this
      ensures (State(), ok) == Load(old(State()), id, disk) && Valid()
      ensures metadata == old(metadata)
    {
      LoadValid(State(), id, disk);
      if id in loaded {
        lru := [id] + Remove(lru, id);
        return true;
      }
      ghost var c := State();
      if |loaded| >= MaxBarrelsInMemory {
        FullHasBack(c);
        var evictId := lru[|lru| - 1];
        lru := lru[..|lru| - 1];
        loaded := loaded - {evictId};
        assert State() == Evict(c);
      }
      assert State() == Room(c);
      var file := disk(id);
      if file.None? {
        return false;
      }
      loaded := loaded[id := file.value];
      lru := [id] + lru;
      ok := true;
    }

    /** `get_barrel_for_term`: the bytes of the term's barrel, loading it
        when needed; `None` when it cannot be loaded. */
    method GetBarrelForTerm(term: string, hasher: string -> nat, disk: Disk) returns (r: Option<seq<byte>>)
      requires Valid()
      modifies this
      ensures var id := BarrelId(term, hasher);
        var (next, ok) := Load(old(State()), id, disk);
        State() == next && (r.Some? <==> ok) && (ok ==> id in loaded && r.value == loaded[id])
      ensures Valid() && metadata == old(metadata)
    {
      var id := BarrelId(term, hasher);
      var ok := LoadBarrel(id, disk);
      if !ok {
        return None;
      }
      LoadSucceeds(old(State()), id, disk);
      return Some(loaded[id]);
    }

    /** `preload_barrels`: the barrels of the terms, each once, in
        ascending id order. */
    method PreloadBarrels(terms: seq<string>, hasher: string -> nat, disk: Disk)
      requires Valid()
      modifies this
      ensures State() == LoadAll(old(State()), Ordering.SortedSet(Needed(terms, hasher)), disk)
      ensures Valid() && metadata == old(metadata)
    {
      var needed: set<uint32> := {};
      for i := 0 to |terms|
        invariant needed == Needed(terms[..i], hasher)
        invariant unchanged(this)
      {
        NeededSnoc(terms, i, hasher);
        needed := needed + {BarrelId(terms[i], hasher)};
      }
      assert terms[..|terms|] == terms;
      var rest := needed;
      ghost var start := State();
      while rest != {}
        invariant Valid() && metadata == old(metadata)
        invariant LoadAll(start, Ordering.SortedSet(needed), disk) == LoadAll(State(), Ordering.SortedSet(rest), disk)
        decreases |rest|
      {
        var id :| id in rest && forall j :: j in rest ==> id <= j;
        LoadLeast(State(), rest, id, disk);
        var _ := LoadBarrel(id, disk);
        rest := rest - {id};
      }
    }

    /** `memory_usage`: the bytes of every loaded barrel, walking the hash
        map in whatever order it yields them. */
    method MemoryUsage() returns (total: nat)
      ensures total == TotalSize(loaded)
    {
      total := 0;
      ghost var left := loaded;
      var keys := loaded.Keys;
      while keys != {}
        invariant keys == left.Keys && (forall k :: k in left ==> k in loaded && left[k] == loaded[k])
        invariant total + TotalSize(left) == TotalSize(loaded)
        decreases |keys|
      {
        var k :| k in keys;
        TotalSizeRemove(left, k);
        total := total + |loaded[k]|;
        left := left - {k};
        keys := keys - {k};
      }
    }

    /** `clear_cache` */
    method ClearCache()
      modifies this
      ensures loaded == map[] && lru == [] && Valid() && metadata == old(metadata)
    {
      loaded := map[];
      lru := [];
    }
  }

  /** A successful load leaves the id loaded. */
  lemma LoadSucceeds(c: Cache, id: uint32, disk: Disk)
    requires CacheValid(c) && Load(c, id, disk).1
    ensures id in Load(c, id, disk).0.loaded
  {
  }

  /** One more term adds its barrel to those needed. */
  lemma NeededSnoc(terms: seq<string>, i: nat, hasher: string -> nat)
    requires i < |terms|
    ensures Needed(terms[..i + 1], hasher) == Needed(terms[..i], hasher) + {BarrelId(terms[i], hasher)}
  {
    assert terms[..i + 1] == terms[..i] + [terms[i]];
  }

  /** Loading the ids of a set in ascending order starts with its least. */
  lemma LoadLeast(c: Cache, rest: set<uint32>, id: uint32, disk: Disk)
    requires CacheValid(c) && id in rest && forall j :: j in rest ==> id <= j
    ensures CacheValid(Load(c, id, disk).0)
    ensures LoadAll(c, Ordering.SortedSet(rest), disk) == LoadAll(Load(c, id, disk).0, Ordering.SortedSet(rest - {id}), disk)
  {
    assert id == Ordering.MinOf(rest);
    SortedSetFirst(rest);
    LoadValid(c, id, disk);
  }

  /** `SortedSet` starts with the least element, then the rest. */
  lemma SortedSetFirst(ks: set<uint32>)
    requires ks != {}
    ensures Ordering.SortedSet(ks) == [Ordering.MinOf(ks)] + Ordering.SortedSet(ks - {Ordering.MinOf(ks)})
  {
  }
}
