/**
 * The cache of language-server processes: a map with timestamps that behaves as a plain list ordered by last use
 * and holds at most eight entries.
 */
module LspCache {
  import opened Wrappers

  type Proc = nat

  const MAX_SIZE := 8

  /**
   * What starting a process comes to: none is spawned; the handshake is refused and the process told to stop, after
   * which waiting for it may raise; the handshake itself raises; or the process is ready.
   */
  datatype Launch =
    | NotLaunched | HandshakeRefused(proc: Proc, reaped: bool) | HandshakeRaised(proc: Proc) | Ready(proc: Proc)

  /** A get passes on what its start raised. */
  datatype StartError = StartRaised

  // ---- The recency list ----------------------------------------------------

  datatype Slot = Slot(key: string, proc: Proc)

  /** Slots from least to most recently used, and what became of every process started so far. */
  datatype Lru = Lru(slots: seq<Slot>, started: set<Proc>, stopped: set<Proc>, seenDead: set<Proc>)

  const EMPTY := Lru([], {}, {}, {})

  predicate Has(slots: seq<Slot>, key: string) {
    exists i | 0 <= i < |slots| :: slots[i].key == key
  }

  function Find(slots: seq<Slot>, key: string): (i: nat)
    requires Has(slots, key)
    ensures i < |slots| && slots[i].key == key
  {
    if slots[0].key == key then 0
    else
      assert forall i | 0 < i < |slots| :: slots[i] == slots[1..][i - 1];
      1 + Find(slots[1..], key)
  }

  function Without(slots: seq<Slot>, i: nat): seq<Slot>
    requires i < |slots|
  {
    slots[..i] + slots[i + 1..]
  }

  /** Moving a key's slot to the most recent end. */
  function Used(l: Lru, key: string): Lru
    requires Has(l.slots, key)
  {
    var i := Find(l.slots, key);
    l.(slots := Without(l.slots, i) + [l.slots[i]])
  }

  /** Dropping the least recently used slot; its process is stopped unless it is found dead. */
  function Evict(l: Lru, alive: set<Proc>): Lru
    requires l.slots != []
  {
    var victim := l.slots[0].proc;
    if victim in alive then l.(slots := l.slots[1..], stopped := l.stopped + {victim})
    else l.(slots := l.slots[1..], seenDead := l.seenDead + {victim})
  }

  function MakeRoom(l: Lru, alive: set<Proc>): Lru
    decreases |l.slots|
  {
    if |l.slots| >= MAX_SIZE then MakeRoom(Evict(l, alive), alive) else l
  }

  function Started(l: Lru, key: string, launch: Launch): Lru {
    match launch
    case NotLaunched => l
    case HandshakeRefused(p, _) => l.(started := l.started + {p}, stopped := l.stopped + {p})
    case HandshakeRaised(p) => l.(started := l.started + {p})
    case Ready(p) => l.(started := l.started + {p}, slots := l.slots + [Slot(key, p)])
  }

  /** Forgetting a slot whose process was found dead. */
  function Bury(l: Lru, key: string): Lru
    requires Has(l.slots, key)
  {
    var i := Find(l.slots, key);
    l.(slots := Without(l.slots, i), seenDead := l.seenDead + {l.slots[i].proc})
  }

  function GetOrCreate(l: Lru, key: string, alive: set<Proc>, launch: Launch): Lru {
    if Has(l.slots, key) && l.slots[Find(l.slots, key)].proc in alive then Used(l, key)
    else Started(MakeRoom(if Has(l.slots, key) then Bury(l, key) else l, alive), key, launch)
  }

  /** What a start hands out: a process, none, or an exception. */
  function Outcome(launch: Launch): Result<Option<Proc>, StartError> {
    match launch
    case NotLaunched => Ok(None)
    case HandshakeRefused(_, reaped) => if reaped then Ok(None) else Err(StartRaised)
    case HandshakeRaised(_) => Err(StartRaised)
    case Ready(p) => Ok(Some(p))
  }

  /** What a get hands out. */
  function Handed(l: Lru, key: string, alive: set<Proc>, launch: Launch): Result<Option<Proc>, StartError> {
    if Has(l.slots, key) && l.slots[Find(l.slots, key)].proc in alive then Ok(Some(l.slots[Find(l.slots, key)].proc))
    else Outcome(launch)
  }

  function Touch(l: Lru, key: string): Lru {
    if Has(l.slots, key) then Used(l, key) else l
  }

  // ---- The timestamped cache -----------------------------------------------

  datatype Entry = Entry(proc: Proc, time: int)

  ghost predicate SameKeys(entries: map<string, Entry>, slots: seq<Slot>) {
    forall k :: k in entries <==> Has(slots, k)
  }

  /** Every slot has its entry, and the timestamps increase along the slots, none past `last`. */
  ghost predicate InOrder(entries: map<string, Entry>, slots: seq<Slot>, last: int) {
    && (forall i | 0 <= i < |slots| :: slots[i].key in entries && entries[slots[i].key].proc == slots[i].proc)
    && (forall i | 0 <= i < |slots| :: entries[slots[i].key].time <= last)
    && (forall i, j | 0 <= i < j < |slots| :: entries[slots[i].key].time < entries[slots[j].key].time)
  }

  /** The map holds exactly the slots, in the order of its timestamps. */
  ghost predicate Refines(entries: map<string, Entry>, slots: seq<Slot>, last: int) {
    SameKeys(entries, slots) && InOrder(entries, slots, last)
  }

  class Cache {
    var entries: map<string, Entry>
    ghost var model: Lru
    ghost var last: int

    ghost predicate Valid()
      reads this
    {
      Refines(entries, model.slots, last)
    }

    constructor ()
      ensures Valid() && model == EMPTY
    {
      entries := map[];
      model := EMPTY;
      last := 0;
    }

    method EvictOldest(alive: set<Proc>)
      requires Valid()
      modifies this
      ensures Valid() && last == old(last)
      ensures model == if old(model).slots == [] then old(model) else Evict(old(model), alive)
      ensures if |old(entries)| == 0 then entries == old(entries)
              else exists k :: IsOldest(old(entries), k) && entries == old(entries) - {k}
    {
      SizeIsLength(entries, model.slots, last);
      if |entries| == 0 {
        return;
      }
      OldestIsFirst(entries, model.slots, last);
      var oldest :| IsOldest(entries, oldest);
      entries := entries - {oldest};
      model := Evict(model, alive);
    }

    method GetOrCreateLsp(key: string, now: int, alive: set<Proc>, launch: Launch)
      returns (r: Result<Option<Proc>, StartError>)
      requires Valid() && last < now
      modifies this
      ensures Valid() && last == now
      ensures model == GetOrCreate(old(model), key, alive, launch)
      ensures r == Handed(old(model), key, alive, launch)
      ensures key in old(entries) && old(entries)[key].proc in alive ==>
                var cached := old(entries)[key].proc;
                r == Ok(Some(cached)) && entries == old(entries)[key := Entry(cached, now)]
      ensures !(key in old(entries) && old(entries)[key].proc in alive) ==> StartedUnder(entries, key, now, launch, r)
      ensures forall p :: r == Ok(Some(p)) <==> key in entries && entries[key].proc == p
      ensures OthersKept(old(entries), entries, key)
    {
      if key in entries {
        var cached := entries[key].proc;
        if cached !in alive {
          DropRefines(entries, model.slots, last, Find(model.slots, key));
          entries := entries - {key};
          model := Bury(model, key);
        } else {
          UseRefines(entries, model.slots, last, key, now);
          entries := entries[key := Entry(cached, now)];
          model := Used(model, key);
          last := now;
          return Ok(Some(cached));
        }
      }
      r := Create(key, now, alive, launch);
    }

    /** The loop that makes room for one more. */
    method EvictAll(alive: set<Proc>)
      requires Valid()
      modifies this
      ensures Valid() && last == old(last)
      ensures model == MakeRoom(old(model), alive)
      ensures |entries| < 8 && forall k | k in entries :: k in old(entries) && entries[k] == old(entries)[k]
    {
      SizeIsLength(entries, model.slots, last);
      while |entries| >= MAX_SIZE
        invariant Valid() && last == old(last) && |entries| == |model.slots|
        invariant MakeRoom(model, alive) == MakeRoom(old(model), alive)
        invariant forall k | k in entries :: k in old(entries) && entries[k] == old(entries)[k]
        decreases |model.slots|
      {
        EvictOldest(alive);
        SizeIsLength(entries, model.slots, last);
      }
    }

    /** The part of a get that starts a process, after making room for it. */
    method Create(key: string, now: int, alive: set<Proc>, launch: Launch) returns (r: Result<Option<Proc>, StartError>)
      requires Valid() && last < now && key !in entries
      modifies this
      ensures Valid() && last == now
      ensures model == Started(MakeRoom(old(model), alive), key, launch)
      ensures r == Outcome(launch)
      ensures StartedUnder(entries, key, now, launch, r) && OthersKept(old(entries), entries, key)
    {
      EvictAll(alive);
      if launch.Ready? {
        PushRefines(entries, model.slots, last, Slot(key, launch.proc), now);
        entries := entries[key := Entry(launch.proc, now)];
      }
      r := Outcome(launch);
      model := Started(model, key, launch);
      last := now;
    }

    method TouchLsp(key: string, now: int)
      requires Valid() && last < now
      modifies this
      ensures Valid() && last == now
      ensures model == Touch(old(model), key)
      ensures entries == if key in old(entries) then old(entries)[key := Entry(old(entries)[key].proc, now)]
                         else old(entries)
    {
      if key in entries {
        UseRefines(entries, model.slots, last, key, now);
        entries := entries[key := Entry(entries[key].proc, now)];
        model := Used(model, key);
      }
      last := now;
    }
  }

  /**
   * What a get that had to start a process leaves under its key, and hands out: a ready process is cached and handed
   * out; otherwise nothing is cached, and none is handed out unless the start, or reaping what it refused, raised.
   */
  ghost predicate StartedUnder(
    entries: map<string, Entry>, key: string, now: int, launch: Launch, r: Result<Option<Proc>, StartError>)
  {
    && |entries| <= 8
    && (launch.Ready? ==> key in entries && entries[key] == Entry(launch.proc, now) && r == Ok(Some(launch.proc)))
    && (!launch.Ready? ==> key !in entries)
    && (launch.NotLaunched? || (launch.HandshakeRefused? && launch.reaped) ==> r == Ok(None))
    && (launch.HandshakeRaised? || (launch.HandshakeRefused? && !launch.reaped) ==> r == Err(StartRaised))
  }

  /** Other keys may leave the cache; those that stay keep process and timestamp, and none comes in. */
  ghost predicate OthersKept(before: map<string, Entry>, after: map<string, Entry>, key: string) {
    forall k | k in after && k != key :: k in before && after[k] == before[k]
  }

  predicate IsOldest(entries: map<string, Entry>, key: string) {
    key in entries && forall k | k in entries :: entries[key].time <= entries[k].time
  }

  /** The entry with the least timestamp is the first slot, and dropping it leaves the rest in order. */
  lemma OldestIsFirst(entries: map<string, Entry>, slots: seq<Slot>, last: int)
    requires Refines(entries, slots, last) && |entries| > 0
    ensures slots != [] && IsOldest(entries, slots[0].key)
    ensures forall k :: IsOldest(entries, k) ==> k == slots[0].key
    ensures Refines(entries - {slots[0].key}, slots[1..], last)
  {
    SizeIsLength(entries, slots, last);
    forall k | k in entries && k != slots[0].key
      ensures entries[slots[0].key].time < entries[k].time
    {
      var i := Find(slots, k);
    }
    DropRefines(entries, slots, last, 0);
    assert Without(slots, 0) == slots[1..];
  }

  lemma UseRefines(entries: map<string, Entry>, slots: seq<Slot>, last: int, key: string, now: int)
    requires Refines(entries, slots, last) && last < now && key in entries
    ensures var i := Find(slots, key);
            && entries[key].proc == slots[i].proc
            && Refines(entries[key := Entry(entries[key].proc, now)], Without(slots, i) + [slots[i]], now)
  {
    var i := Find(slots, key);
    DropRefines(entries, slots, last, i);
    PushRefines(entries - {key}, Without(slots, i), last, slots[i], now);
    assert entries[key := Entry(entries[key].proc, now)] == (entries - {key})[key := Entry(entries[key].proc, now)];
  }

  function Origin(i: nat, j: nat): nat {
    if j < i then j else j + 1
  }

  lemma KeysDiffer(entries: map<string, Entry>, slots: seq<Slot>, last: int, i: nat, j: nat)
    requires Refines(entries, slots, last) && i < |slots| && j < |slots| && i != j
    ensures slots[i].key != slots[j].key
  {
    var (a, b) := if i < j then (i, j) else (j, i);
    assert entries[slots[a].key].time < entries[slots[b].key].time;
  }

  lemma WithoutAt(slots: seq<Slot>, i: nat, j: nat)
    requires i < |slots| && j < |slots| - 1
    ensures Without(slots, i)[j] == slots[Origin(i, j)]
  {
  }

  /** Dropping a slot drops its key and no other. */
  lemma DropKeys(slots: seq<Slot>, i: nat, k: string)
    requires i < |slots| && forall j | 0 <= j < |slots| && j != i :: slots[j].key != slots[i].key
    ensures Has(Without(slots, i), k) <==> Has(slots, k) && k != slots[i].key
  {
    var rest := Without(slots, i);
    if Has(rest, k) {
      var j := Find(rest, k);
      WithoutAt(slots, i, j);
    } else if Has(slots, k) && k != slots[i].key {
      var j := Find(slots, k);
      WithoutAt(slots, i, if j < i then j else j - 1);
    }
  }

  lemma DropInOrder(entries: map<string, Entry>, slots: seq<Slot>, last: int, i: nat)
    requires Refines(entries, slots, last) && i < |slots|
    ensures InOrder(entries - {slots[i].key}, Without(slots, i), last)
  {
    var rest, fewer := Without(slots, i), entries - {slots[i].key};
    forall j | 0 <= j < |rest|
      ensures rest[j] == slots[Origin(i, j)] && rest[j].key in fewer && fewer[rest[j].key] == entries[rest[j].key]
    {
      WithoutAt(slots, i, j);
      KeysDiffer(entries, slots, last, i, Origin(i, j));
    }
    forall a, b | 0 <= a < b < |rest|
      ensures fewer[rest[a].key].time < fewer[rest[b].key].time
    {
      assert entries[slots[Origin(i, a)].key].time < entries[slots[Origin(i, b)].key].time;
    }
  }

  lemma DropRefines(entries: map<string, Entry>, slots: seq<Slot>, last: int, i: nat)
    requires Refines(entries, slots, last) && i < |slots|
    ensures Refines(entries - {slots[i].key}, Without(slots, i), last)
  {
    DropInOrder(entries, slots, last, i);
    forall j | 0 <= j < |slots| && j != i
      ensures slots[j].key != slots[i].key
    {
      KeysDiffer(entries, slots, last, i, j);
    }
    forall k
      ensures k in entries - {slots[i].key} <==> Has(Without(slots, i), k)
    {
      DropKeys(slots, i, k);
    }
  }

  /** Appending a slot adds its key. */
  lemma PushKeys(slots: seq<Slot>, slot: Slot, k: string)
    ensures Has(slots + [slot], k) <==> Has(slots, k) || k == slot.key
  {
    var more := slots + [slot];
    assert more[|slots|] == slot;
    if Has(slots, k) {
      assert more[Find(slots, k)].key == k;
    }
  }

  lemma PushInOrder(entries: map<string, Entry>, slots: seq<Slot>, last: int, slot: Slot, now: int)
    requires InOrder(entries, slots, last) && last < now && slot.key !in entries
    ensures InOrder(entries[slot.key := Entry(slot.proc, now)], slots + [slot], now)
  {
    var (more, grown) := (slots + [slot], entries[slot.key := Entry(slot.proc, now)]);
    forall i | 0 <= i < |slots|
      ensures more[i] == slots[i] && more[i].key in grown && grown[more[i].key] == entries[slots[i].key]
    {
      assert slots[i].key in entries;
    }
  }

  lemma PushRefines(entries: map<string, Entry>, slots: seq<Slot>, last: int, slot: Slot, now: int)
    requires Refines(entries, slots, last) && last < now && slot.key !in entries
    ensures Refines(entries[slot.key := Entry(slot.proc, now)], slots + [slot], now)
  {
    PushInOrder(entries, slots, last, slot, now);
    forall k
      ensures k in entries[slot.key := Entry(slot.proc, now)] <==> Has(slots + [slot], k)
    {
      PushKeys(slots, slot, k);
    }
  }

  lemma OneFewer(entries: map<string, Entry>, key: string)
    requires key in entries
    ensures |entries| == |entries - {key}| + 1
  {
    assert entries == (entries - {key})[key := entries[key]];
  }

  lemma {:induction false} SizeIsLength(entries: map<string, Entry>, slots: seq<Slot>, last: int)
    requires Refines(entries, slots, last)
    ensures |entries| == |slots|
    decreases |slots|
  {
    if slots == [] {
      assert entries == map[];
    } else {
      DropRefines(entries, slots, last, 0);
      SizeIsLength(entries - {slots[0].key}, Without(slots, 0), last);
      OneFewer(entries, slots[0].key);
    }
  }
}
