/** What the process cache keeps, and loses, over any sequence of gets, touches, process deaths and failed starts. */
module LspHistory {
  import opened Wrappers
  import opened LspCache

  /** `alive` is what polling would find at the time of a get. */
  datatype Op = Get(key: string, alive: set<Proc>, launch: Launch) | Touched(key: string)

  function Step(l: Lru, op: Op): Lru {
    match op
    case Get(key, alive, launch) => GetOrCreate(l, key, alive, launch)
    case Touched(key) => Touch(l, key)
  }

  function After(ops: seq<Op>): Lru {
    if ops == [] then EMPTY else Step(After(ops[..|ops| - 1]), ops[|ops| - 1])
  }

  // ---- What is kept track of -----------------------------------------------

  function Procs(slots: seq<Slot>): set<Proc> {
    set i | 0 <= i < |slots| :: slots[i].proc
  }

  /** The processes that are cached, were told to stop, or were seen dead. */
  function Known(l: Lru): set<Proc> {
    Procs(l.slots) + l.stopped + l.seenDead
  }

  /** Every process ever started is known, and only started ones are. */
  ghost predicate Accounted(l: Lru) {
    l.started == Known(l)
  }

  /** A get that finds no live process under its key goes on to start one. */
  predicate Starts(l: Lru, op: Op) {
    op.Get? && !(Has(l.slots, op.key) && l.slots[Find(l.slots, op.key)].proc in op.alive)
  }

  /** The process an operation starts and keeps track of. */
  function Tracked(l: Lru, op: Op): set<Proc> {
    if Starts(l, op) && (op.launch.HandshakeRefused? || op.launch.Ready?) then {op.launch.proc} else {}
  }

  /** The process an operation starts and forgets: that of a handshake that raised. */
  function Leaked(l: Lru, op: Op): set<Proc> {
    if Starts(l, op) && op.launch.HandshakeRaised? then {op.launch.proc} else {}
  }

  function LeakedBy(ops: seq<Op>): set<Proc> {
    if ops == [] then {} else LeakedBy(ops[..|ops| - 1]) + Leaked(After(ops[..|ops| - 1]), ops[|ops| - 1])
  }

  lemma ProcsWithout(slots: seq<Slot>, i: nat)
    requires i < |slots|
    ensures Procs(Without(slots, i)) + {slots[i].proc} == Procs(slots)
  {
    var rest := Without(slots, i);
    assert forall j | 0 <= j < |rest| :: rest[j] == slots[Origin(i, j)];
    forall p | p in Procs(slots)
      ensures p in Procs(rest) + {slots[i].proc}
    {
      var j :| 0 <= j < |slots| && slots[j].proc == p;
      if j != i {
        assert rest[if j < i then j else j - 1].proc == p;
      }
    }
  }

  lemma ProcsPush(slots: seq<Slot>, s: Slot)
    ensures Procs(slots + [s]) == Procs(slots) + {s.proc}
  {
    assert forall i | 0 <= i < |slots| :: (slots + [s])[i] == slots[i];
    assert (slots + [s])[|slots|] == s;
  }

  lemma {:induction false} MakeRoomKeepsKnown(l: Lru, alive: set<Proc>)
    ensures Known(MakeRoom(l, alive)) == Known(l) && MakeRoom(l, alive).started == l.started
    ensures |MakeRoom(l, alive).slots| < MAX_SIZE
    decreases |l.slots|
  {
    if |l.slots| >= MAX_SIZE {
      ProcsWithout(l.slots, 0);
      assert Without(l.slots, 0) == l.slots[1..];
      MakeRoomKeepsKnown(Evict(l, alive), alive);
    }
  }

  lemma UsedKeepsKnown(l: Lru, key: string)
    requires Has(l.slots, key)
    ensures Known(Used(l, key)) == Known(l) && |Used(l, key).slots| == |l.slots|
  {
    var i := Find(l.slots, key);
    ProcsWithout(l.slots, i);
    ProcsPush(Without(l.slots, i), l.slots[i]);
  }

  lemma BuryKeepsKnown(l: Lru, key: string)
    requires Has(l.slots, key)
    ensures Known(Bury(l, key)) == Known(l)
  {
    ProcsWithout(l.slots, Find(l.slots, key));
  }

  /** One operation adds the process it starts to those started, and to the known ones unless its handshake raised. */
  lemma StepKnown(l: Lru, op: Op)
    requires |l.slots| <= MAX_SIZE
    ensures |Step(l, op).slots| <= MAX_SIZE
    ensures Known(Step(l, op)) == Known(l) + Tracked(l, op)
    ensures Step(l, op).started == l.started + Tracked(l, op) + Leaked(l, op)
  {
    if Starts(l, op) {
      if Has(l.slots, op.key) {
        BuryKeepsKnown(l, op.key);
      }
      var roomy := MakeRoom(if Has(l.slots, op.key) then Bury(l, op.key) else l, op.alive);
      MakeRoomKeepsKnown(if Has(l.slots, op.key) then Bury(l, op.key) else l, op.alive);
      if op.launch.Ready? {
        ProcsPush(roomy.slots, Slot(op.key, op.launch.proc));
      }
    } else if Has(l.slots, op.key) {
      UsedKeepsKnown(l, op.key);
    }
  }

  /**
   * The cache never holds more than eight processes, and every started one is cached, was told to stop, was seen
   * dead, or belongs to a get whose start raised.
   */
  lemma {:induction false} BoundedAndAccounted(ops: seq<Op>)
    ensures |After(ops).slots| <= 8
    ensures After(ops).started == Known(After(ops)) + LeakedBy(ops)
  {
    if ops != [] {
      BoundedAndAccounted(ops[..|ops| - 1]);
      StepKnown(After(ops[..|ops| - 1]), ops[|ops| - 1]);
    }
  }

  /** So nothing is lost track of exactly when every process of a raising start is known in another way. */
  lemma AccountedIff(ops: seq<Op>)
    ensures Accounted(After(ops)) <==> LeakedBy(ops) <= Known(After(ops))
  {
    BoundedAndAccounted(ops);
  }

  /** The get at `n` reached a start whose handshake raised. */
  ghost predicate RaisesAt(ops: seq<Op>, n: int) {
    0 <= n < |ops| && Starts(After(ops[..n]), ops[n]) && ops[n].launch.HandshakeRaised?
  }

  lemma RaisesAtPrefix(ops: seq<Op>, m: nat, n: int)
    requires n < m <= |ops|
    ensures RaisesAt(ops, n) <==> RaisesAt(ops[..m], n)
  {
    if 0 <= n {
      assert ops[..m][..n] == ops[..n];
    }
  }

  lemma {:induction false} LeakedByRaise(ops: seq<Op>, n: int)
    requires RaisesAt(ops, n)
    ensures ops[n].launch.proc in LeakedBy(ops)
  {
    var m := |ops| - 1;
    if n < m {
      RaisesAtPrefix(ops, m, n);
      LeakedByRaise(ops[..m], n);
    }
  }

  lemma {:induction false} RaiseOfLeaked(ops: seq<Op>, p: Proc) returns (n: int)
    requires p in LeakedBy(ops)
    ensures RaisesAt(ops, n) && ops[n].launch.proc == p
  {
    var m := |ops| - 1;
    if p in LeakedBy(ops[..m]) {
      n := RaiseOfLeaked(ops[..m], p);
      RaisesAtPrefix(ops, m, n);
    } else {
      n := m;
    }
  }

  /** Every start spawns a process that was not there before. */
  ghost predicate NewProcesses(ops: seq<Op>) {
    ops != [] ==>
      var l, op := After(ops[..|ops| - 1]), ops[|ops| - 1];
      NewProcesses(ops[..|ops| - 1]) && (Starts(l, op) && !op.launch.NotLaunched? ==> op.launch.proc !in l.started)
  }

  /** What is lost stays lost: it is never cached, told to stop, or seen dead later on. */
  lemma {:induction false} LeakedStaysUnknown(ops: seq<Op>)
    requires NewProcesses(ops)
    ensures LeakedBy(ops) !! Known(After(ops))
  {
    if ops != [] {
      var before, op := ops[..|ops| - 1], ops[|ops| - 1];
      LeakedStaysUnknown(before);
      BoundedAndAccounted(before);
      StepKnown(After(before), op);
    }
  }

  /** As every process is new when it starts, nothing is lost track of exactly when no start raised in its handshake. */
  lemma AccountedIffNoneRaised(ops: seq<Op>)
    requires NewProcesses(ops)
    ensures Accounted(After(ops)) <==> forall n :: !RaisesAt(ops, n)
  {
    AccountedIff(ops);
    LeakedStaysUnknown(ops);
    if n :| RaisesAt(ops, n) {
      LeakedByRaise(ops, n);
    } else if p :| p in LeakedBy(ops) {
      var n := RaiseOfLeaked(ops, p);
    }
  }

  /** The shortest history that loses a process: one get, whose server is spawned but its first reply cannot be read. */
  lemma FirstReplyUnreadable(key: string, alive: set<Proc>, p: Proc)
    ensures var l := After([Get(key, alive, HandshakeRaised(p))]);
            && Handed(EMPTY, key, alive, HandshakeRaised(p)) == Err(StartRaised)
            && l.started == {p} && Known(l) == {} && !Accounted(l)
  {
    var ops := [Get(key, alive, HandshakeRaised(p))];
    assert After(ops[..0]) == EMPTY;
    StepKnown(EMPTY, ops[0]);
    assert p in Step(EMPTY, ops[0]).started;
  }

  // ---- What becomes of a process that leaves the cache ---------------------

  /** From `a` to `b`, what left the cache was told to stop if alive, noted as dead if not, and nothing else was. */
  ghost predicate Cleared(a: Lru, b: Lru, alive: set<Proc>) {
    && (forall p | p in Procs(a.slots) && p !in Procs(b.slots) ::
          if p in alive then p in b.stopped else p in b.seenDead)
    && (forall p | p in b.stopped :: p in a.stopped || (p in Procs(a.slots) && p in alive))
    && (forall p | p in b.seenDead :: p in a.seenDead || (p in Procs(a.slots) && p !in alive))
    && a.stopped <= b.stopped && a.seenDead <= b.seenDead && Procs(b.slots) <= Procs(a.slots)
  }

  lemma {:induction false} MakeRoomClears(l: Lru, alive: set<Proc>)
    ensures Cleared(l, MakeRoom(l, alive), alive)
    decreases |l.slots|
  {
    if |l.slots| >= MAX_SIZE {
      ProcsWithout(l.slots, 0);
      assert Without(l.slots, 0) == l.slots[1..];
      MakeRoomClears(Evict(l, alive), alive);
    }
  }

  /** A get tells a live process to stop when it leaves the cache, or is refused; it notes as dead only what is. */
  lemma GetClears(l: Lru, key: string, alive: set<Proc>, launch: Launch)
    ensures var l' := Step(l, Get(key, alive, launch));
            && (forall p | p in Procs(l.slots) && p !in Procs(l'.slots) ::
                  if p in alive then p in l'.stopped else p in l'.seenDead)
            && (forall p | p in l'.stopped && p !in l.stopped ::
                  (p in Procs(l.slots) && p in alive) || (launch.HandshakeRefused? && launch.proc == p))
            && (forall p | p in l'.seenDead && p !in l.seenDead :: p in Procs(l.slots) && p !in alive)
  {
    if Starts(l, Get(key, alive, launch)) {
      var buried := if Has(l.slots, key) then Bury(l, key) else l;
      if Has(l.slots, key) {
        ProcsWithout(l.slots, Find(l.slots, key));
      }
      assert Cleared(l, buried, alive);
      MakeRoomClears(buried, alive);
      ProcsPush(MakeRoom(buried, alive).slots, Slot(key, if launch.Ready? then launch.proc else 0));
    } else {
      UsedKeepsProcs(l, key);
    }
  }

  lemma UsedKeepsProcs(l: Lru, key: string)
    requires Has(l.slots, key)
    ensures Procs(Used(l, key).slots) == Procs(l.slots)
  {
    var i := Find(l.slots, key);
    ProcsWithout(l.slots, i);
    ProcsPush(Without(l.slots, i), l.slots[i]);
  }

  // ---- The victim is the least recently used -------------------------------

  /** The index of the latest operation on a key, or -1. */
  function LatestUse(ops: seq<Op>, key: string): int {
    if ops == [] then -1
    else if ops[|ops| - 1].key == key then |ops| - 1
    else LatestUse(ops[..|ops| - 1], key)
  }

  lemma {:induction false} LatestUseMeaning(ops: seq<Op>, key: string)
    ensures var i := LatestUse(ops, key);
            && -1 <= i < |ops| && (i >= 0 ==> ops[i].key == key)
            && forall j | i < j < |ops| :: ops[j].key != key
  {
    if ops != [] && ops[|ops| - 1].key != key {
      LatestUseMeaning(ops[..|ops| - 1], key);
      assert forall j | 0 <= j < |ops| - 1 :: ops[..|ops| - 1][j] == ops[j];
    }
  }

  /** The slots stand in the order their keys were last used. */
  ghost predicate InOrderOfUse(ops: seq<Op>, slots: seq<Slot>) {
    forall a, b | 0 <= a < b < |slots| :: LatestUse(ops, slots[a].key) < LatestUse(ops, slots[b].key)
  }

  lemma DropKeepsOrder(ops: seq<Op>, slots: seq<Slot>, i: nat)
    requires InOrderOfUse(ops, slots) && i < |slots|
    ensures InOrderOfUse(ops, Without(slots, i)) && !Has(Without(slots, i), slots[i].key)
  {
    var rest := Without(slots, i);
    assert forall j | 0 <= j < |rest| :: rest[j] == slots[Origin(i, j)];
  }

  /** Using a key that no slot has leaves the slots in order, and its own slot belongs at the end. */
  lemma PushKeepsOrder(ops: seq<Op>, op: Op, slots: seq<Slot>, p: Proc)
    requires InOrderOfUse(ops, slots) && !Has(slots, op.key)
    ensures InOrderOfUse(ops + [op], slots) && InOrderOfUse(ops + [op], slots + [Slot(op.key, p)])
  {
    var more, grown := ops + [op], slots + [Slot(op.key, p)];
    assert more[..|more| - 1] == ops;
    forall a | 0 <= a < |slots|
      ensures grown[a] == slots[a]
      ensures LatestUse(more, slots[a].key) == LatestUse(ops, slots[a].key) < |ops|
    {
      LatestUseMeaning(ops, slots[a].key);
    }
  }

  lemma {:induction false} MakeRoomKeepsOrder(ops: seq<Op>, l: Lru, alive: set<Proc>, key: string)
    requires InOrderOfUse(ops, l.slots) && !Has(l.slots, key)
    ensures InOrderOfUse(ops, MakeRoom(l, alive).slots) && !Has(MakeRoom(l, alive).slots, key)
    decreases |l.slots|
  {
    if |l.slots| >= MAX_SIZE {
      DropKeepsOrder(ops, l.slots, 0);
      assert Without(l.slots, 0) == l.slots[1..];
      MakeRoomKeepsOrder(ops, Evict(l, alive), alive, key);
    }
  }

  lemma StepKeepsOrder(ops: seq<Op>, op: Op, l: Lru)
    requires InOrderOfUse(ops, l.slots)
    ensures InOrderOfUse(ops + [op], Step(l, op).slots)
  {
    if Has(l.slots, op.key) {
      var i := Find(l.slots, op.key);
      DropKeepsOrder(ops, l.slots, i);
      PushKeepsOrder(ops, op, Without(l.slots, i), l.slots[i].proc);
    } else {
      PushKeepsOrder(ops, op, l.slots, 0);
    }
    if op.Get? {
      var cleared := if Has(l.slots, op.key) then Bury(l, op.key) else l;
      MakeRoomKeepsOrder(ops, cleared, op.alive, op.key);
      PushKeepsOrder(ops, op, MakeRoom(cleared, op.alive).slots, if op.launch.Ready? then op.launch.proc else 0);
    }
  }

  lemma {:induction false} SlotsInOrderOfUse(ops: seq<Op>)
    ensures InOrderOfUse(ops, After(ops).slots)
  {
    if ops != [] {
      var before := ops[..|ops| - 1];
      SlotsInOrderOfUse(before);
      StepKeepsOrder(before, ops[|ops| - 1], After(before));
      assert ops == before + [ops[|ops| - 1]];
    }
  }

  /**
   * When a get makes another key's process leave the cache, the cache was full and that key was the least
   * recently used of all.
   */
  lemma VictimIsLeastRecentlyUsed(ops: seq<Op>, op: Op, victim: string)
    requires op.Get? && op.key != victim
    requires Has(After(ops).slots, victim) && !Has(Step(After(ops), op).slots, victim)
    ensures |After(ops).slots| == 8
    ensures forall k | Has(After(ops).slots, k) && k != victim :: LatestUse(ops, victim) < LatestUse(ops, k)
  {
    var l := After(ops);
    var v := Find(l.slots, victim);
    SlotsInOrderOfUse(ops);
    BoundedAndAccounted(ops);
    if Has(l.slots, op.key) {
      var i := Find(l.slots, op.key);
      SurvivesDrop(l.slots, i, v);
      SurvivesStart(Bury(l, op.key), op, victim);
      SurvivesPush(Without(l.slots, i), l.slots[i], victim);
    } else if |l.slots| < MAX_SIZE {
      SurvivesStart(l, op, victim);
    } else if v > 0 {
      SurvivesDrop(l.slots, 0, v);
      assert Without(l.slots, 0) == l.slots[1..];
      SurvivesStart(Evict(l, op.alive), op, victim);
    }
  }

  lemma SurvivesDrop(slots: seq<Slot>, i: nat, v: nat)
    requires i < |slots| && v < |slots| && i != v
    ensures Has(Without(slots, i), slots[v].key)
  {
    assert Without(slots, i)[if v < i then v else v - 1] == slots[v];
  }

  lemma SurvivesPush(slots: seq<Slot>, s: Slot, k: string)
    requires Has(slots, k)
    ensures Has(slots + [s], k)
  {
    assert (slots + [s])[Find(slots, k)].key == k;
  }

  lemma SurvivesStart(l: Lru, op: Op, k: string)
    requires op.Get? && Has(l.slots, k) && |l.slots| < MAX_SIZE
    ensures Has(Started(MakeRoom(l, op.alive), op.key, op.launch).slots, k)
  {
    if op.launch.Ready? {
      SurvivesPush(l.slots, Slot(op.key, op.launch.proc), k);
    }
  }
}
