/** The positive-answer cache of the external token validator, under concurrency
    (web/external_validator.go:104-144, 225-284). Threads run Validate one instruction at
    a time, interleaved in any order with each other and with a clock that only moves
    forward; the write lock is explicit. */
module TokenCache {
  import opened Options

  /** What the identity provider call comes back with. */
  datatype Answer = Positive | Negative | TransportError

  datatype Config = Config(ttl: int, failOpen: bool, hash: string -> string)

  /** Where a thread stands in Validate, and in hit and remember below it. */
  datatype Pc =
    | Idle
    | Reading(token: string)
    | Comparing(token: string, expiry: int)
    | LockingStale(token: string)
    | Rechecking(token: string)
    | Evicting(token: string)
    | UnlockingHit(token: string, hit: bool)
    | Calling(token: string)
    | LockingStore(token: string, cause: Answer)
    | ReadingClock(token: string, cause: Answer)
    | Storing(token: string, cause: Answer, at: int)
    | UnlockingStore(token: string)

  /** A store of `key`, stamped with the clock it read, and the answer it stands for. */
  datatype Recording = Recording(key: string, token: string, at: int, cause: Answer)

  /** A provider call skipped on a hit decided at time `at`. */
  datatype Skipped = Skipped(token: string, at: int)

  /** A delete of `key` at time `at`, and the expiry it removed, if any. */
  datatype Eviction = Eviction(key: string, at: int, expiry: Option<int>)

  datatype State = State(
    now: int,
    entries: map<string, int>,
    lock: Option<nat>,
    threads: map<nat, Pc>,
    recorded: seq<Recording>,
    skipped: seq<Skipped>,
    evicted: seq<Eviction>)

  datatype Action = Tick(elapsed: nat) | Start(thread: nat, token: string) | Advance(thread: nat, answer: Answer)

  function PcOf(s: State, t: nat): Pc {
    if t in s.threads then s.threads[t] else Idle
  }

  function Goto(s: State, t: nat, pc: Pc): State {
    s.(threads := s.threads[t := pc])
  }

  function After(now: int, expiry: int): bool {
    now > expiry
  }

  /** One instruction of one thread. A step that cannot be taken changes nothing. */
  function Next(c: Config, s: State, a: Action): State {
    match a
    case Tick(elapsed) => s.(now := s.now + elapsed)
    case Start(t, token) => if PcOf(s, t).Idle? then Goto(s, t, Reading(token)) else s
    case Advance(t, answer) => Instruction(c, s, t, answer)
  }

  function Instruction(c: Config, s: State, t: nat, answer: Answer): State {
    match PcOf(s, t)
    case Idle => s
    case Reading(token) =>
      if s.lock.Some? then s
      else if c.hash(token) !in s.entries then Goto(s, t, Calling(token))
      else Goto(s, t, Comparing(token, s.entries[c.hash(token)]))
    case Comparing(token, expiry) =>
      if After(s.now, expiry) then Goto(s, t, LockingStale(token))
      else Goto(s, t, Idle).(skipped := s.skipped + [Skipped(token, s.now)])
    case LockingStale(token) =>
      if s.lock.Some? then s else Goto(s, t, Rechecking(token)).(lock := Some(t))
    case Rechecking(token) =>
      if c.hash(token) in s.entries && !After(s.now, s.entries[c.hash(token)]) then
        Goto(s, t, UnlockingHit(token, true)).(skipped := s.skipped + [Skipped(token, s.now)])
      else Goto(s, t, Evicting(token))
    case Evicting(token) =>
      var key := c.hash(token);
      var expiry := if key in s.entries then Some(s.entries[key]) else None;
      Goto(s, t, UnlockingHit(token, false)).(
        entries := s.entries - {key},
        evicted := s.evicted + [Eviction(key, s.now, expiry)])
    case UnlockingHit(token, hit) =>
      Goto(s, t, if hit then Idle else Calling(token)).(lock := None)
    case Calling(token) =>
      if answer == Positive || (answer == TransportError && c.failOpen) then Goto(s, t, LockingStore(token, answer))
      else Goto(s, t, Idle)
    case LockingStore(token, cause) =>
      if s.lock.Some? then s else Goto(s, t, ReadingClock(token, cause)).(lock := Some(t))
    case ReadingClock(token, cause) => Goto(s, t, Storing(token, cause, s.now))
    case Storing(token, cause, at) =>
      var key := c.hash(token);
      Goto(s, t, UnlockingStore(token)).(
        entries := s.entries[key := at + c.ttl],
        recorded := s.recorded + [Recording(key, token, at, cause)])
    case UnlockingStore(token) => Goto(s, t, Idle).(lock := None)
  }

  function Run(c: Config, s: State, actions: seq<Action>): State {
    if actions == [] then s else Next(c, Run(c, s, actions[..|actions| - 1]), actions[|actions| - 1])
  }

  function Initial(now: int): State {
    State(now, map[], None, map[], [], [], [])
  }

  // ---- what every interleaving keeps ----

  /** The expiry is the ttl past some recording of the key. */
  ghost predicate Backed(c: Config, recorded: seq<Recording>, key: string, expiry: int) {
    exists i :: 0 <= i < |recorded| && recorded[i].key == key && recorded[i].at + c.ttl == expiry
  }

  predicate MayStore(c: Config, cause: Answer) {
    cause == Positive || (cause == TransportError && c.failOpen)
  }

  predicate HoldsLock(pc: Pc) {
    pc.Rechecking? || pc.Evicting? || pc.UnlockingHit? || pc.ReadingClock? || pc.Storing? || pc.UnlockingStore?
  }

  ghost predicate ThreadOk(c: Config, s: State, t: nat) {
    (HoldsLock(PcOf(s, t)) ==> s.lock == Some(t)) && KnowledgeOk(c, s, PcOf(s, t))
  }

  /** Whoever the lock names is between taking it and letting it go. */
  ghost predicate LockOk(s: State) {
    s.lock.Some? ==> HoldsLock(PcOf(s, s.lock.value))
  }

  /** What a thread at `pc` has learnt is still so. */
  ghost predicate KnowledgeOk(c: Config, s: State, pc: Pc) {
    LookupOk(c, s, pc) && StoreOk(c, s, pc)
  }

  ghost predicate LookupOk(c: Config, s: State, pc: Pc) {
    && (pc.Comparing? ==> Backed(c, s.recorded, c.hash(pc.token), pc.expiry))
    && (pc.Evicting? && c.hash(pc.token) in s.entries ==> After(s.now, s.entries[c.hash(pc.token)]))
  }

  ghost predicate StoreOk(c: Config, s: State, pc: Pc) {
    && (pc.LockingStore? || pc.ReadingClock? || pc.Storing? ==> MayStore(c, pc.cause))
    && (pc.Storing? ==> pc.at <= s.now)
  }

  ghost predicate RecordingsOk(c: Config, s: State) {
    forall i :: 0 <= i < |s.recorded| ==>
      s.recorded[i].key == c.hash(s.recorded[i].token) && s.recorded[i].at <= s.now && MayStore(c, s.recorded[i].cause)
  }

  ghost predicate EntriesOk(c: Config, s: State) {
    forall k :: k in s.entries ==> Backed(c, s.recorded, k, s.entries[k])
  }

  /** The skip falls within the ttl of a recording of the token's key. */
  ghost predicate SkipBacked(c: Config, recorded: seq<Recording>, k: Skipped) {
    exists i :: 0 <= i < |recorded| && recorded[i].key == c.hash(k.token) &&
      recorded[i].at <= k.at <= recorded[i].at + c.ttl
  }

  ghost predicate SkipsOk(c: Config, s: State) {
    forall i :: 0 <= i < |s.skipped| ==> SkipBacked(c, s.recorded, s.skipped[i])
  }

  ghost predicate EvictionsOk(s: State) {
    forall i :: 0 <= i < |s.evicted| ==> s.evicted[i].expiry.Some? ==> After(s.evicted[i].at, s.evicted[i].expiry.value)
  }

  ghost predicate Inv(c: Config, s: State) {
    && (forall t :: ThreadOk(c, s, t))
    && LockOk(s) && RecordingsOk(c, s) && EntriesOk(c, s) && SkipsOk(c, s) && EvictionsOk(s)
  }

  lemma BackedGrows(c: Config, recorded: seq<Recording>, more: seq<Recording>, key: string, expiry: int)
    requires Backed(c, recorded, key, expiry) && recorded <= more
    ensures Backed(c, more, key, expiry)
  {
  }

  lemma SkipBackedGrows(c: Config, recorded: seq<Recording>, more: seq<Recording>, k: Skipped)
    requires SkipBacked(c, recorded, k) && recorded <= more
    ensures SkipBacked(c, more, k)
  {
  }

  /** A hit decided now on a backed, unexpired entry is within the ttl of its recording. */
  lemma FreshHitIsBacked(c: Config, s: State, token: string, expiry: int)
    requires RecordingsOk(c, s) && Backed(c, s.recorded, c.hash(token), expiry) && !After(s.now, expiry)
    ensures SkipBacked(c, s.recorded, Skipped(token, s.now))
  {
  }

  lemma OthersStayOk(c: Config, s: State, t: nat, answer: Answer, u: nat)
    requires ThreadOk(c, s, t) && ThreadOk(c, s, u) && u != t
    ensures ThreadOk(c, Instruction(c, s, t, answer), u)
  {
    var s' := Instruction(c, s, t, answer);
    WhatIsWritten(c, s, t, answer);
    assert PcOf(s', u) == PcOf(s, u);
    if PcOf(s, u).Comparing? {
      BackedGrows(c, s.recorded, s'.recorded, c.hash(PcOf(s, u).token), PcOf(s, u).expiry);
    }
  }

  lemma SelfStaysOk(c: Config, s: State, t: nat, answer: Answer)
    requires ThreadOk(c, s, t) && EntriesOk(c, s)
    ensures ThreadOk(c, Instruction(c, s, t, answer), t)
  {
    SelfLookupOk(c, s, t, answer);
    SelfStoreOk(c, s, t, answer);
  }

  lemma SelfLookupOk(c: Config, s: State, t: nat, answer: Answer)
    requires EntriesOk(c, s)
    ensures LookupOk(c, Instruction(c, s, t, answer), PcOf(Instruction(c, s, t, answer), t))
  {
    var pc := PcOf(s, t);
    if pc.Reading? && c.hash(pc.token) in s.entries {
      assert Backed(c, s.recorded, c.hash(pc.token), s.entries[c.hash(pc.token)]);
    }
  }

  lemma SelfStoreOk(c: Config, s: State, t: nat, answer: Answer)
    requires StoreOk(c, s, PcOf(s, t))
    ensures StoreOk(c, Instruction(c, s, t, answer), PcOf(Instruction(c, s, t, answer), t))
  {
  }

  /** Only a store adds a recording, and only stores and deletes write entries. */
  lemma WhatIsWritten(c: Config, s: State, t: nat, answer: Answer)
    ensures var s', pc := Instruction(c, s, t, answer), PcOf(s, t);
            && (pc.Storing? ==>
                  && s'.recorded == s.recorded + [Recording(c.hash(pc.token), pc.token, pc.at, pc.cause)]
                  && s'.entries == s.entries[c.hash(pc.token) := pc.at + c.ttl])
            && (!pc.Storing? ==>
                  s'.recorded == s.recorded &&
                    s'.entries == if pc.Evicting? then s.entries - {c.hash(pc.token)} else s.entries)
            && s'.now == s.now
  {
  }

  lemma StoreKeepsEntries(c: Config, s: State, s': State, r: Recording)
    requires RecordingsOk(c, s) && EntriesOk(c, s)
    requires r.key == c.hash(r.token) && r.at <= s.now && MayStore(c, r.cause)
    requires s'.recorded == s.recorded + [r] && s'.entries == s.entries[r.key := r.at + c.ttl] && s'.now == s.now
    ensures RecordingsOk(c, s') && EntriesOk(c, s')
  {
    forall k | k in s'.entries ensures Backed(c, s'.recorded, k, s'.entries[k]) {
      if k == r.key {
        assert s'.recorded[|s.recorded|] == r;
      } else {
        BackedGrows(c, s.recorded, s'.recorded, k, s.entries[k]);
      }
    }
  }

  lemma StoresStayOk(c: Config, s: State, t: nat, answer: Answer)
    requires Inv(c, s)
    ensures RecordingsOk(c, Instruction(c, s, t, answer)) && EntriesOk(c, Instruction(c, s, t, answer))
  {
    var pc := PcOf(s, t);
    assert ThreadOk(c, s, t);
    WhatIsWritten(c, s, t, answer);
    if pc.Storing? {
      StoreKeepsEntries(c, s, Instruction(c, s, t, answer), Recording(c.hash(pc.token), pc.token, pc.at, pc.cause));
    }
  }

  lemma SkipsStayOk(c: Config, s: State, t: nat, answer: Answer)
    requires Inv(c, s)
    ensures SkipsOk(c, Instruction(c, s, t, answer))
  {
    var s' := Instruction(c, s, t, answer);
    var pc := PcOf(s, t);
    assert ThreadOk(c, s, t);
    forall i | 0 <= i < |s'.skipped| ensures SkipBacked(c, s'.recorded, s'.skipped[i]) {
      if i < |s.skipped| {
        assert s'.skipped[i] == s.skipped[i];
        SkipBackedGrows(c, s.recorded, s'.recorded, s.skipped[i]);
      } else if pc.Comparing? {
        FreshHitIsBacked(c, s, pc.token, pc.expiry);
      } else {
        FreshHitIsBacked(c, s, pc.token, s.entries[c.hash(pc.token)]);
      }
    }
  }

  lemma LockStaysOk(c: Config, s: State, t: nat, answer: Answer)
    requires LockOk(s) && ThreadOk(c, s, t)
    ensures LockOk(Instruction(c, s, t, answer))
  {
  }

  lemma EvictionsStayOk(c: Config, s: State, t: nat, answer: Answer)
    requires EvictionsOk(s) && ThreadOk(c, s, t)
    ensures EvictionsOk(Instruction(c, s, t, answer))
  {
  }

  lemma NextKeepsInv(c: Config, s: State, a: Action)
    requires Inv(c, s)
    ensures Inv(c, Next(c, s, a))
  {
    var s' := Next(c, s, a);
    match a
    case Tick(elapsed) =>
      forall t ensures ThreadOk(c, s', t) { assert ThreadOk(c, s, t); }
    case Start(u, token) =>
      forall t ensures ThreadOk(c, s', t) { assert ThreadOk(c, s, t); }
    case Advance(t, answer) =>
      forall u ensures ThreadOk(c, s', u) {
        assert ThreadOk(c, s, t) && ThreadOk(c, s, u);
        if u != t { OthersStayOk(c, s, t, answer, u); } else { SelfStaysOk(c, s, t, answer); }
      }
      assert ThreadOk(c, s, t);
      LockStaysOk(c, s, t, answer);
      StoresStayOk(c, s, t, answer);
      SkipsStayOk(c, s, t, answer);
      EvictionsStayOk(c, s, t, answer);
  }

  lemma {:induction false} RunKeepsInv(c: Config, start: int, actions: seq<Action>)
    ensures Inv(c, Run(c, Initial(start), actions))
  {
    if actions != [] {
      RunKeepsInv(c, start, actions[..|actions| - 1]);
      NextKeepsInv(c, Run(c, Initial(start), actions[..|actions| - 1]), actions[|actions| - 1]);
    }
  }

  // ---- the theorems ----

  /** In every interleaving: every skipped call was decided within the ttl of a recording
      of its key. */
  lemma EverySkipIsWithinTtl(c: Config, start: int, actions: seq<Action>, i: nat)
    requires i < |Run(c, Initial(start), actions).skipped|
    ensures var s := Run(c, Initial(start), actions);
            exists j :: 0 <= j < |s.recorded| && s.recorded[j].key == c.hash(s.skipped[i].token) &&
                        s.recorded[j].at <= s.skipped[i].at <= s.recorded[j].at + c.ttl
  {
    var s := Run(c, Initial(start), actions);
    RunKeepsInv(c, start, actions);
    assert SkipBacked(c, s.recorded, s.skipped[i]);
  }

  /** In every interleaving: a delete never removes an entry still fresh at that moment. */
  lemma NoFreshEviction(c: Config, start: int, actions: seq<Action>, i: nat)
    requires i < |Run(c, Initial(start), actions).evicted|
    ensures var e := Run(c, Initial(start), actions).evicted[i];
            e.expiry.Some? ==> After(e.at, e.expiry.value)
  {
    RunKeepsInv(c, start, actions);
  }

  /** With fail mode closed, and a hash without collisions, every skipped call is backed
      by a positive answer for that very token, at most the ttl old. */
  lemma FailClosedSkipsArePositive(c: Config, start: int, actions: seq<Action>, i: nat)
    requires !c.failOpen
    requires forall a, b :: c.hash(a) == c.hash(b) ==> a == b
    requires i < |Run(c, Initial(start), actions).skipped|
    ensures var s := Run(c, Initial(start), actions);
            exists j :: 0 <= j < |s.recorded| && s.recorded[j].token == s.skipped[i].token &&
              s.recorded[j].cause == Positive &&
                        s.recorded[j].at <= s.skipped[i].at <= s.recorded[j].at + c.ttl
  {
    var s := Run(c, Initial(start), actions);
    RunKeepsInv(c, start, actions);
    EverySkipIsWithinTtl(c, start, actions, i);
    var j :| 0 <= j < |s.recorded| && s.recorded[j].key == c.hash(s.skipped[i].token) &&
             s.recorded[j].at <= s.skipped[i].at <= s.recorded[j].at + c.ttl;
    assert s.recorded[j].token == s.skipped[i].token && MayStore(c, s.recorded[j].cause);
  }

  // ---- what a thread left alone gets done ----

  function Twice(c: Config, s: State, a: Action): State {
    Next(c, Next(c, s, a), a)
  }

  function Thrice(c: Config, s: State, a: Action): State {
    Next(c, Twice(c, s, a), a)
  }

  /** In every reachable state the lock is free again after at most three more
      instructions of the thread that holds it. */
  lemma LockIsReleased(c: Config, start: int, actions: seq<Action>, answer: Answer)
    requires Run(c, Initial(start), actions).lock.Some?
    ensures var s := Run(c, Initial(start), actions);
            var go := Advance(s.lock.value, answer);
            Next(c, s, go).lock.None? || Twice(c, s, go).lock.None? || Thrice(c, s, go).lock.None?
  {
    RunKeepsInv(c, start, actions);
    var s := Run(c, Initial(start), actions);
    var go := Advance(s.lock.value, answer);
    HolderMoves(c, s, s.lock.value, answer);
    if Next(c, s, go).lock.Some? {
      HolderMoves(c, Next(c, s, go), s.lock.value, answer);
      if Twice(c, s, go).lock.Some? { HolderMoves(c, Twice(c, s, go), s.lock.value, answer); }
    }
  }

  function StepsToRelease(pc: Pc): nat {
    if pc.UnlockingHit? || pc.UnlockingStore? then 1 else if pc.Evicting? || pc.Storing? then 2 else 3
  }

  lemma HolderMoves(c: Config, s: State, t: nat, answer: Answer)
    requires s.lock == Some(t) && HoldsLock(PcOf(s, t))
    ensures var s' := Next(c, s, Advance(t, answer));
            || s'.lock.None?
            || (s'.lock == Some(t) && HoldsLock(PcOf(s', t)) &&
               StepsToRelease(PcOf(s', t)) < StepsToRelease(PcOf(s, t)))
  {
  }

  lemma Moves(s: State, t: nat, a: Pc, b: Pc)
    ensures PcOf(Goto(s, t, a), t) == a && Goto(Goto(s, t, a), t, b) == Goto(s, t, b)
  {
  }

  /** The state with its lock held by `t`. */
  function Held(s: State, t: nat): State {
    s.(lock := Some(t))
  }

  function Skipping(s: State, token: string): State {
    s.(skipped := s.skipped + [Skipped(token, s.now)])
  }

  function WithoutEntry(s: State, key: string): State
    requires key in s.entries
  {
    s.(entries := s.entries - {key}, evicted := s.evicted + [Eviction(key, s.now, Some(s.entries[key]))])
  }

  function WithEntry(c: Config, s: State, token: string, answer: Answer): State {
    var key := c.hash(token);
    s.(entries := s.entries[key := s.now + c.ttl], recorded := s.recorded + [Recording(key, token, s.now, answer)])
  }

  /** A lookup of a token whose entry is still fresh skips the provider call. */
  lemma FreshEntryIsHit(c: Config, s: State, t: nat, token: string)
    requires PcOf(s, t).Idle? && s.lock.None? && c.hash(token) in s.entries && !After(s.now, s.entries[c.hash(token)])
    ensures Twice(c, Next(c, s, Start(t, token)), Advance(t, Negative)) == Goto(Skipping(s, token), t, Idle)
  {
  }

  /** A lookup of a token without an entry goes on to the provider. */
  lemma MissingEntryCalls(c: Config, s: State, t: nat, token: string)
    requires PcOf(s, t).Idle? && s.lock.None? && c.hash(token) !in s.entries
    ensures Next(c, Next(c, s, Start(t, token)), Advance(t, Negative)) == Goto(s, t, Calling(token))
  {
  }

  /** A lookup of a token whose entry went stale deletes it under the lock, lets the lock
      go and goes on to the provider. */
  lemma StaleEntryIsEvicted(c: Config, s: State, t: nat, token: string)
    requires PcOf(s, t).Idle? && s.lock.None? && c.hash(token) in s.entries && After(s.now, s.entries[c.hash(token)])
    ensures Thrice(c, Thrice(c, Next(c, s, Start(t, token)), Advance(t, Negative)), Advance(t, Negative)) ==
            Goto(WithoutEntry(s, c.hash(token)), t, Calling(token))
  {
    StaleEntryIsLocked(c, s, t, token);
    EvictsAndCalls(c, s, t, token);
  }

  lemma StaleEntryIsLocked(c: Config, s: State, t: nat, token: string)
    requires s.lock.None? && c.hash(token) in s.entries && After(s.now, s.entries[c.hash(token)])
    ensures Thrice(c, Goto(s, t, Reading(token)), Advance(t, Negative)) == Goto(Held(s, t), t, Rechecking(token))
  {
    var go, reading := Advance(t, Negative), Goto(s, t, Reading(token));
    var comparing := Comparing(token, s.entries[c.hash(token)]);
    Moves(s, t, Reading(token), comparing);
    assert Next(c, reading, go) == Goto(s, t, comparing);
    Moves(s, t, comparing, LockingStale(token));
    assert Next(c, Goto(s, t, comparing), go) == Goto(s, t, LockingStale(token));
    Moves(s, t, LockingStale(token), Rechecking(token));
  }

  lemma EvictsAndCalls(c: Config, s: State, t: nat, token: string)
    requires s.lock.None? && c.hash(token) in s.entries && After(s.now, s.entries[c.hash(token)])
    ensures Thrice(c, Goto(Held(s, t), t, Rechecking(token)), Advance(t, Negative)) ==
            Goto(WithoutEntry(s, c.hash(token)), t, Calling(token))
  {
    var go, held := Advance(t, Negative), Goto(Held(s, t), t, Rechecking(token));
    Moves(Held(s, t), t, Rechecking(token), Evicting(token));
    assert Next(c, held, go) == Goto(Held(s, t), t, Evicting(token));
    Moves(Held(s, t), t, Evicting(token), UnlockingHit(token, false));
    var gone := WithoutEntry(Held(s, t), c.hash(token));
    assert Next(c, Goto(Held(s, t), t, Evicting(token)), go) == Goto(gone, t, UnlockingHit(token, false));
    Moves(gone, t, UnlockingHit(token, false), Calling(token));
  }

  /** An answer that may be stored is: five instructions after the call returned, the
      token's entry runs for the ttl from now and the lock is free again. */
  lemma AnswerIsRemembered(c: Config, s: State, t: nat, token: string, answer: Answer)
    requires s.lock.None? && MayStore(c, answer)
    ensures Thrice(c, Twice(c, Goto(s, t, Calling(token)), Advance(t, answer)), Advance(t, answer)) ==
            Goto(WithEntry(c, s, token, answer), t, Idle)
  {
    StoreIsLocked(c, s, t, token, answer);
    StoresAndReleases(c, s, t, token, answer);
  }

  /** Any other answer ends the call and leaves nothing behind. */
  lemma OtherAnswerIsForgotten(c: Config, s: State, t: nat, token: string, answer: Answer)
    requires !MayStore(c, answer)
    ensures Next(c, Goto(s, t, Calling(token)), Advance(t, answer)) == Goto(s, t, Idle)
  {
  }

  /** While a thread holds the lock, one that is about to read or to take it waits. */
  lemma HeldLockBlocks(c: Config, s: State, t: nat, answer: Answer)
    requires s.lock.Some? && (PcOf(s, t).Reading? || PcOf(s, t).LockingStale? || PcOf(s, t).LockingStore?)
    ensures Next(c, s, Advance(t, answer)) == s
  {
  }

  lemma StoreIsLocked(c: Config, s: State, t: nat, token: string, answer: Answer)
    requires s.lock.None? && MayStore(c, answer)
    ensures Twice(c, Goto(s, t, Calling(token)), Advance(t, answer)) == Goto(Held(s, t), t, ReadingClock(token, answer))
  {
  }

  lemma StoresAndReleases(c: Config, s: State, t: nat, token: string, answer: Answer)
    requires s.lock.None?
    ensures Thrice(c, Goto(Held(s, t), t, ReadingClock(token, answer)), Advance(t, answer)) ==
            Goto(WithEntry(c, s, token, answer), t, Idle)
  {
    var go, held := Advance(t, answer), Goto(Held(s, t), t, ReadingClock(token, answer));
    var storing := Storing(token, answer, s.now);
    Moves(Held(s, t), t, ReadingClock(token, answer), storing);
    assert Next(c, held, go) == Goto(Held(s, t), t, storing);
    Moves(Held(s, t), t, storing, UnlockingStore(token));
    var stored := WithEntry(c, Held(s, t), token, answer);
    assert Next(c, Goto(Held(s, t), t, storing), go) == Goto(stored, t, UnlockingStore(token));
    Moves(stored, t, UnlockingStore(token), Idle);
  }

  /** With fail mode open a swallowed error is remembered like a positive answer: for
      every token there is a run that skips a call although no positive answer was ever
      recorded. */
  lemma FailOpenRemembersErrors(c: Config, token: string) returns (actions: seq<Action>)
    requires c.failOpen && c.ttl >= 0
    ensures var s := Run(c, Initial(0), actions);
            s.skipped == [Skipped(token, 0)] && s.recorded == [Recording(c.hash(token), token, 0, TransportError)]
  {
    var s0, enter, miss, fail := Initial(0), Start(0, token), Advance(0, Negative), Advance(0, TransportError);
    MissingEntryCalls(c, s0, 0, token);
    AnswerIsRemembered(c, s0, 0, token, TransportError);
    var stored := Goto(WithEntry(c, s0, token, TransportError), 0, Idle);
    FreshEntryIsHit(c, stored, 0, token);
    actions := [enter];
    RunOne(c, s0, [], enter);
    RunOne(c, s0, actions, miss);
    actions := RunTwice(c, s0, actions + [miss], fail);
    actions := RunThrice(c, s0, actions, fail);
    RunOne(c, s0, actions, enter);
    actions := RunTwice(c, s0, actions + [enter], miss);
  }

  lemma RunOne(c: Config, s: State, done: seq<Action>, a: Action)
    ensures Run(c, s, done + [a]) == Next(c, Run(c, s, done), a)
  {
  }

  lemma RunTwice(c: Config, s: State, done: seq<Action>, a: Action) returns (more: seq<Action>)
    ensures Run(c, s, more) == Twice(c, Run(c, s, done), a)
  {
    RunOne(c, s, done, a);
    RunOne(c, s, done + [a], a);
    more := done + [a] + [a];
  }

  lemma RunThrice(c: Config, s: State, done: seq<Action>, a: Action) returns (more: seq<Action>)
    ensures Run(c, s, more) == Thrice(c, Run(c, s, done), a)
  {
    more := RunTwice(c, s, done, a);
    RunOne(c, s, more, a);
    more := more + [a];
  }
}
