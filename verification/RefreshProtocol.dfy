/**
 * Refresh-token rotation for one session, as the steps a request takes over
 * shared state: a lock with expiry, an optimistic compare-and-swap on the
 * session row, and a short-lived record of what a consumed token rotated into.
 *
 * Two assumptions are built into the types. Token digests are distinct
 * (`Sha256` is a free constructor, and issued tokens carry fresh serials), and
 * lock tokens are unique (each request locks with its own identifier).
 */
module RefreshProtocol {
  import opened Options
  import opened RedisStore

  const LOCK_SECONDS := 5
  const GRACE_SECONDS := 10

  datatype Token = Token(serial: nat)
  datatype Digest = Sha256(token: Token)
  datatype Pair = Pair(access: nat, refresh: Token)

  datatype Session = Session(version: int, hash: Digest, active: bool)

  datatype Key = RefreshLock | RefreshReplay(consumed: Digest)
  datatype Stored = LockToken(request: nat) | ReplayRecord(pair: Pair, version: int)

  /** Everything requests share: the clock, the session row, Redis, and the token issuer's serial. */
  datatype Shared = Shared(now: int, session: Session, entries: map<Key, Entry<Stored>>, nextSerial: nat)

  datatype Outcome =
    | RateLimited
    | SessionExpired
    | Raced(seen: Session, pair: Pair)
    | ReuseDetected(seen: Session)
    | Conflict(seen: Session)
    | Rotated(pair: Pair)
    | Failed

  /** Where a request stands; `seen` is the session as the request read it. */
  datatype Phase =
    | Arrived
    | Locked
    | Matched(seen: Session)
    | Mismatched(seen: Session)
    | Issued(seen: Session, pair: Pair)
    | Committed(seen: Session, pair: Pair)
    | Revoking(seen: Session)
    | Leaving(outcome: Outcome)
    | Done(outcome: Outcome)

  datatype Request = Request(id: nat, presented: Token, phase: Phase, leaseEnd: int)

  /**
   * How one remote call turns out: it works, it throws without taking effect,
   * it takes effect but its reply is lost, or (for the swap) it declines.
   */
  datatype Effect = Works | Throws | LosesReply | Declines

  predicate TakesEffect(effect: Effect) {
    effect == Works || effect == LosesReply
  }

  // ------------------------------------------------------------ atomic steps

  /** `RefreshReplayService.find`. */
  function FindRaced(entries: map<Key, Entry<Stored>>, now: int, presented: Digest, currentVersion: int): Option<Pair> {
    var found: Option<Stored> := Lookup(entries, now, RefreshReplay(presented));
    match found
    case Some(ReplayRecord(pair, version)) => if version == currentVersion - 1 then Some(pair) else None
    case _ => None
  }

  /** `RefreshReplayService.remember`. */
  function Remember(entries: map<Key, Entry<Stored>>, now: int, consumed: Digest, version: int, pair: Pair)
    : map<Key, Entry<Stored>>
  {
    SetWithExpiry(entries, now, RefreshReplay(consumed), ReplayRecord(pair, version), GRACE_SECONDS)
  }

  function LockStep(sh: Shared, r: Request, effect: Effect): (Shared, Request) {
    if !TakesEffect(effect) then (sh, r.(phase := Done(Failed)))
    else
      var (entries, ok) := SetIfNotExists(sh.entries, sh.now, RefreshLock, LockToken(r.id), LOCK_SECONDS);
      (sh.(entries := entries),
       if effect == LosesReply then r.(phase := Done(Failed))
       else if ok then r.(phase := Locked, leaseEnd := sh.now + LOCK_SECONDS * MS_PER_SECOND)
       else r.(phase := Done(RateLimited)))
  }

  function ReadStep(sh: Shared, r: Request, effect: Effect): Request {
    if effect != Works then r.(phase := Leaving(Failed))
    else if !sh.session.active then r.(phase := Leaving(SessionExpired))
    else if Sha256(r.presented) == sh.session.hash then r.(phase := Matched(sh.session))
    else r.(phase := Mismatched(sh.session))
  }

  function FindStep(sh: Shared, r: Request, effect: Effect): Request
    requires r.phase.Mismatched?
  {
    if effect != Works then r.(phase := Leaving(Failed))
    else
      match FindRaced(sh.entries, sh.now, Sha256(r.presented), r.phase.seen.version)
      case Some(pair) => r.(phase := Leaving(Raced(r.phase.seen, pair)))
      case None => r.(phase := Revoking(r.phase.seen))
  }

  function RevokeStep(sh: Shared, r: Request, effect: Effect): (Shared, Request)
    requires r.phase.Revoking?
  {
    (if TakesEffect(effect) then sh.(session := sh.session.(active := false)) else sh,
     r.(phase := Leaving(if effect == Works then ReuseDetected(r.phase.seen) else Failed)))
  }

  function IssueStep(sh: Shared, r: Request, effect: Effect): (Shared, Request)
    requires r.phase.Matched?
  {
    if effect != Works then (sh, r.(phase := Leaving(Failed)))
    else
      var pair := Pair(sh.nextSerial, Token(sh.nextSerial));
      (sh.(nextSerial := sh.nextSerial + 1), r.(phase := Issued(r.phase.seen, pair)))
  }

  /** The store swaps only when version and hash are still the ones read. */
  predicate Swaps(sh: Shared, r: Request, effect: Effect) {
    && r.phase.Issued?
    && TakesEffect(effect)
    && sh.session.version == r.phase.seen.version
    && sh.session.hash == r.phase.seen.hash
  }

  function SwapStep(sh: Shared, r: Request, effect: Effect): (Shared, Request)
    requires r.phase.Issued?
  {
    var Issued(seen, pair) := r.phase;
    if Swaps(sh, r, effect) then
      (sh.(session := sh.session.(version := sh.session.version + 1, hash := Sha256(pair.refresh))),
       r.(phase := if effect == Works then Committed(seen, pair) else Leaving(Failed)))
    else
      (sh, r.(phase := Leaving(if effect == Works || effect == Declines then Conflict(seen) else Failed)))
  }

  predicate Remembers(r: Request, effect: Effect) {
    r.phase.Committed? && TakesEffect(effect)
  }

  function RememberStep(sh: Shared, r: Request, effect: Effect): (Shared, Request)
    requires r.phase.Committed?
  {
    var Committed(seen, pair) := r.phase;
    (if Remembers(r, effect)
     then sh.(entries := Remember(sh.entries, sh.now, Sha256(r.presented), seen.version, pair))
     else sh,
     r.(phase := Leaving(if effect == Works then Rotated(pair) else Failed)))
  }

  function ReleaseStep(sh: Shared, r: Request, effect: Effect): (Shared, Request)
    requires r.phase.Leaving?
  {
    (if TakesEffect(effect)
     then sh.(entries := CompareAndDelete(sh.entries, sh.now, RefreshLock, LockToken(r.id)).0)
     else sh,
     r.(phase := Done(if effect == Works then r.phase.outcome else Failed)))
  }

  /** The next remote call of a request, in the order the use case makes them. */
  function Advance(sh: Shared, r: Request, effect: Effect): (Shared, Request) {
    match r.phase
    case Arrived => LockStep(sh, r, effect)
    case Locked => (sh, ReadStep(sh, r, effect))
    case Matched(_) => IssueStep(sh, r, effect)
    case Mismatched(_) => (sh, FindStep(sh, r, effect))
    case Issued(_, _) => SwapStep(sh, r, effect)
    case Committed(_, _) => RememberStep(sh, r, effect)
    case Revoking(_) => RevokeStep(sh, r, effect)
    case Leaving(_) => ReleaseStep(sh, r, effect)
    case Done(_) => (sh, r)
  }

  // ---------------------------------------------------------------- machine

  /** One committed swap: the digest it consumed, the pair it installed, and the request that made it. */
  datatype Rotation = Rotation(consumed: Digest, pair: Pair, request: nat)

  /**
   * All requests over the shared state, with a history: `lineage[i]` is the
   * session's hash at version `base + i`, `rotations[i]` took it to the next
   * one, `remembered[i]` is when that rotation's record was written, and
   * `revocations` holds the session each revoking request had read.
   */
  datatype State = State(
    sh: Shared,
    requests: map<nat, Request>,
    base: int,
    lineage: seq<Digest>,
    rotations: seq<Rotation>,
    remembered: map<int, int>,
    revocations: map<nat, Session>)

  datatype Event =
    | Tick(elapsed: nat)
    | Arrive(id: nat, presented: Token)
    | Step(id: nat, effect: Effect)
    | Crash(id: nat)

  predicate Initial(s: State) {
    && s.requests == map[] && s.sh.entries == map[]
    && s.rotations == [] && s.remembered == map[] && s.revocations == map[]
    && s.base == s.sh.session.version
    && s.lineage == [s.sh.session.hash]
    && s.sh.session.hash.token.serial < s.sh.nextSerial
    && s.sh.session.active
  }

  function StepRequest(s: State, id: nat, effect: Effect): State
    requires id in s.requests
  {
    var r := s.requests[id];
    var (sh, r') := Advance(s.sh, r, effect);
    var swaps := Swaps(s.sh, r, effect);
    s.(sh := sh,
       requests := s.requests[id := r'],
       lineage := if swaps then s.lineage + [Sha256(r.phase.pair.refresh)] else s.lineage,
       rotations := if swaps then s.rotations + [Rotation(Sha256(r.presented), r.phase.pair, id)] else s.rotations,
       remembered := if Remembers(r, effect) then s.remembered[r.phase.seen.version - s.base := s.sh.now] else s.remembered,
       revocations := if r.phase.Revoking? && TakesEffect(effect) then s.revocations[id := r.phase.seen] else s.revocations)
  }

  function Next(s: State, e: Event): State {
    match e
    case Tick(elapsed) => s.(sh := s.sh.(now := s.sh.now + elapsed))
    case Arrive(id, presented) =>
      if id in s.requests then s else s.(requests := s.requests[id := Request(id, presented, Arrived, s.sh.now)])
    case Step(id, effect) =>
      if id in s.requests then StepRequest(s, id, effect) else s
    case Crash(id) =>
      if id in s.requests then s.(requests := s.requests[id := s.requests[id].(phase := Done(Failed))]) else s
  }

  function Run(s: State, events: seq<Event>): State {
    if events == [] then s
    else Next(Run(s, events[..|events| - 1]), events[|events| - 1])
  }

  // -------------------------------------------------------------- invariants

  /** The history describes one unbranched chain that ends in the session row. */
  ghost predicate LineageInv(s: State) {
    && |s.lineage| == |s.rotations| + 1
    && s.sh.session.version == s.base + |s.rotations|
    && s.sh.session.hash == s.lineage[|s.rotations|]
    && (forall i :: 0 <= i < |s.lineage| ==> s.lineage[i].token.serial < s.sh.nextSerial)
    && (forall i, j :: 0 <= i < j < |s.lineage| ==> s.lineage[i] != s.lineage[j])
    && (forall i :: 0 <= i < |s.rotations| ==> s.rotations[i].consumed == s.lineage[i])
    && (forall i :: 0 <= i < |s.rotations| ==> Sha256(s.rotations[i].pair.refresh) == s.lineage[i + 1])
  }

  /** The record stored under a digest is that of the rotation which consumed it. */
  ghost predicate RecordOf(s: State, d: Digest)
    requires RefreshReplay(d) in s.sh.entries
  {
    var stored := s.sh.entries[RefreshReplay(d)].value;
    && stored.ReplayRecord?
    && var i := stored.version - s.base;
    && 0 <= i < |s.rotations|
    && s.rotations[i].consumed == d
    && s.rotations[i].pair == stored.pair
  }

  /** A remembered rotation's record is in the store until its ten seconds are over. */
  ghost predicate RememberedAt(s: State, i: int)
    requires i in s.remembered
  {
    && 0 <= i < |s.rotations|
    && var key := RefreshReplay(s.rotations[i].consumed);
    && key in s.sh.entries
    && s.sh.entries[key]
       == Entry(ReplayRecord(s.rotations[i].pair, s.base + i), s.remembered[i] + GRACE_SECONDS * MS_PER_SECOND)
  }

  ghost predicate RecordsInv(s: State) {
    && (RefreshLock in s.sh.entries ==> s.sh.entries[RefreshLock].value.LockToken?)
    && (forall i :: i in s.remembered ==> RememberedAt(s, i))
    && (forall d :: RefreshReplay(d) in s.sh.entries ==> RecordOf(s, d))
  }

  ghost predicate Saw(s: State, seen: Session) {
    && s.base <= seen.version <= s.sh.session.version
    && seen.version - s.base < |s.lineage|
    && seen.hash == s.lineage[seen.version - s.base]
  }

  predicate Critical(r: Request) {
    !r.phase.Arrived? && !r.phase.Done?
  }

  ghost predicate OutcomeInv(s: State, r: Request, outcome: Outcome) {
    match outcome
    case Raced(seen, pair) =>
      && Saw(s, seen)
      && var i := seen.version - s.base;
      && 1 <= i <= |s.rotations|
      && s.rotations[i - 1].consumed == Sha256(r.presented)
      && s.rotations[i - 1].pair == pair
    case ReuseDetected(seen) => Saw(s, seen) && Sha256(r.presented) != seen.hash
    case Conflict(seen) => Saw(s, seen) && Sha256(r.presented) == seen.hash
    case Rotated(pair) => Rotation(Sha256(r.presented), pair, r.id) in s.rotations
    case _ => true
  }

  ghost predicate RequestInv(s: State, r: Request) {
    match r.phase
    case Matched(seen) => Saw(s, seen) && Sha256(r.presented) == seen.hash
    case Mismatched(seen) => Saw(s, seen) && Sha256(r.presented) != seen.hash
    case Revoking(seen) => Saw(s, seen) && Sha256(r.presented) != seen.hash
    case Issued(seen, pair) =>
      && Saw(s, seen) && Sha256(r.presented) == seen.hash
      && pair.refresh.serial < s.sh.nextSerial
      && Sha256(pair.refresh) !in s.lineage
    case Committed(seen, pair) =>
      && Saw(s, seen)
      && var i := seen.version - s.base;
      && 0 <= i < |s.rotations|
      && s.rotations[i] == Rotation(Sha256(r.presented), pair, r.id)
    case Leaving(outcome) => OutcomeInv(s, r, outcome)
    case Done(outcome) => OutcomeInv(s, r, outcome)
    case _ => true
  }

  /** An unexpired lease is the lock entry itself. */
  ghost predicate LeaseInv(s: State, r: Request) {
    Critical(r) && s.sh.now < r.leaseEnd ==>
      RefreshLock in s.sh.entries && s.sh.entries[RefreshLock] == Entry(LockToken(r.id), r.leaseEnd)
  }

  predicate HasCommitted(r: Request) {
    r.phase.Committed? || r.phase.Leaving? || r.phase.Done?
  }

  ghost predicate RequestsInv(s: State) {
    && (forall id :: id in s.requests ==> s.requests[id].id == id)
    && (forall id :: id in s.requests ==> RequestInv(s, s.requests[id]))
    && (forall id :: id in s.requests ==> LeaseInv(s, s.requests[id]))
    && (forall id, id' ::
          (id in s.requests && id' in s.requests && id != id'
           && s.requests[id].phase.Issued? && s.requests[id'].phase.Issued?) ==>
            s.requests[id].phase.pair.refresh != s.requests[id'].phase.pair.refresh)
    && (forall i :: 0 <= i < |s.rotations| ==>
          s.rotations[i].request in s.requests && HasCommitted(s.requests[s.rotations[i].request]))
    && (forall i, j :: 0 <= i < j < |s.rotations| ==> s.rotations[i].request != s.rotations[j].request)
  }

  ghost predicate RevocationInv(s: State) {
    && (!s.sh.session.active ==> s.revocations != map[])
    && (forall id :: id in s.revocations ==>
          id in s.requests && Saw(s, s.revocations[id]) && Sha256(s.requests[id].presented) != s.revocations[id].hash)
  }

  ghost predicate Inv(s: State) {
    LineageInv(s) && RecordsInv(s) && RequestsInv(s) && RevocationInv(s)
  }
}
