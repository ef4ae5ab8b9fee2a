/**
 * The local DEVICE:<serial> acceptance lock (scripts/device_lock.py).
 *
 * `DeviceLockStore` keeps the three tables as fields. Each method is one committed
 * transaction, and its contract ties the new tables and the reply to `Step`, the
 * transition function on table contents.
 */
module DeviceLock {
  import opened Common

  const EXIT_CONFLICT := 3
  const EXIT_OWNERSHIP := 4
  const EXIT_USAGE := 5
  const MIN_TTL_SECONDS := 60
  const MAX_TTL_SECONDS := 8 * 60 * 60

  // ----- time -----

  /** A moment, in microseconds. */
  type Micros = int

  /** A stored timestamp: a whole number of seconds. */
  type Stamp = int

  const SECOND: int := 1_000_000

  function Iso(moment: Micros): Stamp {
    moment / SECOND
  }

  function ParseIso(stamp: Stamp): Micros {
    stamp * SECOND
  }

  // ----- arguments -----

  predicate SerialChar(c: char) {
    'a' <= c <= 'z' || 'A' <= c <= 'Z' || '0' <= c <= '9' || c in "._:-"
  }

  /** ".." is one of the parts between colons. */
  predicate HasDotDotPart(serial: string) {
    exists i :: 0 <= i && i + 2 <= |serial| && serial[i] == '.' && serial[i + 1] == '.'
                && (i == 0 || serial[i - 1] == ':')
                && (i + 2 == |serial| || serial[i + 2] == ':')
  }

  predicate ValidSerial(serial: string) {
    && 0 < |serial| <= 128
    && (forall i :: 0 <= i < |serial| ==> SerialChar(serial[i]))
    && serial != "." && serial != ".."
    && !HasDotDotPart(serial)
  }

  predicate ValidIdentity(value: string) {
    var text := Strip(value);
    0 < |text| <= 200 && forall i :: 0 <= i < |text| ==> text[i] as int >= 32
  }

  predicate ValidReason(value: string) {
    ValidIdentity(value) && |Strip(value)| >= 8
  }

  predicate ValidTtl(seconds: int) {
    MIN_TTL_SECONDS <= seconds <= MAX_TTL_SECONDS
  }

  predicate ValidFencing(fencing: int) {
    fencing >= 1
  }

  // ----- tables -----

  type Serial = string

  datatype LockRow = LockRow(
    holder: string, purpose: string, task: Option<string>, tokenHash: string, fencing: int,
    acquiredAt: Stamp, renewedAt: Stamp, expiresAt: Stamp)

  datatype LockState = FREE | HELD | STALE

  /** The action of an audit row together with its JSON detail. */
  datatype Event =
    | Acquired(purpose: string, task: Option<string>, expiresAt: Stamp)
    | AcquireRejected(state: LockState, holder: string)
    | Renewed(expiresAt: Stamp, ttl: int)
    | Released(previous: LockState)
    | Broken(reason: string, previousHolder: string, purpose: string, expiredAt: Stamp)

  datatype AuditRow = AuditRow(serial: Serial, event: Event, actor: string, fencing: int, at: Stamp)

  datatype Tables = Tables(locks: map<Serial, LockRow>, counters: map<Serial, int>, audit: seq<AuditRow>)

  const EMPTY := Tables(map[], map[], [])

  function Describe(row: Option<LockRow>, now: Micros): LockState {
    if row.None? then FREE
    else if ParseIso(row.value.expiresAt) > now then HELD
    else STALE
  }

  function Row(locks: map<Serial, LockRow>, serial: Serial): Option<LockRow> {
    if serial in locks then Some(locks[serial]) else None
  }

  // ----- commands and replies -----

  datatype Cmd =
    | Acquire(serial: Serial, holder: string, purpose: string, task: Option<string>, ttl: int, now: Micros,
              secret: string)
    | Renew(serial: Serial, token: string, fencing: int, ttl: int, now: Micros)
    | Release(serial: Serial, token: string, fencing: int, now: Micros)
    | BreakStale(serial: Serial, fencing: int, reason: string, actor: string, now: Micros)
  {
    /** The checks made before the transaction starts. */
    predicate WellFormed() {
      && ValidSerial(serial)
      && match this
         case Acquire(_, holder, purpose, task, ttl, _, _) =>
           ValidIdentity(holder) && ValidIdentity(purpose) && (task.Some? ==> ValidIdentity(task.value))
             && ValidTtl(ttl)
         case Renew(_, token, fencing, ttl, _) => ValidFencing(fencing) && ValidTtl(ttl) && token != ""
         case Release(_, token, fencing, _) => ValidFencing(fencing) && token != ""
         case BreakStale(_, fencing, reason, actor, _) =>
           ValidFencing(fencing) && ValidReason(reason) && ValidIdentity(actor)
    }
  }

  datatype Reply =
    | Granted(grantedFencing: int, grantedAt: Stamp, until: Stamp, ownerToken: string)
    | Extended(extendedFencing: int, renewedAt: Stamp, until: Stamp)
    | Freed(releasedFencing: int, at: Stamp)
    | Refused(code: int)

  // ----- the transition function -----

  function StripTask(task: Option<string>): Option<string> {
    if task.Some? then Some(Strip(task.value)) else None
  }

  function Counter(t: Tables, serial: Serial): int {
    if serial in t.counters then t.counters[serial] else 1
  }

  function AcquireStep(hash: string -> string, t: Tables, c: Cmd): (Tables, Reply)
    requires c.Acquire?
  {
    if !c.WellFormed() then (t, Refused(EXIT_USAGE))
    else if c.serial in t.locks then
      var row := t.locks[c.serial];
      var rejected := AuditRow(c.serial, AcquireRejected(Describe(Some(row), c.now), row.holder), Strip(c.holder),
                               row.fencing, Iso(c.now));
      (t.(audit := t.audit + [rejected]), Refused(EXIT_CONFLICT))
    else
      var fencing := Counter(t, c.serial);
      var until := Iso(c.now + c.ttl * SECOND);
      var row := LockRow(Strip(c.holder), Strip(c.purpose), StripTask(c.task), hash(c.secret), fencing, Iso(c.now),
                         Iso(c.now), until);
      var event := AuditRow(c.serial, Acquired(Strip(c.purpose), StripTask(c.task), until), Strip(c.holder), fencing,
                            Iso(c.now));
      (Tables(t.locks[c.serial := row], t.counters[c.serial := fencing + 1], t.audit + [event]),
       Granted(fencing, Iso(c.now), until, c.secret))
  }

  /** None when the caller owns the live row, otherwise the exit code. */
  function OwnershipError(hash: string -> string, row: Option<LockRow>, token: string, fencing: int): Option<int> {
    if row.None? then Some(EXIT_CONFLICT)
    else if row.value.fencing != fencing then Some(EXIT_OWNERSHIP)
    else if row.value.tokenHash != hash(token) then Some(EXIT_OWNERSHIP)
    else None
  }

  function RenewStep(hash: string -> string, t: Tables, c: Cmd): (Tables, Reply)
    requires c.Renew?
  {
    if !c.WellFormed() then (t, Refused(EXIT_USAGE))
    else
      var denied := OwnershipError(hash, Row(t.locks, c.serial), c.token, c.fencing);
      if denied.Some? then (t, Refused(denied.value))
      else
        var row := t.locks[c.serial];
        if Describe(Some(row), c.now) != HELD then (t, Refused(EXIT_CONFLICT))
        else
          var until := Iso(c.now + c.ttl * SECOND);
          var event := AuditRow(c.serial, Renewed(until, c.ttl), row.holder, c.fencing, Iso(c.now));
          (t.(locks := t.locks[c.serial := row.(renewedAt := Iso(c.now), expiresAt := until)],
              audit := t.audit + [event]),
           Extended(c.fencing, Iso(c.now), until))
  }

  function ReleaseStep(hash: string -> string, t: Tables, c: Cmd): (Tables, Reply)
    requires c.Release?
  {
    if !c.WellFormed() then (t, Refused(EXIT_USAGE))
    else
      var denied := OwnershipError(hash, Row(t.locks, c.serial), c.token, c.fencing);
      if denied.Some? then (t, Refused(denied.value))
      else
        var row := t.locks[c.serial];
        var event := AuditRow(c.serial, Released(Describe(Some(row), c.now)), row.holder, c.fencing, Iso(c.now));
        (t.(locks := t.locks - {c.serial}, audit := t.audit + [event]), Freed(c.fencing, Iso(c.now)))
  }

  function BreakStep(t: Tables, c: Cmd): (Tables, Reply)
    requires c.BreakStale?
  {
    if !c.WellFormed() then (t, Refused(EXIT_USAGE))
    else if c.serial !in t.locks then (t, Refused(EXIT_CONFLICT))
    else
      var row := t.locks[c.serial];
      if row.fencing != c.fencing then (t, Refused(EXIT_OWNERSHIP))
      else if Describe(Some(row), c.now) != STALE then (t, Refused(EXIT_CONFLICT))
      else
        var event := AuditRow(c.serial, Broken(Strip(c.reason), row.holder, row.purpose, row.expiresAt), Strip(c.actor),
                              c.fencing, Iso(c.now));
        (t.(locks := t.locks - {c.serial}, audit := t.audit + [event]), Freed(c.fencing, Iso(c.now)))
  }

  function Step(hash: string -> string, t: Tables, c: Cmd): (Tables, Reply) {
    match c
    case Acquire(_, _, _, _, _, _, _) => AcquireStep(hash, t, c)
    case Renew(_, _, _, _, _) => RenewStep(hash, t, c)
    case Release(_, _, _, _) => ReleaseStep(hash, t, c)
    case BreakStale(_, _, _, _, _) => BreakStep(t, c)
  }

  // ----- the store -----

  class DeviceLockStore {
    /** SHA-256 of the owner token; no property of it is assumed. */
    const hash: string -> string
    var locks: map<Serial, LockRow>
    var counters: map<Serial, int>
    var audit: seq<AuditRow>

    ghost function Contents(): Tables
      reads this
    {
      Tables(locks, counters, audit)
    }

    constructor (hash: string -> string)
      ensures this.hash == hash && Contents() == EMPTY
    {
      this.hash := hash;
      locks, counters, audit := map[], map[], [];
    }

    method AllocateFencing(serial: Serial) returns (fencing: int)
      modifies this`counters
      ensures fencing == Counter(old(Contents()), serial)
      ensures counters == old(counters)[serial := fencing + 1]
    {
      if serial !in counters {
        counters := counters[serial := 2];
        return 1;
      }
      fencing := counters[serial];
      counters := counters[serial := fencing + 1];
    }

    method Audit(serial: Serial, event: Event, actor: string, fencing: int, at: Micros)
      modifies this`audit
      ensures audit == old(audit) + [AuditRow(serial, event, actor, fencing, Iso(at))]
    {
      audit := audit + [AuditRow(serial, event, actor, fencing, Iso(at))];
    }

    method RequireOwner(row: Option<LockRow>, token: string, fencing: int) returns (r: Result<LockRow, int>)
      ensures r == match OwnershipError(hash, row, token, fencing) case Some(code) => Err(code)
              case None => Ok(row.value)
    {
      if row.None? { return Err(EXIT_CONFLICT); }
      if row.value.fencing != fencing { return Err(EXIT_OWNERSHIP); }
      var presented := hash(token);
      if |row.value.tokenHash| != |presented| || row.value.tokenHash != presented { return Err(EXIT_OWNERSHIP); }
      return Ok(row.value);
    }

    method AcquireLock(serial: Serial, holder: string, purpose: string, task: Option<string>, ttl: int, now: Micros,
                       secret: string)
      returns (reply: Reply)
      modifies this
      ensures (Contents(), reply) == Step(hash, old(Contents()),
                                          Acquire(serial, holder, purpose, task, ttl, now, secret))
    {
      hide ValidSerial, ValidIdentity, Strip, StripTask, Iso, Describe;
      if !ValidSerial(serial) || !ValidIdentity(holder) || !ValidIdentity(purpose)
         || (task.Some? && !ValidIdentity(task.value)) || !ValidTtl(ttl) {
        return Refused(EXIT_USAGE);
      }
      var row := Row(locks, serial);
      var state := Describe(row, now);
      if row.Some? {
        Audit(serial, AcquireRejected(state, row.value.holder), Strip(holder), row.value.fencing, now);
        return Refused(EXIT_CONFLICT);
      }
      var fencing := AllocateFencing(serial);
      var until := Iso(now + ttl * SECOND);
      locks := locks[serial := LockRow(Strip(holder), Strip(purpose), StripTask(task), hash(secret), fencing, Iso(now),
                                       Iso(now), until)];
      Audit(serial, Acquired(Strip(purpose), StripTask(task), until), Strip(holder), fencing, now);
      reply := Granted(fencing, Iso(now), until, secret);
    }

    method RenewLock(serial: Serial, token: string, fencing: int, ttl: int, now: Micros) returns (reply: Reply)
      modifies this
      ensures (Contents(), reply) == Step(hash, old(Contents()), Renew(serial, token, fencing, ttl, now))
    {
      if !ValidSerial(serial) || !ValidFencing(fencing) || !ValidTtl(ttl) || token == "" {
        return Refused(EXIT_USAGE);
      }
      var owned := RequireOwner(Row(locks, serial), token, fencing);
      if owned.Err? { return Refused(owned.error); }
      var row := owned.value;
      if Describe(Some(row), now) != HELD { return Refused(EXIT_CONFLICT); }
      var until := Iso(now + ttl * SECOND);
      locks := locks[serial := row.(renewedAt := Iso(now), expiresAt := until)];
      Audit(serial, Renewed(until, ttl), row.holder, fencing, now);
      reply := Extended(fencing, Iso(now), until);
    }

    method ReleaseLock(serial: Serial, token: string, fencing: int, now: Micros) returns (reply: Reply)
      modifies this
      ensures (Contents(), reply) == Step(hash, old(Contents()), Release(serial, token, fencing, now))
    {
      if !ValidSerial(serial) || !ValidFencing(fencing) || token == "" {
        return Refused(EXIT_USAGE);
      }
      var owned := RequireOwner(Row(locks, serial), token, fencing);
      if owned.Err? { return Refused(owned.error); }
      var previous := Describe(Some(owned.value), now);
      locks := locks - {serial};
      Audit(serial, Released(previous), owned.value.holder, fencing, now);
      reply := Freed(fencing, Iso(now));
    }

    method BreakStaleLock(serial: Serial, observed: int, reason: string, actor: string, now: Micros)
      returns (reply: Reply)
      modifies this
      ensures (Contents(), reply) == Step(hash, old(Contents()), BreakStale(serial, observed, reason, actor, now))
    {
      if !ValidSerial(serial) || !ValidFencing(observed) || !ValidReason(reason) || !ValidIdentity(actor) {
        return Refused(EXIT_USAGE);
      }
      var row := Row(locks, serial);
      if row.None? { return Refused(EXIT_CONFLICT); }
      var state := Describe(row, now);
      if row.value.fencing != observed { return Refused(EXIT_OWNERSHIP); }
      if state != STALE { return Refused(EXIT_CONFLICT); }
      locks := locks - {serial};
      Audit(serial, Broken(Strip(reason), row.value.holder, row.value.purpose, row.value.expiresAt), Strip(actor),
            observed, now);
      reply := Freed(observed, Iso(now));
    }

    /** The command line entry: one command, one transaction. */
    method Apply(c: Cmd) returns (reply: Reply)
      modifies this
      ensures (Contents(), reply) == Step(hash, old(Contents()), c)
    {
      match c
      case Acquire(serial, holder, purpose, task, ttl, now, secret) =>
        reply := AcquireLock(serial, holder, purpose, task, ttl, now, secret);
      case Renew(serial, token, fencing, ttl, now) => reply := RenewLock(serial, token, fencing, ttl, now);
      case Release(serial, token, fencing, now) => reply := ReleaseLock(serial, token, fencing, now);
      case BreakStale(serial, fencing, reason, actor, now) =>
        reply := BreakStaleLock(serial, fencing, reason, actor, now);
    }
  }
}
